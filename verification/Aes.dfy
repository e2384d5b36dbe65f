/** The block cipher as the program runs it: blocks are rewritten in place. */
module Aes {
  import opened Field
  import opened Blocks
  import Cipher

  function Xor4(p: bv8, q: bv8, r: bv8, s: bv8): bv8 {
    p ^ q ^ r ^ s
  }

  lemma XorOrder(p: bv8, q: bv8, r: bv8, s: bv8)
    ensures (p ^ q) ^ (r ^ s) == Xor4(p, q, r, s)
    ensures (p ^ q) ^ (r ^ s) == Xor4(s, p, q, r)
    ensures (p ^ q) ^ (r ^ s) == Xor4(r, s, p, q)
    ensures (p ^ q) ^ (r ^ s) == Xor4(q, r, s, p)
  {
  }

  /** The byte of a row as the exclusive or of its products, in any order. */
  lemma RowByte(c0: Element, c1: Element, c2: Element, c3: Element,
                x0: Element, x1: Element, x2: Element, x3: Element, p: bv8, q: bv8, r: bv8, s: bv8)
    requires Element(p) == Times(c0, x0) && Element(q) == Times(c1, x1)
    requires Element(r) == Times(c2, x2) && Element(s) == Times(c3, x3)
    ensures var b := Cipher.Row(c0, c1, c2, c3, x0, x1, x2, x3).byte;
      b == Xor4(p, q, r, s) && b == Xor4(s, p, q, r) && b == Xor4(r, s, p, q) && b == Xor4(q, r, s, p)
  {
    hide Times, Xor4;
    XorOrder(p, q, r, s);
  }

  method SubBytes(block: array<bv8>)
    requires block.Length == 16
    modifies block
    ensures block[..] == Cipher.SubBytes(old(block[..]))
  {
    hide Cipher.Sbox;
    var i := 0;
    while i < 16
      invariant 0 <= i <= 16
      invariant forall j :: 0 <= j < i ==> block[j] == Cipher.Sbox(old(block[..])[j])
      invariant forall j :: i <= j < 16 ==> block[j] == old(block[..])[j]
    {
      block[i] := Cipher.Sbox(block[i]);
      i := i + 1;
    }
  }

  method InvSubBytes(block: array<bv8>)
    requires block.Length == 16
    modifies block
    ensures block[..] == Cipher.InvSubBytes(old(block[..]))
  {
    hide Cipher.InvSbox;
    var i := 0;
    while i < 16
      invariant 0 <= i <= 16
      invariant forall j :: 0 <= j < i ==> block[j] == Cipher.InvSbox(old(block[..])[j])
      invariant forall j :: i <= j < 16 ==> block[j] == old(block[..])[j]
    {
      block[i] := Cipher.InvSbox(block[i]);
      i := i + 1;
    }
  }

  /** Moving the rows of a block, one row after the other. */
  lemma Shifted(b: Block)
    ensures Cipher.ShiftRows(b)
         == b[1 := b[5]][5 := b[9]][9 := b[13]][13 := b[1]]
             [2 := b[10]][10 := b[2]][6 := b[14]][14 := b[6]]
             [3 := b[15]][15 := b[11]][11 := b[7]][7 := b[3]]
  {
  }

  lemma InvShifted(b: Block)
    ensures Cipher.InvShiftRows(b)
         == b[7 := b[11]][11 := b[15]][15 := b[3]][3 := b[7]]
             [2 := b[10]][10 := b[2]][6 := b[14]][14 := b[6]]
             [13 := b[9]][9 := b[5]][5 := b[1]][1 := b[13]]
  {
  }

  method ShiftRows(block: array<bv8>)
    requires block.Length == 16
    modifies block
    ensures block[..] == Cipher.ShiftRows(old(block[..]))
  {
    hide Cipher.ShiftRows;
    ghost var b := block[..];
    var tmp := block[1];
    block[1] := block[5];
    block[5] := block[9];
    block[9] := block[13];
    block[13] := tmp;
    ghost var c := b[1 := b[5]][5 := b[9]][9 := b[13]][13 := b[1]];
    assert block[..] == c;

    block[2], block[10] := block[10], block[2];
    block[6], block[14] := block[14], block[6];
    ghost var d := c[2 := b[10]][10 := b[2]][6 := b[14]][14 := b[6]];
    assert block[..] == d;

    tmp := block[3];
    block[3] := block[15];
    block[15] := block[11];
    block[11] := block[7];
    block[7] := tmp;
    assert block[..] == d[3 := b[15]][15 := b[11]][11 := b[7]][7 := b[3]];
    Shifted(b);
  }

  method InvShiftRows(block: array<bv8>)
    requires block.Length == 16
    modifies block
    ensures block[..] == Cipher.InvShiftRows(old(block[..]))
  {
    hide Cipher.InvShiftRows;
    ghost var b := block[..];
    var tmp := block[7];
    block[7] := block[11];
    block[11] := block[15];
    block[15] := block[3];
    block[3] := tmp;
    ghost var c := b[7 := b[11]][11 := b[15]][15 := b[3]][3 := b[7]];
    assert block[..] == c;

    block[2], block[10] := block[10], block[2];
    block[6], block[14] := block[14], block[6];
    ghost var d := c[2 := b[10]][10 := b[2]][6 := b[14]][14 := b[6]];
    assert block[..] == d;

    tmp := block[13];
    block[13] := block[9];
    block[9] := block[5];
    block[5] := block[1];
    block[1] := tmp;
    assert block[..] == d[13 := b[9]][9 := b[5]][5 := b[1]][1 := b[13]];
    InvShifted(b);
  }

  lemma BelowColumn(b: Block, i: nat, r: nat, n: nat)
    requires i < 4 && r < 4 && n < 4
    ensures Cipher.Below(b, 4 * i + r, n) == Element(b[4 * i + Cipher.Round(r + n)])
  {
    assert (4 * i + r) / 4 == i && (4 * i + r) % 4 == r;
  }

  /** A mixed byte, from the bytes of its column that start at its row. */
  lemma MixedByte(b: Block, i: nat, r: nat)
    requires i < 4 && r < 4
    ensures var x0, x1 := b[4 * i + r], b[4 * i + Cipher.Round(r + 1)];
      var x2, x3 := b[4 * i + Cipher.Round(r + 2)], b[4 * i + Cipher.Round(r + 3)];
      && Cipher.MixColumns(b)[4 * i + r] == Xor4(Mul2(x0), Mul3(x1), x2, x3)
      && Cipher.MixColumns(b)[4 * i + r] == Xor4(x3, Mul2(x0), Mul3(x1), x2)
      && Cipher.MixColumns(b)[4 * i + r] == Xor4(x2, x3, Mul2(x0), Mul3(x1))
      && Cipher.MixColumns(b)[4 * i + r] == Xor4(Mul3(x1), x2, x3, Mul2(x0))
  {
    hide Times, Xor4, Cipher.Row, Cipher.Below, Mul2, Mul3;
    var x0, x1 := b[4 * i + r], b[4 * i + Cipher.Round(r + 1)];
    var x2, x3 := b[4 * i + Cipher.Round(r + 2)], b[4 * i + Cipher.Round(r + 3)];
    BelowColumn(b, i, r, 0);
    BelowColumn(b, i, r, 1);
    BelowColumn(b, i, r, 2);
    BelowColumn(b, i, r, 3);
    Product2(x0);
    Product3(x1);
    One(Element(x2));
    One(Element(x3));
    RowByte(Element(2), Element(3), Element(1), Element(1), Element(x0), Element(x1), Element(x2), Element(x3),
            Mul2(x0), Mul3(x1), x2, x3);
  }

  /** An unmixed byte, from the bytes of its column that start at its row. */
  lemma InvMixedByte(b: Block, i: nat, r: nat)
    requires i < 4 && r < 4
    ensures var x0, x1 := b[4 * i + r], b[4 * i + Cipher.Round(r + 1)];
      var x2, x3 := b[4 * i + Cipher.Round(r + 2)], b[4 * i + Cipher.Round(r + 3)];
      && Cipher.InvMixColumns(b)[4 * i + r] == Xor4(Mul14(x0), Mul11(x1), Mul13(x2), Mul9(x3))
      && Cipher.InvMixColumns(b)[4 * i + r] == Xor4(Mul9(x3), Mul14(x0), Mul11(x1), Mul13(x2))
      && Cipher.InvMixColumns(b)[4 * i + r] == Xor4(Mul13(x2), Mul9(x3), Mul14(x0), Mul11(x1))
      && Cipher.InvMixColumns(b)[4 * i + r] == Xor4(Mul11(x1), Mul13(x2), Mul9(x3), Mul14(x0))
  {
    hide Times, Xor4, Cipher.Row, Cipher.Below, Mul14, Mul11, Mul13, Mul9;
    var x0, x1 := b[4 * i + r], b[4 * i + Cipher.Round(r + 1)];
    var x2, x3 := b[4 * i + Cipher.Round(r + 2)], b[4 * i + Cipher.Round(r + 3)];
    BelowColumn(b, i, r, 0);
    BelowColumn(b, i, r, 1);
    BelowColumn(b, i, r, 2);
    BelowColumn(b, i, r, 3);
    Product14(x0);
    Product11(x1);
    Product13(x2);
    Product9(x3);
    RowByte(Element(14), Element(11), Element(13), Element(9), Element(x0), Element(x1), Element(x2), Element(x3),
            Mul14(x0), Mul11(x1), Mul13(x2), Mul9(x3));
  }

  /** The bytes of a mixed column, as the program computes them. */
  lemma MixedColumn(b: Block, i: nat)
    requires i < 4
    ensures var x0, x1, x2, x3 := b[4 * i], b[4 * i + 1], b[4 * i + 2], b[4 * i + 3];
      && Cipher.MixColumns(b)[4 * i] == Xor4(Mul2(x0), Mul3(x1), x2, x3)
      && Cipher.MixColumns(b)[4 * i + 1] == Xor4(x0, Mul2(x1), Mul3(x2), x3)
      && Cipher.MixColumns(b)[4 * i + 2] == Xor4(x0, x1, Mul2(x2), Mul3(x3))
      && Cipher.MixColumns(b)[4 * i + 3] == Xor4(Mul3(x0), x1, x2, Mul2(x3))
  {
    hide Xor4, Mul2, Mul3, Cipher.MixColumns;
    MixedByte(b, i, 0);
    MixedByte(b, i, 1);
    MixedByte(b, i, 2);
    MixedByte(b, i, 3);
  }

  method MixColumns(block: array<bv8>)
    requires block.Length == 16
    modifies block
    ensures block[..] == Cipher.MixColumns(old(block[..]))
  {
    hide Xor4, Mul2, Mul3, Cipher.MixColumns;
    ghost var b: Block := block[..];
    ghost var m := Cipher.MixColumns(b);
    var i := 0;
    while i < 4
      invariant 0 <= i <= 4
      invariant forall j :: 0 <= j < 4 * i ==> block[j] == m[j]
      invariant forall j :: 4 * i <= j < 16 ==> block[j] == b[j]
    {
      var x0 := block[4 * i];
      var x1 := block[4 * i + 1];
      var x2 := block[4 * i + 2];
      var x3 := block[4 * i + 3];
      MixedColumn(b, i);
      block[4 * i] := Xor4(Mul2(x0), Mul3(x1), x2, x3);
      block[4 * i + 1] := Xor4(x0, Mul2(x1), Mul3(x2), x3);
      block[4 * i + 2] := Xor4(x0, x1, Mul2(x2), Mul3(x3));
      block[4 * i + 3] := Xor4(Mul3(x0), x1, x2, Mul2(x3));
      i := i + 1;
    }
  }

  /** The bytes of an unmixed column, as the program computes them. */
  lemma InvMixedColumn(b: Block, i: nat)
    requires i < 4
    ensures var x0, x1, x2, x3 := b[4 * i], b[4 * i + 1], b[4 * i + 2], b[4 * i + 3];
      && Cipher.InvMixColumns(b)[4 * i] == Xor4(Mul14(x0), Mul11(x1), Mul13(x2), Mul9(x3))
      && Cipher.InvMixColumns(b)[4 * i + 1] == Xor4(Mul9(x0), Mul14(x1), Mul11(x2), Mul13(x3))
      && Cipher.InvMixColumns(b)[4 * i + 2] == Xor4(Mul13(x0), Mul9(x1), Mul14(x2), Mul11(x3))
      && Cipher.InvMixColumns(b)[4 * i + 3] == Xor4(Mul11(x0), Mul13(x1), Mul9(x2), Mul14(x3))
  {
    hide Xor4, Mul14, Mul11, Mul13, Mul9, Cipher.InvMixColumns;
    InvMixedByte(b, i, 0);
    InvMixedByte(b, i, 1);
    InvMixedByte(b, i, 2);
    InvMixedByte(b, i, 3);
  }

  method InvMixColumns(block: array<bv8>)
    requires block.Length == 16
    modifies block
    ensures block[..] == Cipher.InvMixColumns(old(block[..]))
  {
    hide Xor4, Mul14, Mul11, Mul13, Mul9, Cipher.InvMixColumns;
    ghost var b: Block := block[..];
    ghost var m := Cipher.InvMixColumns(b);
    var i := 0;
    while i < 4
      invariant 0 <= i <= 4
      invariant forall j :: 0 <= j < 4 * i ==> block[j] == m[j]
      invariant forall j :: 4 * i <= j < 16 ==> block[j] == b[j]
    {
      var x0 := block[4 * i];
      var x1 := block[4 * i + 1];
      var x2 := block[4 * i + 2];
      var x3 := block[4 * i + 3];
      InvMixedColumn(b, i);
      block[4 * i] := Xor4(Mul14(x0), Mul11(x1), Mul13(x2), Mul9(x3));
      block[4 * i + 1] := Xor4(Mul9(x0), Mul14(x1), Mul11(x2), Mul13(x3));
      block[4 * i + 2] := Xor4(Mul13(x0), Mul9(x1), Mul14(x2), Mul11(x3));
      block[4 * i + 3] := Xor4(Mul11(x0), Mul13(x1), Mul9(x2), Mul14(x3));
      i := i + 1;
    }
  }

  method AddRoundKey(block: array<bv8>, key: Block)
    requires block.Length == 16
    modifies block
    ensures block[..] == Xor(old(block[..]), key)
  {
    XorBlock(block, key);
  }

  method EncryptRound(block: array<bv8>, key: Block)
    requires block.Length == 16
    modifies block
    ensures block[..] == Xor(Cipher.MixColumns(Cipher.ShiftRows(Cipher.SubBytes(old(block[..])))), key)
  {
    hide *;
    SubBytes(block);
    ShiftRows(block);
    MixColumns(block);
    AddRoundKey(block, key);
  }

  method DecryptRound(block: array<bv8>, key: Block)
    requires block.Length == 16
    modifies block
    ensures block[..] == Xor(Cipher.InvMixColumns(Cipher.InvSubBytes(Cipher.InvShiftRows(old(block[..])))), key)
  {
    hide *;
    InvShiftRows(block);
    InvSubBytes(block);
    InvMixColumns(block);
    AddRoundKey(block, key);
  }

  method EncryptLast(block: array<bv8>, key: Block)
    requires block.Length == 16
    modifies block
    ensures block[..] == Xor(Cipher.ShiftRows(Cipher.SubBytes(old(block[..]))), key)
  {
    hide *;
    SubBytes(block);
    ShiftRows(block);
    AddRoundKey(block, key);
  }

  method DecryptLast(block: array<bv8>, key: Block)
    requires block.Length == 16
    modifies block
    ensures block[..] == Xor(Cipher.InvSubBytes(Cipher.InvShiftRows(old(block[..]))), key)
  {
    hide *;
    InvShiftRows(block);
    InvSubBytes(block);
    AddRoundKey(block, key);
  }
}
