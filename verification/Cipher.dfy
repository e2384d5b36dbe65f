/** The block cipher of FIPS 197 with 256-bit keys, as functions of blocks. */
module Cipher {
  import opened Field
  import opened Blocks

  type RoundKeys = k: seq<Block> | |k| == 15 witness seq(15, _ => ZeroBlock())

  /** The byte of a row of a table. */
  function Column(row: bv128, x: bv8): bv8 {
    ((row >> (120 - 8 * (x & 0xf))) & 0xff) as bv8
  }

  /** The substitution box, one row of 16 bytes per high digit. */
  function Sbox(x: bv8): bv8 {
    var row: bv128 :=
      if x < 0x10 then 0x637c777b_f26b6fc5_3001672b_fed7ab76
      else if x < 0x20 then 0xca82c97d_fa5947f0_add4a2af_9ca472c0
      else if x < 0x30 then 0xb7fd9326_363ff7cc_34a5e5f1_71d83115
      else if x < 0x40 then 0x04c723c3_1896059a_071280e2_eb27b275
      else if x < 0x50 then 0x09832c1a_1b6e5aa0_523bd6b3_29e32f84
      else if x < 0x60 then 0x53d100ed_20fcb15b_6acbbe39_4a4c58cf
      else if x < 0x70 then 0xd0efaafb_434d3385_45f9027f_503c9fa8
      else if x < 0x80 then 0x51a3408f_929d38f5_bcb6da21_10fff3d2
      else if x < 0x90 then 0xcd0c13ec_5f974417_c4a77e3d_645d1973
      else if x < 0xa0 then 0x60814fdc_222a9088_46eeb814_de5e0bdb
      else if x < 0xb0 then 0xe0323a0a_4906245c_c2d3ac62_9195e479
      else if x < 0xc0 then 0xe7c8376d_8dd54ea9_6c56f4ea_657aae08
      else if x < 0xd0 then 0xba78252e_1ca6b4c6_e8dd741f_4bbd8b8a
      else if x < 0xe0 then 0x703eb566_4803f60e_613557b9_86c11d9e
      else if x < 0xf0 then 0xe1f89811_69d98e94_9b1e87e9_ce5528df
      else 0x8ca1890d_bfe64268_41992d0f_b054bb16;
    Column(row, x)
  }

  /** The table of the inverse substitution box. */
  function InvSbox(x: bv8): bv8 {
    var row: bv128 :=
      if x < 0x10 then 0x52096ad5_3036a538_bf40a39e_81f3d7fb
      else if x < 0x20 then 0x7ce33982_9b2fff87_348e4344_c4dee9cb
      else if x < 0x30 then 0x547b9432_a6c2233d_ee4c950b_42fac34e
      else if x < 0x40 then 0x082ea166_28d924b2_765ba249_6d8bd125
      else if x < 0x50 then 0x72f8f664_86689816_d4a45ccc_5d65b692
      else if x < 0x60 then 0x6c704850_fdedb9da_5e154657_a78d9d84
      else if x < 0x70 then 0x90d8ab00_8cbcd30a_f7e45805_b8b34506
      else if x < 0x80 then 0xd02c1e8f_ca3f0f02_c1afbd03_01138a6b
      else if x < 0x90 then 0x3a911141_4f67dcea_97f2cfce_f0b4e673
      else if x < 0xa0 then 0x96ac7422_e7ad3585_e2f937e8_1c75df6e
      else if x < 0xb0 then 0x47f11a71_1d29c589_6fb7620e_aa18be1b
      else if x < 0xc0 then 0xfc563e4b_c6d27920_9adbc0fe_78cd5af4
      else if x < 0xd0 then 0x1fdda833_8807c731_b1121059_2780ec5f
      else if x < 0xe0 then 0x60517fa9_19b54a0d_2de57a9f_93c99cef
      else if x < 0xf0 then 0xa0e03b4d_ae2af5b0_c8ebbb3c_83539961
      else 0x172b047e_ba77d626_e1691463_55210c7d;
    Column(row, x)
  }

  /** The two tables undo each other. */
  lemma SboxInverse(x: bv8)
    ensures InvSbox(Sbox(x)) == x
  {
  }

  lemma InvSboxInverse(x: bv8)
    ensures Sbox(InvSbox(x)) == x
  {
  }

  // The steps of a round, on the bytes of a block by columns: the byte at 4 * column + row.

  function SubBytes(b: Block): Block {
    seq(16, i requires 0 <= i < 16 => Sbox(b[i]))
  }

  function InvSubBytes(b: Block): Block {
    seq(16, i requires 0 <= i < 16 => InvSbox(b[i]))
  }

  /** Four columns, or four rows, go round. */
  function Round(k: nat): (r: nat)
    requires k < 8
    ensures r < 4
  {
    if k < 4 then k else k - 4
  }

  /** The place in its row from which a byte comes when the row moves by its number. */
  function Left(i: nat): (j: nat)
    requires i < 16
    ensures j < 16
  {
    4 * Round(i / 4 + i % 4) + i % 4
  }

  function Right(i: nat): (j: nat)
    requires i < 16
    ensures j < 16
  {
    4 * Round(i / 4 + 4 - i % 4) + i % 4
  }

  /** Each row moves to the left by its number. */
  function ShiftRows(b: Block): Block {
    seq(16, i requires 0 <= i < 16 => b[Left(i)])
  }

  /** Each row moves to the right by its number. */
  function InvShiftRows(b: Block): Block {
    seq(16, i requires 0 <= i < 16 => b[Right(i)])
  }

  /** The byte of the same column a number of rows below, going round. */
  function Below(b: Block, i: nat, n: nat): Element
    requires i < 16 && n < 4
  {
    Element(b[4 * (i / 4) + Round(i % 4 + n)])
  }

  function Row(c0: Element, c1: Element, c2: Element, c3: Element,
               x0: Element, x1: Element, x2: Element, x3: Element): Element {
    Add4(Times(c0, x0), Times(c1, x1), Times(c2, x2), Times(c3, x3))
  }

  /** A byte of the product of a column by a polynomial with four coefficients. */
  function Mixed(b: Block, i: nat, c0: Element, c1: Element, c2: Element, c3: Element): Element
    requires i < 16
  {
    Row(c0, c1, c2, c3, Below(b, i, 0), Below(b, i, 1), Below(b, i, 2), Below(b, i, 3))
  }

  function MixColumns(b: Block): Block {
    seq(16, i requires 0 <= i < 16 => Mixed(b, i, Element(2), Element(3), Element(1), Element(1)).byte)
  }

  function InvMixColumns(b: Block): Block {
    seq(16, i requires 0 <= i < 16 => Mixed(b, i, Element(14), Element(11), Element(13), Element(9)).byte)
  }

  // The ciphers.

  /** The state after a number of rounds, all but the last one. */
  function Rounds(keys: RoundKeys, b: Block, n: nat): Block
    requires n <= 13
  {
    if n == 0 then Xor(b, keys[0])
    else Xor(MixColumns(ShiftRows(SubBytes(Rounds(keys, b, n - 1)))), keys[n])
  }

  function Encrypt(keys: RoundKeys, b: Block): Block {
    Xor(ShiftRows(SubBytes(Rounds(keys, b, 13))), keys[14])
  }

  /** The inverse cipher of section 5.3, which undoes the steps of the cipher in the reverse order. */
  function InvRounds(keys: RoundKeys, b: Block, n: nat): Block
    requires n <= 13
  {
    if n == 0 then Xor(b, keys[14])
    else InvMixColumns(Xor(InvSubBytes(InvShiftRows(InvRounds(keys, b, n - 1))), keys[14 - n]))
  }

  function InvCipher(keys: RoundKeys, b: Block): Block {
    Xor(InvSubBytes(InvShiftRows(InvRounds(keys, b, 13))), keys[0])
  }

  /** The keys of the equivalent inverse cipher of section 5.3.5. */
  function DecryptionKeys(keys: RoundKeys): RoundKeys {
    seq(15, i requires 0 <= i < 15 => if 1 <= i < 14 then InvMixColumns(keys[14 - i]) else keys[14 - i])
  }

  /** The state of the equivalent inverse cipher, whose rounds have the shape of those of the cipher. */
  function EqRounds(keys: RoundKeys, b: Block, n: nat): Block
    requires n <= 13
  {
    if n == 0 then Xor(b, keys[0])
    else Xor(InvMixColumns(InvSubBytes(InvShiftRows(EqRounds(keys, b, n - 1)))), keys[n])
  }

  function Decrypt(keys: RoundKeys, b: Block): Block {
    Xor(InvSubBytes(InvShiftRows(EqRounds(keys, b, 13))), keys[14])
  }

  // The steps undo each other.

  lemma LeftAt(c: nat, r: nat)
    requires c < 4 && r < 4
    ensures Left(4 * c + r) == 4 * Round(c + r) + r && Right(4 * c + r) == 4 * Round(c + 4 - r) + r
  {
    assert (4 * c + r) / 4 == c && (4 * c + r) % 4 == r;
  }

  lemma LeftRight(i: nat)
    requires i < 16
    ensures Left(Right(i)) == i && Right(Left(i)) == i
  {
    hide Left, Right;
    var c, r := i / 4, i % 4;
    LeftAt(c, r);
    LeftAt(Round(c + r), r);
    LeftAt(Round(c + 4 - r), r);
  }

  lemma ShiftInverse(b: Block)
    ensures InvShiftRows(ShiftRows(b)) == b && ShiftRows(InvShiftRows(b)) == b
  {
    hide Left, Right;
    forall i | 0 <= i < 16
      ensures InvShiftRows(ShiftRows(b))[i] == b[i] && ShiftRows(InvShiftRows(b))[i] == b[i]
    {
      LeftRight(i);
    }
  }

  lemma SubInverse(b: Block)
    ensures InvSubBytes(SubBytes(b)) == b && SubBytes(InvSubBytes(b)) == b
  {
    hide Sbox, InvSbox;
    forall i | 0 <= i < 16
      ensures InvSubBytes(SubBytes(b))[i] == b[i] && SubBytes(InvSubBytes(b))[i] == b[i]
    {
      SboxInverse(b[i]);
      InvSboxInverse(b[i]);
    }
  }

  /** A sum of products in which all coefficients but the first one vanish. */
  lemma UnitSum(a0: Element, a1: Element, a2: Element, a3: Element, b0: Element, b1: Element, b2: Element, b3: Element,
                c0: Element, c1: Element, c2: Element, c3: Element, d0: Element, d1: Element, d2: Element, d3: Element,
                x0: Element, x1: Element, x2: Element, x3: Element)
    requires Add4(a0, b0, c0, d0) == Element(1) && Add4(a1, b1, c1, d1) == Element(0)
    requires Add4(a2, b2, c2, d2) == Element(0) && Add4(a3, b3, c3, d3) == Element(0)
    ensures Add4(Row(a0, a1, a2, a3, x0, x1, x2, x3), Row(b0, b1, b2, b3, x0, x1, x2, x3),
                 Row(c0, c1, c2, c3, x0, x1, x2, x3), Row(d0, d1, d2, d3, x0, x1, x2, x3)) == x0
  {
    hide Add, Add4, Times;
    Gather(a0, b0, c0, d0, x0);
    Gather(a1, b1, c1, d1, x1);
    Gather(a2, b2, c2, d2, x2);
    Gather(a3, b3, c3, d3, x3);
    One(x0);
    Zero(x1);
    Zero(x2);
    Zero(x3);
    AddZeros(x0);
    Transpose(Times(a0, x0), Times(a1, x1), Times(a2, x2), Times(a3, x3),
              Times(b0, x0), Times(b1, x1), Times(b2, x2), Times(b3, x3),
              Times(c0, x0), Times(c1, x1), Times(c2, x2), Times(c3, x3),
              Times(d0, x0), Times(d1, x1), Times(d2, x2), Times(d3, x3));
  }

  lemma Single(c: Element, x: Element)
    ensures Times(c, Times(Element(1), x)) == Times(c, x) && Times(Element(1), Times(c, x)) == Times(c, x)
  {
    hide Add, Times;
    One(x);
    One(Times(c, x));
  }

  /** Doubling in either order. */
  lemma Twice(c: bv8, e: bv8, x: Element)
    ensures e == c << 1 && c < 128 ==>
      Times(Element(c), Times(Element(2), x)) == Times(Element(e), x) == Times(Element(2), Times(Element(c), x))
  {
    hide Add, Xtime, Times;
    One(x);
    One(Times(Element(c), x));
    Even(2, 1, x);
    Even(2, 1, Times(Element(c), x));
    TimesXtime(Element(c), x);
    Even(e, c, x);
  }

  /** Tripling in either order. */
  lemma Thrice(c: bv8, d: bv8, e: bv8, x: Element)
    ensures d == c << 1 && e == d ^ c && c < 128 ==>
      Times(Element(c), Times(Element(3), x)) == Times(Element(e), x) == Times(Element(3), Times(Element(c), x))
  {
    assert e == d ^ c ==> Element(e) == Add(Element(d), Element(c));
    hide Add, Xtime, Times;
    One(x);
    One(Times(Element(c), x));
    Odd(3, 1, x);
    Odd(3, 1, Times(Element(c), x));
    TimesLinear(Element(c), Xtime(x), x);
    TimesXtime(Element(c), x);
    Even(d, c, x);
    TimesSum(Element(d), Element(c), x);
  }

  /** The products of the coefficients of the two polynomials that mix columns. */
  lemma Coefficients(x: Element)
    ensures Times(Element(14), Times(Element(1), x)) == Times(Element(14), x)
            && Times(Element(1), Times(Element(14), x)) == Times(Element(14), x)
    ensures Times(Element(14), Times(Element(2), x)) == Times(Element(28), x)
            && Times(Element(2), Times(Element(14), x)) == Times(Element(28), x)
    ensures Times(Element(14), Times(Element(3), x)) == Times(Element(18), x)
            && Times(Element(3), Times(Element(14), x)) == Times(Element(18), x)
    ensures Times(Element(11), Times(Element(1), x)) == Times(Element(11), x)
            && Times(Element(1), Times(Element(11), x)) == Times(Element(11), x)
    ensures Times(Element(11), Times(Element(2), x)) == Times(Element(22), x)
            && Times(Element(2), Times(Element(11), x)) == Times(Element(22), x)
    ensures Times(Element(11), Times(Element(3), x)) == Times(Element(29), x)
            && Times(Element(3), Times(Element(11), x)) == Times(Element(29), x)
    ensures Times(Element(13), Times(Element(1), x)) == Times(Element(13), x)
            && Times(Element(1), Times(Element(13), x)) == Times(Element(13), x)
    ensures Times(Element(13), Times(Element(2), x)) == Times(Element(26), x)
            && Times(Element(2), Times(Element(13), x)) == Times(Element(26), x)
    ensures Times(Element(13), Times(Element(3), x)) == Times(Element(23), x)
            && Times(Element(3), Times(Element(13), x)) == Times(Element(23), x)
    ensures Times(Element(9), Times(Element(1), x)) == Times(Element(9), x)
            && Times(Element(1), Times(Element(9), x)) == Times(Element(9), x)
    ensures Times(Element(9), Times(Element(2), x)) == Times(Element(18), x)
            && Times(Element(2), Times(Element(9), x)) == Times(Element(18), x)
    ensures Times(Element(9), Times(Element(3), x)) == Times(Element(27), x)
            && Times(Element(3), Times(Element(9), x)) == Times(Element(27), x)
  {
    hide Add, Times;
    Single(Element(14), x);
    Twice(14, 28, x);
    Thrice(14, 28, 18, x);
    Single(Element(11), x);
    Twice(11, 22, x);
    Thrice(11, 22, 29, x);
    Single(Element(13), x);
    Twice(13, 26, x);
    Thrice(13, 26, 23, x);
    Single(Element(9), x);
    Twice(9, 18, x);
    Thrice(9, 18, 27, x);
  }

  /** A multiple of a mixed byte, from any of its terms. */
  lemma Distribute(c: Element, a0: Element, a1: Element, a2: Element, a3: Element,
                   p0: Element, p1: Element, p2: Element, p3: Element,
                   x0: Element, x1: Element, x2: Element, x3: Element)
    requires Times(c, Times(a0, x0)) == Times(p0, x0) && Times(c, Times(a1, x1)) == Times(p1, x1)
    requires Times(c, Times(a2, x2)) == Times(p2, x2) && Times(c, Times(a3, x3)) == Times(p3, x3)
    ensures Times(c, Row(a0, a1, a2, a3, x0, x1, x2, x3)) == Row(p0, p1, p2, p3, x0, x1, x2, x3)
    ensures Row(p0, p1, p2, p3, x0, x1, x2, x3) == Row(p1, p2, p3, p0, x1, x2, x3, x0)
    ensures Row(p0, p1, p2, p3, x0, x1, x2, x3) == Row(p2, p3, p0, p1, x2, x3, x0, x1)
    ensures Row(p0, p1, p2, p3, x0, x1, x2, x3) == Row(p3, p0, p1, p2, x3, x0, x1, x2)
  {
    hide Add, Add4, Times;
    TimesFour(c, Times(a0, x0), Times(a1, x1), Times(a2, x2), Times(a3, x3));
    Rotate(Times(p0, x0), Times(p1, x1), Times(p2, x2), Times(p3, x3));
  }

  /** The coefficients of each product add up to one, or to zero. */
  lemma UnitSums()
    ensures Add4(Element(28), Element(11), Element(13), Element(27)) == Element(1)
    ensures Add4(Element(18), Element(22), Element(13), Element(9)) == Element(0)
    ensures Add4(Element(14), Element(29), Element(26), Element(9)) == Element(0)
    ensures Add4(Element(14), Element(11), Element(23), Element(18)) == Element(0)
    ensures Add4(Element(28), Element(27), Element(13), Element(11)) == Element(1)
    ensures Add4(Element(22), Element(18), Element(9), Element(13)) == Element(0)
    ensures Add4(Element(26), Element(29), Element(14), Element(9)) == Element(0)
    ensures Add4(Element(18), Element(23), Element(11), Element(14)) == Element(0)
  {
  }

  /** The polynomial that unmixes columns undoes the one that mixes them. */
  lemma InvMixBytes(x0: Element, x1: Element, x2: Element, x3: Element)
    ensures Row(Element(14), Element(11), Element(13), Element(9),
                Row(Element(2), Element(3), Element(1), Element(1), x0, x1, x2, x3),
                Row(Element(2), Element(3), Element(1), Element(1), x1, x2, x3, x0),
                Row(Element(2), Element(3), Element(1), Element(1), x2, x3, x0, x1),
                Row(Element(2), Element(3), Element(1), Element(1), x3, x0, x1, x2)) == x0
  {
    UnitSums();
    hide Add, Add4, Times;
    Coefficients(x0);
    Coefficients(x1);
    Coefficients(x2);
    Coefficients(x3);
    Distribute(Element(14), Element(2), Element(3), Element(1), Element(1),
               Element(28), Element(18), Element(14), Element(14), x0, x1, x2, x3);
    Distribute(Element(11), Element(2), Element(3), Element(1), Element(1),
               Element(22), Element(29), Element(11), Element(11), x1, x2, x3, x0);
    Distribute(Element(13), Element(2), Element(3), Element(1), Element(1),
               Element(26), Element(23), Element(13), Element(13), x2, x3, x0, x1);
    Distribute(Element(9), Element(2), Element(3), Element(1), Element(1),
               Element(18), Element(27), Element(9), Element(9), x3, x0, x1, x2);
    UnitSum(Element(28), Element(18), Element(14), Element(14),
            Element(11), Element(22), Element(29), Element(11),
            Element(13), Element(13), Element(26), Element(23),
            Element(27), Element(9), Element(9), Element(18), x0, x1, x2, x3);
  }

  /** And the other way round. */
  lemma MixBytes(x0: Element, x1: Element, x2: Element, x3: Element)
    ensures Row(Element(2), Element(3), Element(1), Element(1),
                Row(Element(14), Element(11), Element(13), Element(9), x0, x1, x2, x3),
                Row(Element(14), Element(11), Element(13), Element(9), x1, x2, x3, x0),
                Row(Element(14), Element(11), Element(13), Element(9), x2, x3, x0, x1),
                Row(Element(14), Element(11), Element(13), Element(9), x3, x0, x1, x2)) == x0
  {
    UnitSums();
    hide Add, Add4, Times;
    Coefficients(x0);
    Coefficients(x1);
    Coefficients(x2);
    Coefficients(x3);
    Distribute(Element(2), Element(14), Element(11), Element(13), Element(9),
               Element(28), Element(22), Element(26), Element(18), x0, x1, x2, x3);
    Distribute(Element(3), Element(14), Element(11), Element(13), Element(9),
               Element(18), Element(29), Element(23), Element(27), x1, x2, x3, x0);
    Distribute(Element(1), Element(14), Element(11), Element(13), Element(9),
               Element(14), Element(11), Element(13), Element(9), x2, x3, x0, x1);
    Distribute(Element(1), Element(14), Element(11), Element(13), Element(9),
               Element(14), Element(11), Element(13), Element(9), x3, x0, x1, x2);
    UnitSum(Element(28), Element(22), Element(26), Element(18),
            Element(27), Element(18), Element(29), Element(23),
            Element(13), Element(9), Element(14), Element(11),
            Element(11), Element(13), Element(9), Element(14), x0, x1, x2, x3);
  }

  lemma BelowMixed(b: Block, i: nat, n: nat, c0: Element, c1: Element, c2: Element, c3: Element, m: Block)
    requires i < 16 && n < 4
    requires m == seq(16, j requires 0 <= j < 16 => Mixed(b, j, c0, c1, c2, c3).byte)
    ensures Below(m, i, n)
         == Row(c0, c1, c2, c3, Below(b, i, n), Below(b, i, Round(n + 1)), Below(b, i, Round(n + 2)),
                Below(b, i, Round(n + 3)))
  {
    BelowAt(m, i, n);
    BelowBelow(b, i, n, 0);
    BelowBelow(b, i, n, 1);
    BelowBelow(b, i, n, 2);
    BelowBelow(b, i, n, 3);
    hide Row, Below;
  }

  lemma BelowAt(m: Block, i: nat, n: nat)
    requires i < 16 && n < 4
    ensures var j := 4 * (i / 4) + Round(i % 4 + n); j < 16 && Below(m, i, n) == Element(m[j])
  {
  }

  /** The bytes of a mixed column. */
  lemma MixedColumn(b: Block, i: nat, c0: Element, c1: Element, c2: Element, c3: Element, m: Block)
    requires i < 16
    requires m == seq(16, j requires 0 <= j < 16 => Mixed(b, j, c0, c1, c2, c3).byte)
    ensures var x0, x1, x2, x3 := Below(b, i, 0), Below(b, i, 1), Below(b, i, 2), Below(b, i, 3);
      && Below(m, i, 0) == Row(c0, c1, c2, c3, x0, x1, x2, x3)
      && Below(m, i, 1) == Row(c0, c1, c2, c3, x1, x2, x3, x0)
      && Below(m, i, 2) == Row(c0, c1, c2, c3, x2, x3, x0, x1)
      && Below(m, i, 3) == Row(c0, c1, c2, c3, x3, x0, x1, x2)
  {
    hide Row, Below;
    BelowMixed(b, i, 0, c0, c1, c2, c3, m);
    BelowMixed(b, i, 1, c0, c1, c2, c3, m);
    BelowMixed(b, i, 2, c0, c1, c2, c3, m);
    BelowMixed(b, i, 3, c0, c1, c2, c3, m);
  }

  lemma BelowBelow(b: Block, i: nat, n: nat, k: nat)
    requires i < 16 && n < 4 && k < 4
    ensures var j := 4 * (i / 4) + Round(i % 4 + n); j < 16 && Below(b, j, k) == Below(b, i, Round(n + k))
  {
    var c, r := i / 4, Round(i % 4 + n);
    assert (4 * c + r) / 4 == c && (4 * c + r) % 4 == r;
  }

  lemma MixInverse(b: Block)
    ensures InvMixColumns(MixColumns(b)) == b && MixColumns(InvMixColumns(b)) == b
  {
    hide Mixed;
    forall i | 0 <= i < 16
      ensures InvMixColumns(MixColumns(b))[i] == b[i] && MixColumns(InvMixColumns(b))[i] == b[i]
    {
      InvMixByte(b, i);
      MixByte(b, i);
      BelowAt(b, i, 0);
    }
  }

  lemma InvMixByte(b: Block, i: nat)
    requires i < 16
    ensures Mixed(MixColumns(b), i, Element(14), Element(11), Element(13), Element(9)) == Below(b, i, 0)
  {
    hide Row, Below;
    MixedColumn(b, i, Element(2), Element(3), Element(1), Element(1), MixColumns(b));
    InvMixBytes(Below(b, i, 0), Below(b, i, 1), Below(b, i, 2), Below(b, i, 3));
  }

  lemma MixByte(b: Block, i: nat)
    requires i < 16
    ensures Mixed(InvMixColumns(b), i, Element(2), Element(3), Element(1), Element(1)) == Below(b, i, 0)
  {
    hide Row, Below;
    MixedColumn(b, i, Element(14), Element(11), Element(13), Element(9), InvMixColumns(b));
    MixBytes(Below(b, i, 0), Below(b, i, 1), Below(b, i, 2), Below(b, i, 3));
  }

  lemma MixedAdd(a: Block, b: Block, i: nat)
    requires i < 16
    ensures Mixed(Xor(a, b), i, Element(14), Element(11), Element(13), Element(9))
         == Add(Mixed(a, i, Element(14), Element(11), Element(13), Element(9)),
                Mixed(b, i, Element(14), Element(11), Element(13), Element(9)))
  {
    hide Times, Add, Add4, Below;
    BelowAdd(a, b, i, 0);
    BelowAdd(a, b, i, 1);
    BelowAdd(a, b, i, 2);
    BelowAdd(a, b, i, 3);
    TimesLinear(Element(14), Below(a, i, 0), Below(b, i, 0));
    TimesLinear(Element(11), Below(a, i, 1), Below(b, i, 1));
    TimesLinear(Element(13), Below(a, i, 2), Below(b, i, 2));
    TimesLinear(Element(9), Below(a, i, 3), Below(b, i, 3));
    SwapFour(Times(Element(14), Below(a, i, 0)), Times(Element(11), Below(a, i, 1)),
             Times(Element(13), Below(a, i, 2)), Times(Element(9), Below(a, i, 3)),
             Times(Element(14), Below(b, i, 0)), Times(Element(11), Below(b, i, 1)),
             Times(Element(13), Below(b, i, 2)), Times(Element(9), Below(b, i, 3)));
  }

  lemma BelowAdd(a: Block, b: Block, i: nat, n: nat)
    requires i < 16 && n < 4
    ensures Below(Xor(a, b), i, n) == Add(Below(a, i, n), Below(b, i, n))
  {
  }

  /** Mixing columns backwards distributes over the addition of blocks. */
  lemma InvMixLinear(a: Block, b: Block)
    ensures InvMixColumns(Xor(a, b)) == Xor(InvMixColumns(a), InvMixColumns(b))
  {
    hide Mixed;
    forall i | 0 <= i < 16
      ensures InvMixColumns(Xor(a, b))[i] == Xor(InvMixColumns(a), InvMixColumns(b))[i]
    {
      MixedAdd(a, b, i);
    }
  }

  // The ciphers undo each other.

  /** The equivalent inverse cipher computes the inverse cipher. */
  lemma {:induction false} RoundsEquivalent(keys: RoundKeys, b: Block, n: nat)
    requires n <= 13
    ensures EqRounds(DecryptionKeys(keys), b, n) == InvRounds(keys, b, n)
  {
    hide InvMixColumns, InvSubBytes, InvShiftRows, Xor;
    if n > 0 {
      RoundsEquivalent(keys, b, n - 1);
      InvMixLinear(InvSubBytes(InvShiftRows(InvRounds(keys, b, n - 1))), keys[14 - n]);
    }
  }

  lemma DecryptIsInvCipher(keys: RoundKeys, b: Block)
    ensures Decrypt(DecryptionKeys(keys), b) == InvCipher(keys, b)
  {
    RoundsEquivalent(keys, b, 13);
  }

  lemma {:induction false} RoundsUndone(keys: RoundKeys, b: Block, n: nat)
    requires n <= 13
    ensures InvRounds(keys, Encrypt(keys, b), n) == ShiftRows(SubBytes(Rounds(keys, b, 13 - n)))
  {
    hide MixColumns, InvMixColumns, SubBytes, InvSubBytes, ShiftRows, InvShiftRows, Xor;
    if n == 0 {
      XorTwice(ShiftRows(SubBytes(Rounds(keys, b, 13))), keys[14]);
    } else {
      RoundsUndone(keys, b, n - 1);
      SubShiftInverse(Rounds(keys, b, 14 - n));
      var before := ShiftRows(SubBytes(Rounds(keys, b, 13 - n)));
      XorTwice(MixColumns(before), keys[14 - n]);
      MixInverse(before);
    }
  }

  lemma SubShiftInverse(b: Block)
    ensures InvSubBytes(InvShiftRows(ShiftRows(SubBytes(b)))) == b
    ensures ShiftRows(SubBytes(InvSubBytes(InvShiftRows(b)))) == b
  {
    hide SubBytes, InvSubBytes, ShiftRows, InvShiftRows;
    ShiftInverse(SubBytes(b));
    SubInverse(b);
    SubInverse(InvShiftRows(b));
    ShiftInverse(b);
  }

  /** Decrypting what was encrypted gives it back, for all keys and all blocks. */
  lemma DecryptEncrypt(keys: RoundKeys, b: Block)
    ensures Decrypt(DecryptionKeys(keys), Encrypt(keys, b)) == b
  {
    hide MixColumns, InvMixColumns, SubBytes, InvSubBytes, ShiftRows, InvShiftRows, Xor;
    DecryptIsInvCipher(keys, Encrypt(keys, b));
    RoundsUndone(keys, b, 13);
    SubShiftInverse(Rounds(keys, b, 0));
    XorTwice(b, keys[0]);
  }

  lemma {:induction false} InvRoundsUndone(keys: RoundKeys, b: Block, n: nat)
    requires n <= 13
    ensures Rounds(keys, InvCipher(keys, b), n) == InvSubBytes(InvShiftRows(InvRounds(keys, b, 13 - n)))
  {
    hide MixColumns, InvMixColumns, SubBytes, InvSubBytes, ShiftRows, InvShiftRows, Xor;
    if n == 0 {
      XorTwice(InvSubBytes(InvShiftRows(InvRounds(keys, b, 13))), keys[0]);
    } else {
      InvRoundsUndone(keys, b, n - 1);
      SubShiftInverse(InvRounds(keys, b, 14 - n));
      var before := InvSubBytes(InvShiftRows(InvRounds(keys, b, 13 - n)));
      MixInverse(Xor(before, keys[n]));
      XorTwice(before, keys[n]);
    }
  }

  /** Encrypting what was decrypted gives it back too: the cipher permutes the blocks. */
  lemma EncryptDecrypt(keys: RoundKeys, b: Block)
    ensures Encrypt(keys, Decrypt(DecryptionKeys(keys), b)) == b
  {
    hide MixColumns, InvMixColumns, SubBytes, InvSubBytes, ShiftRows, InvShiftRows, Xor;
    DecryptIsInvCipher(keys, b);
    InvRoundsUndone(keys, b, 13);
    SubShiftInverse(InvRounds(keys, b, 0));
    XorTwice(b, keys[14]);
  }
}
