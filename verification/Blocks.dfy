/** The 16-byte blocks of the block cipher. */
module Blocks {
  type Block = b: seq<bv8> | |b| == 16 witness seq(16, _ => 0)

  function ZeroBlock(): Block {
    seq(16, _ => 0)
  }

  function Xor(a: Block, b: Block): Block {
    seq(16, i requires 0 <= i < 16 => a[i] ^ b[i])
  }

  lemma XorBits(x: bv8, y: bv8)
    ensures (x ^ y) ^ y == x && y ^ (y ^ x) == x
  {
  }

  lemma XorTwice(a: Block, b: Block)
    ensures Xor(Xor(a, b), b) == a
    ensures Xor(b, Xor(b, a)) == a
  {
    forall i | 0 <= i < 16
      ensures Xor(Xor(a, b), b)[i] == a[i] && Xor(b, Xor(b, a))[i] == a[i]
    {
      XorBits(a[i], b[i]);
    }
  }

  /** Adds a mask to a block in place. */
  method XorBlock(block: array<bv8>, mask: Block)
    requires block.Length == 16
    modifies block
    ensures block[..] == Xor(old(block[..]), mask)
  {
    var i := 0;
    while i < 16
      invariant 0 <= i <= 16
      invariant forall j :: 0 <= j < i ==> block[j] == old(block[..])[j] ^ mask[j]
      invariant forall j :: i <= j < 16 ==> block[j] == old(block[..])[j]
    {
      block[i] := block[i] ^ mask[i];
      i := i + 1;
    }
  }
}
