/** The round keys of a 256-bit key (section 5.2 of FIPS 197), and the two keys that hold them. */
module KeySchedule {
  import opened Field
  import opened Blocks
  import Cipher
  import Aes

  type Key = k: seq<bv8> | |k| == 32 witness seq(32, _ => 0)
  type Word = w: seq<bv8> | |w| == 4 witness seq(4, _ => 0)

  // The expansion of a key, word by word.

  function RotatedWord(w: Word): Word {
    [w[1], w[2], w[3], w[0]]
  }

  function SubstitutedWord(w: Word): Word {
    seq(4, i requires 0 <= i < 4 => Cipher.Sbox(w[i]))
  }

  function SumWord(a: Word, b: Word): Word {
    seq(4, i requires 0 <= i < 4 => a[i] ^ b[i])
  }

  /** The round constants are the powers of t. */
  function RoundConstant(j: nat): Element {
    if j <= 1 then Element(1) else Xtime(RoundConstant(j - 1))
  }

  /** What is added to an earlier word, from the word just before. */
  function Transformed(w: Word, i: nat): Word {
    if i % 8 == 0 then
      var t := SubstitutedWord(RotatedWord(w));
      t[0 := t[0] ^ RoundConstant(i / 8).byte]
    else if i % 8 == 4 then SubstitutedWord(w)
    else w
  }

  function KeyWord(key: Key, i: nat): Word {
    if i < 8 then key[4 * i..4 * i + 4]
    else SumWord(Transformed(KeyWord(key, i - 1), i), KeyWord(key, i - 8))
  }

  function RoundKey(key: Key, r: nat): Block {
    KeyWord(key, 4 * r) + KeyWord(key, 4 * r + 1) + KeyWord(key, 4 * r + 2) + KeyWord(key, 4 * r + 3)
  }

  function Expanded(key: Key): Cipher.RoundKeys {
    seq(15, r requires 0 <= r < 15 => RoundKey(key, r))
  }

  // The expansion as the program runs it.

  const RCON: seq<bv8> := [0x01, 0x02, 0x04, 0x08, 0x10, 0x20, 0x40]

  /** The table of round constants holds the powers of t. */
  lemma {:induction false} RconIsPower(j: nat)
    requires j < 7
    ensures RCON[j] == RoundConstant(j + 1).byte
  {
    if j > 0 {
      RconIsPower(j - 1);
    }
  }

  method RotWord(word: array<bv8>)
    requires word.Length == 4
    modifies word
    ensures word[..] == RotatedWord(old(word[..]))
  {
    var tmp := word[0];
    word[0] := word[1];
    word[1] := word[2];
    word[2] := word[3];
    word[3] := tmp;
  }

  method SubWord(word: array<bv8>)
    requires word.Length == 4
    modifies word
    ensures word[..] == SubstitutedWord(old(word[..]))
  {
    hide Cipher.Sbox;
    var i := 0;
    while i < 4
      invariant 0 <= i <= 4
      invariant forall j :: 0 <= j < i ==> word[j] == Cipher.Sbox(old(word[..])[j])
      invariant forall j :: i <= j < 4 ==> word[j] == old(word[..])[j]
    {
      word[i] := Cipher.Sbox(word[i]);
      i := i + 1;
    }
  }

  method XorWord(word: array<bv8>, src: Word)
    requires word.Length == 4
    modifies word
    ensures word[..] == SumWord(old(word[..]), src)
  {
    var i := 0;
    while i < 4
      invariant 0 <= i <= 4
      invariant forall j :: 0 <= j < i ==> word[j] == old(word[..])[j] ^ src[j]
      invariant forall j :: i <= j < 4 ==> word[j] == old(word[..])[j]
    {
      word[i] := word[i] ^ src[i];
      i := i + 1;
    }
  }

  /** Transforms the last word of a round key into what the next one starts from. */
  method Transform(word: array<bv8>, i: nat)
    requires word.Length == 4 && 2 <= i < 15
    modifies word
    ensures word[..] == Transformed(old(word[..]), 4 * i)
  {
    hide SubstitutedWord, RotatedWord, RoundConstant;
    if i % 2 == 0 {
      RotWord(word);
      SubWord(word);
      RconIsPower(i / 2 - 1);
      ghost var w := word[..];
      word[0] := word[0] ^ RCON[i / 2 - 1];
      assert word[..] == w[0 := w[0] ^ RCON[i / 2 - 1]];
      assert 4 * i % 8 == 0 && 4 * i / 8 == i / 2;
    } else {
      SubWord(word);
      assert 4 * i % 8 == 4;
    }
  }

  lemma FirstKeys(key: Key)
    ensures RoundKey(key, 0) == key[..16] && RoundKey(key, 1) == key[16..]
  {
  }

  lemma RoundKeyWord(key: Key, r: nat, j: nat)
    requires j < 4
    ensures RoundKey(key, r)[4 * j..4 * j + 4] == KeyWord(key, 4 * r + j)
  {
    hide KeyWord;
  }

  lemma NextWord(key: Key, i: nat, j: nat)
    requires 2 <= i && j < 4
    ensures KeyWord(key, 4 * i + j)
         == SumWord(if j == 0 then Transformed(KeyWord(key, 4 * i - 1), 4 * i) else KeyWord(key, 4 * i + j - 1),
                    KeyWord(key, 4 * (i - 2) + j))
  {
    hide SumWord, SubstitutedWord, RotatedWord;
    if j > 0 {
      assert (4 * i + j) % 8 != 0 && (4 * i + j) % 8 != 4;
    }
  }

  /** Computes a round key, from its transformed first word and the round key before the last one. */
  method NextRoundKey(ghost key: Key, word: array<bv8>, before: Block, ghost i: nat) returns (next: Block)
    requires word.Length == 4 && 2 <= i < 15 && before == RoundKey(key, i - 2)
    requires word[..] == Transformed(KeyWord(key, 4 * i - 1), 4 * i)
    modifies word
    ensures next == RoundKey(key, i) && word[..] == KeyWord(key, 4 * i + 3)
  {
    hide KeyWord, Transformed, SumWord, RoundKey;
    next := ZeroBlock();
    for j := 0 to 4
      invariant word[..] == if j == 0 then Transformed(KeyWord(key, 4 * i - 1), 4 * i) else KeyWord(key, 4 * i + j - 1)
      invariant next[..4 * j] == RoundKey(key, i)[..4 * j]
    {
      RoundKeyWord(key, i - 2, j);
      RoundKeyWord(key, i, j);
      NextWord(key, i, j);
      XorWord(word, before[4 * j..4 * j + 4]);
      ghost var k := RoundKey(key, i);
      assert k[..4 * (j + 1)] == k[..4 * j] + k[4 * j..4 * j + 4];
      next := next[..4 * j] + word[..] + next[4 * j + 4..];
    }
  }

  class EncryptionKey {
    const roundKeys: Cipher.RoundKeys

    /** Computes the round keys. */
    constructor (key: Key)
      ensures roundKeys == Expanded(key)
    {
      hide KeyWord, Transformed, SumWord;
      var keys: Cipher.RoundKeys := seq(15, _ => ZeroBlock());
      keys := keys[0 := key[..16]];
      keys := keys[1 := key[16..]];
      FirstKeys(key);
      RoundKeyWord(key, 1, 3);
      var word := new bv8[4](k requires 0 <= k < 4 => key[28 + k]);
      var i := 2;
      while i < 15
        invariant 2 <= i <= 15
        invariant forall r :: 0 <= r < i ==> keys[r] == RoundKey(key, r)
        invariant word[..] == KeyWord(key, 4 * i - 1)
      {
        Transform(word, i);
        var next := NextRoundKey(key, word, keys[i - 2], i);
        keys := keys[i := next];
        i := i + 1;
      }
      roundKeys := keys;
    }

    /** Encrypts a block in place. */
    method EncryptBlock(block: array<bv8>)
      requires block.Length == 16
      modifies block
      ensures block[..] == Cipher.Encrypt(roundKeys, old(block[..]))
    {
      hide Xor, Cipher.MixColumns, Cipher.ShiftRows, Cipher.SubBytes;
      ghost var b: Block := block[..];
      Aes.AddRoundKey(block, roundKeys[0]);
      for i := 1 to 14
        invariant block[..] == Cipher.Rounds(roundKeys, b, i - 1)
      {
        Aes.EncryptRound(block, roundKeys[i]);
      }
      Aes.EncryptLast(block, roundKeys[14]);
    }
  }

  class DecryptionKey {
    const roundKeys: Cipher.RoundKeys

    /** Computes the round keys from those of the encryption key. */
    constructor (key: EncryptionKey)
      ensures roundKeys == Cipher.DecryptionKeys(key.roundKeys)
    {
      hide Cipher.InvMixColumns;
      var keys: Cipher.RoundKeys := seq(15, _ => ZeroBlock());
      keys := keys[0 := key.roundKeys[14]];
      for i := 1 to 14
        invariant keys[0] == key.roundKeys[14]
        invariant forall r :: 1 <= r < i ==> keys[r] == Cipher.InvMixColumns(key.roundKeys[14 - r])
      {
        var block := new bv8[16](k requires 0 <= k < 16 => key.roundKeys[14 - i][k]);
        assert block[..] == key.roundKeys[14 - i];
        Aes.InvMixColumns(block);
        keys := keys[i := block[..]];
      }
      keys := keys[14 := key.roundKeys[0]];
      roundKeys := keys;
    }

    /** Decrypts a block in place. */
    method DecryptBlock(block: array<bv8>)
      requires block.Length == 16
      modifies block
      ensures block[..] == Cipher.Decrypt(roundKeys, old(block[..]))
    {
      hide Xor, Cipher.InvMixColumns, Cipher.InvShiftRows, Cipher.InvSubBytes;
      ghost var b: Block := block[..];
      Aes.AddRoundKey(block, roundKeys[0]);
      for i := 1 to 14
        invariant block[..] == Cipher.EqRounds(roundKeys, b, i - 1)
      {
        Aes.DecryptRound(block, roundKeys[i]);
      }
      Aes.DecryptLast(block, roundKeys[14]);
    }
  }
}
