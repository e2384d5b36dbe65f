/** Cipher block chaining, in place over any number of blocks. */
module Cbc {
  import opened Blocks
  import Cipher
  import opened KeySchedule

  /** The block that an encryption chains to the next one. */
  function Last(iv: Block, cs: seq<Block>): Block {
    if cs == [] then iv else cs[|cs| - 1]
  }

  function Encrypted(enc: Block -> Block, iv: Block, ps: seq<Block>): (cs: seq<Block>)
    ensures |cs| == |ps|
  {
    if ps == [] then []
    else
      var n := |ps| - 1;
      var cs := Encrypted(enc, iv, ps[..n]);
      cs + [enc(Xor(ps[n], Last(iv, cs)))]
  }

  function Decrypted(dec: Block -> Block, iv: Block, cs: seq<Block>): (ps: seq<Block>)
    ensures |ps| == |cs|
  {
    seq(|cs|, i requires 0 <= i < |cs| => Xor(dec(cs[i]), Last(iv, cs[..i])))
  }

  /** The next block of an encryption. */
  lemma {:induction false} EncryptedAt(enc: Block -> Block, iv: Block, ps: seq<Block>, i: nat)
    requires i < |ps|
    ensures var cs := Encrypted(enc, iv, ps); cs[i] == enc(Xor(ps[i], Last(iv, cs[..i])))
  {
    hide Xor;
    var n := |ps| - 1;
    var cs, before := Encrypted(enc, iv, ps), Encrypted(enc, iv, ps[..n]);
    assert cs[..n] == before;
    if i < n {
      EncryptedAt(enc, iv, ps[..n], i);
      assert cs[..i] == before[..i];
    }
  }

  /** Decryption undoes encryption, for every block cipher. */
  lemma DecryptedEncrypted(enc: Block -> Block, dec: Block -> Block, iv: Block, ps: seq<Block>)
    requires forall b: Block :: dec(enc(b)) == b
    ensures Decrypted(dec, iv, Encrypted(enc, iv, ps)) == ps
  {
    hide Xor, Encrypted;
    var cs := Encrypted(enc, iv, ps);
    forall i | 0 <= i < |ps| ensures Decrypted(dec, iv, cs)[i] == ps[i] {
      EncryptedAt(enc, iv, ps, i);
      XorTwice(ps[i], Last(iv, cs[..i]));
    }
  }

  /** Encryption undoes decryption, for every block cipher. */
  lemma EncryptedDecrypted(enc: Block -> Block, dec: Block -> Block, iv: Block, cs: seq<Block>)
    requires forall b: Block :: enc(dec(b)) == b
    ensures Encrypted(enc, iv, Decrypted(dec, iv, cs)) == cs
  {
    hide Encrypted, Decrypted;
    EncryptedPrefix(enc, dec, iv, cs, |cs|);
    var es := Encrypted(enc, iv, Decrypted(dec, iv, cs));
    assert es[..|cs|] == es && cs[..|cs|] == cs;
  }

  lemma {:induction false} EncryptedPrefix(enc: Block -> Block, dec: Block -> Block, iv: Block, cs: seq<Block>, n: nat)
    requires (forall b: Block :: enc(dec(b)) == b) && n <= |cs|
    ensures Encrypted(enc, iv, Decrypted(dec, iv, cs))[..n] == cs[..n]
  {
    hide Encrypted, Xor;
    if n > 0 {
      var i, ps := n - 1, Decrypted(dec, iv, cs);
      var es := Encrypted(enc, iv, ps);
      EncryptedPrefix(enc, dec, iv, cs, i);
      EncryptedAt(enc, iv, ps, i);
      XorTwice(dec(cs[i]), Last(iv, cs[..i]));
      assert es[..n] == es[..i] + [es[i]] && cs[..n] == cs[..i] + [cs[i]];
    }
  }

  function Encryption(keys: Cipher.RoundKeys): Block -> Block {
    b => Cipher.Encrypt(keys, b)
  }

  function Decryption(keys: Cipher.RoundKeys): Block -> Block {
    b => Cipher.Decrypt(keys, b)
  }

  /** The two keys made from one key are the inverse of each other. */
  lemma RoundTrips(key: Key, iv: Block, bs: seq<Block>)
    ensures var keys := Expanded(key);
            && Decrypted(Decryption(Cipher.DecryptionKeys(keys)), iv, Encrypted(Encryption(keys), iv, bs)) == bs
            && Encrypted(Encryption(keys), iv, Decrypted(Decryption(Cipher.DecryptionKeys(keys)), iv, bs)) == bs
  {
    hide Cipher.Encrypt, Cipher.Decrypt, Cipher.DecryptionKeys, Expanded, Encrypted, Decrypted;
    var keys := Expanded(key);
    var enc, dec := Encryption(keys), Decryption(Cipher.DecryptionKeys(keys));
    forall b: Block ensures dec(enc(b)) == b && enc(dec(b)) == b {
      Cipher.DecryptEncrypt(keys, b);
      Cipher.EncryptDecrypt(keys, b);
    }
    DecryptedEncrypted(enc, dec, iv, bs);
    EncryptedDecrypted(enc, dec, iv, bs);
  }

  /** Buffers for blocks that do not overlap. */
  ghost predicate Apart(blocks: seq<array<bv8>>) {
    && (forall i :: 0 <= i < |blocks| ==> blocks[i].Length == 16)
    && (forall i, j :: 0 <= i < j < |blocks| ==> blocks[i] != blocks[j])
  }

  /** The buffers hold blocks. */
  ghost predicate Hold(blocks: seq<array<bv8>>, texts: seq<Block>)
    reads blocks
  {
    Apart(blocks) && |texts| == |blocks| && forall i :: 0 <= i < |blocks| ==> blocks[i][..] == texts[i]
  }

  /** Encrypts blocks in place. */
  method CbcEncrypt(key: EncryptionKey, iv: Block, blocks: seq<array<bv8>>, ghost ps: seq<Block>)
    requires Hold(blocks, ps)
    modifies blocks
    ensures Hold(blocks, Encrypted(Encryption(key.roundKeys), iv, ps))
  {
    hide Cipher.Encrypt, Xor, Encrypted;
    ghost var cs := Encrypted(Encryption(key.roundKeys), iv, ps);
    var chained := iv;
    for i := 0 to |blocks|
      invariant forall j :: 0 <= j < |blocks| ==> blocks[j][..] == if j < i then cs[j] else ps[j]
      invariant chained == Last(iv, cs[..i])
    {
      EncryptedAt(Encryption(key.roundKeys), iv, ps, i);
      EncryptNext(key, chained, blocks[i]);
      chained := blocks[i][..];
    }
  }

  method EncryptNext(key: EncryptionKey, mask: Block, block: array<bv8>)
    requires block.Length == 16
    modifies block
    ensures block[..] == Encryption(key.roundKeys)(Xor(old(block[..]), mask))
  {
    hide Cipher.Encrypt, Xor;
    XorBlock(block, mask);
    key.EncryptBlock(block);
  }

  /** Decrypts blocks in place. */
  method CbcDecrypt(key: DecryptionKey, iv: Block, blocks: seq<array<bv8>>, ghost cs: seq<Block>)
    requires Hold(blocks, cs)
    modifies blocks
    ensures Hold(blocks, Decrypted(Decryption(key.roundKeys), iv, cs))
  {
    hide Cipher.Decrypt, Xor;
    ghost var ps := Decrypted(Decryption(key.roundKeys), iv, cs);
    var chained := iv;
    for i := 0 to |blocks|
      invariant forall j :: 0 <= j < |blocks| ==> blocks[j][..] == if j < i then ps[j] else cs[j]
      invariant chained == Last(iv, cs[..i])
    {
      var tmp: Block := blocks[i][..];
      DecryptNext(key, chained, blocks[i]);
      chained := tmp;
    }
  }

  method DecryptNext(key: DecryptionKey, mask: Block, block: array<bv8>)
    requires block.Length == 16
    modifies block
    ensures block[..] == Xor(Decryption(key.roundKeys)(old(block[..])), mask)
  {
    hide Cipher.Decrypt, Xor;
    key.DecryptBlock(block);
    XorBlock(block, mask);
  }

  // ---------------------------------------------------------------------------------------------
  // Bytes as blocks

  function Split(text: seq<bv8>): (blocks: seq<Block>)
    requires |text| % 16 == 0
    ensures |blocks| == |text| / 16
  {
    if text == [] then [] else [text[..16]] + Split(text[16..])
  }

  function Join(blocks: seq<Block>): (text: seq<bv8>)
    ensures |text| == 16 * |blocks|
  {
    if blocks == [] then []
    else
      var first: seq<bv8> := blocks[0];
      first + Join(blocks[1..])
  }

  lemma {:induction false} JoinSplit(text: seq<bv8>)
    requires |text| % 16 == 0
    ensures Join(Split(text)) == text
  {
    if text != [] {
      JoinSplit(text[16..]);
      assert Split(text)[1..] == Split(text[16..]);
    }
  }

  lemma {:induction false} SplitJoin(blocks: seq<Block>)
    ensures Split(Join(blocks)) == blocks
  {
    if blocks != [] {
      SplitJoin(blocks[1..]);
      var first: seq<bv8> := blocks[0];
      assert Join(blocks)[..16] == first && Join(blocks)[16..] == Join(blocks[1..]);
    }
  }

  /** The blocks of bytes, encrypted. */
  function Sealed(key: Key, iv: Block, text: seq<bv8>): (bytes: seq<bv8>)
    requires |text| % 16 == 0
    ensures |bytes| == |text|
  {
    Join(Encrypted(Encryption(Expanded(key)), iv, Split(text)))
  }

  function Unsealed(key: Key, iv: Block, bytes: seq<bv8>): (text: seq<bv8>)
    requires |bytes| % 16 == 0
    ensures |text| == |bytes|
  {
    Join(Decrypted(Decryption(Cipher.DecryptionKeys(Expanded(key))), iv, Split(bytes)))
  }

  lemma SealTrips(key: Key, iv: Block, text: seq<bv8>)
    requires |text| % 16 == 0
    ensures Unsealed(key, iv, Sealed(key, iv, text)) == text
    ensures Sealed(key, iv, Unsealed(key, iv, text)) == text
  {
    hide Encrypted, Decrypted, Split, Join, Encryption, Decryption, Cipher.DecryptionKeys, Expanded;
    RoundTrips(key, iv, Split(text));
    JoinSplit(text);
    SplitJoin(Encrypted(Encryption(Expanded(key)), iv, Split(text)));
    SplitJoin(Decrypted(Decryption(Cipher.DecryptionKeys(Expanded(key))), iv, Split(text)));
  }

  /** Copies bytes into buffers for blocks. */
  method CopyBlocks(text: seq<bv8>) returns (blocks: seq<array<bv8>>)
    requires |text| % 16 == 0
    ensures fresh(blocks) && Hold(blocks, Split(text))
  {
    hide Split;
    blocks := [];
    for i := 0 to |text| / 16
      invariant fresh(blocks) && |blocks| == i && Hold(blocks, Split(text)[..i])
    {
      SplitAt(text, i);
      var block := new bv8[16](j requires 0 <= j < 16 => text[16 * i + j]);
      assert block[..] == text[16 * i..16 * i + 16];
      blocks := blocks + [block];
    }
    assert Split(text)[..|text| / 16] == Split(text);
  }

  lemma {:induction false} SplitAt(text: seq<bv8>, i: nat)
    requires |text| % 16 == 0 && i < |text| / 16
    ensures Split(text)[i] == text[16 * i..16 * i + 16]
  {
    if i > 0 {
      SplitAt(text[16..], i - 1);
      assert text[16..][16 * (i - 1)..16 * (i - 1) + 16] == text[16 * i..16 * i + 16];
    }
  }

  /** Copies blocks out of their buffers. */
  method CopyBytes(blocks: seq<array<bv8>>, ghost texts: seq<Block>) returns (text: seq<bv8>)
    requires Hold(blocks, texts)
    ensures text == Join(texts)
  {
    hide Join;
    text := [];
    JoinNext(texts, |texts|);
    for i := 0 to |blocks|
      invariant text == Join(texts[..i])
    {
      JoinNext(texts, i);
      text := text + blocks[i][..];
    }
    assert texts[..|texts|] == texts;
  }

  lemma {:induction false} JoinNext(blocks: seq<Block>, n: nat)
    requires n <= |blocks|
    ensures n < |blocks| ==>
              var next: seq<bv8> := blocks[n];
              Join(blocks[..n + 1]) == Join(blocks[..n]) + next
    ensures Join(blocks[..0]) == []
  {
    if 0 < n < |blocks| {
      JoinNext(blocks[1..], n - 1);
      assert blocks[..n + 1][1..] == blocks[1..][..n] && blocks[..n][1..] == blocks[1..][..n - 1];
    }
  }

  /** Encrypts bytes. */
  method Seal(key: EncryptionKey, ghost k: Key, iv: Block, text: seq<bv8>) returns (bytes: seq<bv8>)
    requires key.roundKeys == Expanded(k) && |text| % 16 == 0
    ensures bytes == Sealed(k, iv, text)
  {
    hide Encrypted, Encryption, Expanded, Split, Join;
    var blocks := CopyBlocks(text);
    CbcEncrypt(key, iv, blocks, Split(text));
    bytes := CopyBytes(blocks, Encrypted(Encryption(Expanded(k)), iv, Split(text)));
  }

  /** Decrypts bytes. */
  method Unseal(key: DecryptionKey, ghost k: Key, iv: Block, bytes: seq<bv8>) returns (text: seq<bv8>)
    requires key.roundKeys == Cipher.DecryptionKeys(Expanded(k)) && |bytes| % 16 == 0
    ensures text == Unsealed(k, iv, bytes)
  {
    hide Decrypted, Decryption, Cipher.DecryptionKeys, Expanded, Split, Join;
    var blocks := CopyBlocks(bytes);
    CbcDecrypt(key, iv, blocks, Split(bytes));
    text := CopyBytes(blocks, Decrypted(Decryption(Cipher.DecryptionKeys(Expanded(k))), iv, Split(bytes)));
  }
}
