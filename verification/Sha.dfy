/** The hash function SHA-256 (FIPS 180-4), for messages that come in pieces. */
module Sha {
  import opened Bytes

  type State = s: seq<bv32> | |s| == 8 witness seq(8, _ => 0)
  type Chunk = b: seq<bv8> | |b| == 64 witness seq(64, _ => 0)

  function InitialState(): State {
    [0x6a09e667, 0xbb67ae85, 0x3c6ef372, 0xa54ff53a, 0x510e527f, 0x9b05688c, 0x1f83d9ab, 0x5be0cd19]
  }

  const K: seq<bv32> := [
    0x428a2f98, 0x71374491, 0xb5c0fbcf, 0xe9b5dba5, 0x3956c25b, 0x59f111f1, 0x923f82a4, 0xab1c5ed5,
    0xd807aa98, 0x12835b01, 0x243185be, 0x550c7dc3, 0x72be5d74, 0x80deb1fe, 0x9bdc06a7, 0xc19bf174,
    0xe49b69c1, 0xefbe4786, 0x0fc19dc6, 0x240ca1cc, 0x2de92c6f, 0x4a7484aa, 0x5cb0a9dc, 0x76f988da,
    0x983e5152, 0xa831c66d, 0xb00327c8, 0xbf597fc7, 0xc6e00bf3, 0xd5a79147, 0x06ca6351, 0x14292967,
    0x27b70a85, 0x2e1b2138, 0x4d2c6dfc, 0x53380d13, 0x650a7354, 0x766a0abb, 0x81c2c92e, 0x92722c85,
    0xa2bfe8a1, 0xa81a664b, 0xc24b8b70, 0xc76c51a3, 0xd192e819, 0xd6990624, 0xf40e3585, 0x106aa070,
    0x19a4c116, 0x1e376c08, 0x2748774c, 0x34b0bcb5, 0x391c0cb3, 0x4ed8aa4a, 0x5b9cca4f, 0x682e6ff3,
    0x748f82ee, 0x78a5636f, 0x84c87814, 0x8cc70208, 0x90befffa, 0xa4506ceb, 0xbef9a3f7, 0xc67178f2
  ]

  // ---------------------------------------------------------------------------------------------
  // The functions of section 4.1.2

  function Choice(e: bv32, f: bv32, g: bv32): bv32 {
    (e & f) ^ (!e & g)
  }

  function Majority(a: bv32, b: bv32, c: bv32): bv32 {
    (a & b) ^ (a & c) ^ (b & c)
  }

  function Bsig0(x: bv32): bv32 {
    x.RotateRight(2) ^ x.RotateRight(13) ^ x.RotateRight(22)
  }

  function Bsig1(x: bv32): bv32 {
    x.RotateRight(6) ^ x.RotateRight(11) ^ x.RotateRight(25)
  }

  function Ssig0(x: bv32): bv32 {
    x.RotateRight(7) ^ x.RotateRight(18) ^ (x >> 3)
  }

  function Ssig1(x: bv32): bv32 {
    x.RotateRight(17) ^ x.RotateRight(19) ^ (x >> 10)
  }

  function Sum4(a: bv32, b: bv32, c: bv32, d: bv32): bv32 {
    a + b + c + d
  }

  function Sum(a: bv32, b: bv32): bv32 {
    a + b
  }

  /** A word from its bytes, the most significant first. */
  function WordOf(bytes: seq<bv8>): bv32
    requires |bytes| == 4
  {
    (bytes[0] as bv32 << 24) | (bytes[1] as bv32 << 16) | (bytes[2] as bv32 << 8) | bytes[3] as bv32
  }

  /** The bytes of a word, the most significant first. */
  function BytesOf(w: bv32): (bytes: seq<bv8>)
    ensures |bytes| == 4
  {
    [(w >> 24) as bv8, ((w >> 16) & 0xff) as bv8, ((w >> 8) & 0xff) as bv8, (w & 0xff) as bv8]
  }

  // ---------------------------------------------------------------------------------------------
  // Hashing a block (section 6.2.2)

  /** The words of the message schedule. */
  function Schedule(block: Chunk, t: nat): bv32 {
    if t < 16 then WordOf(block[4 * t..4 * t + 4])
    else Sum4(Schedule(block, t - 16), Ssig0(Schedule(block, t - 15)), Schedule(block, t - 7),
              Ssig1(Schedule(block, t - 2)))
  }

  datatype Vars = Vars(a: bv32, b: bv32, c: bv32, d: bv32, e: bv32, f: bv32, g: bv32, h: bv32)

  function Step(v: Vars, k: bv32, w: bv32): Vars {
    var t1 := Sum(Sum4(v.h, Bsig1(v.e), Choice(v.e, v.f, v.g), k), w);
    var t2 := Sum(Bsig0(v.a), Majority(v.a, v.b, v.c));
    Vars(Sum(t1, t2), v.a, v.b, v.c, Sum(v.d, t1), v.e, v.f, v.g)
  }

  function Start(s: State): Vars {
    Vars(s[0], s[1], s[2], s[3], s[4], s[5], s[6], s[7])
  }

  /** The working variables after some of the 64 steps. */
  function Steps(s: State, block: Chunk, n: nat): Vars
    requires n <= 64
  {
    if n == 0 then Start(s) else Step(Steps(s, block, n - 1), K[n - 1], Schedule(block, n - 1))
  }

  function Added(s: State, v: Vars): State {
    [Sum(s[0], v.a), Sum(s[1], v.b), Sum(s[2], v.c), Sum(s[3], v.d),
     Sum(s[4], v.e), Sum(s[5], v.f), Sum(s[6], v.g), Sum(s[7], v.h)]
  }

  function HashBlock(s: State, block: Chunk): State {
    Added(s, Steps(s, block, 64))
  }

  /** Computes the words of the message schedule. */
  method Expand(block: Chunk) returns (words: seq<bv32>)
    ensures |words| == 64 && forall t :: 0 <= t < 64 ==> words[t] == Schedule(block, t)
  {
    hide Schedule, WordOf, Sum4, Ssig0, Ssig1;
    var w := new bv32[64];
    for i := 0 to 16
      invariant forall t :: 0 <= t < i ==> w[t] == Schedule(block, t)
    {
      ScheduleIs(block, i);
      w[i] := WordOf(block[4 * i..4 * i + 4]);
    }
    for i := 16 to 64
      invariant forall t :: 0 <= t < i ==> w[t] == Schedule(block, t)
    {
      ScheduleIs(block, i);
      w[i] := Sum4(w[i - 16], Ssig0(w[i - 15]), w[i - 7], Ssig1(w[i - 2]));
    }
    words := w[..];
  }

  /** Hashes a block into a state in place. */
  method HashBlockInPlace(state: array<bv32>, block: Chunk)
    requires state.Length == 8
    modifies state
    ensures state[..] == HashBlock(old(state[..]), block)
  {
    hide Schedule, WordOf, Sum, Sum4, Ssig0, Ssig1, Bsig0, Bsig1, Choice, Majority, Steps, Step;
    var w := Expand(block);
    ghost var s: State := state[..];
    var a, b, c, d := state[0], state[1], state[2], state[3];
    var e, f, g, h := state[4], state[5], state[6], state[7];
    StepsIs(s, block, 0);
    for i := 0 to 64
      invariant state[..] == s && Vars(a, b, c, d, e, f, g, h) == Steps(s, block, i)
    {
      StepsIs(s, block, i + 1);
      var tmp1 := Sum(Sum4(h, Bsig1(e), Choice(e, f, g), K[i]), w[i]);
      var tmp2 := Sum(Bsig0(a), Majority(a, b, c));
      StepIs(Steps(s, block, i), K[i], w[i]);
      h := g;
      g := f;
      f := e;
      e := Sum(d, tmp1);
      d := c;
      c := b;
      b := a;
      a := Sum(tmp1, tmp2);
    }
    state[0] := Sum(state[0], a);
    state[1] := Sum(state[1], b);
    state[2] := Sum(state[2], c);
    state[3] := Sum(state[3], d);
    state[4] := Sum(state[4], e);
    state[5] := Sum(state[5], f);
    state[6] := Sum(state[6], g);
    state[7] := Sum(state[7], h);
    assert state[..] == Added(s, Vars(a, b, c, d, e, f, g, h));
  }

  lemma ScheduleIs(block: Chunk, t: nat)
    ensures Schedule(block, t) == if t < 16 then WordOf(block[4 * t..4 * t + 4])
            else Sum4(Schedule(block, t - 16), Ssig0(Schedule(block, t - 15)), Schedule(block, t - 7),
                      Ssig1(Schedule(block, t - 2)))
  {
    hide WordOf, Sum4, Ssig0, Ssig1;
  }

  lemma StepsIs(s: State, block: Chunk, n: nat)
    requires n <= 64
    ensures Steps(s, block, n) == if n == 0 then Start(s)
            else Step(Steps(s, block, n - 1), K[n - 1], Schedule(block, n - 1))
  {
    hide Schedule, Step;
  }

  lemma StepIs(v: Vars, k: bv32, w: bv32)
    ensures var t1, t2 := Sum(Sum4(v.h, Bsig1(v.e), Choice(v.e, v.f, v.g), k), w),
            Sum(Bsig0(v.a), Majority(v.a, v.b, v.c));
            Step(v, k, w) == Vars(Sum(t1, t2), v.a, v.b, v.c, Sum(v.d, t1), v.e, v.f, v.g)
  {
    hide Sum, Sum4, Bsig0, Bsig1, Choice, Majority;
  }

  // ---------------------------------------------------------------------------------------------
  // Hashing a message

  /** The state after whole blocks of a message. */
  function Compressed(m: seq<bv8>): State
    requires |m| % 64 == 0
  {
    if m == [] then InitialState()
    else
      var n := |m| - 64;
      HashBlock(Compressed(m[..n]), m[n..])
  }

  function Zeros(n: nat): (zeros: seq<bv8>)
    ensures |zeros| == n
  {
    seq(n, _ => 0)
  }

  /** The length of a message in bits, as 64 bits. */
  function LengthBytes(n: nat): (bytes: seq<bv8>)
    ensures |bytes| == 8
  {
    var bytes := ToBigEndian(8 * n, 8);
    seq(8, i requires 0 <= i < 8 => bytes[i] as bv8)
  }

  /** The padded message (section 5.1.1). */
  function Padded(m: seq<bv8>): (p: seq<bv8>)
    ensures |p| % 64 == 0
  {
    WholeBlocks(|m| + 1 + Gap(|m|));
    m + [0x80] + Zeros(Gap(|m|)) + LengthBytes(|m|)
  }

  lemma WholeBlocks(n: nat)
    requires n % 64 == 56
    ensures (n + 8) % 64 == 0
  {
  }

  /** How many zero bytes the padding of a message of some length has. */
  function Gap(n: nat): (k: nat)
    ensures k < 64 && (n + 1 + k) % 64 == 56
  {
    (119 - n % 64) % 64
  }

  function StateBytes(s: State): (bytes: seq<bv8>)
    ensures |bytes| == 32
  {
    BytesOf(s[0]) + BytesOf(s[1]) + BytesOf(s[2]) + BytesOf(s[3])
      + BytesOf(s[4]) + BytesOf(s[5]) + BytesOf(s[6]) + BytesOf(s[7])
  }

  /** The hash of a message. */
  function Digest(m: seq<bv8>): (digest: seq<bv8>)
    ensures |digest| == 32
  {
    StateBytes(Compressed(Padded(m)))
  }

  /**
   The padding is that of the standard: a one bit, the least number of zero bits that leaves room for the
   length in the last block, and the length in bits as a 64-bit number.
   */
  lemma PaddingIsStandard(m: seq<bv8>)
    requires |m| < 0x2000_0000_0000_0000
    ensures var p := Padded(m);
            && m + [0x80] <= p && |p| % 64 == 0
            && (forall i :: |m| < i < |p| - 8 ==> p[i] == 0)
            && |p| - |m| < 73
            && exists length: seq<byte> ::
                 |length| == 8 && FromBigEndian(length) == 8 * |m| && forall i :: 0 <= i < 8 ==>
                     p[|p| - 8 + i] == length[i] as bv8
  {
    var length := ToBigEndian(8 * |m|, 8);
    PowerEight();
    FromToBigEndian(8 * |m|, 8);
    var p := Padded(m);
    forall i | 0 <= i < 8 ensures p[|p| - 8 + i] == length[i] as bv8 {
      assert p[|p| - 8 + i] == LengthBytes(|m|)[i];
    }
  }

  lemma PowerEight()
    ensures Power(8) == 0x1_0000_0000_0000_0000
  {
    assert Power(4) == 0x1_0000_0000;
    assert Power(8) == 256 * 256 * 256 * 256 * Power(4);
  }

  /** A message of whole blocks and one more. */
  lemma CompressedNext(m: seq<bv8>, block: Chunk)
    requires |m| % 64 == 0
    ensures Compressed(m + block) == HashBlock(Compressed(m), block)
  {
    hide HashBlock;
    var n := |m + block| - 64;
    assert (m + block)[..n] == m && (m + block)[n..] == block;
  }

  /** The whole blocks at the start of a message. */
  function Whole(m: seq<bv8>): (w: seq<bv8>)
    ensures |w| % 64 == 0 && |w| == |m| - |m| % 64
  {
    m[..|m| - |m| % 64]
  }

  /** What is left of a message after its whole blocks. */
  function Rest(m: seq<bv8>): (r: seq<bv8>)
    ensures |r| == |m| % 64 && m == Whole(m) + r
  {
    m[|m| - |m| % 64..]
  }

  lemma WholeParts(m: seq<bv8>, n: nat)
    requires n % 64 == 0 && n <= |m| < n + 64
    ensures Whole(m) == m[..n] && Rest(m) == m[n..] && |m| % 64 == |m| - n
  {
  }

  /** The last one or two blocks of a padded message. */
  lemma PaddedBlocks(m: seq<bv8>)
    ensures var c := |m| % 64;
            if c < 56 then
              Padded(m) == Whole(m) + (Rest(m) + [0x80] + Zeros(55 - c) + LengthBytes(|m|))
            else
              Padded(m) == Whole(m) + (Rest(m) + [0x80] + Zeros(63 - c)) + (Zeros(56) + LengthBytes(|m|))
  {
    hide LengthBytes;
    var c := |m| % 64;
    if c < 56 {
      assert Gap(|m|) == 55 - c;
    } else {
      assert Gap(|m|) == 119 - c;
      assert Zeros(119 - c) == Zeros(63 - c) + Zeros(56);
    }
  }

  /** Copies bytes into a buffer. */
  method CopyInto(buffer: array<bv8>, start: nat, bytes: seq<bv8>)
    requires start + |bytes| <= buffer.Length
    modifies buffer
    ensures buffer[..] == old(buffer[..start]) + bytes + old(buffer[start + |bytes|..])
  {
    for i := 0 to |bytes|
      invariant forall j :: 0 <= j < buffer.Length ==>
        buffer[j] == if start <= j < start + i then bytes[j - start] else old(buffer[j])
    {
      buffer[start + i] := bytes[i];
    }
  }

  class Sha256 {
    const state: array<bv32>
    const block: array<bv8>
    var totalLen: nat
    ghost var message: seq<bv8>

    /** The whole blocks of the message are hashed, the rest is at the start of the buffer. */
    ghost predicate Valid()
      reads this, state, block
    {
      && state.Length == 8 && block.Length == 64 && totalLen == |message|
      && state[..] == Compressed(Whole(message))
      && block[..|message| % 64] == Rest(message)
    }

    constructor ()
      ensures Valid() && message == [] && fresh(state) && fresh(block)
    {
      hide InitialState, HashBlock;
      state := new bv32[8](i requires 0 <= i < 8 => InitialState()[i]);
      block := new bv8[64](_ => 0);
      totalLen := 0;
      message := [];
      new;
      assert state[..] == InitialState();
    }

    /** Hashes more of the message. */
    method Update(contents: seq<bv8>)
      requires Valid()
      modifies this`totalLen, this`message, state, block
      ensures Valid() && message == old(message) + contents
    {
      hide HashBlock, Compressed, Whole, Rest;
      var cursor := totalLen % 64;
      var left := 64 - cursor;
      totalLen := totalLen + |contents|;
      ghost var m, whole := message, Whole(message);
      ghost var all := m + contents;
      message := all;
      if |contents| < left {
        CopyInto(block, cursor, contents);
        assert all[..|whole|] == whole && all[|whole|..] == Rest(m) + contents;
        WholeParts(all, |whole|);
        assert block[..cursor + |contents|] == Rest(m) + contents;
      } else {
        CopyInto(block, cursor, contents[..left]);
        assert block[..] == Rest(m) + contents[..left];
        HashBlockInPlace(state, block[..]);
        CompressedNext(whole, block[..]);
        ghost var done := |whole| + 64;
        assert all[..done] == whole + block[..] && all[done..] == contents[left..];
        var rest := HashBlocks(contents[left..], all, done);
        CopyInto(block, 0, rest);
        assert block[..|rest|] == rest;
      }
    }

    /** Hashes the whole blocks of what is left of a message; returns what is left after them. */
    method HashBlocks(contents: seq<bv8>, ghost all: seq<bv8>, ghost done: nat) returns (rest: seq<bv8>)
      requires state.Length == 8 && done <= |all| && done % 64 == 0 && contents == all[done..]
      requires state[..] == Compressed(all[..done])
      modifies state
      ensures state[..] == Compressed(Whole(all)) && rest == Rest(all)
    {
      hide HashBlock, Compressed, Whole, Rest;
      rest := contents;
      ghost var n: nat := done;
      while |rest| >= 64
        invariant n <= |all| && n % 64 == 0 && rest == all[n..]
        invariant state[..] == Compressed(all[..n])
      {
        HashBlockInPlace(state, rest[..64]);
        CompressedNext(all[..n], rest[..64]);
        assert all[..n + 64] == all[..n] + rest[..64];
        rest := rest[64..];
        n := n + 64;
      }
      WholeParts(all, n);
    }

    /** Returns the hash of the message. The state may not be used any more. */
    method Finalize() returns (digest: seq<bv8>)
      requires Valid()
      modifies state, block
      ensures digest == Digest(message)
    {
      hide HashBlock, Compressed, LengthBytes, BytesOf, Padded;
      ghost var m, whole, rest := message, Whole(message), Rest(message);
      var cursor := totalLen % 64;
      PaddedBlocks(m);
      block[cursor] := 0x80;
      for i := cursor + 1 to 64
        invariant state[..] == old(state[..]) && block[..cursor + 1] == rest + [0x80]
        invariant forall j :: cursor < j < i ==> block[j] == 0
      {
        block[i] := 0;
      }
      assert block[..] == rest + [0x80] + Zeros(63 - cursor);
      ghost var hashed := whole;
      if cursor >= 56 {
        HashBlockInPlace(state, block[..]);
        CompressedNext(whole, block[..]);
        hashed := whole + block[..];
        for i := 0 to 64
          invariant state[..] == Compressed(hashed)
          invariant forall j :: 0 <= j < i ==> block[j] == 0
        {
          block[i] := 0;
        }
        assert block[..56] == Zeros(56);
      } else {
        assert block[..56] == rest + [0x80] + Zeros(55 - cursor);
      }
      CopyInto(block, 56, LengthBytes(totalLen));
      HashBlockInPlace(state, block[..]);
      CompressedNext(hashed, block[..]);
      assert Padded(m) == hashed + block[..];
      digest := [];
      for i := 0 to 8
        invariant state[..] == Compressed(Padded(m))
        invariant digest == StateBytes(state[..])[..4 * i]
      {
        StateWord(state[..], i);
        digest := digest + BytesOf(state[i]);
      }
    }
  }

  lemma StateWord(s: State, i: nat)
    requires i < 8
    ensures StateBytes(s)[..4 * i + 4] == StateBytes(s)[..4 * i] + BytesOf(s[i])
  {
    hide BytesOf;
  }

  /** Hashes a message at once. */
  method Hash(contents: seq<bv8>) returns (digest: seq<bv8>)
    ensures digest == Digest(contents)
  {
    hide Digest, Compressed, HashBlock, Whole, Rest;
    var hasher := new Sha256();
    hasher.Update(contents);
    assert hasher.message == contents;
    digest := hasher.Finalize();
  }

  /** Hashes a message that comes in pieces: how it is cut does not matter. */
  method HashPieces(pieces: seq<seq<bv8>>) returns (digest: seq<bv8>)
    ensures digest == Digest(Joined(pieces))
  {
    hide Digest, Compressed, HashBlock, Whole, Rest;
    var hasher := new Sha256();
    for i := 0 to |pieces|
      invariant hasher.Valid() && fresh(hasher) && fresh(hasher.state) && fresh(hasher.block)
      invariant hasher.message == Joined(pieces[..i])
    {
      hasher.Update(pieces[i]);
      assert pieces[..i + 1][..i] == pieces[..i];
    }
    assert pieces[..|pieces|] == pieces;
    digest := hasher.Finalize();
  }

  function Joined(pieces: seq<seq<bv8>>): seq<bv8> {
    if pieces == [] then [] else Joined(pieces[..|pieces| - 1]) + pieces[|pieces| - 1]
  }
}
