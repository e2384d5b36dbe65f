/**
 Words of flash as sequences of bits, least significant bit first, and the bit fields and
 checksums laid over them. A flash write only turns ones into zeros, so the order that matters is
 `Covers`: `Covers(u, w)` says that `w` can be reached from `u` by clearing bits.
 */
module Words {
  import opened Wrappers

  type Bits = seq<bool>

  type Word = w: Bits | |w| == 32 witness seq(32, i => true)

  function Fill(b: bool, n: nat): (r: Bits)
    ensures |r| == n && forall i :: 0 <= i < n ==> r[i] == b
  {
    seq(n, i => b)
  }

  const ERASED_WORD: Word := Fill(true, 32)
  const ZERO_WORD: Word := Fill(false, 32)

  /** Every bit that is one in `w` is one in `u`. */
  predicate Covers(u: Bits, w: Bits) {
    |u| == |w| && forall i :: 0 <= i < |u| && w[i] ==> u[i]
  }

  /** `u` is what an interrupted change from `a` to `b` may leave: some of the bits have changed. */
  predicate Torn(u: Bits, a: Bits, b: Bits) {
    |u| == |a| == |b| && forall i :: 0 <= i < |u| ==> u[i] == a[i] || u[i] == b[i]
  }

  /** Tearing a change that only clears bits leaves a word between both. */
  lemma TornBetween(u: Bits, a: Bits, b: Bits)
    requires Torn(u, a, b) && Covers(a, b)
    ensures Covers(u, b) && Covers(a, u)
  {
  }

  /** The number of bits equal to zero. */
  function Zeros(b: Bits): nat {
    if b == [] then 0 else (if b[0] then 0 else 1) + Zeros(b[1..])
  }

  /** The number that the bits represent in binary. */
  function Num(b: Bits): nat {
    if b == [] then 0 else (if b[0] then 1 else 0) + 2 * Num(b[1..])
  }

  function Pow2(n: nat): nat {
    if n == 0 then 1 else 2 * Pow2(n - 1)
  }

  /** The `n` lowest bits of a number. */
  function ToBits(v: nat, n: nat): (b: Bits)
    ensures |b| == n
  {
    if n == 0 then [] else [v % 2 == 1] + ToBits(v / 2, n - 1)
  }

  function And(a: Bits, b: Bits): (r: Bits)
    requires |a| == |b|
    ensures |r| == |a|
  {
    seq(|a|, i requires 0 <= i < |a| => a[i] && b[i])
  }

  /** Reads the bit field of length `len` at position `pos`. */
  function GetField(w: Word, pos: nat, len: nat): nat
    requires pos + len <= 32
  {
    Num(w[pos..pos + len])
  }

  /**
   Sets a bit field. Only clears bits; fails if the value does not fit or if it has a bit set to one
   where the word already has a zero.
   */
  function SetField(w: Word, pos: nat, len: nat, v: nat): Option<Word>
    requires pos + len <= 32
  {
    if v >= Pow2(len) then None
    else
      var r := w[..pos] + And(w[pos..pos + len], ToBits(v, len)) + w[pos + len..];
      if GetField(r, pos, len) != v then None else Some(r)
  }

  /**
   Reads the external increment of the checksum held in the bits from `pos` to the end of the word:
   the value of the field minus the number of zeros before it. Fails if that is negative.
   */
  function GetChecksum(w: Word, pos: nat): Option<nat>
    requires pos <= 32
  {
    var checksum := GetField(w, pos, 32 - pos);
    var zeros := Zeros(w[..pos]);
    if checksum < zeros then None else Some(checksum - zeros)
  }

  /** Sets the checksum so that it reads as the given external increment. */
  function SetChecksum(w: Word, pos: nat, v: nat): Option<Word>
    requires pos <= 32
  {
    SetField(w, pos, 32 - pos, Zeros(w) + v)
  }

  lemma {:induction false} NumBound(b: Bits)
    ensures Num(b) < Pow2(|b|)
  {
    if b != [] {
      NumBound(b[1..]);
    }
  }

  lemma {:induction false} NumOnes(b: Bits)
    requires forall i :: 0 <= i < |b| ==> b[i]
    ensures Num(b) + 1 == Pow2(|b|)
  {
    if b != [] {
      NumOnes(b[1..]);
    }
  }

  lemma {:induction false} NumToBits(v: nat, n: nat)
    requires v < Pow2(n)
    ensures Num(ToBits(v, n)) == v
  {
    if n != 0 {
      NumToBits(v / 2, n - 1);
      assert ToBits(v, n)[1..] == ToBits(v / 2, n - 1);
    }
  }

  lemma {:induction false} ZerosConcat(a: Bits, b: Bits)
    ensures Zeros(a + b) == Zeros(a) + Zeros(b)
  {
    if a == [] {
      assert a + b == b;
    } else {
      ZerosConcat(a[1..], b);
      assert (a + b)[1..] == a[1..] + b;
    }
  }

  lemma {:induction false} ZerosOnes(b: Bits)
    requires forall i :: 0 <= i < |b| ==> b[i]
    ensures Zeros(b) == 0
  {
    if b != [] {
      ZerosOnes(b[1..]);
    }
  }

  lemma {:induction false} ZerosBound(b: Bits)
    ensures Zeros(b) <= |b|
    ensures Zeros(b) == 0 ==> forall i :: 0 <= i < |b| ==> b[i]
  {
    if b != [] {
      ZerosBound(b[1..]);
      if Zeros(b) == 0 {
        forall i | 0 <= i < |b| ensures b[i] {
          if i > 0 { assert b[i] == b[1..][i - 1]; }
        }
      }
    }
  }

  /** Clearing bits only adds zeros, and adds none only when no bit is cleared. */
  lemma {:induction false} ZerosMonotone(u: Bits, w: Bits)
    requires Covers(u, w)
    ensures Zeros(u) <= Zeros(w)
    ensures Zeros(u) == Zeros(w) ==> u == w
  {
    if u != [] {
      ZerosMonotone(u[1..], w[1..]);
      assert u == [u[0]] + u[1..] && w == [w[0]] + w[1..];
    }
  }

  /** Clearing bits only decreases the represented number, strictly when some bit is cleared. */
  lemma {:induction false} NumMonotone(u: Bits, w: Bits)
    requires Covers(u, w)
    ensures Num(u) >= Num(w)
    ensures Num(u) == Num(w) ==> u == w
  {
    if u != [] {
      NumMonotone(u[1..], w[1..]);
      assert u == [u[0]] + u[1..] && w == [w[0]] + w[1..];
    }
  }

  lemma CoversSlice(u: Bits, w: Bits, lo: nat, hi: nat)
    requires Covers(u, w) && lo <= hi <= |u|
    ensures Covers(u[lo..hi], w[lo..hi])
  {
  }

  /** Setting a field whose bits are all ones stores the value and touches nothing else. */
  lemma SetFieldOnOnes(w: Word, pos: nat, len: nat, v: nat)
    requires pos + len <= 32
    requires forall i :: pos <= i < pos + len ==> w[i]
    requires v < Pow2(len)
    ensures SetField(w, pos, len, v) == Some(w[..pos] + ToBits(v, len) + w[pos + len..])
    ensures GetField(w[..pos] + ToBits(v, len) + w[pos + len..], pos, len) == v
  {
    hide Num, ToBits, Pow2;
    var b := ToBits(v, len);
    assert And(w[pos..pos + len], b) == b;
    var r := w[..pos] + b + w[pos + len..];
    assert r[pos..pos + len] == b;
    NumToBits(v, len);
  }

  /**
   The checksum lemma. Let `w` be a word whose checksum reads `c`, and `u` any word between the
   erased word and `w`. Then the checksum of `u` never reads negative, never reads less than `c`,
   and reads `c` only for `w` itself.
   */
  lemma ChecksumDetectsTearing(u: Word, w: Word, pos: nat)
    requires pos <= 32
    requires Covers(u, w)
    requires GetChecksum(w, pos).Some?
    ensures GetChecksum(u, pos).Some?
    ensures GetChecksum(u, pos).value >= GetChecksum(w, pos).value
    ensures GetChecksum(u, pos).value == GetChecksum(w, pos).value ==> u == w
  {
    hide Num, Zeros;
    CoversSlice(u, w, 0, pos);
    CoversSlice(u, w, pos, 32);
    ZerosMonotone(u[..pos], w[..pos]);
    NumMonotone(u[pos..32], w[pos..32]);
    assert u == u[..pos] + u[pos..32] && w == w[..pos] + w[pos..32];
  }

  /** A checksum that was set reads back, and detects every tearing of the word. */
  lemma SetChecksumReads(w: Word, pos: nat, v: nat)
    requires pos <= 32
    requires forall i :: pos <= i < 32 ==> w[i]
    requires Zeros(w[..pos]) + v < Pow2(32 - pos)
    ensures Zeros(w) == Zeros(w[..pos])
    ensures SetChecksum(w, pos, v) == Some(w[..pos] + ToBits(Zeros(w[..pos]) + v, 32 - pos))
    ensures GetChecksum(w[..pos] + ToBits(Zeros(w[..pos]) + v, 32 - pos), pos) == Some(v)
  {
    hide Num, ToBits, Pow2, Zeros;
    assert w == w[..pos] + w[pos..];
    ZerosConcat(w[..pos], w[pos..]);
    ZerosOnes(w[pos..]);
    SetFieldOnOnes(w, pos, 32 - pos, Zeros(w) + v);
    var r := w[..pos] + ToBits(Zeros(w[..pos]) + v, 32 - pos);
    assert r == w[..pos] + ToBits(Zeros(w) + v, 32 - pos) + w[32..];
    assert r[..pos] == w[..pos];
  }
}
