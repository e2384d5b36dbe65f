/** Bytes, and numbers written as bytes. */
module Bytes {
  newtype byte = b: int | 0 <= b < 256

  function Power(n: nat): (p: nat)
    ensures p > 0
  {
    if n == 0 then 1 else 256 * Power(n - 1)
  }

  /** The number that bytes represent, the most significant first. */
  function FromBigEndian(bytes: seq<byte>): nat {
    if bytes == [] then 0 else 256 * FromBigEndian(bytes[..|bytes| - 1]) + bytes[|bytes| - 1] as nat
  }

  /** The lowest bytes of a number, the most significant first. */
  function ToBigEndian(v: nat, n: nat): (bytes: seq<byte>)
    ensures |bytes| == n
  {
    if n == 0 then [] else ToBigEndian(v / 256, n - 1) + [(v % 256) as byte]
  }

  lemma {:induction false} BigEndianBound(bytes: seq<byte>)
    ensures FromBigEndian(bytes) < Power(|bytes|)
  {
    if bytes != [] {
      BigEndianBound(bytes[..|bytes| - 1]);
    }
  }

  lemma {:induction false} FromToBigEndian(v: nat, n: nat)
    requires v < Power(n)
    ensures FromBigEndian(ToBigEndian(v, n)) == v
  {
    if n > 0 {
      FromToBigEndian(v / 256, n - 1);
      var bytes := ToBigEndian(v, n);
      assert bytes[..n - 1] == ToBigEndian(v / 256, n - 1);
    }
  }

  lemma {:induction false} ToFromBigEndian(bytes: seq<byte>)
    ensures ToBigEndian(FromBigEndian(bytes), |bytes|) == bytes
  {
    if bytes != [] {
      var n := |bytes| - 1;
      ToFromBigEndian(bytes[..n]);
      assert FromBigEndian(bytes) / 256 == FromBigEndian(bytes[..n]);
      assert bytes == bytes[..n] + [bytes[n]];
    }
  }

  /** Bytewise lexicographic order. */
  predicate LexLess(a: seq<byte>, b: seq<byte>) {
    b != [] && (a == [] || a[0] < b[0] || (a[0] == b[0] && LexLess(a[1..], b[1..])))
  }

  lemma {:induction false} LexPrefix(p: seq<byte>, a: seq<byte>, b: seq<byte>)
    ensures LexLess(p + a, p + b) == LexLess(a, b)
  {
    if p == [] {
      assert p + a == a && p + b == b;
    } else {
      LexPrefix(p[1..], a, b);
      assert (p + a)[1..] == p[1..] + a && (p + b)[1..] == p[1..] + b;
    }
  }

  lemma {:induction false} LexExtends(a: seq<byte>, b: seq<byte>, x: seq<byte>, y: seq<byte>)
    requires |a| == |b| && LexLess(a, b)
    ensures LexLess(a + x, b + y)
  {
    if a[0] == b[0] {
      LexExtends(a[1..], b[1..], x, y);
      assert (a + x)[1..] == a[1..] + x && (b + y)[1..] == b[1..] + y;
    }
  }

  lemma {:induction false} LexTotal(a: seq<byte>, b: seq<byte>)
    ensures LexLess(a, b) || LexLess(b, a) || a == b
    ensures !(LexLess(a, b) && LexLess(b, a))
    ensures !LexLess(a, a)
  {
    if a != [] {
      LexTotal(a[1..], if b == [] then [] else b[1..]);
      assert b != [] && a[0] == b[0] && a[1..] == b[1..] ==> a == [a[0]] + a[1..] && b == [b[0]] + b[1..];
    }
  }

  lemma {:induction false} LexTransitive(a: seq<byte>, b: seq<byte>, c: seq<byte>)
    requires LexLess(a, b) && LexLess(b, c)
    ensures LexLess(a, c)
  {
    if a != [] && a[0] == b[0] == c[0] {
      LexTransitive(a[1..], b[1..], c[1..]);
    }
  }

  /** Numbers of the same width are ordered as their bytes. */
  lemma {:induction false} BigEndianLex(a: seq<byte>, b: seq<byte>)
    requires |a| == |b| && FromBigEndian(a) < FromBigEndian(b)
    ensures LexLess(a, b)
  {
    if a != [] {
      var n := |a| - 1;
      if FromBigEndian(a[..n]) < FromBigEndian(b[..n]) {
        BigEndianLex(a[..n], b[..n]);
        LexExtends(a[..n], b[..n], [a[n]], [b[n]]);
        assert a == a[..n] + [a[n]] && b == b[..n] + [b[n]];
      } else {
        assert FromBigEndian(a[..n]) == FromBigEndian(b[..n]);
        BigEndianSame(a[..n], b[..n]);
        LexPrefix(a[..n], [a[n]], [b[n]]);
        assert a == a[..n] + [a[n]] && b == a[..n] + [b[n]];
      }
    }
  }

  lemma BigEndianSame(a: seq<byte>, b: seq<byte>)
    requires |a| == |b| && FromBigEndian(a) == FromBigEndian(b)
    ensures a == b
  {
    ToFromBigEndian(a);
    ToFromBigEndian(b);
  }
}
