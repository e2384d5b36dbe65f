/** The canonical CBOR writer. */
module CborWriter {
  import opened Bytes
  import opened CborValues

  const MAX_NESTING_DEPTH: int := 4

  /** How many bytes follow the first one to give a size. */
  function Width(size: nat): (n: nat)
    ensures n <= 8
  {
    if size <= 23 then 0
    else if size <= 0xff then 1
    else if size <= 0xffff then 2
    else if size <= 0xffff_ffff then 4
    else 8
  }

  /** The additional information of the first byte. */
  function Additional(size: nat): (a: nat)
    ensures a <= 27
  {
    if size <= 23 then size
    else if size <= 0xff then 24
    else if size <= 0xffff then 25
    else if size <= 0xffff_ffff then 26
    else 27
  }

  /** The first bytes of an item: its type and its size. */
  function StartItem(major: nat, size: nat): (bytes: seq<byte>)
    requires major < 8
    ensures |bytes| == 1 + Width(size)
  {
    [(major * 32 + Additional(size)) as byte] + ToBigEndian(size, Width(size))
  }

  function KeySize(key: KeyType): nat {
    match key
    case Unsigned(u) => u
    case Negative(n) => if n < 0 then -1 * (n + 1) else 0
    case ByteString(bytes) => |bytes|
    case TextString(text) => |text|
  }

  function KeyContent(key: KeyType): seq<byte> {
    match key
    case Unsigned(_) => []
    case Negative(_) => []
    case ByteString(bytes) => bytes
    case TextString(text) => text
  }

  function EncodeKey(key: KeyType): seq<byte> {
    StartItem(TypeLabel(key), KeySize(key)) + KeyContent(key)
  }

  /** The bytes that the writer appends for a value, and whether it is not nested too deep. */
  function Encode(v: Value, depth: int): (r: (seq<byte>, bool))
    decreases depth, 0
  {
    if depth < 0 then ([], false)
    else
      match v
      case KeyValue(key) => (EncodeKey(key), true)
      case Array(elements) =>
        var r := EncodeElements(elements, depth - 1);
        (StartItem(4, |elements|) + r.0, r.1)
      case Map(entries) =>
        var r := EncodeEntries(entries, depth - 1);
        (StartItem(5, |entries|) + r.0, r.1)
      case Simple(simple) => (StartItem(7, SimpleNumber(simple)), true)
  }

  /** The bytes that the writer appends for the elements of an array, up to one that is nested too deep. */
  function EncodeElements(vs: seq<Value>, depth: int): (r: (seq<byte>, bool))
    decreases depth, |vs| + 1
  {
    if vs == [] then ([], true)
    else
      var n := |vs| - 1;
      var before := EncodeElements(vs[..n], depth);
      if !before.1 || depth < 0 then (before.0, false)
      else
        var last := Encode(vs[n], depth);
        (before.0 + last.0, last.1)
  }

  /** The bytes that the writer appends for the entries of a map. */
  function EncodeEntries(es: seq<Entry>, depth: int): (r: (seq<byte>, bool))
    decreases depth, |es| + 1
  {
    if es == [] then ([], true)
    else
      var n := |es| - 1;
      var before := EncodeEntries(es[..n], depth);
      if !before.1 || depth < 0 then (before.0, false)
      else
        var last := Encode(es[n].value, depth);
        (before.0 + (EncodeKey(es[n].key) + last.0), last.1)
  }

  /** The nesting of a value. */
  ghost predicate Nested(v: Value, depth: int)
    decreases v
  {
    && depth >= 0
    && match v
       case KeyValue(_) => true
       case Array(elements) => forall i :: 0 <= i < |elements| ==> Nested(elements[i], depth - 1)
       case Map(entries) => forall i :: 0 <= i < |entries| ==> depth >= 1 && Nested(entries[i].value, depth - 1)
       case Simple(_) => true
  }

  /** The writer succeeds exactly on the values that are not nested too deep. */
  lemma {:induction false} EncodeNested(v: Value, depth: int)
    ensures Encode(v, depth).1 <==> Nested(v, depth)
    decreases depth, 0
  {
    if depth >= 0 {
      match v
      case KeyValue(_) =>
      case Array(elements) => ElementsNested(elements, depth - 1);
      case Map(entries) => EntriesNested(entries, depth - 1);
      case Simple(_) =>
    }
  }

  lemma {:induction false} ElementsNested(vs: seq<Value>, depth: int)
    ensures EncodeElements(vs, depth).1 <==> forall i :: 0 <= i < |vs| ==> Nested(vs[i], depth)
    decreases depth, |vs| + 1
  {
    if vs != [] {
      var n := |vs| - 1;
      ElementsNested(vs[..n], depth);
      if depth >= 0 { EncodeNested(vs[n], depth); }
      assert forall i :: 0 <= i < n ==> vs[..n][i] == vs[i];
    }
  }

  lemma {:induction false} EntriesNested(es: seq<Entry>, depth: int)
    ensures EncodeEntries(es, depth).1 <==> forall i :: 0 <= i < |es| ==> depth >= 0 && Nested(es[i].value, depth)
    decreases depth, |es| + 1
  {
    if es != [] {
      var n := |es| - 1;
      EntriesNested(es[..n], depth);
      if depth >= 0 { EncodeNested(es[n].value, depth); }
      assert forall i :: 0 <= i < n ==> es[..n][i] == es[i];
    }
  }

  class Writer {
    var encoded: seq<byte>

    constructor (encoded: seq<byte>)
      ensures this.encoded == encoded
    {
      this.encoded := encoded;
    }

    /** Appends the first bytes of an item. */
    method AppendStart(major: nat, size: nat)
      requires major < 8 && size < U64
      modifies this
      ensures encoded == old(encoded) + StartItem(major, size)
    {
      hide ToBigEndian, Width;
      var width := Width(size);
      encoded := encoded + [(major * 32 + Additional(size)) as byte];
      ghost var before := encoded;
      NoBytes(size, width);
      var i := width;
      while i > 0
        invariant 0 <= i <= width
        invariant encoded == before + ToBigEndian(HighPart(size, i), width - i)
      {
        i := i - 1;
        ByteStep(size, i, width);
        encoded := encoded + [(HighPart(size, i) % 256) as byte];
      }
      assert HighPart(size, 0) == size;
    }

    /** Appends a value; returns whether it is not nested too deep. */
    method EncodeCbor(v: Value, depth: int) returns (ok: bool)
      requires WellFormed(v)
      modifies this
      ensures encoded == old(encoded) + Encode(v, depth).0 && ok == Encode(v, depth).1
      decreases if depth < 0 then 0 else depth + 1, 0
    {
      hide StartItem, EncodeElements, EncodeEntries, KeySize, KeyContent;
      if depth < 0 {
        return false;
      }
      match v {
        case KeyValue(key) =>
          KeySizeFits(key);
          AppendStart(TypeLabel(key), KeySize(key));
          encoded := encoded + KeyContent(key);
          return true;
        case Array(elements) =>
          AppendStart(4, |elements|);
          ok := EncodeArray(elements, depth - 1);
        case Map(entries) =>
          AppendStart(5, |entries|);
          ok := EncodeMap(entries, depth - 1);
        case Simple(simple) =>
          AppendStart(7, SimpleNumber(simple));
          return true;
      }
    }

    /** Appends the elements of an array. */
    method EncodeArray(elements: seq<Value>, depth: int) returns (ok: bool)
      requires depth >= -1 && forall i :: 0 <= i < |elements| ==> WellFormed(elements[i])
      modifies this
      ensures encoded == old(encoded) + EncodeElements(elements, depth).0 && ok == EncodeElements(elements, depth).1
      decreases depth + 1, 1
    {
      hide Encode, EncodeElements, WellFormed;
      ghost var before := encoded;
      NoElements(elements, depth);
      for i := 0 to |elements|
        invariant EncodeElements(elements[..i], depth).1
        invariant encoded == before + EncodeElements(elements[..i], depth).0
      {
        ElementsStep(elements, depth, i);
        ok := EncodeCbor(elements[i], depth);
        if !ok {
          ElementsFail(elements, depth, i + 1);
          return;
        }
      }
      assert elements[..|elements|] == elements;
      return true;
    }

    /** Appends the entries of a map. */
    method EncodeMap(entries: seq<Entry>, depth: int) returns (ok: bool)
      requires depth >= -1 && forall i :: 0 <= i < |entries| ==>
                 ValidKey(entries[i].key) && WellFormed(entries[i].value)
      modifies this
      ensures encoded == old(encoded) + EncodeEntries(entries, depth).0 && ok == EncodeEntries(entries, depth).1
      decreases depth + 1, 1
    {
      hide Encode, EncodeEntries, ValidKey, EncodeKey;
      ghost var before := encoded;
      NoEntries(entries, depth);
      for i := 0 to |entries|
        invariant EncodeEntries(entries[..i], depth).1
        invariant encoded == before + EncodeEntries(entries[..i], depth).0
      {
        EntriesStep(entries, depth, i);
        KeyEncoded(entries[i].key, depth);
        ok := EncodeCbor(KeyValue(entries[i].key), depth);
        if !ok {
          EntriesFail(entries, depth, i + 1);
          return;
        }
        ok := EncodeCbor(entries[i].value, depth);
        if !ok {
          EntriesFail(entries, depth, i + 1);
          return;
        }
      }
      assert entries[..|entries|] == entries;
      return true;
    }
  }

  lemma KeySizeFits(key: KeyType)
    requires ValidKey(key)
    ensures KeySize(key) < U64
  {
  }

  lemma NoElements(vs: seq<Value>, depth: int)
    ensures EncodeElements(vs[..0], depth) == ([], true)
  {
  }

  lemma NoEntries(es: seq<Entry>, depth: int)
    ensures EncodeEntries(es[..0], depth) == ([], true)
  {
  }

  lemma KeyEncoded(key: KeyType, depth: int)
    ensures Encode(KeyValue(key), depth) == if depth < 0 then ([], false) else (EncodeKey(key), true)
  {
  }

  lemma ElementsStep(vs: seq<Value>, depth: int, i: nat)
    requires i < |vs| && EncodeElements(vs[..i], depth).1
    ensures EncodeElements(vs[..i + 1], depth) == (EncodeElements(vs[..i], depth).0 + Encode(vs[i], depth).0,
                                                   Encode(vs[i], depth).1)
  {
    assert vs[..i + 1][..i] == vs[..i];
    assert EncodeElements(vs[..i], depth).0 + [] == EncodeElements(vs[..i], depth).0;
  }

  lemma EntriesStep(es: seq<Entry>, depth: int, i: nat)
    requires i < |es| && EncodeEntries(es[..i], depth).1
    ensures EncodeEntries(es[..i + 1], depth) ==
            if depth < 0 then (EncodeEntries(es[..i], depth).0, false)
            else (EncodeEntries(es[..i], depth).0 + (EncodeKey(es[i].key) + Encode(es[i].value, depth).0),
                  Encode(es[i].value, depth).1)
  {
    hide EncodeKey;
    assert es[..i + 1][..i] == es[..i];
  }

  lemma {:induction false} ElementsFail(vs: seq<Value>, depth: int, n: nat)
    requires n <= |vs| && !EncodeElements(vs[..n], depth).1
    ensures EncodeElements(vs, depth) == EncodeElements(vs[..n], depth)
    decreases |vs|
  {
    if n == |vs| {
      assert vs[..n] == vs;
    } else {
      var m := |vs| - 1;
      assert vs[..m][..n] == vs[..n];
      ElementsFail(vs[..m], depth, n);
    }
  }

  lemma {:induction false} EntriesFail(es: seq<Entry>, depth: int, n: nat)
    requires n <= |es| && !EncodeEntries(es[..n], depth).1
    ensures EncodeEntries(es, depth) == EncodeEntries(es[..n], depth)
    decreases |es|
  {
    if n == |es| {
      assert es[..n] == es;
    } else {
      var m := |es| - 1;
      assert es[..m][..n] == es[..n];
      EntriesFail(es[..m], depth, n);
    }
  }

  /** A size without its lowest bytes. */
  function HighPart(size: nat, i: nat): nat {
    if i == 0 then size else HighPart(size, i - 1) / 256
  }

  lemma NoBytes(size: nat, width: nat)
    ensures ToBigEndian(HighPart(size, width), 0) == []
  {
  }

  /** The bytes of a size, one more. */
  lemma ByteStep(size: nat, i: nat, width: nat)
    requires i < width
    ensures ToBigEndian(HighPart(size, i), width - i)
         == ToBigEndian(HighPart(size, i + 1), width - (i + 1)) + [(HighPart(size, i) % 256) as byte]
  {
  }

  /** Writes a value at the end of some bytes. */
  method Write(v: Value, encoded: seq<byte>) returns (ok: bool, result: seq<byte>)
    requires WellFormed(v)
    ensures ok <==> Nested(v, MAX_NESTING_DEPTH)
    ensures result == encoded + Encode(v, MAX_NESTING_DEPTH).0
  {
    EncodeNested(v, MAX_NESTING_DEPTH);
    var writer := new Writer(encoded);
    ok := writer.EncodeCbor(v, MAX_NESTING_DEPTH);
    result := writer.encoded;
  }
}
