/** CBOR values and the order of map keys. */
module CborValues {
  import opened Wrappers
  import opened Bytes

  /** Map keys: integers and strings. A text string is given by its bytes in UTF-8. */
  datatype KeyType =
    | Unsigned(u: nat)
    | Negative(n: int)
    | ByteString(bytes: seq<byte>)
    | TextString(text: seq<byte>)

  datatype SimpleValue = FalseValue | TrueValue | NullValue | Undefined

  datatype Entry = Entry(key: KeyType, value: Value)

  /** A map is given by its entries in the order of their keys. */
  datatype Value =
    | KeyValue(key: KeyType)
    | Array(elements: seq<Value>)
    | Map(entries: seq<Entry>)
    | Simple(simple: SimpleValue)

  const U64: nat := 0x1_0000_0000_0000_0000
  const I64: nat := 0x8000_0000_0000_0000

  function TypeLabel(key: KeyType): (major: nat)
    ensures major < 4
  {
    match key
    case Unsigned(_) => 0
    case Negative(_) => 1
    case ByteString(_) => 2
    case TextString(_) => 3
  }

  function SimpleNumber(s: SimpleValue): nat {
    match s
    case FalseValue => 20
    case TrueValue => 21
    case NullValue => 22
    case Undefined => 23
  }

  function SimpleFrom(n: nat): Option<SimpleValue> {
    if n == 20 then Some(FalseValue)
    else if n == 21 then Some(TrueValue)
    else if n == 22 then Some(NullValue)
    else if n == 23 then Some(Undefined)
    else None
  }

  predicate Continues(b: byte) {
    0x80 <= b <= 0xbf
  }

  /** Whether some bytes are valid UTF-8 (section 4 of RFC 3629). */
  predicate Utf8(b: seq<byte>) {
    if b == [] then true
    else if b[0] <= 0x7f then Utf8(b[1..])
    else if 0xc2 <= b[0] <= 0xdf then |b| >= 2 && Continues(b[1]) && Utf8(b[2..])
    else if 0xe0 <= b[0] <= 0xef then
      && |b| >= 3 && Continues(b[1]) && Continues(b[2])
      && (b[0] == 0xe0 ==> b[1] >= 0xa0) && (b[0] == 0xed ==> b[1] <= 0x9f)
      && Utf8(b[3..])
    else if 0xf0 <= b[0] <= 0xf4 then
      && |b| >= 4 && Continues(b[1]) && Continues(b[2]) && Continues(b[3])
      && (b[0] == 0xf0 ==> b[1] >= 0x90) && (b[0] == 0xf4 ==> b[1] <= 0x8f)
      && Utf8(b[4..])
    else false
  }

  /** The values that a key can have. */
  predicate ValidKey(key: KeyType) {
    match key
    case Unsigned(u) => u < U64
    case Negative(n) => -1 * I64 <= n < 0
    case ByteString(bytes) => |bytes| < U64
    case TextString(text) => |text| < U64 && Utf8(text)
  }

  // ---------------------------------------------------------------------------------------------
  // The order of keys

  datatype Ordering = Less | Equal | Greater {
    function Then(next: Ordering): Ordering {
      if Equal? then next else this
    }

    function Reverse(): Ordering {
      match this
      case Less => Greater
      case Equal => Equal
      case Greater => Less
    }
  }

  function CompareInt(a: int, b: int): Ordering {
    if a < b then Less else if a == b then Equal else Greater
  }

  function CompareBytes(a: seq<byte>, b: seq<byte>): Ordering {
    if a == [] then (if b == [] then Equal else Less)
    else if b == [] then Greater
    else CompareInt(a[0] as int, b[0] as int).Then(CompareBytes(a[1..], b[1..]))
  }

  function Compare(a: KeyType, b: KeyType): Ordering {
    if TypeLabel(a) != TypeLabel(b) then CompareInt(TypeLabel(a), TypeLabel(b))
    else
      match a
      case Unsigned(u) => CompareInt(u, b.u)
      case Negative(n) => CompareInt(n, b.n).Reverse()
      case ByteString(bytes) => CompareInt(|bytes|, |b.bytes|).Then(CompareBytes(bytes, b.bytes))
      case TextString(text) => CompareInt(|text|, |b.text|).Then(CompareBytes(text, b.text))
  }

  lemma {:induction false} CompareBytesIs(a: seq<byte>, b: seq<byte>)
    ensures CompareBytes(a, b) == if LexLess(a, b) then Less else if a == b then Equal else Greater
    ensures LexLess(b, a) <==> CompareBytes(a, b) == Greater
  {
    LexTotal(a, b);
    if a != [] && b != [] {
      CompareBytesIs(a[1..], b[1..]);
      assert a[0] == b[0] && a[1..] == b[1..] ==> a == [a[0]] + a[1..] && b == [b[0]] + b[1..];
    }
  }

  /** The order of keys is total: `Equal` means equal, and swapping keys reverses it. */
  lemma CompareTotal(a: KeyType, b: KeyType)
    ensures Compare(a, b) == Equal <==> a == b
    ensures Compare(b, a) == Compare(a, b).Reverse()
  {
    match a
    case Unsigned(_) =>
    case Negative(_) =>
    case ByteString(x) =>
      if b.ByteString? {
        CompareBytesIs(x, b.bytes);
        CompareBytesIs(b.bytes, x);
        LexTotal(x, b.bytes);
      }
    case TextString(x) =>
      if b.TextString? {
        CompareBytesIs(x, b.text);
        CompareBytesIs(b.text, x);
        LexTotal(x, b.text);
      }
  }

  lemma CompareTransitive(a: KeyType, b: KeyType, c: KeyType)
    requires Compare(a, b) == Less && Compare(b, c) == Less
    ensures Compare(a, c) == Less
  {
    if a.ByteString? && b.ByteString? && c.ByteString? {
      LessTransitive(a.bytes, b.bytes, c.bytes);
    }
    if a.TextString? && b.TextString? && c.TextString? {
      LessTransitive(a.text, b.text, c.text);
    }
  }

  lemma LessTransitive(a: seq<byte>, b: seq<byte>, c: seq<byte>)
    ensures CompareBytes(a, b) == Less && CompareBytes(b, c) == Less ==> CompareBytes(a, c) == Less
  {
    CompareBytesIs(a, b);
    CompareBytesIs(b, c);
    CompareBytesIs(a, c);
    if LexLess(a, b) && LexLess(b, c) { LexTransitive(a, b, c); }
  }

  /** The keys of a map are in increasing order. */
  ghost predicate SortedEntries(entries: seq<Entry>) {
    forall i, j :: 0 <= i < j < |entries| ==> Compare(entries[i].key, entries[j].key) == Less
  }

  /** The values that the reader returns and that the writer is meant for. */
  ghost predicate WellFormed(v: Value) {
    match v
    case KeyValue(key) => ValidKey(key)
    case Array(elements) => |elements| < U64 && forall i :: 0 <= i < |elements| ==> WellFormed(elements[i])
    case Map(entries) =>
      && |entries| < U64 && SortedEntries(entries)
      && forall i :: 0 <= i < |entries| ==> ValidKey(entries[i].key) && WellFormed(entries[i].value)
    case Simple(_) => true
  }
}
