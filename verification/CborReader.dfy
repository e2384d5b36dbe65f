/** The canonical CBOR reader, of bounded depth. */
module CborReader {
  import opened Wrappers
  import opened Bytes
  import opened CborValues
  import opened CborWriter

  datatype DecoderError =
    | UnsupportedMajorType
    | UnknownAdditionalInfo
    | IncompleteCborData
    | IncorrectMapKeyType
    | TooMuchNesting
    | InvalidUtf8
    | ExtranousData
    | OutOfOrderKey
    | NonMinimalCborEncoding
    | UnsupportedSimpleValue
    | UnsupportedFloatingPointValue
    | OutOfRangeIntegerValue

  /** What is decoded and the bytes that remain. */
  type Decoded<T> = Result<(T, seq<byte>), DecoderError>

  /** The size given by an additional information and the bytes that follow. */
  function DecodeSize(info: nat, bytes: seq<byte>): Decoded<nat> {
    if info <= 23 then Ok((info, bytes))
    else if info > 27 then Err(UnknownAdditionalInfo)
    else
      var n := if info == 24 then 1 else if info == 25 then 2 else if info == 26 then 4 else 8;
      if n > |bytes| then Err(IncompleteCborData)
      else
        var size := FromBigEndian(bytes[..n]);
        if (n == 1 && size < 24) || size < Power(n / 2) then Err(NonMinimalCborEncoding)
        else Ok((size, bytes[n..]))
  }

  function DecodeUnsigned(size: nat): Result<Value, DecoderError> {
    Ok(KeyValue(Unsigned(size)))
  }

  function DecodeNegative(size: nat): Result<Value, DecoderError> {
    if size >= I64 then Err(OutOfRangeIntegerValue) else Ok(KeyValue(Negative(-1 * size - 1)))
  }

  function DecodeBytes(size: nat, bytes: seq<byte>): Decoded<Value> {
    if size > |bytes| then Err(IncompleteCborData) else Ok((KeyValue(ByteString(bytes[..size])), bytes[size..]))
  }

  function DecodeText(size: nat, bytes: seq<byte>): Decoded<Value> {
    if size > |bytes| then Err(IncompleteCborData)
    else if !Utf8(bytes[..size]) then Err(InvalidUtf8)
    else Ok((KeyValue(TextString(bytes[..size])), bytes[size..]))
  }

  function DecodeSimple(size: nat, info: nat): Result<Value, DecoderError> {
    if info > 23 && info != 24 then Err(UnsupportedFloatingPointValue)
    else if SimpleFrom(size).None? then Err(UnsupportedSimpleValue)
    else Ok(Simple(SimpleFrom(size).value))
  }

  /** Decodes one item. */
  function DecodeItem(bytes: seq<byte>, depth: int): Decoded<Value>
    decreases depth, 0
  {
    if depth < 0 then Err(TooMuchNesting)
    else if bytes == [] then Err(IncompleteCborData)
    else
      var major := bytes[0] as nat / 32;
      var info := bytes[0] as nat % 32;
      var r :- DecodeSize(info, bytes[1..]);
      var (size, rest) := r;
      if major == 0 then
        var v :- DecodeUnsigned(size);
        Ok((v, rest))
      else if major == 1 then
        var v :- DecodeNegative(size);
        Ok((v, rest))
      else if major == 2 then DecodeBytes(size, rest)
      else if major == 3 then DecodeText(size, rest)
      else if major == 4 then
        var vs :- DecodeElements(rest, size, depth - 1);
        Ok((Array(vs.0), vs.1))
      else if major == 5 then
        var es :- DecodeEntries(rest, size, depth - 1);
        Ok((Map(es.0), es.1))
      else if major == 7 then
        var v :- DecodeSimple(size, info);
        Ok((v, rest))
      else Err(UnsupportedMajorType)
  }

  /** Decodes the elements of an array. */
  function DecodeElements(bytes: seq<byte>, n: nat, depth: int): Decoded<seq<Value>>
    decreases if depth < 0 then -1 else depth, n + 1
  {
    if n == 0 then Ok(([], bytes))
    else
      var before :- DecodeElements(bytes, n - 1, depth);
      if depth < 0 then Err(TooMuchNesting)
      else
        var last :- DecodeItem(before.1, depth);
        Ok((before.0 + [last.0], last.1))
  }

  /** Decodes the entries of a map; their keys must be in increasing order. */
  function DecodeEntries(bytes: seq<byte>, n: nat, depth: int): Decoded<seq<Entry>>
    decreases if depth < 0 then -1 else depth, n + 1
  {
    if n == 0 then Ok(([], bytes))
    else
      var before :- DecodeEntries(bytes, n - 1, depth);
      if depth < 0 then Err(TooMuchNesting)
      else
        var key :- DecodeItem(before.1, depth);
        if !key.0.KeyValue? then Err(IncorrectMapKeyType)
        else if before.0 != [] && Compare(before.0[|before.0| - 1].key, key.0.key) != Less then Err(OutOfOrderKey)
        else
          var value :- DecodeItem(key.1, depth);
          Ok((before.0 + [Entry(key.0.key, value.0)], value.1))
  }

  /** Decodes a complete encoding. */
  function Decode(bytes: seq<byte>): Result<Value, DecoderError> {
    var r :- DecodeItem(bytes, MAX_NESTING_DEPTH);
    if r.1 != [] then Err(ExtranousData) else Ok(r.0)
  }

  // ---------------------------------------------------------------------------------------------
  // The first bytes of an item

  lemma Powers()
    ensures Power(0) == 1 && Power(1) == 256 && Power(2) == 0x1_0000 && Power(4) == 0x1_0000_0000 && Power(8) == U64
  {
    assert Power(3) == 0x100_0000;
    assert Power(5) == 0x100_0000_0000;
    assert Power(7) == 0x100_0000_0000_0000;
  }

  lemma StartParts(major: nat, size: nat)
    requires major < 8
    ensures StartItem(major, size)[0] as nat / 32 == major && StartItem(major, size)[0] as nat % 32 == Additional(size)
  {
  }

  /** The start of an item is read back. */
  lemma StartReads(major: nat, size: nat, rest: seq<byte>)
    requires major < 8 && size < U64
    ensures var bytes := StartItem(major, size) + rest;
            && bytes != [] && bytes[0] as nat / 32 == major && bytes[0] as nat % 32 == Additional(size)
            && DecodeSize(Additional(size), bytes[1..]) == Ok((size, rest))
  {
    hide FromBigEndian, ToBigEndian, Power;
    Powers();
    StartParts(major, size);
    var bytes := StartItem(major, size) + rest;
    var n := Width(size);
    assert bytes[1..] == ToBigEndian(size, n) + rest;
    assert (ToBigEndian(size, n) + rest)[..n] == ToBigEndian(size, n);
    assert (ToBigEndian(size, n) + rest)[n..] == rest;
    if n > 0 { FromToBigEndian(size, n); }
  }

  /** Only the start that the writer gives is read: no other form of a size is accepted. */
  lemma StartUnique(first: byte, tail: seq<byte>)
    requires DecodeSize(first as nat % 32, tail).Ok?
    ensures var (size, rest) := DecodeSize(first as nat % 32, tail).value;
            size < U64 && [first] + tail == StartItem(first as nat / 32, size) + rest
              && Additional(size) == first as nat % 32
  {
    hide FromBigEndian, ToBigEndian, Power;
    Powers();
    var info := first as nat % 32;
    var (size, rest) := DecodeSize(info, tail).value;
    if info > 23 {
      var n := if info == 24 then 1 else if info == 25 then 2 else if info == 26 then 4 else 8;
      BigEndianBound(tail[..n]);
      ToFromBigEndian(tail[..n]);
      assert Width(size) == n;
      assert tail == tail[..n] + tail[n..];
    } else {
      ZeroWidth(size);
      assert StartItem(first as nat / 32, size) == [first];
    }
  }

  lemma ZeroWidth(size: nat)
    ensures ToBigEndian(size, 0) == []
  {
  }

  // ---------------------------------------------------------------------------------------------
  // What is written is read back

  lemma KeyReads(key: KeyType, rest: seq<byte>, depth: int)
    requires ValidKey(key) && depth >= 0
    ensures DecodeItem(EncodeKey(key) + rest, depth) == Ok((KeyValue(key), rest))
  {
    hide StartItem, DecodeSize, Utf8;
    var bytes := EncodeKey(key) + rest;
    KeySizeFits(key);
    assert bytes == StartItem(TypeLabel(key), KeySize(key)) + (KeyContent(key) + rest);
    StartReads(TypeLabel(key), KeySize(key), KeyContent(key) + rest);
    assert (KeyContent(key) + rest)[..|KeyContent(key)|] == KeyContent(key);
    assert (KeyContent(key) + rest)[|KeyContent(key)|..] == rest;
  }

  lemma SimpleReads(simple: SimpleValue, rest: seq<byte>, depth: int)
    requires depth >= 0
    ensures DecodeItem(StartItem(7, SimpleNumber(simple)) + rest, depth) == Ok((Simple(simple), rest))
  {
    hide StartItem, DecodeSize;
    StartReads(7, SimpleNumber(simple), rest);
  }

  lemma ArrayReads(elements: seq<Value>, inner: seq<byte>, rest: seq<byte>, depth: int)
    requires depth >= 0 && |elements| < U64
    requires DecodeElements(inner + rest, |elements|, depth - 1) == Ok((elements, rest))
    ensures DecodeItem(StartItem(4, |elements|) + inner + rest, depth) == Ok((Array(elements), rest))
  {
    hide StartItem, DecodeSize, DecodeElements;
    StartReads(4, |elements|, inner + rest);
    assert StartItem(4, |elements|) + inner + rest == StartItem(4, |elements|) + (inner + rest);
  }

  lemma MapReads(entries: seq<Entry>, inner: seq<byte>, rest: seq<byte>, depth: int)
    requires depth >= 0 && |entries| < U64
    requires DecodeEntries(inner + rest, |entries|, depth - 1) == Ok((entries, rest))
    ensures DecodeItem(StartItem(5, |entries|) + inner + rest, depth) == Ok((Map(entries), rest))
  {
    hide StartItem, DecodeSize, DecodeEntries;
    StartReads(5, |entries|, inner + rest);
    assert StartItem(5, |entries|) + inner + rest == StartItem(5, |entries|) + (inner + rest);
  }

  /** Every value that is written is read back, whatever follows it. */
  lemma {:induction false} WrittenReads(v: Value, rest: seq<byte>, depth: int)
    requires WellFormed(v) && Encode(v, depth).1
    ensures DecodeItem(Encode(v, depth).0 + rest, depth) == Ok((v, rest))
    decreases depth, 0
  {
    hide StartItem, EncodeKey, EncodeElements, EncodeEntries, DecodeItem;
    match v
    case KeyValue(key) => KeyReads(key, rest, depth);
    case Array(elements) =>
      ElementsRead(elements, rest, depth - 1);
      ArrayReads(elements, EncodeElements(elements, depth - 1).0, rest, depth);
    case Map(entries) =>
      EntriesRead(entries, rest, depth - 1);
      MapReads(entries, EncodeEntries(entries, depth - 1).0, rest, depth);
    case Simple(simple) => SimpleReads(simple, rest, depth);
  }

  lemma {:induction false} ElementsRead(vs: seq<Value>, rest: seq<byte>, depth: int)
    requires EncodeElements(vs, depth).1 && forall i :: 0 <= i < |vs| ==> WellFormed(vs[i])
    ensures DecodeElements(EncodeElements(vs, depth).0 + rest, |vs|, depth) == Ok((vs, rest))
    decreases depth, |vs| + 1
  {
    hide Encode, DecodeItem;
    if vs == [] {
      assert EncodeElements(vs, depth).0 + rest == rest;
    } else {
      var n := |vs| - 1;
      var last := Encode(vs[n], depth).0;
      assert EncodeElements(vs, depth).0 + rest == EncodeElements(vs[..n], depth).0 + (last + rest);
      ElementsRead(vs[..n], last + rest, depth);
      WrittenReads(vs[n], rest, depth);
      assert vs == vs[..n] + [vs[n]];
    }
  }

  lemma {:induction false} EntriesRead(es: seq<Entry>, rest: seq<byte>, depth: int)
    requires EncodeEntries(es, depth).1 && SortedEntries(es)
    requires forall i :: 0 <= i < |es| ==> ValidKey(es[i].key) && WellFormed(es[i].value)
    ensures DecodeEntries(EncodeEntries(es, depth).0 + rest, |es|, depth) == Ok((es, rest))
    decreases depth, |es| + 1
  {
    hide Encode, DecodeItem, EncodeKey, Compare, ValidKey;
    if es == [] {
      assert EncodeEntries(es, depth).0 + rest == rest;
    } else {
      var n := |es| - 1;
      var key, last := EncodeKey(es[n].key), Encode(es[n].value, depth).0;
      assert EncodeEntries(es, depth).0 + rest == EncodeEntries(es[..n], depth).0 + (key + (last + rest));
      EntriesRead(es[..n], key + (last + rest), depth);
      KeyReads(es[n].key, last + rest, depth);
      WrittenReads(es[n].value, rest, depth);
      assert es == es[..n] + [es[n]];
    }
  }

  // ---------------------------------------------------------------------------------------------
  // What is read is written back

  /** What must hold of an item that was read from some bytes. */
  ghost predicate Rewritten(v: Value, bytes: seq<byte>, rest: seq<byte>, depth: int) {
    WellFormed(v) && Encode(v, depth).1 && bytes == Encode(v, depth).0 + rest
  }

  lemma KeyRewritten(key: KeyType, size: nat, tail: seq<byte>, bytes: seq<byte>, rest: seq<byte>, depth: int)
    requires depth >= 0 && ValidKey(key) && KeySize(key) == size && tail == KeyContent(key) + rest
    requires bytes == StartItem(TypeLabel(key), size) + tail
    ensures Rewritten(KeyValue(key), bytes, rest, depth)
  {
    hide StartItem, ValidKey, KeySize, KeyContent;
    var start := StartItem(TypeLabel(key), size);
    assert start + (KeyContent(key) + rest) == (start + KeyContent(key)) + rest;
  }

  /** An integer, a string or a simple value that is read is written back. */
  lemma PlainRewritten(bytes: seq<byte>, size: nat, tail: seq<byte>, depth: int)
    requires depth >= 0 && bytes != [] && DecodeItem(bytes, depth).Ok?
    requires DecodeSize(bytes[0] as nat % 32, bytes[1..]) == Ok((size, tail))
    requires size < U64 && bytes == StartItem(bytes[0] as nat / 32, size) + tail
    requires bytes[0] as nat / 32 != 4 && bytes[0] as nat / 32 != 5
    ensures Rewritten(DecodeItem(bytes, depth).value.0, bytes, DecodeItem(bytes, depth).value.1, depth)
  {
    hide StartItem, DecodeSize, Utf8, Rewritten;
    var (v, rest) := DecodeItem(bytes, depth).value;
    var major := bytes[0] as nat / 32;
    if major == 7 {
      SimpleRewritten(v, size, bytes, rest, depth);
    } else {
      if major >= 2 {
        assert tail == tail[..size] + tail[size..];
      } else {
        assert tail == [] + tail;
      }
      KeyRewritten(v.key, size, tail, bytes, rest, depth);
    }
  }

  lemma SimpleRewritten(v: Value, size: nat, bytes: seq<byte>, rest: seq<byte>, depth: int)
    requires depth >= 0 && SimpleFrom(size).Some? && v == Simple(SimpleFrom(size).value)
    requires size < U64 && bytes == StartItem(7, size) + rest
    ensures Rewritten(v, bytes, rest, depth)
  {
    hide StartItem;
    assert SimpleNumber(v.simple) == size;
  }

  lemma ArrayRewritten(vs: seq<Value>, size: nat, tail: seq<byte>, bytes: seq<byte>, rest: seq<byte>, depth: int)
    requires depth >= 0 && size < U64 && |vs| == size && EncodeElements(vs, depth - 1).1
    requires forall i :: 0 <= i < size ==> WellFormed(vs[i])
    requires tail == EncodeElements(vs, depth - 1).0 + rest && bytes == StartItem(4, size) + tail
    ensures Rewritten(Array(vs), bytes, rest, depth)
  {
    hide StartItem, EncodeElements;
    var inner := EncodeElements(vs, depth - 1).0;
    assert StartItem(4, size) + (inner + rest) == (StartItem(4, size) + inner) + rest;
  }

  lemma MapRewritten(es: seq<Entry>, size: nat, tail: seq<byte>, bytes: seq<byte>, rest: seq<byte>, depth: int)
    requires depth >= 0 && size < U64 && |es| == size && EncodeEntries(es, depth - 1).1 && SortedEntries(es)
    requires forall i :: 0 <= i < size ==> ValidKey(es[i].key) && WellFormed(es[i].value)
    requires tail == EncodeEntries(es, depth - 1).0 + rest && bytes == StartItem(5, size) + tail
    ensures Rewritten(Map(es), bytes, rest, depth)
  {
    hide StartItem, EncodeEntries, SortedEntries, ValidKey;
    var inner := EncodeEntries(es, depth - 1).0;
    assert StartItem(5, size) + (inner + rest) == (StartItem(5, size) + inner) + rest;
  }

  /** Every item that is read is well-formed and is written back as the bytes it was read from. */
  lemma {:induction false} ReadWrites(bytes: seq<byte>, depth: int)
    requires DecodeItem(bytes, depth).Ok?
    ensures Rewritten(DecodeItem(bytes, depth).value.0, bytes, DecodeItem(bytes, depth).value.1, depth)
    decreases depth, 0
  {
    hide StartItem, DecodeSize, DecodeBytes, DecodeText, DecodeSimple, DecodeElements, DecodeEntries, Rewritten;
    var (v, rest) := DecodeItem(bytes, depth).value;
    var major, info := bytes[0] as nat / 32, bytes[0] as nat % 32;
    StartUnique(bytes[0], bytes[1..]);
    assert bytes == [bytes[0]] + bytes[1..];
    var (size, tail) := DecodeSize(info, bytes[1..]).value;
    if major == 4 {
      ReadElements(tail, size, depth - 1);
      ArrayRewritten(v.elements, size, tail, bytes, rest, depth);
    } else if major == 5 {
      ReadEntries(tail, size, depth - 1);
      MapRewritten(v.entries, size, tail, bytes, rest, depth);
    } else {
      PlainRewritten(bytes, size, tail, depth);
    }
  }

  lemma {:induction false} ReadElements(bytes: seq<byte>, n: nat, depth: int)
    requires DecodeElements(bytes, n, depth).Ok?
    ensures var (vs, rest) := DecodeElements(bytes, n, depth).value;
            && |vs| == n && (forall i :: 0 <= i < n ==> WellFormed(vs[i]))
            && EncodeElements(vs, depth).1 && bytes == EncodeElements(vs, depth).0 + rest
    decreases depth, n + 1
  {
    hide Encode, DecodeItem, WellFormed;
    if n > 0 {
      ReadElements(bytes, n - 1, depth);
      var before := DecodeElements(bytes, n - 1, depth).value;
      ReadWrites(before.1, depth);
      var last := DecodeItem(before.1, depth).value;
      var vs := DecodeElements(bytes, n, depth).value.0;
      assert vs[..n - 1] == before.0 && vs[n - 1] == last.0;
    }
  }

  /** Entries that were read and are written back. */
  ghost predicate EntriesRewritten(es: seq<Entry>, bytes: seq<byte>, rest: seq<byte>, depth: int) {
    && SortedEntries(es)
    && (forall i :: 0 <= i < |es| ==> ValidKey(es[i].key) && WellFormed(es[i].value))
    && EncodeEntries(es, depth).1 && bytes == EncodeEntries(es, depth).0 + rest
  }

  lemma SortedStep(es: seq<Entry>, e: Entry)
    requires SortedEntries(es) && (es != [] ==> Compare(es[|es| - 1].key, e.key) == Less)
    ensures SortedEntries(es + [e])
  {
    hide Compare;
    var n := |es|;
    forall i, j | 0 <= i < j < n + 1
      ensures Compare((es + [e])[i].key, (es + [e])[j].key) == Less
    {
      if j == n && i < n - 1 {
        CompareTransitive(es[i].key, es[n - 1].key, e.key);
      }
    }
  }

  lemma EntryRewritten(es: seq<Entry>, e: Entry, bytes: seq<byte>, mid: seq<byte>, last: seq<byte>, rest: seq<byte>,
                       depth: int)
    requires depth >= 0 && EntriesRewritten(es, bytes, mid, depth)
    requires es != [] ==> Compare(es[|es| - 1].key, e.key) == Less
    requires Rewritten(KeyValue(e.key), mid, last, depth) && Rewritten(e.value, last, rest, depth)
    ensures EntriesRewritten(es + [e], bytes, rest, depth)
  {
    hide Compare, ValidKey, EncodeKey, Encode;
    SortedStep(es, e);
    hide SortedEntries;
    KeyEncoded(e.key, depth);
    var n, all := |es|, es + [e];
    assert all[..n] == es && all[n] == e;
    var start, key, value := EncodeEntries(es, depth).0, EncodeKey(e.key), Encode(e.value, depth).0;
    assert EncodeEntries(all, depth) == (start + (key + value), true);
    assert start + (key + (value + rest)) == start + (key + value) + rest;
  }

  lemma {:induction false} ReadEntries(bytes: seq<byte>, n: nat, depth: int)
    requires DecodeEntries(bytes, n, depth).Ok?
    ensures |DecodeEntries(bytes, n, depth).value.0| == n
    ensures EntriesRewritten(DecodeEntries(bytes, n, depth).value.0, bytes, DecodeEntries(bytes, n, depth).value.1,
                             depth)
    decreases depth, n + 1
  {
    hide Encode, DecodeItem, Compare, Rewritten;
    if n == 0 {
      assert EncodeEntries([], depth).0 + bytes == bytes;
    } else {
      hide EntriesRewritten;
      ReadEntries(bytes, n - 1, depth);
      var before := DecodeEntries(bytes, n - 1, depth).value;
      var key := DecodeItem(before.1, depth).value;
      ReadWrites(before.1, depth);
      var value := DecodeItem(key.1, depth).value;
      ReadWrites(key.1, depth);
      EntryRewritten(before.0, Entry(key.0.key, value.0), bytes, before.1, key.1, value.1, depth);
    }
  }

  /**
   Reading and writing undo each other: some bytes are read as a value exactly when the value is
   well-formed and written as those bytes.
   */
  lemma ReadIffWritten(bytes: seq<byte>, v: Value)
    ensures Decode(bytes) == Ok(v) <==> WellFormed(v) && Encode(v, MAX_NESTING_DEPTH) == (bytes, true)
  {
    hide DecodeItem, Encode, WellFormed;
    if Decode(bytes) == Ok(v) {
      ReadWrites(bytes, MAX_NESTING_DEPTH);
      assert Encode(v, MAX_NESTING_DEPTH).0 + [] == Encode(v, MAX_NESTING_DEPTH).0;
    }
    if WellFormed(v) && Encode(v, MAX_NESTING_DEPTH) == (bytes, true) {
      WrittenReads(v, [], MAX_NESTING_DEPTH);
      assert bytes + [] == bytes;
    }
  }

  // ---------------------------------------------------------------------------------------------
  // The reader

  class Reader {
    var remaining: seq<byte>

    constructor (bytes: seq<byte>)
      ensures remaining == bytes
    {
      remaining := bytes;
    }

    /** Takes a number of bytes, if there are that many. */
    method ReadBytes(n: nat) returns (r: Option<seq<byte>>)
      modifies this
      ensures r.Some? <==> n <= |old(remaining)|
      ensures if r.Some? then r.value == old(remaining)[..n] && remaining == old(remaining)[n..]
              else remaining == old(remaining)
    {
      if n > |remaining| {
        return None;
      }
      r := Some(remaining[..n]);
      remaining := remaining[n..];
    }

    /** Reads the size of an item. */
    method ReadVariadicLengthInteger(info: nat) returns (r: Result<nat, DecoderError>)
      requires info < 32
      modifies this
      ensures match DecodeSize(info, old(remaining))
              case Ok((size, rest)) => r == Ok(size) && remaining == rest
              case Err(e) => r == Err(e)
    {
      if info <= 23 {
        return Ok(info);
      }
      if info > 27 {
        return Err(UnknownAdditionalInfo);
      }
      var n := if info == 24 then 1 else if info == 25 then 2 else if info == 26 then 4 else 8;
      var bytes := ReadBytes(n);
      if bytes.None? {
        return Err(IncompleteCborData);
      }
      var size: nat := 0;
      for i := 0 to n
        invariant size == FromBigEndian(bytes.value[..i])
      {
        assert bytes.value[..i + 1][..i] == bytes.value[..i];
        size := size * 256 + bytes.value[i] as nat;
      }
      assert bytes.value[..n] == bytes.value;
      if (n == 1 && size < 24) || size < Power(n / 2) {
        return Err(NonMinimalCborEncoding);
      }
      return Ok(size);
    }

    /** Reads the bytes of a string. */
    method ReadString(text: bool, size: nat) returns (r: Result<Value, DecoderError>)
      modifies this
      ensures match if text then DecodeText(size, old(remaining)) else DecodeBytes(size, old(remaining))
              case Ok((v, rest)) => r == Ok(v) && remaining == rest
              case Err(e) => r == Err(e)
    {
      var bytes := ReadBytes(size);
      if bytes.None? {
        return Err(IncompleteCborData);
      }
      if text && !Utf8(bytes.value) {
        return Err(InvalidUtf8);
      }
      return Ok(KeyValue(if text then TextString(bytes.value) else ByteString(bytes.value)));
    }

    /** Reads one item. */
    method DecodeCompleteDataItem(depth: int) returns (r: Result<Value, DecoderError>)
      modifies this
      ensures match DecodeItem(old(remaining), depth)
              case Ok((v, rest)) => r == Ok(v) && remaining == rest
              case Err(e) => r == Err(e)
      decreases if depth < 0 then 0 else depth + 1, 0
    {
      hide DecodeSize, DecodeElements, DecodeEntries, DecodeText, DecodeBytes, FromBigEndian;
      if depth < 0 {
        return Err(TooMuchNesting);
      }
      var first := ReadBytes(1);
      if first.None? {
        return Err(IncompleteCborData);
      }
      var major := first.value[0] as nat / 32;
      var info := first.value[0] as nat % 32;
      var size := ReadVariadicLengthInteger(info);
      if size.Err? {
        return Err(size.error);
      }
      if major == 0 {
        r := DecodeUnsigned(size.value);
      } else if major == 1 {
        r := DecodeNegative(size.value);
      } else if major == 2 {
        r := ReadString(false, size.value);
      } else if major == 3 {
        r := ReadString(true, size.value);
      } else if major == 4 {
        r := ReadArrayContent(size.value, depth - 1);
      } else if major == 5 {
        r := ReadMapContent(size.value, depth - 1);
      } else if major == 7 {
        r := DecodeSimple(size.value, info);
      } else {
        r := Err(UnsupportedMajorType);
      }
    }

    /** Reads the elements of an array. */
    method ReadArrayContent(size: nat, depth: int) returns (r: Result<Value, DecoderError>)
      requires depth >= -1
      modifies this
      ensures match DecodeElements(old(remaining), size, depth)
              case Ok((vs, rest)) => r == Ok(Array(vs)) && remaining == rest
              case Err(e) => r == Err(e)
      decreases depth + 1, 1
    {
      hide DecodeItem, DecodeElements;
      ghost var start := remaining;
      var elements: seq<Value> := [];
      DecodeNone(start, depth);
      for i := 0 to size
        invariant DecodeElements(start, i, depth) == Ok((elements, remaining))
      {
        DecodeElementsStep(start, i, depth);
        var v := DecodeCompleteDataItem(depth);
        if v.Err? {
          DecodeElementsFail(start, i + 1, size, depth);
          return Err(v.error);
        }
        elements := elements + [v.value];
      }
      return Ok(Array(elements));
    }

    /** Reads the entries of a map, whose keys must be in increasing order. */
    method ReadMapContent(size: nat, depth: int) returns (r: Result<Value, DecoderError>)
      requires depth >= -1
      modifies this
      ensures match DecodeEntries(old(remaining), size, depth)
              case Ok((es, rest)) => r == Ok(Map(es)) && remaining == rest
              case Err(e) => r == Err(e)
      decreases depth + 1, 1
    {
      hide DecodeItem, DecodeEntries, Compare;
      ghost var start := remaining;
      var entries: seq<Entry> := [];
      DecodeNone(start, depth);
      for i := 0 to size
        invariant DecodeEntries(start, i, depth) == Ok((entries, remaining))
      {
        DecodeEntriesStep(start, i, depth);
        var key := DecodeCompleteDataItem(depth);
        if key.Err? {
          DecodeEntriesFail(start, i + 1, size, depth);
          return Err(key.error);
        }
        if !key.value.KeyValue? {
          DecodeEntriesFail(start, i + 1, size, depth);
          return Err(IncorrectMapKeyType);
        }
        if entries != [] && Compare(entries[|entries| - 1].key, key.value.key) != Less {
          DecodeEntriesFail(start, i + 1, size, depth);
          return Err(OutOfOrderKey);
        }
        var value := DecodeCompleteDataItem(depth);
        if value.Err? {
          DecodeEntriesFail(start, i + 1, size, depth);
          return Err(value.error);
        }
        entries := entries + [Entry(key.value.key, value.value)];
      }
      return Ok(Map(entries));
    }
  }

  lemma DecodeNone(bytes: seq<byte>, depth: int)
    ensures DecodeElements(bytes, 0, depth) == Ok(([], bytes)) && DecodeEntries(bytes, 0, depth) == Ok(([], bytes))
  {
  }

  lemma DecodeElementsStep(bytes: seq<byte>, n: nat, depth: int)
    requires DecodeElements(bytes, n, depth).Ok?
    ensures var before := DecodeElements(bytes, n, depth).value;
            DecodeElements(bytes, n + 1, depth) ==
            match DecodeItem(before.1, depth)
            case Ok((v, rest)) => Ok((before.0 + [v], rest))
            case Err(e) => Err(e)
  {
  }

  lemma DecodeEntriesStep(bytes: seq<byte>, n: nat, depth: int)
    requires DecodeEntries(bytes, n, depth).Ok?
    ensures var before := DecodeEntries(bytes, n, depth).value;
            DecodeEntries(bytes, n + 1, depth) ==
            match DecodeItem(before.1, depth)
            case Err(e) => Err(e)
            case Ok((k, rest)) =>
              if !k.KeyValue? then Err(IncorrectMapKeyType)
              else if before.0 != [] && Compare(before.0[|before.0| - 1].key, k.key) != Less then Err(OutOfOrderKey)
              else
                match DecodeItem(rest, depth)
                case Err(e) => Err(e)
                case Ok((v, rest')) => Ok((before.0 + [Entry(k.key, v)], rest'))
  {
    hide Compare;
  }

  lemma {:induction false} DecodeElementsFail(bytes: seq<byte>, n: nat, size: nat, depth: int)
    requires n <= size && DecodeElements(bytes, n, depth).Err?
    ensures DecodeElements(bytes, size, depth) == Err(DecodeElements(bytes, n, depth).error)
    decreases size
  {
    hide DecodeItem;
    if n < size { DecodeElementsFail(bytes, n, size - 1, depth); }
  }

  lemma {:induction false} DecodeEntriesFail(bytes: seq<byte>, n: nat, size: nat, depth: int)
    requires n <= size && DecodeEntries(bytes, n, depth).Err?
    ensures DecodeEntries(bytes, size, depth) == Err(DecodeEntries(bytes, n, depth).error)
    decreases size
  {
    hide DecodeItem;
    if n < size { DecodeEntriesFail(bytes, n, size - 1, depth); }
  }

  /** Reads a complete encoding: the value that is well-formed and written as those bytes, if there is one. */
  method Read(bytes: seq<byte>) returns (r: Result<Value, DecoderError>)
    ensures r == Decode(bytes)
    ensures forall v :: r == Ok(v) <==> WellFormed(v) && Encode(v, MAX_NESTING_DEPTH) == (bytes, true)
  {
    hide DecodeItem, Encode, WellFormed;
    forall v ensures Decode(bytes) == Ok(v) <==> WellFormed(v) && Encode(v, MAX_NESTING_DEPTH) == (bytes, true) {
      ReadIffWritten(bytes, v);
    }
    var reader := new Reader(bytes);
    var value := reader.DecodeCompleteDataItem(MAX_NESTING_DEPTH);
    if value.Err? {
      return Err(value.error);
    }
    if reader.remaining != [] {
      return Err(ExtranousData);
    }
    return Ok(value.value);
  }
}
