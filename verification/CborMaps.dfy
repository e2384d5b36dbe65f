/** The canonical order of map keys, and extracting values from a map in one pass. */
module CborMaps {
  import opened Wrappers
  import opened Bytes
  import opened CborValues
  import opened CborWriter
  import opened CborReader

  // ---------------------------------------------------------------------------------------------
  // The order of keys is that of their encodings

  /** Items of the same type are ordered by their size, whatever follows. */
  lemma StartLex(major: nat, a: nat, b: nat, x: seq<byte>, y: seq<byte>)
    requires major < 8 && a < b < U64
    ensures LexLess(StartItem(major, a) + x, StartItem(major, b) + y)
  {
    hide FromBigEndian, ToBigEndian, Power;
    Powers();
    var s, t := StartItem(major, a), StartItem(major, b);
    if Width(a) == Width(b) && Width(a) > 0 {
      var n := Width(a);
      FromToBigEndian(a, n);
      FromToBigEndian(b, n);
      BigEndianLex(ToBigEndian(a, n), ToBigEndian(b, n));
      LexExtends(ToBigEndian(a, n), ToBigEndian(b, n), x, y);
      LexPrefix([s[0]], ToBigEndian(a, n) + x, ToBigEndian(b, n) + y);
      assert s + x == [s[0]] + (ToBigEndian(a, n) + x) && t + y == [s[0]] + (ToBigEndian(b, n) + y);
    } else {
      assert Additional(a) < Additional(b);
      assert (s + x)[0] < (t + y)[0];
    }
  }

  /** Items of different types are ordered by their types. */
  lemma TypeLex(major: nat, major': nat, a: nat, b: nat, x: seq<byte>, y: seq<byte>)
    requires major < major' < 8
    ensures LexLess(StartItem(major, a) + x, StartItem(major', b) + y)
  {
    assert (StartItem(major, a) + x)[0] < (StartItem(major', b) + y)[0];
  }

  lemma SameSizeLex(key: KeyType, key': KeyType)
    requires ValidKey(key) && ValidKey(key') && TypeLabel(key) == TypeLabel(key') && KeySize(key) == KeySize(key')
    ensures LexLess(EncodeKey(key), EncodeKey(key')) <==> Compare(key, key') == Less
  {
    hide StartItem, Utf8;
    LexPrefix(StartItem(TypeLabel(key), KeySize(key)), KeyContent(key), KeyContent(key'));
    CompareBytesIs(KeyContent(key), KeyContent(key'));
  }

  /**
   Keys are ordered as their encodings are, byte by byte: this is the bytewise lexicographic order of
   section 4.2.1 of RFC 8949.
   */
  lemma OrderIsCanonical(key: KeyType, key': KeyType)
    requires ValidKey(key) && ValidKey(key')
    ensures Compare(key, key') == Less <==> LexLess(EncodeKey(key), EncodeKey(key'))
  {
    hide StartItem, Utf8;
    var (m, m') := (TypeLabel(key), TypeLabel(key'));
    var (a, b) := (KeySize(key), KeySize(key'));
    KeySizeFits(key);
    KeySizeFits(key');
    LexTotal(EncodeKey(key), EncodeKey(key'));
    if m < m' {
      TypeLex(m, m', a, b, KeyContent(key), KeyContent(key'));
    } else if m' < m {
      TypeLex(m', m, b, a, KeyContent(key'), KeyContent(key));
    } else if a < b {
      StartLex(m, a, b, KeyContent(key), KeyContent(key'));
      SizeDecides(key, key');
    } else if b < a {
      StartLex(m, b, a, KeyContent(key'), KeyContent(key));
      SizeDecides(key', key);
      CompareTotal(key, key');
    } else {
      SameSizeLex(key, key');
    }
  }

  lemma SizeDecides(key: KeyType, key': KeyType)
    requires ValidKey(key) && ValidKey(key') && TypeLabel(key) == TypeLabel(key') && KeySize(key) < KeySize(key')
    ensures Compare(key, key') == Less
  {
  }

  // ---------------------------------------------------------------------------------------------
  // Extracting values

  /** The value of a map for a key. */
  function Lookup(entries: seq<Entry>, key: KeyType): Option<Value> {
    if entries == [] then None
    else if entries[0].key == key then Some(entries[0].value)
    else Lookup(entries[1..], key)
  }

  lemma {:induction false} LookupBelow(entries: seq<Entry>, key: KeyType)
    requires SortedEntries(entries) && (entries != [] ==> Compare(entries[0].key, key) == Greater)
    ensures Lookup(entries, key) == None
  {
    hide Compare;
    if entries != [] {
      CompareTotal(entries[0].key, key);
      if |entries| > 1 {
        CompareTotal(entries[1].key, key);
        CompareTransitive(key, entries[0].key, entries[1].key);
      }
      LookupBelow(entries[1..], key);
    }
  }

  /** Entries before the needles do not matter. */
  lemma {:induction false} LookupDrop(entries: seq<Entry>, n: nat, key: KeyType)
    requires n <= |entries| && forall i :: 0 <= i < n ==> Compare(entries[i].key, key) == Less
    ensures Lookup(entries, key) == Lookup(entries[n..], key)
  {
    hide Compare;
    if n > 0 {
      CompareTotal(entries[0].key, key);
      LookupDrop(entries[1..], n - 1, key);
      assert entries[1..][n - 1..] == entries[n..];
    }
  }

  /** An iterator over the entries of a map that can be peeked. */
  class Peekable {
    const entries: seq<Entry>
    var pos: nat

    ghost predicate Valid()
      reads this
    {
      pos <= |entries|
    }

    constructor (entries: seq<Entry>)
      ensures this.entries == entries && pos == 0 && Valid()
    {
      this.entries := entries;
      this.pos := 0;
    }

    /** Skips the entries before a needle, and takes its value if it is there. */
    method PeekValue(needle: KeyType) returns (r: Option<Value>)
      requires Valid() && SortedEntries(entries)
      requires forall i :: 0 <= i < pos ==> Compare(entries[i].key, needle) == Less
      modifies this
      ensures Valid() && r == Lookup(entries, needle)
      ensures forall i :: 0 <= i < pos ==> Compare(entries[i].key, needle) != Greater
    {
      hide Compare;
      while true
        invariant Valid() && forall i :: 0 <= i < pos ==> Compare(entries[i].key, needle) == Less
        decreases |entries| - pos
      {
        LookupDrop(entries, pos, needle);
        if pos == |entries| {
          return None;
        }
        match Compare(entries[pos].key, needle) {
          case Less =>
            pos := pos + 1;
          case Equal =>
            CompareTotal(entries[pos].key, needle);
            r := Some(entries[pos].value);
            pos := pos + 1;
            return;
          case Greater =>
            LookupBelow(entries[pos..], needle);
            return None;
        }
      }
    }
  }

  /**
   Extracts the values of a map for some keys. For increasing keys, one pass gives what looking up each
   key would.
   */
  method Destructure(entries: seq<Entry>, needles: seq<KeyType>) returns (values: seq<Option<Value>>)
    requires SortedEntries(entries)
    requires forall i, j :: 0 <= i < j < |needles| ==> Compare(needles[i], needles[j]) == Less
    ensures |values| == |needles|
    ensures forall i :: 0 <= i < |needles| ==> values[i] == Lookup(entries, needles[i])
  {
    hide Compare;
    var it := new Peekable(entries);
    values := [];
    for n := 0 to |needles|
      invariant it.Valid() && it.entries == entries && |values| == n
      invariant forall i :: 0 <= i < it.pos && n < |needles| ==> Compare(entries[i].key, needles[n]) == Less
      invariant forall i :: 0 <= i < n ==> values[i] == Lookup(entries, needles[i])
    {
      var value := it.PeekValue(needles[n]);
      values := values + [value];
      forall i | 0 <= i < it.pos && n + 1 < |needles| ensures Compare(entries[i].key, needles[n + 1]) == Less {
        CompareTotal(entries[i].key, needles[n]);
        if Compare(entries[i].key, needles[n]) == Less {
          CompareTransitive(entries[i].key, needles[n], needles[n + 1]);
        }
      }
    }
  }
}
