/** Entries as the sequences of words that hold them: user entries with their bytes, and kinds. */
module Entries {
  import opened Wrappers
  import opened Words
  import opened Format
  import opened Bytes

  /** A little-endian word; missing bytes read as erased. */
  function PackWord(bytes: seq<byte>): Word {
    ByteBits(bytes, 0) + ByteBits(bytes, 1) + ByteBits(bytes, 2) + ByteBits(bytes, 3)
  }

  function ByteBits(bytes: seq<byte>, i: nat): (b: Bits)
    ensures |b| == 8
  {
    ToBits(if i < |bytes| then bytes[i] as nat else 0xff, 8)
  }

  /** The words that hold some bytes, the last one filled with ones. */
  function Pack(bytes: seq<byte>): (ws: seq<Word>)
    ensures |ws| == BytesToWords(|bytes|)
  {
    if |bytes| == 0 then []
    else if |bytes| <= 4 then [PackWord(bytes)]
    else [PackWord(bytes[..4])] + Pack(bytes[4..])
  }

  function ByteAt(w: Word, i: nat): byte
    requires i < 4
  {
    NumBound(w[8 * i..8 * i + 8]);
    assert Pow2(8) == 256 by { assert Pow2(4) == 16; }
    Num(w[8 * i..8 * i + 8]) as byte
  }

  function Unpack(ws: seq<Word>): (bytes: seq<byte>)
    ensures |bytes| == 4 * |ws|
  {
    if ws == [] then []
    else [ByteAt(ws[0], 0), ByteAt(ws[0], 1), ByteAt(ws[0], 2), ByteAt(ws[0], 3)] + Unpack(ws[1..])
  }

  /** The words of a user entry: its header, then its value with a last word that is not erased. */
  function BuildUser(key: nat, value: seq<byte>): Result<seq<Word>, StoreError> {
    var body := Pack(value);
    var n := |body|;
    var flipped := n > 0 && body[n - 1] == ERASED_WORD;
    var body' := if flipped then body[n - 1 := ClearBit(body[n - 1], 31)] else body;
    var header :- BuildHeader(key, |value|, flipped, if n > 0 then Zeros(body'[n - 1]) else 0);
    Ok([header] + body')
  }

  /**
   What a sequence of words is when it is followed by erased words: an entry that is complete, a user
   entry whose last word is torn, an entry that is otherwise torn, or nothing that can be parsed.
   */
  datatype Kind = Padding | User(key: nat) | Internal(entry: InternalEntry) | TornUser | TornEntry | Bad

  function FooterOf(ws: seq<Word>): Option<Word>
    requires ws != []
  {
    if |ws| == 1 then None else Some(ws[|ws| - 1])
  }

  function TornKind(f: Format, ws: seq<Word>): Kind
    requires f.Supported() && ws != []
  {
    if |ws| <= f.M() && ws[|ws| - 1] != ERASED_WORD then TornEntry else Bad
  }

  function HeaderKind(f: Format, h: Header, ws: seq<Word>): Kind
    requires f.Supported() && ws != []
  {
    var length := BytesToWords(h.length);
    if h.length > f.MaxValueLen() then TornKind(f, ws)
    else if |ws| == 1 + length && h.Check(FooterOf(ws)) then (if h.key <= MAX_KEY then User(h.key) else Bad)
    else if |ws| == 1 + length && length > 0 && ws[length] != ERASED_WORD then TornUser
    else if (length == 0 || |ws| <= length) && h.checksum != 0 then TornKind(f, ws)
    else Bad
  }

  function KindOf(f: Format, ws: seq<Word>): Kind
    requires f.Supported()
  {
    if ws == [] || ParseWord(f, ws[0]).Err? then Bad
    else
      match ParseWord(f, ws[0]).value
      case Erased => TornKind(f, ws)
      case Partial => TornKind(f, ws)
      case Valid(PaddingWord(length)) => if |ws| == 1 + length then Padding else Bad
      case Valid(HeaderWord(h)) => HeaderKind(f, h, ws)
      case Valid(InternalWord(e)) => if |ws| == 1 then Internal(e) else Bad
  }

  function HeaderOf(f: Format, ws: seq<Word>): Header
    requires f.Supported() && KindOf(f, ws).User?
  {
    ParseWord(f, ws[0]).value.value.header
  }

  /** The bytes that a user entry holds. */
  function ValueOf(f: Format, ws: seq<Word>): (v: seq<byte>)
    requires f.Supported() && KindOf(f, ws).User?
    ensures |v| == HeaderOf(f, ws).length
  {
    var h := HeaderOf(f, ws);
    var bytes := Unpack(ws[1..])[..h.length];
    if h.flipped && h.length > 0 then bytes[h.length - 1 := 0xff] else bytes
  }

  // ---------------------------------------------------------------------------------------------
  // Round trip of user entries

  lemma PackWordReads(bytes: seq<byte>, i: nat)
    requires i < 4
    ensures ByteAt(PackWord(bytes), i) == if i < |bytes| then bytes[i] else 0xff
  {
    var w := PackWord(bytes);
    var v: nat := if i < |bytes| then bytes[i] as nat else 0xff;
    assert w[8 * i..8 * i + 8] == ByteBits(bytes, i);
    assert Pow2(8) == 256 by { assert Pow2(4) == 16; }
    NumToBits(v, 8);
  }

  lemma {:induction false} UnpackPack(bytes: seq<byte>)
    ensures Unpack(Pack(bytes))[..|bytes|] == bytes
  {
    hide PackWord, ByteAt;
    if |bytes| == 0 {
    } else if |bytes| <= 4 {
      forall i | 0 <= i < |bytes| ensures Unpack(Pack(bytes))[i] == bytes[i] {
        PackWordReads(bytes, i);
      }
    } else {
      UnpackPack(bytes[4..]);
      var w := PackWord(bytes[..4]);
      forall i: nat | i < 4 ensures ByteAt(w, i) == bytes[i] {
        PackWordReads(bytes[..4], i);
      }
      var ws := Pack(bytes);
      assert ws[1..] == Pack(bytes[4..]);
      assert Unpack(ws)[..4] == bytes[..4];
      assert Unpack(ws)[4..|bytes|] == Unpack(Pack(bytes[4..]))[..|bytes| - 4] == bytes[4..];
      assert Unpack(ws)[..|bytes|] == Unpack(ws)[..4] + Unpack(ws)[4..|bytes|];
    }
  }

  lemma {:induction false} UnpackAt(ws: seq<Word>, i: nat)
    requires i < 4 * |ws|
    ensures Unpack(ws)[i] == ByteAt(ws[i / 4], i % 4)
  {
    if i >= 4 {
      UnpackAt(ws[1..], i - 4);
    }
  }

  lemma ErasedByte(i: nat)
    requires i < 4
    ensures ByteAt(ERASED_WORD, i) == 0xff
  {
    NumOnes(ERASED_WORD[8 * i..8 * i + 8]);
    assert Pow2(8) == 256 by { assert Pow2(4) == 16; }
  }

  lemma FlippedByte(w: Word, i: nat)
    requires i < 3
    ensures ByteAt(ClearBit(w, 31), i) == ByteAt(w, i)
  {
    assert ClearBit(w, 31)[8 * i..8 * i + 8] == w[8 * i..8 * i + 8];
  }

  /** Flipping the last bit of an erased last word only changes a byte that reading restores. */
  lemma UnpackFlipped(bytes: seq<byte>)
    requires bytes != []
    requires Pack(bytes)[|Pack(bytes)| - 1] == ERASED_WORD
    ensures var body := Pack(bytes);
            var n := |body|;
            Unpack(body[n - 1 := ClearBit(body[n - 1], 31)])[..|bytes|][|bytes| - 1 := 0xff] == bytes
  {
    var body := Pack(bytes);
    var n := |body|;
    var body' := body[n - 1 := ClearBit(body[n - 1], 31)];
    var r := Unpack(body')[..|bytes|][|bytes| - 1 := 0xff];
    UnpackPack(bytes);
    forall i | 0 <= i < |bytes| ensures r[i] == bytes[i] {
      assert bytes[i] == Unpack(body)[..|bytes|][i] == Unpack(body)[i];
      UnpackAt(body, i);
      UnpackAt(body', i);
      if i / 4 == n - 1 {
        ErasedByte(i % 4);
        if i % 4 < 3 {
          FlippedByte(body[n - 1], i % 4);
        } else {
          assert i == |bytes| - 1;
        }
      }
    }
  }

  predicate Flipped(value: seq<byte>) {
    value != [] && Pack(value)[|Pack(value)| - 1] == ERASED_WORD
  }

  /** The words of a value as they are written. */
  function Body(value: seq<byte>): (ws: seq<Word>)
    ensures |ws| == BytesToWords(|value|)
  {
    var body := Pack(value);
    if Flipped(value) then body[|body| - 1 := ClearBit(body[|body| - 1], 31)] else body
  }

  lemma BodyReads(value: seq<byte>)
    ensures var bytes := Unpack(Body(value))[..|value|];
            value == if Flipped(value) then bytes[|value| - 1 := 0xff] else bytes
    ensures value != [] ==> Body(value)[|Body(value)| - 1] != ERASED_WORD
  {
    if Flipped(value) {
      UnpackFlipped(value);
      assert !Body(value)[|Body(value)| - 1][31];
    } else {
      UnpackPack(value);
    }
  }

  function FooterZeros(value: seq<byte>): nat {
    if value == [] then 0 else Zeros(Body(value)[|Body(value)| - 1])
  }

  lemma BuildUserShape(f: Format, key: nat, value: seq<byte>)
    requires f.Supported() && key <= MAX_KEY && |value| <= f.MaxValueLen()
    ensures BuildHeader(key, |value|, Flipped(value), FooterZeros(value)).Ok?
    ensures var header := BuildHeader(key, |value|, Flipped(value), FooterZeros(value)).value;
            && BuildUser(key, value) == Ok([header] + Body(value))
            && ParseWord(f, header) == Ok(Valid(HeaderWord(Header(Flipped(value), |value|, key, FooterZeros(value)))))
    ensures FooterZeros(value) <= 32
  {
    hide GetField, GetChecksum, ParseWord, BuildHeader;
    var zeros := FooterZeros(value);
    if value != [] { ZerosBound(Body(value)[|Body(value)| - 1]); }
    HeaderReads(key, |value|, Flipped(value), zeros);
    TornHeader(f, key, |value|, Flipped(value), zeros, BuildHeader(key, |value|, Flipped(value), zeros).value);
  }

  /** An entry written for a key and a value is a complete user entry for that key and value. */
  lemma BuildUserReads(f: Format, key: nat, value: seq<byte>)
    requires f.Supported() && key <= MAX_KEY && |value| <= f.MaxValueLen()
    ensures BuildUser(key, value).Ok?
    ensures var ws := BuildUser(key, value).value;
            && |ws| == 1 + BytesToWords(|value|)
            && KindOf(f, ws) == User(key)
            && ValueOf(f, ws) == value
            && (|ws| > 1 ==> ws[|ws| - 1] != ERASED_WORD)
  {
    hide ParseWord, BuildHeader, BuildUser, Body;
    BuildUserShape(f, key, value);
    BodyReads(value);
    var ws := BuildUser(key, value).value;
    assert ws[1..] == Body(value);
    assert FooterOf(ws) == if value == [] then None else Some(Body(value)[|Body(value)| - 1]);
  }

  // ---------------------------------------------------------------------------------------------
  // Changing the first word of a complete entry

  /**
   Deleting a user entry, complete or with a torn last word, leaves padding of the same extent,
   whatever happens to its other words.
   */
  lemma DeletedKind(f: Format, ws: seq<Word>, ws': seq<Word>)
    requires f.Supported() && (KindOf(f, ws).User? || KindOf(f, ws).TornUser?)
    requires |ws'| == |ws| && ws'[0] == SetDeleted(ws[0])
    ensures KindOf(f, ws') == Padding
  {
    DeletedParses(f, ws[0]);
  }

  /** The words after the first do not matter in padding. */
  lemma PaddingKind(f: Format, ws: seq<Word>, ws': seq<Word>)
    requires f.Supported() && KindOf(f, ws) == Padding && |ws'| == |ws| && ws'[0] == ws[0]
    ensures KindOf(f, ws') == Padding
  {
  }

  /** A torn entry stays torn while its words after the first are wiped. */
  lemma WipedTornKind(f: Format, ws: seq<Word>, ws': seq<Word>)
    requires f.Supported() && KindOf(f, ws) == TornEntry && |ws'| == |ws| && ws'[0] == ws[0]
    requires ws'[|ws| - 1] != ERASED_WORD
    ensures KindOf(f, ws') == TornEntry
  {
  }

  lemma PaddedKind(f: Format, w: Word)
    requires f.Supported()
    ensures KindOf(f, [SetPadding(w)]) == Padding && KindOf(f, [ZERO_WORD]) == Padding
  {
    PaddingParses(f, w);
  }

  lemma InternalKind(f: Format, e: InternalEntry)
    requires f.Supported() && InternalInRange(f, e)
    ensures BuildInternal(e).Ok? && KindOf(f, [BuildInternal(e).value]) == Internal(e)
  {
    InternalParses(f, e);
  }

  // ---------------------------------------------------------------------------------------------
  // Tearing of entries being written

  /** Each of the words may still lack some of the zeros it should get. */
  predicate CoversAll(ts: seq<Word>, ws: seq<Word>) {
    |ts| <= |ws| && forall i :: 0 <= i < |ts| ==> Covers(ts[i], ws[i])
  }

  /** A torn internal entry is a torn entry, unless it is complete. */
  lemma TornInternalKind(f: Format, e: InternalEntry, t: Word)
    requires f.Supported() && InternalInRange(f, e) && BuildInternal(e).Ok?
    requires Covers(t, BuildInternal(e).value) && t != ERASED_WORD
    ensures KindOf(f, [t]) == if t == BuildInternal(e).value then Internal(e) else TornEntry
  {
    hide ParseWord, BuildInternal;
    f.SizeBounds();
    TornInternal(f, e, t);
    if t == BuildInternal(e).value { InternalParses(f, e); }
  }

  /**
   While all words but the last of a user entry are being written, what has been written so far is a
   torn entry. If the entry has only one word, it may also be complete.
   */
  lemma TornUserFirstPhase(f: Format, key: nat, value: seq<byte>, ts: seq<Word>)
    requires f.Supported() && key <= MAX_KEY && |value| <= f.MaxValueLen()
    requires BuildUser(key, value).Ok? && CoversAll(ts, BuildUser(key, value).value)
    requires ts != [] && ts[|ts| - 1] != ERASED_WORD
    requires |ts| < |BuildUser(key, value).value| || |BuildUser(key, value).value| == 1
    ensures KindOf(f, ts) == if ts == BuildUser(key, value).value then User(key) else TornEntry
  {
    hide ParseWord, BuildHeader, Body, Flipped, FooterZeros, BuildUser;
    f.SizeBounds();
    BuildUserReads(f, key, value);
    BuildUserShape(f, key, value);
    var ws := BuildUser(key, value).value;
    var zeros := FooterZeros(value);
    assert ws[0] == BuildHeader(key, |value|, Flipped(value), zeros).value;
    TornHeader(f, key, |value|, Flipped(value), zeros, ts[0]);
    FooterZerosPositive(value);
    var p := ParseWord(f, ts[0]).value;
    if p.Valid? {
      WordsMonotone(|value|, p.value.header.length);
      if |ws| == 1 { assert ts == [ts[0]] && ws == [ws[0]]; }
    }
  }

  lemma WordsMonotone(a: nat, b: nat)
    requires a <= b
    ensures BytesToWords(a) <= BytesToWords(b)
  {
  }

  /** The last word of a value is written with at least one zero. */
  lemma FooterZerosPositive(value: seq<byte>)
    ensures FooterZeros(value) == 0 <==> value == []
  {
    hide Body;
    BodyReads(value);
    if value != [] {
      var w := Body(value)[|Body(value)| - 1];
      ZerosBound(w);
      assert Zeros(w) == 0 ==> w == ERASED_WORD;
    }
  }

  /** While the last word of a user entry is being written, only that word may be torn. */
  lemma TornUserSecondPhase(f: Format, key: nat, value: seq<byte>, t: Word)
    requires f.Supported() && key <= MAX_KEY && |value| <= f.MaxValueLen() && value != []
    requires BuildUser(key, value).Ok?
    requires |BuildUser(key, value).value| == 1 + BytesToWords(|value|)
    requires var ws := BuildUser(key, value).value; Covers(t, ws[|ws| - 1]) && t != ERASED_WORD
    ensures var ws := BuildUser(key, value).value;
            KindOf(f, ws[|ws| - 1 := t]) == if t == ws[|ws| - 1] then User(key) else TornUser
  {
    hide ParseWord, BuildHeader, Body, BuildUser;
    BuildUserReads(f, key, value);
    BuildUserShape(f, key, value);
    var ws := BuildUser(key, value).value;
    var ts := ws[|ws| - 1 := t];
    assert ts[0] == ws[0] == BuildHeader(key, |value|, Flipped(value), FooterZeros(value)).value;
    assert ws[|ws| - 1] == Body(value)[|Body(value)| - 1];
    ZerosMonotone(t, ws[|ws| - 1]);
    if t == ws[|ws| - 1] { assert ts == ws; }
  }
}
