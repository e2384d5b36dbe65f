/** Parsing the flash gives back the entries of the log. */
module Parsing {
  import opened Wrappers
  import opened Words
  import opened Format
  import opened Entries
  import opened Flash
  import opened Log

  /** What the entry held in some words is parsed as. */
  function EntryOf(f: Format, ws: seq<Word>): ParsedEntry
    requires f.Supported()
  {
    match KindOf(f, ws)
    case Padding => ParsedPadding
    case User(_) => ParsedUser(HeaderOf(f, ws))
    case Internal(e) => ParsedInternal(e)
    case TornUser => ParsedPartialUser
    case TornEntry => ParsedPartial
    case Bad => ParsedTail
  }

  ghost predicate Reads(f: Format, pages: Pages, pos: nat, ws: seq<Word>)
    requires Shape(f, pages)
  {
    forall q: nat :: pos <= q < pos + |ws| ==> ReadWord(f, pages, q) == ws[q - pos]
  }

  ghost predicate ReadsErased(f: Format, pages: Pages, lo: nat, hi: nat)
    requires Shape(f, pages)
  {
    forall q: nat :: lo <= q < hi ==> ReadWord(f, pages, q) == ERASED_WORD
  }

  lemma {:induction false} LastWrittenIs(f: Format, pages: Pages, pos: nat, n: nat, m: nat)
    requires Shape(f, pages) && m <= n
    requires ReadsErased(f, pages, pos + m, pos + n)
    requires m > 0 ==> ReadWord(f, pages, pos + m - 1) != ERASED_WORD
    ensures LastWritten(f, pages, pos, n) == if m == 0 then None else Some(m - 1)
  {
    hide ReadWord, Shape;
    if n > m {
      assert ReadWord(f, pages, pos + n - 1) == ERASED_WORD;
      LastWrittenIs(f, pages, pos, n - 1, m);
    }
  }

  /** Words of a known kind, followed by erased words if they are torn, parse as what they are. */
  lemma ParseWords(f: Format, pages: Pages, pos: nat, ws: seq<Word>)
    requires Shape(f, pages) && !KindOf(f, ws).Bad?
    requires Reads(f, pages, pos, ws)
    requires KindOf(f, ws).TornUser? || KindOf(f, ws).TornEntry? ==>
               ReadsErased(f, pages, pos + |ws|, pos + f.M() + 1)
    ensures ParseEntry(f, pages, pos) == Ok((EntryOf(f, ws), pos + |ws|))
  {
    hide ReadWord, ParseWord, LastWritten;
    assert ReadWord(f, pages, pos) == ws[0];
    if KindOf(f, ws).TornEntry? {
      assert ReadWord(f, pages, pos + |ws| - 1) == ws[|ws| - 1];
      LastWrittenIs(f, pages, pos, f.M(), |ws|);
    }
    var p := ParseWord(f, ws[0]).value;
    if p.Valid? && p.value.HeaderWord? && p.value.header.length <= f.MaxValueLen() {
      FooterReads(f, pages, pos, ws, p.value.header);
    }
  }

  lemma FooterReads(f: Format, pages: Pages, pos: nat, ws: seq<Word>, h: Header)
    requires Shape(f, pages) && ws != [] && Reads(f, pages, pos, ws)
    requires h.length <= f.MaxValueLen() && !HeaderKind(f, h, ws).Bad?
    requires HeaderKind(f, h, ws).TornEntry? ==> ReadsErased(f, pages, pos + |ws|, pos + f.M() + 1)
    ensures BytesToWords(h.length) > 0 ==>
              ReadWord(f, pages, pos + BytesToWords(h.length)) ==
              if BytesToWords(h.length) < |ws| then ws[BytesToWords(h.length)] else ERASED_WORD
    ensures BytesToWords(h.length) > 0 && BytesToWords(h.length) >= |ws| ==> Zeros(ERASED_WORD) == 0
  {
    hide ReadWord;
    WordsMonotone(h.length, f.MaxValueLen());
    ZerosOnes(ERASED_WORD);
  }

  /** Erased words parse as the tail. */
  lemma ParseErased(f: Format, pages: Pages, pos: nat)
    requires Shape(f, pages) && ReadsErased(f, pages, pos, pos + f.M())
    ensures ParseEntry(f, pages, pos) == Ok((ParsedTail, pos))
  {
    hide ReadWord, ParseWord, LastWritten;
    assert ReadWord(f, pages, pos) == ERASED_WORD;
    ErasedParses(f);
    LastWrittenIs(f, pages, pos, f.M(), 0);
  }

  lemma ErasedParses(f: Format)
    requires f.Supported()
    ensures ParseWord(f, ERASED_WORD) == Ok(Erased)
  {
    NotId(ERASED_WORD, ID_PADDING, 0);
    NotId(ERASED_WORD, ID_HEADER, 1);
    NotId(ERASED_WORD, ID_ERASE, 2);
    NotId(ERASED_WORD, ID_CLEAR, 2);
    NotId(ERASED_WORD, ID_MARKER, 2);
    NotId(ERASED_WORD, ID_REMOVE, 2);
  }

  /** Parsing at the position of an entry of the log gives that entry and the position of the next. */
  lemma ParseItem(f: Format, pages: Pages, w: nat, v: View, k: nat, hi: nat)
    requires Shape(f, pages) && Formed(f, v) && k < |v.log|
    requires HoldsLog(Snapshot(f, pages, w), v) && ErasedBetween(Snapshot(f, pages, w), v.tail, hi)
    requires Kinds(f, v, k).TornUser? || Kinds(f, v, k).TornEntry? ==> v.log[k].pos + f.M() + 1 <= hi
    ensures ParseEntry(f, pages, v.log[k].pos) == Ok((EntryOf(f, v.log[k].ws), PosAt(v, k + 1)))
  {
    hide ReadWord, ParseWord, LastWritten, ParseEntry, Snapshot, KindOf, EntryOf, MarksOk;
    SnapshotReads(f, pages, w);
    var s := Snapshot(f, pages, w);
    assert Holds(s, v.log[k].pos, v.log[k].ws);
    PosBefore(v, k, k + 1);
    ParseWords(f, pages, v.log[k].pos, v.log[k].ws);
  }

  lemma ParseAtTail(f: Format, pages: Pages, w: nat, v: View, hi: nat)
    requires Shape(f, pages)
    requires ErasedBetween(Snapshot(f, pages, w), v.tail, hi) && v.tail + f.M() <= hi
    ensures ParseEntry(f, pages, v.tail) == Ok((ParsedTail, v.tail))
  {
    hide ReadWord, ParseEntry, Snapshot;
    SnapshotReads(f, pages, w);
    ParseErased(f, pages, v.tail);
  }
}
