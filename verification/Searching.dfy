/** What recovery finds: the erase entry of an interrupted compaction, or none. */
module Searching {
  import opened Wrappers
  import opened Words
  import opened Format
  import opened Entries
  import opened Flash
  import opened Log
  import opened Parsing
  import opened States
  import opened Appending
  import opened Contents
  import opened Stages
  import opened Compaction
  import opened Migration
  import opened Phases

  /** The position of the first erase entry that is reached through user entries and padding. */
  function FindErase(f: Format, pages: Pages, pos: nat, end: nat): Result<Option<nat>, StoreError>
    requires Shape(f, pages)
    decreases if pos < end then end - pos else 0
  {
    if pos >= end then Ok(None)
    else
      var r :- ParseEntry(f, pages, pos);
      if r.0.ParsedInternal? && r.0.entry.Erase? then Ok(Some(pos))
      else if (r.0.ParsedPadding? || r.0.ParsedUser?) && r.1 > pos then FindErase(f, pages, r.1, end)
      else Ok(None)
  }

  // ---------------------------------------------------------------------------------------------
  // Outside of compactions, none is found

  ghost predicate NoErase(f: Format, v: View)
    requires f.Supported()
  {
    forall k: nat :: k < |v.log| ==> !(Kinds(f, v, k).Internal? && Kinds(f, v, k).entry.Erase?)
  }

  lemma {:induction false} StandingSearch(f: Format, pages: Pages, v: View, tidy: bool, k: nat, end: nat)
    requires Standing(f, pages, v, tidy) && NoErase(f, v) && k <= |v.log|
    ensures Shape(f, pages) && FindErase(f, pages, PosAt(v, k), end) == Ok(None)
    decreases |v.log| - k
  {
    hide Standing, ParseEntry, KindOf, EntryOf, PosAt;
    StandingParse(f, pages, v, tidy, k);
    if k < |v.log| {
      UserEntryOf(f, v.log[k].ws);
      SearchKind(f, v, k);
      StandingSearch(f, pages, v, tidy, k + 1, end);
    }
  }

  lemma SearchKind(f: Format, v: View, k: nat)
    requires f.Supported() && NoErase(f, v) && k < |v.log|
    ensures EntryOf(f, v.log[k].ws).ParsedInternal? ==> !EntryOf(f, v.log[k].ws).entry.Erase?
  {
    hide ParseWord;
    assert !(Kinds(f, v, k).Internal? && Kinds(f, v, k).entry.Erase?);
  }

  lemma StageNoErase(f: Format, v: View, st: Stage)
    requires f.Supported() && StageOk(f, v, st)
    ensures NoErase(f, v)
  {
    hide KindOf, Tight, Apart;
    forall k: nat | k < |v.log| ensures !(Kinds(f, v, k).Internal? && Kinds(f, v, k).entry.Erase?) {
      match st
      case Settled =>
        assert IsCalm(Kinds(f, v, k)) || IsRemove(Kinds(f, v, k)) || IsTorn(Kinds(f, v, k));
      case Clearing(_) =>
        if k < |v.log| - 1 { assert IsCalm(Kinds(f, v, k)); }
      case InTransaction(m) =>
        if k < m { assert IsCalm(Kinds(f, v, k)); }
    }
  }

  /** The search of recovery finds nothing in a store that is not being compacted. */
  lemma StandingFinds(f: Format, pages: Pages, v: View, tidy: bool) returns (h: nat)
    requires Standing(f, pages, v, tidy) && f.Supported() && NoErase(f, v)
    ensures Shape(f, pages) && InitsParse(f, pages) && IsExtremum(f, pages, true, h)
    ensures FindErase(f, pages, h, NextPage(f, h)) == Ok(None)
  {
    hide Standing, InitsParse, IsExtremum, Snapshot, NextPage, Contiguous, Parses, Start, KindOf, FindErase,
         Initialized;
    StandingFormed(f, pages, v, tidy);
    StandingHead(f, pages, v, tidy);
    var n := ReadyPages(f, Snapshot(f, pages, v.first), v, 0);
    h := HeadAt(v, n - 1);
    assert MarkOk(f, v, n - 1);
    HeadIs(v, n - 1);
    StandingSearch(f, pages, v, tidy, v.marks[n - 1], NextPage(f, h));
  }

  // ---------------------------------------------------------------------------------------------
  // While copies are being made, none is found

  /** A partial or erased first word does not look like an entry. */
  lemma PartialFinds(f: Format, pages: Pages, pos: nat, end: nat)
    requires Shape(f, pages)
    requires ParseWord(f, ReadWord(f, pages, pos)) == Ok(Erased)
             || ParseWord(f, ReadWord(f, pages, pos)) == Ok(WordState.Partial)
    ensures FindErase(f, pages, pos, end) == Ok(None)
  {
    hide ParseWord, ReadWord, LastWritten;
  }

  /**
   An entry being copied is parsed as torn, or as a user entry of the same extent, or of an extent that
   goes past the end of the written words of the window.
   */
  lemma TornCopy(f: Format, pages: Pages, pos: nat, ws: seq<Word>, hi: nat)
    requires Shape(f, pages) && KindOf(f, ws).User? && pos + |ws| <= hi
    requires forall q: nat :: pos <= q < pos + |ws| ==> Covers(ReadWord(f, pages, q), ws[q - pos])
    requires forall q: nat :: pos + |ws| <= q < hi ==> ReadWord(f, pages, q) == ERASED_WORD
    ensures ParseEntry(f, pages, pos).Ok?
    ensures var r := ParseEntry(f, pages, pos).value;
            && !r.0.ParsedInternal? && !r.0.ParsedPadding?
            && (r.0.ParsedUser? ==> r.1 == pos + |ws| || r.1 > hi)
  {
    hide ReadWord, ParseWord, LastWritten, ParseUser, Covers;
    var w, u := ws[0], ReadWord(f, pages, pos);
    assert Covers(u, ws[pos - pos]);
    TornHeaderWord(f, w, u);
    var p := ParseWord(f, u).value;
    if p.Valid? {
      TornCopyHeader(f, pages, pos, ws, hi, ParseWord(f, w).value.value.header, p.value.header);
    }
  }

  lemma TornCopyHeader(f: Format, pages: Pages, pos: nat, ws: seq<Word>, hi: nat, h: Header, h': Header)
    requires Shape(f, pages) && KindOf(f, ws).User? && pos + |ws| <= hi
    requires forall q: nat :: pos < q < pos + |ws| ==> Covers(ReadWord(f, pages, q), ws[q - pos])
    requires forall q: nat :: pos + |ws| <= q < hi ==> ReadWord(f, pages, q) == ERASED_WORD
    requires ParseWord(f, ws[0]) == Ok(Valid(HeaderWord(h)))
    requires h'.length >= h.length && h'.checksum >= h.checksum && h'.key <= MAX_KEY
    requires h'.checksum == h.checksum ==> h' == h
    ensures var r := ParseUser(f, pages, pos, h');
            && r.Ok? && !r.value.0.ParsedInternal? && !r.value.0.ParsedPadding?
            && (r.value.0.ParsedUser? ==> r.value.1 == pos + |ws| || r.value.1 > hi)
  {
    hide ReadWord, ParseWord, LastWritten, KindOf, BytesToWords, Zeros, Covers;
    FooterZerosIs(f, ws, h);
    WordsMonotone(h.length, h'.length);
    var n := BytesToWords(h.length);
    if n > 0 {
      var q: nat := pos + n;
      assert Covers(ReadWord(f, pages, q), ws[q - pos]);
      ZerosMonotone(ReadWord(f, pages, q), ws[n]);
    }
    ZerosOnes(ERASED_WORD);
  }

  lemma FooterZerosIs(f: Format, ws: seq<Word>, h: Header)
    requires f.Supported() && KindOf(f, ws).User? && ParseWord(f, ws[0]) == Ok(Valid(HeaderWord(h)))
    ensures |ws| == 1 + BytesToWords(h.length)
    ensures h.checksum == if BytesToWords(h.length) == 0 then 0 else Zeros(ws[|ws| - 1])
  {
    hide ParseWord;
  }

  /** Nothing is found where an entry is being copied. */
  lemma CopyFinds(f: Format, pages: Pages, w: nat, d: View, ws: seq<Word>, end: nat)
    requires Pending(f, pages, w, d, ws) && end <= Start(f, d, f.numPages - 1)
    requires KindOf(f, ws).User?
    ensures Shape(f, pages) && FindErase(f, pages, d.tail, end) == Ok(None)
  {
    hide Snapshot, ParseEntry, KindOf, Contiguous, MarksOk, Parses, PendingInits, Alive, Complete, Start, ParseWord,
         ReadWord, Format.M, WindowSize;
    SnapshotReads(f, pages, w);
    var s, hi := Snapshot(f, pages, w), Start(f, d, f.numPages - 1);
    assert forall q: nat :: d.tail <= q < d.tail + |ws| ==> Covers(ReadWord(f, pages, q), ws[q - d.tail]) by {
      forall q: nat | d.tail <= q < d.tail + |ws| ensures Covers(ReadWord(f, pages, q), ws[q - d.tail]) {
        assert Covers(At(s, q), ws[q - d.tail]) && At(s, q) == ReadWord(f, pages, q);
      }
    }
    assert forall q: nat :: d.tail + |ws| <= q < hi ==> ReadWord(f, pages, q) == ERASED_WORD by {
      forall q: nat | d.tail + |ws| <= q < hi ensures ReadWord(f, pages, q) == ERASED_WORD {
        assert At(s, q) == ERASED_WORD && At(s, q) == ReadWord(f, pages, q);
      }
    }
    TornCopy(f, pages, d.tail, ws, hi);
    ErasedParses(f);
    var next: nat := d.tail + |ws|;
    if next < end {
      assert ReadWord(f, pages, next) == ERASED_WORD;
      PartialFinds(f, pages, next, end);
    }
  }

  /** Nothing is found where the erase entry is being written. */
  lemma EraseFinds(f: Format, pages: Pages, w: nat, v: View, d: View, end: nat)
    requires f.Supported() && Pending(f, pages, w, d, [EraseWord(f, v)])
    requires At(Snapshot(f, pages, w), d.tail) != EraseWord(f, v)
    ensures Shape(f, pages) && FindErase(f, pages, d.tail, end) == Ok(None)
  {
    hide Snapshot, ParseEntry, KindOf, Contiguous, MarksOk, Parses, PendingInits, Alive, Complete, Start, ParseWord,
         ReadWord, Format.M, EraseWord, BuildInternal, WindowSize;
    SnapshotReads(f, pages, w);
    var s, u := Snapshot(f, pages, w), ReadWord(f, pages, d.tail);
    assert Covers(At(s, d.tail), [EraseWord(f, v)][d.tail - d.tail]);
    assert At(s, d.tail) == u;
    EraseKind(f, v);
    TornInternal(f, Erase(PageIndex(f, v.first)), u);
    PartialFinds(f, pages, d.tail, end);
  }

  /** Walking through the log that is complete so far, and into what is being written. */
  lemma {:induction false} PendingSearch(f: Format, pages: Pages, w: nat, d: View, ws: seq<Word>, k: nat, end: nat)
    requires Pending(f, pages, w, d, ws) && k <= |d.log|
    requires forall i: nat :: i < |d.log| ==> IsCalm(Kinds(f, d, i))
    requires d.tail < end ==> FindErase(f, pages, d.tail, end) == Ok(None)
    ensures Shape(f, pages) && FindErase(f, pages, PosAt(d, k), end) == Ok(None)
    decreases |d.log| - k
  {
    hide Snapshot, ParseEntry, KindOf, EntryOf, Contiguous, MarksOk, Parses, PendingInits, PendingContent, Alive,
         Complete, Start, PosAt;
    if k == |d.log| {
      LastPos(d);
    } else {
      PendingParse(f, pages, w, d, ws, k);
      UserEntryOf(f, d.log[k].ws);
      assert IsCalm(Kinds(f, d, k));
      PendingSearch(f, pages, w, d, ws, k + 1, end);
    }
  }

  lemma LastPos(d: View)
    ensures PosAt(d, |d.log|) == d.tail
  {
  }

  lemma PendingParse(f: Format, pages: Pages, w: nat, d: View, ws: seq<Word>, k: nat)
    requires Pending(f, pages, w, d, ws) && k < |d.log|
    ensures Shape(f, pages) && PosAt(d, k) < PosAt(d, k + 1)
    ensures ParseEntry(f, pages, PosAt(d, k)) == Ok((EntryOf(f, d.log[k].ws), PosAt(d, k + 1)))
  {
    hide Snapshot, ParseEntry, KindOf, EntryOf, MarksOk, PendingInits, Alive, Start, LastWritten, ReadWord, ParseWord;
    assert !Kinds(f, d, k).TornUser? && !Kinds(f, d, k).TornEntry?;
    SnapshotReads(f, pages, w);
    assert Holds(Snapshot(f, pages, w), d.log[k].pos, d.log[k].ws);
    PosBefore(d, k, k + 1);
    assert Parses(f, d) && !Kinds(f, d, k).Bad?;
    ParseWords(f, pages, d.log[k].pos, d.log[k].ws);
  }

  /** Walking through the page being compacted when no other page has been written since. */
  lemma {:induction false} CompactingSearch(f: Format, pages: Pages, v: View, k: nat)
    requires Compacting(f, pages, v) && k <= |v.log| && |v.marks| == 1
    ensures Shape(f, pages) && FindErase(f, pages, PosAt(v, k), Start(f, v, 1)) == Ok(None)
    decreases |v.log| - k
  {
    hide Compacting, ParseEntry, EntryOf, KindOf, PosAt, Formed, Start;
    CompactingFormed(f, pages, v);
    if k == |v.log| {
      LastPos(v);
      if v.tail < Start(f, v, 1) { GapParse(f, pages, v); }
    } else {
      CompactParse(f, pages, v, k);
      CompactingSearch(f, pages, v, k + 1);
    }
  }

  /** The entries copied so far are user entries and padding. */
  lemma CopiedCalm(f: Format, v: View, c: nat)
    requires Formed(f, v) && Idle(f, v) && c < |Copies(f, v)|
    ensures forall i: nat :: i < |Copied(f, v, c).log| ==> IsCalm(Kinds(f, Copied(f, v, c), i))
  {
    hide KindOf, Contiguous, MarksOk, Parses, Copies, Dropped, Start;
    DroppedApart(f, v);
    CopiesAppendable(f, v);
    TowerCalm(f, Dropped(f, v), Copies(f, v), c);
  }

  lemma {:induction false} TowerCalm(f: Format, d: View, es: seq<seq<Word>>, c: nat)
    requires f.Supported() && c < |es|
    requires forall i: nat :: i < |es| - 1 ==> KindOf(f, es[i]).User?
    requires forall i: nat :: i < |d.log| ==> IsCalm(Kinds(f, d, i))
    ensures forall i: nat :: i < |Tower(f, d, es, c).log| ==> IsCalm(Kinds(f, Tower(f, d, es, c), i))
  {
    hide KindOf, Start;
    if c > 0 {
      TowerCalm(f, d, es, c - 1);
      AppendKinds(f, Tower(f, d, es, c - 1), es[c - 1]);
      AppendMarks(f, Tower(f, d, es, c - 1), es[c - 1]);
    }
  }

  /** The search of recovery finds nothing while copies are being made. */
  lemma CopyingFinds(f: Format, pages: Pages, v: View, c: nat) returns (h: nat)
    requires Copying(f, pages, v, c)
    ensures Shape(f, pages) && InitsParse(f, pages) && IsExtremum(f, pages, true, h)
    ensures FindErase(f, pages, h, NextPage(f, h)) == Ok(None)
  {
    hide Snapshot, Pending, Copies, Copied, EraseWord, KindOf, Contiguous, MarksOk, Parses, Start, InitsParse,
         IsExtremum, FindErase, NextPage, Dropped, Compacting, Opens, Append, Idle;
    CopyingFacts(f, pages, v, c);
    CopyingHeads(f, pages, v, c);
    var d, ws := Copied(f, v, c), Copies(f, v)[c];
    CompactingFormed(f, pages, v);
    CopiedFramed(f, v, c);
    if d.marks == [] {
      h := HeadAt(v, 0);
      NoMarks(f, v, c);
      HeadNextPage(f, v);
      HeadIsFirst(f, v);
      CompactingSearch(f, pages, v, 0);
    } else {
      h := HeadAt(d, |d.marks| - 1);
      LastMark(f, d);
      PendingMarks(f, pages, v.first, d, ws);
      StartOrder(f, d, |d.marks|, f.numPages - 1);
      CopiedCalm(f, v, c);
      TailFinds(f, pages, v, c, NextPage(f, h));
      PendingSearch(f, pages, v.first, d, ws, d.marks[|d.marks| - 1], NextPage(f, h));
    }
  }

  lemma LastMark(f: Format, d: View)
    requires Framed(f, d) && d.marks != []
    ensures NextPage(f, HeadAt(d, |d.marks| - 1)) == Start(f, d, |d.marks|)
    ensures d.marks[|d.marks| - 1] <= |d.log| && HeadAt(d, |d.marks| - 1) == PosAt(d, d.marks[|d.marks| - 1])
  {
    hide Parses, KindOf, Format.Q, Format.Supported, Format.M, Start, NextPage;
    LastPage(f, d);
  }

  lemma PendingMarks(f: Format, pages: Pages, w: nat, d: View, ws: seq<Word>)
    requires Pending(f, pages, w, d, ws)
    ensures |d.marks| <= f.numPages - 1
  {
    hide Snapshot, KindOf, Contiguous, MarksOk, Parses, PendingContent, Start, InitWord, Append;
    AppendMarks(f, d, ws);
  }

  lemma NoMarks(f: Format, v: View, c: nat)
    requires Compactible(f, v) && c < |Copies(f, v)| && Copied(f, v, c).marks == []
    ensures |v.marks| == 1
  {
    hide KindOf, Contiguous, MarksOk, Parses, Copies, Start, Roomy;
    MarksCount(f, v);
    CalmComplete(f, v);
    DroppedFramed(f, v);
    CopiesAppendable(f, v);
    TowerFramed(f, Dropped(f, v), Copies(f, v), c);
    TowerMarks(f, Dropped(f, v), Copies(f, v), c);
  }

  lemma TailFinds(f: Format, pages: Pages, v: View, c: nat, end: nat)
    requires Copying(f, pages, v, c) && end <= Start(f, Copied(f, v, c), f.numPages - 1)
    requires end == Start(f, Copied(f, v, c), |Copied(f, v, c).marks|)
    ensures Shape(f, pages)
    ensures Copied(f, v, c).tail < end ==> FindErase(f, pages, Copied(f, v, c).tail, end) == Ok(None)
  {
    hide Snapshot, Pending, Copies, Copied, EraseWord, KindOf, Contiguous, MarksOk, Parses, Start, FindErase, Dropped,
         Compacting, Idle;
    CopyingFacts(f, pages, v, c);
    CopiesAppendable(f, v);
    var d := Copied(f, v, c);
    if d.tail < end {
      if c < |Copies(f, v)| - 1 {
        CopyFinds(f, pages, v.first, d, Copies(f, v)[c], end);
      } else {
        assert !Opens(f, d, Copies(f, v)[c]);
        EraseFinds(f, pages, v.first, v, d, end);
      }
    }
  }

  // ---------------------------------------------------------------------------------------------
  // Once all is copied, the erase entry is found

  lemma {:induction false} ErasingSearch(f: Format, pages: Pages, v: View, k: nat, end: nat)
    requires Erasing(f, pages, v) && k < |Compacted(f, v).log| && end >= Compacted(f, v).tail
    ensures Shape(f, pages)
    ensures var x := Compacted(f, v);
            FindErase(f, pages, PosAt(x, k), end) == Ok(Some(x.log[|x.log| - 1].pos))
    decreases |Compacted(f, v).log| - k
  {
    hide Snapshot, ParseEntry, KindOf, EntryOf, Contiguous, MarksOk, Parses, Erasing, Compacted, Idle, Roomy, Laid,
         EraseWord, Start, Alive, Compactable;
    ErasingFormed(f, pages, v);
    var x := Compacted(f, v);
    PosBefore2(f, x, k);
    if k == |x.log| - 1 {
      ErasingParse(f, pages, v);
    } else {
      LaidParse(f, pages, v.first, x, true, k);
      CompactedCalm(f, v, k);
      UserEntryOf(f, x.log[k].ws);
      ErasingSearch(f, pages, v, k + 1, end);
    }
  }

  lemma PosBefore2(f: Format, v: View, k: nat)
    requires Formed(f, v) && k < |v.log|
    ensures PosAt(v, k) == v.log[k].pos && PosAt(v, k) < PosAt(v, k + 1) <= v.tail
  {
    hide KindOf, MarksOk, Parses;
    PosBefore(v, k, k + 1);
  }

  lemma CompactedCalm(f: Format, v: View, k: nat)
    requires Formed(f, v) && Idle(f, v) && k < |Compacted(f, v).log| - 1
    ensures IsCalm(Kinds(f, Compacted(f, v), k))
  {
    hide KindOf, Contiguous, MarksOk, Parses, Copies, Dropped, Start, EraseWord, Append, Tower;
    var n := |Copies(f, v)| - 1;
    CopiedStep(f, v, n);
    CopiedCalm(f, v, n);
    AppendMarks(f, Copied(f, v, n), Copies(f, v)[n]);
    assert Compacted(f, v).log[k] == Copied(f, v, n).log[k];
    assert Kinds(f, Compacted(f, v), k) == Kinds(f, Copied(f, v, n), k);
  }

  lemma ErasingFinds(f: Format, pages: Pages, v: View) returns (h: nat)
    requires Erasing(f, pages, v)
    ensures Shape(f, pages) && InitsParse(f, pages) && IsExtremum(f, pages, true, h)
    ensures var x := Compacted(f, v);
            x.log != [] && FindErase(f, pages, h, NextPage(f, h)) == Ok(Some(x.log[|x.log| - 1].pos))
  {
    hide Snapshot, ParseEntry, KindOf, Contiguous, MarksOk, Parses, Erasing, Compacted, Idle, Roomy, Laid, EraseWord,
         Start, Alive, Compactable, InitsParse, IsExtremum, NextPage, FindErase;
    ErasingFormed(f, pages, v);
    var x := Compacted(f, v);
    ErasingHeads(f, pages, v);
    h := HeadAt(x, |x.marks| - 1);
    LastMark(f, x);
    LastPage(f, x);
    IdleCalm(f, v);
    MarkInside(f, v);
    ErasingSearch(f, pages, v, x.marks[|x.marks| - 1], NextPage(f, h));
  }

  /** The last page in use of a compacted log has an entry: the erase entry is one word long. */
  lemma MarkInside(f: Format, v: View)
    requires Formed(f, v) && Complete(f, v)
    ensures var x := Compacted(f, v); x.marks != [] && x.marks[|x.marks| - 1] < |x.log|
  {
    hide KindOf, Contiguous, Parses, Start, EraseWord, Copies, Dropped, Tower;
    var n := |Copies(f, v)| - 1;
    CopiedStep(f, v, n);
    CopyLast(f, v);
    DroppedFramed(f, v);
    CopiesAppendable(f, v);
    TowerFramed(f, Dropped(f, v), Copies(f, v), n);
    var t := Copied(f, v, n);
    assert Compacted(f, v) == Append(f, t, [EraseWord(f, v)]);
    if t.marks != [] { assert MarkOk(f, t, |t.marks| - 1); }
  }

  // ---------------------------------------------------------------------------------------------
  // The search in each phase

  /** All copies have been made. */
  predicate IsErasing(f: Format, p: Phase)
    requires f.Supported()
  {
    p.Compressing? && p.c == |Copies(f, p.v)|
  }

  /** A compaction that records a distance that is refused when it is read back. */
  predicate Stuck(f: Format, p: Phase)
    requires f.Supported()
  {
    && (p.Marking? || p.Compressing?) && !IsErasing(f, p)
    && Distance(f, p.v) > f.V() + f.M()
  }

  /** Where the entry that records the erasure is. */
  function ErasePos(f: Format, v: View): nat
    requires f.Supported()
  {
    var x := Compacted(f, v);
    x.log[|x.log| - 1].pos
  }

  /** The search finds the erase entry exactly when all copies have been made. */
  lemma EraseSearched(f: Format, pages: Pages, p: Phase) returns (h: nat)
    requires InPhase(f, pages, p) && p != Fresh
    ensures Shape(f, pages) && InitsParse(f, pages) && IsExtremum(f, pages, true, h)
    ensures FindErase(f, pages, h, NextPage(f, h)) == Ok(if IsErasing(f, p) then Some(ErasePos(f, p.v)) else None)
    ensures IsErasing(f, p) ==> Erasing(f, pages, p.v) && Compacted(f, p.v).log != []
    ensures p.Compressing? && !IsErasing(f, p) ==> Copying(f, pages, p.v, p.c)
  {
    hide InitsParse, IsExtremum, NextPage, FindErase, Copying, Erasing, Compacted, Copies, StageOk, Standing, Idle,
         Roomy, Snapshot, OpensPage, MayOpen, KindOf;
    match p
    case Operating(v, st) =>
      StandingFormed(f, pages, v, false);
      StageNoErase(f, v, st);
      h := StandingFinds(f, pages, v, false);
    case Marking(v) =>
      StandingFormed(f, pages, v, true);
      IdleNoErase(f, v);
      h := StandingFinds(f, pages, v, true);
    case Compressing(v, c) =>
      if c < |Copies(f, v)| {
        h := CopyingFinds(f, pages, v, c);
      } else {
        h := ErasingFinds(f, pages, v);
      }
  }

  lemma IdleNoErase(f: Format, v: View)
    requires f.Supported() && Idle(f, v)
    ensures NoErase(f, v)
  {
    hide KindOf;
    forall k: nat | k < |v.log| ensures !(Kinds(f, v, k).Internal? && Kinds(f, v, k).entry.Erase?) {
      assert IsCalm(Kinds(f, v, k));
    }
  }

  /** Going past a user entry or padding. */
  lemma ParsedAdvances(f: Format, pages: Pages, pos: nat)
    requires Shape(f, pages) && ParseEntry(f, pages, pos).Ok?
    ensures var r := ParseEntry(f, pages, pos).value; r.0.ParsedPadding? || r.0.ParsedUser? ==> r.1 > pos
  {
    hide ParseWord, ReadWord, LastWritten;
  }

  /** The position of the head, and what the compact info of its page tells. */
  lemma HeadSearched(f: Format, pages: Pages, p: Phase) returns (h: nat)
    requires InPhase(f, pages, p) && p != Fresh && f.Supported() && !IsErasing(f, p)
    ensures Shape(f, pages) && InitsParse(f, pages) && IsExtremum(f, pages, false, h)
    ensures var c := ParseCompact(f, InfoOf(f, pages, PageOf(f, h), 1));
            && (c.Ok? && c.value.Erased? <==> p.Operating?)
            && (c.Ok? && c.value.Partial? <==> p.Marking?)
            && (c.Ok? && c.value.Valid? ==> p.Compressing? && Copying(f, pages, p.v, p.c) && !Stuck(f, p))
            && (c.Err? ==> c.error == InvalidStorage && p.Compressing? && Stuck(f, p) && (p.v.lean ==> f.Overflows()))
    ensures p.Marking? ==> Markable(f, pages, p.v) && Compactable(f, p.v)
  {
    hide InitsParse, IsExtremum, Copying, Compacted, Copies, StageOk, Standing, Idle, Roomy, Snapshot, OpensPage,
         MayOpen, KindOf, HeadAt, ParseCompact, InfoOf, PageOf, CompactWord, Distance, Format.V, Format.M;
    match p
    case Operating(v, st) =>
      StandingFormed(f, pages, v, false);
      StandingHead(f, pages, v, false);
      h := HeadAt(v, 0);
      HeadInfo(f, pages, v);
      SteadyInfo(f, pages, v, false);
    case Marking(v) =>
      StandingFormed(f, pages, v, true);
      StandingHead(f, pages, v, true);
      h := HeadAt(v, 0);
      HeadInfo(f, pages, v);
      MarkInfo(f, pages, v);
    case Compressing(v, c) =>
      CopyingFacts(f, pages, v, c);
      CopyingHeads(f, pages, v, c);
      h := HeadAt(v, 0);
      CompactReadBack(f, pages, v);
      CompactingFormed(f, pages, v);
      DistanceNear(f, v);
  }

  lemma CopyingStuck(f: Format, pages: Pages, v: View, c: nat)
    requires Copying(f, pages, v, c)
    ensures f.Supported() && (Stuck(f, Compressing(v, c)) <==> Distance(f, v) > f.V() + f.M())
    ensures v.lean && Stuck(f, Compressing(v, c)) ==> f.Overflows()
  {
    hide Snapshot, Pending, Copied, Copies, Distance, Format.V, Format.M;
    CompactingFormed(f, pages, v);
    DistanceNear(f, v);
  }

  lemma HeadInfo(f: Format, pages: Pages, v: View)
    requires Shape(f, pages) && Formed(f, v)
    ensures |Snapshot(f, pages, v.first).compacts| > 0
    ensures InfoOf(f, pages, PageOf(f, HeadAt(v, 0)), 1) == Snapshot(f, pages, v.first).compacts[0]
  {
    hide Snapshot, KindOf, Contiguous, MarksOk, Parses, PageIndex, InfoOf, HeadAt;
    HeadCycle(f, v);
    SnapshotReads(f, pages, v.first);
    InfoOfPage(f, pages, v.first, 1);
    assert v.first + 0 == v.first;
  }

  lemma SteadyInfo(f: Format, pages: Pages, v: View, tidy: bool)
    requires Steady(f, pages, v, tidy)
    ensures Shape(f, pages) && |Snapshot(f, pages, v.first).compacts| > 0
    ensures ParseCompact(f, Snapshot(f, pages, v.first).compacts[0]) == Ok(Erased)
  {
    hide Snapshot, Formed, Matches, Alive;
  }

  lemma MarkInfo(f: Format, pages: Pages, v: View)
    requires MarkTorn(f, pages, v)
    ensures Shape(f, pages) && |Snapshot(f, pages, v.first).compacts| > 0
    ensures ParseCompact(f, Snapshot(f, pages, v.first).compacts[0]) == Ok(WordState.Partial)
  {
    hide Snapshot, Formed, Matches, Alive, Idle, Roomy, Distance, BuildCompact, ParseCompact, Compactable;
    MarkableFormed(f, pages, v);
    DistanceNear(f, v);
    TornCompact(f, Distance(f, v), Snapshot(f, pages, v.first).compacts[0]);
  }

  lemma MarkedFits(f: Format, pages: Pages, v: View)
    requires Markable(f, pages, v)
    ensures f.Supported() && (v.lean && Compactable(f, v) && !f.Overflows() ==> Distance(f, v) <= f.V() + f.M())
  {
    hide Snapshot, Formed, Distance, Standing, CompactWord, Roomy, Idle;
    MarkableFormed(f, pages, v);
    DistanceNear(f, v);
  }

  lemma OperatingHalted(f: Format, pages: Pages, p: Phase)
    requires InPhase(f, pages, p) && p.Operating?
    ensures Halted(f, pages, p.v, p.st) && f.Supported() && StageOk(f, p.v, p.st)
            && Promise(f, p) == Outcome(f, p.v, p.st)
  {
    hide Steady, StageOk, Roomy, OpensPage, MayOpen, Outcome;
    SteadyFormed(f, pages, p.v, false);
  }

  lemma HaltedPhase(f: Format, pages: Pages, v: View, st: Stage)
    requires Halted(f, pages, v, st)
    ensures InPhase(f, pages, Operating(v, st)) && f.Supported() && StageOk(f, v, st)
    ensures Promise(f, Operating(v, st)) == Outcome(f, v, st)
    ensures st == Settled ==> Outcome(f, v, st) == Content(f, v.log)
  {
    hide Steady, StageOk, Roomy, OpensPage, MayOpen, Content;
    SteadyFormed(f, pages, v, false);
  }
}
