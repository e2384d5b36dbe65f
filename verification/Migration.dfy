/**
 The states of the flash while a page is compacted, seen through the window of the page being
 compacted: the pages after it hold what has been copied so far.
 */
module Migration {
  import opened Arithmetic
  import opened Wrappers
  import opened Words
  import opened Format
  import opened Entries
  import opened Flash
  import opened Log
  import opened States
  import opened Appending
  import opened Contents
  import opened Stages
  import opened Compaction

  /** The pages after the first page of a window hold a log. */
  ghost predicate Laid(f: Format, pages: Pages, w: nat, d: View, tidy: bool) {
    && Shape(f, pages) && Framed(f, d) && Complete(f, d) && Alive(f, d) && d.first == w + 1
    && Matches(f, Snapshot(f, pages, w), d, 1, f.numPages - 1, tidy)
    && CompactsErased(Snapshot(f, pages, w), 1, f.numPages - 1)
  }

  predicate Opens(f: Format, d: View, ws: seq<Word>)
    requires f.Supported()
  {
    |Append(f, d, ws).marks| > |d.marks|
  }

  /**
   The pages after the first page of a window hold a log, followed by an entry that is being written.
   If that entry opens a page, the init info of that page is not complete.
   */
  ghost predicate Pending(f: Format, pages: Pages, w: nat, d: View, ws: seq<Word>) {
    && Shape(f, pages) && Framed(f, d) && Complete(f, d) && Alive(f, d) && d.first == w + 1
    && Appendable(f, ws) && !IsTorn(KindOf(f, ws))
    && d.tail + |ws| <= Start(f, d, f.numPages - 1)
    && PendingContent(f, Snapshot(f, pages, w), d, ws)
    && PendingInits(f, Snapshot(f, pages, w), d, ws)
    && CompactsErased(Snapshot(f, pages, w), 1, f.numPages - 1)
  }

  ghost predicate PendingContent(f: Format, s: Window, d: View, ws: seq<Word>)
    requires f.Supported()
  {
    && s.base + f.Q() == Start(f, d, 0) && |s.mem| == WindowSize(f)
    && HoldsLog(s, d) && Unfinished(s, d.tail, ws)
    && ErasedBetween(s, d.tail + |ws|, Start(f, d, f.numPages - 1))
  }

  ghost predicate PendingInits(f: Format, s: Window, d: View, ws: seq<Word>)
    requires f.Supported()
  {
    && |s.inits| == |s.compacts| == f.numPages
    && HoldsInits(f, s, Append(f, d, ws), 1, f.numPages - 1, !Opens(f, d, ws))
    && (Opens(f, d, ws) ==> !Initialized(f, s, Append(f, d, ws), 1, |d.marks|))
  }

  lemma AppendMarks(f: Format, d: View, ws: seq<Word>)
    requires f.Supported()
    ensures var d' := Append(f, d, ws);
            d'.first == d.first && d'.tail == d.tail + |ws| && |d.marks| <= |d'.marks| <= |d.marks| + 1
            && d'.log == d.log + [Item(d.tail, ws)]
  {
    hide KindOf, Start;
  }

  /** The init infos that an entry being written needs. */
  lemma PendingInited(f: Format, pages: Pages, w: nat, d: View, ws: seq<Word>)
    requires Pending(f, pages, w, d, ws)
    ensures Inited(f, pages, w, Append(f, d, ws), 1, f.numPages - 1, !Opens(f, d, ws))
    ensures Formed(f, Append(f, d, ws)) && |Append(f, d, ws).marks| < f.numPages
    ensures Opens(f, d, ws) ==> OpensPage(f, Append(f, d, ws)) && |Append(f, d, ws).marks| == |d.marks| + 1
    ensures Writable(Snapshot(f, pages, w), d.tail, ws)
  {
    hide Snapshot, KindOf, MarksOk, Contiguous, Parses, Start, InitWord, Format.M, Append;
    AppendFormed(f, d, ws);
    AppendMarks(f, d, ws);
    AliveSame(f, d, Append(f, d, ws));
    if Opens(f, d, ws) { AppendNewMark(f, d, ws); }
  }

  /** Completing the write of the entry. */
  lemma PendingWritten(f: Format, pages: Pages, pages': Pages, w: nat, d: View, ws: seq<Word>)
    requires Pending(f, pages, w, d, ws) && Shape(f, pages')
    requires Written(Snapshot(f, pages, w), Snapshot(f, pages', w), d.tail, ws)
    ensures Laid(f, pages', w, Append(f, d, ws), !Opens(f, d, ws))
    ensures Opens(f, d, ws) ==> !Initialized(f, Snapshot(f, pages', w), Append(f, d, ws), 1, |d.marks|)
    ensures Pending(f, pages', w, d, ws)
  {
    hide Snapshot, KindOf, MarksOk, Contiguous, Parses, Start, InitWord, Format.M, Append, Initialized, HoldsInits,
         ErasedBetween, HoldsLog;
    var s, s', d' := Snapshot(f, pages, w), Snapshot(f, pages', w), Append(f, d, ws);
    AppendFormed(f, d, ws);
    AppendMarks(f, d, ws);
    AliveSame(f, d, d');
    AppendComplete(f, d, ws);
    StartSame(f, d, d');
    AppendHoldsLog(f, s, s', d, ws);
    ErasedAfter(f, s, s', d.tail, |ws|, Start(f, d, f.numPages - 1));
    SameInits(f, s, s', d', 1, f.numPages - 1, !Opens(f, d, ws));
    HoldsLogBefore(f, s, s', d, |ws|);
    HeldUnfinished(s', d.tail, ws);
  }

  lemma HeldUnfinished(s: Window, pos: nat, ws: seq<Word>)
    requires Holds(s, pos, ws)
    ensures Unfinished(s, pos, ws)
  {
  }

  lemma ErasedAfter(f: Format, s: Window, s': Window, pos: nat, n: nat, hi: nat)
    requires ErasedBetween(s, pos + n, hi) && SameExcept(s, s', pos, n)
    ensures ErasedBetween(s', pos + n, hi)
  {
  }

  lemma SameInits(f: Format, s: Window, s': Window, v: View, off: nat, n: nat, tidy: bool)
    requires f.Supported() && s'.inits == s.inits
    ensures HoldsInits(f, s', v, off, n, tidy) == HoldsInits(f, s, v, off, n, tidy)
    ensures forall i: nat :: Initialized(f, s', v, off, i) == Initialized(f, s, v, off, i)
  {
    hide InitWord;
    assert forall i: nat :: PageInit(s', off, i) == PageInit(s, off, i);
  }

  /** What comes before a written place is not changed. */
  lemma HoldsLogBefore(f: Format, s: Window, s': Window, d: View, n: nat)
    requires Framed(f, d) && HoldsLog(s, d) && SameExcept(s, s', d.tail, n)
    ensures HoldsLog(s', d)
  {
    hide MarksOk, Parses, Start;
    forall k: nat | k < |d.log| ensures Holds(s', d.log[k].pos, d.log[k].ws) {
      assert Holds(s, d.log[k].pos, d.log[k].ws) && End(d.log[k]) <= d.tail;
    }
  }

  /** Interrupting the write of the entry. */
  lemma PendingTorn(f: Format, pages: Pages, pages': Pages, w: nat, d: View, ws: seq<Word>)
    requires Pending(f, pages, w, d, ws) && Shape(f, pages')
    requires TornWritten(Snapshot(f, pages, w), Snapshot(f, pages', w), d.tail, ws)
    ensures Pending(f, pages', w, d, ws)
  {
    hide Snapshot, KindOf, MarksOk, Contiguous, Parses, Start, InitWord, Format.M, Append, Initialized, HoldsInits,
         ErasedBetween, HoldsLog;
    var s, s', d' := Snapshot(f, pages, w), Snapshot(f, pages', w), Append(f, d, ws);
    ErasedAfter(f, s, s', d.tail, |ws|, Start(f, d, f.numPages - 1));
    SameInits(f, s, s', d', 1, f.numPages - 1, !Opens(f, d, ws));
    HoldsLogBefore(f, s, s', d, |ws|);
    TornIsUnfinished(s, s', d.tail, ws);
  }

  /** Writing the init info of the page that the entry opens. */
  lemma PendingInit(f: Format, pages: Pages, pages': Pages, w: nat, d: View, ws: seq<Word>, u: Word)
    requires Pending(f, pages, w, d, ws) && Laid(f, pages, w, Append(f, d, ws), false) && Shape(f, pages')
    requires Opens(f, d, ws) && Covers(u, InitWord(f, Append(f, d, ws), |d.marks|))
    requires Snapshot(f, pages', w) == WithInit(Snapshot(f, pages, w), 1 + |d.marks|, u)
    ensures u == InitWord(f, Append(f, d, ws), |d.marks|) ==> Laid(f, pages', w, Append(f, d, ws), true)
    ensures u != InitWord(f, Append(f, d, ws), |d.marks|) ==> Pending(f, pages', w, d, ws)
  {
    hide Snapshot, KindOf, MarksOk, Contiguous, Parses, Start, InitWord, Format.M, Format.Q, Append, ErasedBetween,
         HoldsLog;
    var s, s', d' := Snapshot(f, pages, w), Snapshot(f, pages', w), Append(f, d, ws);
    AppendMarks(f, d, ws);
    PendingInited(f, pages, w, d, ws);
    WithInitSame(s, 1 + |d.marks|, u, d);
    WithInitSame(s, 1 + |d.marks|, u, d');
    forall i: nat ensures PageInit(s', 1, i) == if i == |d.marks| then u else PageInit(s, 1, i) {
    }
    assert Unfinished(s', d.tail, ws);
  }

  /** The next entry to be written. */
  lemma LaidNext(f: Format, pages: Pages, w: nat, d: View, ws: seq<Word>)
    requires Laid(f, pages, w, d, true) && Appendable(f, ws) && !IsTorn(KindOf(f, ws))
    requires d.tail + |ws| <= Start(f, d, f.numPages - 1)
    ensures Pending(f, pages, w, d, ws)
    ensures forall q: nat :: d.tail <= q < d.tail + |ws| ==>
              InWindow(Snapshot(f, pages, w), q, 1) && At(Snapshot(f, pages, w), q) == ERASED_WORD
  {
    hide Snapshot, KindOf, MarksOk, Contiguous, Parses, Start, InitWord, Format.M, Format.Q, Append, HoldsLog,
         HoldsInits, Alive;
    var s, d' := Snapshot(f, pages, w), Append(f, d, ws);
    AppendMarks(f, d, ws);
    ErasedUnfinished(s, d.tail, ws, Start(f, d, f.numPages - 1));
    AppendHoldsInits(f, s, s, d, ws, 1, f.numPages - 1);
    if Opens(f, d, ws) {
      AppendFormed(f, d, ws);
      AliveSame(f, d, d');
      NewInitWord(f, s, d', |d.marks|);
    }
  }

  lemma ErasedUnfinished(s: Window, pos: nat, ws: seq<Word>, hi: nat)
    requires ErasedBetween(s, pos, hi) && pos + |ws| <= hi
    ensures Unfinished(s, pos, ws) && ErasedBetween(s, pos + |ws|, hi)
  {
    forall q: nat | pos <= q < pos + |ws| ensures Covers(At(s, q), ws[q - pos]) {
      CoversErased(ws[q - pos]);
    }
  }

  lemma NewInitWord(f: Format, s: Window, v: View, i: nat)
    requires Formed(f, v) && Alive(f, v) && i < |v.marks| && i + 2 <= f.numPages && PageInit(s, 1, i) == ERASED_WORD
    ensures !Initialized(f, s, v, 1, i)
  {
    hide InitWord, MarksOk, Contiguous, Parses, Alive;
    CoversErased(InitWord(f, v, i));
    InitWordParses(f, v, i, ERASED_WORD);
  }

  // ---------------------------------------------------------------------------------------------
  // Compaction

  /** The page of the head has erase cycles left. */
  predicate Compactable(f: Format, v: View)
    requires f.Supported()
  {
    CycleIndex(f, v.first) < f.maxPageErases
  }

  lemma MoreCycles(f: Format, v: View)
    requires f.Supported() && Compactable(f, v)
    ensures v.first + 1 <= f.maxPageErases * f.numPages
  {
    DivMod(v.first, f.numPages);
    MulMonotone(f.numPages, v.first / f.numPages + 1, f.maxPageErases);
    MulStep(v.first / f.numPages, f.numPages);
  }

  /** The distance between head and tail that the compact info records. */
  function Distance(f: Format, v: View): nat
    requires f.Supported()
  {
    var d := Dropped(f, v).tail;
    if d >= HeadAt(v, 0) then d - HeadAt(v, 0) else 0
  }

  function CompactWord(f: Format, v: View): Word
    requires f.Supported()
  {
    var w := BuildCompact(Distance(f, v));
    if w.Ok? then w.value else ZERO_WORD
  }

  /** A log that can be compacted. */
  ghost predicate Compactible(f: Format, v: View) {
    Formed(f, v) && Idle(f, v) && Roomy(f, v) && Alive(f, v) && Compactable(f, v)
  }

  /** The first page of the window is being compacted and still intact. */
  ghost predicate Compacting(f: Format, pages: Pages, v: View) {
    && Shape(f, pages) && Compactible(f, v)
    && var s := Snapshot(f, pages, v.first);
       && |s.inits| == |s.compacts| == f.numPages
       && HoldsLog(s, v) && ErasedBetween(s, v.tail, Dropped(f, v).tail)
       && PageInit(s, 0, 0) == InitWord(f, v, 0) && s.compacts[0] == CompactWord(f, v)
  }

  /** The view once some of the copies have been written. */
  function Copied(f: Format, v: View, c: nat): View
    requires f.Supported()
  {
    if c <= |Copies(f, v)| then Tower(f, Dropped(f, v), Copies(f, v), c) else v
  }

  /** The entries before one are copied, that one is being copied. */
  ghost predicate Copying(f: Format, pages: Pages, v: View, c: nat) {
    && Compacting(f, pages, v) && c < |Copies(f, v)|
    && Pending(f, pages, v.first, Copied(f, v, c), Copies(f, v)[c])
    && (c == |Copies(f, v)| - 1 && !Opens(f, Copied(f, v, c), Copies(f, v)[c]) ==>
          InWindow(Snapshot(f, pages, v.first), Copied(f, v, c).tail, 1)
          && At(Snapshot(f, pages, v.first), Copied(f, v, c).tail) != EraseWord(f, v))
  }

  /** All is copied, and the first page of the window is being erased. */
  ghost predicate Erasing(f: Format, pages: Pages, v: View) {
    && Compactible(f, v) && Laid(f, pages, v.first, Compacted(f, v), true)
    && Covers(PageInit(Snapshot(f, pages, v.first), 0, 0), InitWord(f, v, 0))
  }

  /** How far a compaction is: some of the copies are made, or all of them. */
  ghost predicate Progress(f: Format, pages: Pages, v: View, c: nat) {
    f.Supported() && if c < |Copies(f, v)| then Copying(f, pages, v, c) else c == |Copies(f, v)| && Erasing(f, pages, v)
  }

  lemma DistanceNear(f: Format, v: View)
    requires Formed(f, v) && Roomy(f, v)
    ensures Dropped(f, v).tail == HeadAt(v, 0) + Distance(f, v)
    ensures Distance(f, v) <= f.V() + f.numPages - 1 < 65536
    ensures v.lean && Compactable(f, v) && !f.Overflows() ==> Distance(f, v) <= f.V() + f.M()
    ensures BuildCompact(Distance(f, v)) == Ok(CompactWord(f, v))
  {
    hide KindOf, Contiguous, Parses, Start, Used, BuildCompact, HeadAt;
    DroppedPos(f, v);
    MarkBound(f, v, 0);
    StartStep(f, v, 0);
    assert NearAfter(f, v, 0);
    VirtSizes(f);
    SizeLimits(f);
    HeadBelow(f, v);
    if |v.marks| <= 1 { DroppedOne(f, v); }
    CompactReads(Distance(f, v));
  }

  lemma DroppedOne(f: Format, v: View)
    requires f.Supported() && |v.marks| <= 1
    ensures Dropped(f, v).tail == Start(f, v, 1)
  {
  }

  lemma HeadBelow(f: Format, v: View)
    requires Formed(f, v)
    ensures HeadAt(v, 0) <= v.tail && UsedBefore(f, v, 0) == 0
  {
    hide KindOf, Parses, Start;
    assert v.log[..0] == [];
  }

  lemma SizeLimits(f: Format)
    requires f.Supported()
    ensures f.V() + f.numPages < 65536
    ensures f.Q() <= f.V() + f.numPages - 2 && f.Q() <= f.V() + f.M()
  {
    f.SizeBounds();
    var a, b := f.numPages - 1, f.Q() - 1;
    MulMonotone(a, b, 1021);
    MulMonotone(1021, a, 63);
    MulMonotone(b, 2, a);
  }

  /** Writing after the log leaves the page being compacted as it is. */
  lemma CompactingKept(f: Format, pages: Pages, pages': Pages, v: View, pos: nat, n: nat)
    requires Compacting(f, pages, v) && Shape(f, pages') && pos >= Dropped(f, v).tail
    requires SameExcept(Snapshot(f, pages, v.first), Snapshot(f, pages', v.first), pos, n)
    ensures Compacting(f, pages', v)
  {
    hide Snapshot, KindOf, MarksOk, Parses, Start, InitWord, Dropped, CompactWord, Idle, Roomy, Alive;
    var s, s' := Snapshot(f, pages, v.first), Snapshot(f, pages', v.first);
    DroppedPos(f, v);
    forall k: nat | k < |v.log| ensures Holds(s', v.log[k].pos, v.log[k].ws) {
      assert Holds(s, v.log[k].pos, v.log[k].ws) && End(v.log[k]) <= v.tail;
    }
  }

  /** The init info of the page being compacted is still there. */
  lemma CompactingMarked(f: Format, pages: Pages, v: View)
    requires Compacting(f, pages, v)
    ensures Shape(f, pages) && PageInit(Snapshot(f, pages, v.first), 0, 0) != ERASED_WORD
  {
    hide Snapshot, Idle, Roomy, Alive, InitWord, Contiguous, MarksOk, Parses, CompactWord, HoldsLog, ErasedBetween,
         Compactable;
    InitWordParses(f, v, 0, InitWord(f, v, 0));
  }

  lemma CompactingInit(f: Format, pages: Pages, pages': Pages, v: View, i: nat, u: Word)
    requires Compacting(f, pages, v) && Shape(f, pages') && 1 <= i
    requires Snapshot(f, pages', v.first) == WithInit(Snapshot(f, pages, v.first), i, u)
    ensures Compacting(f, pages', v)
  {
    hide Snapshot, KindOf, Formed, Start, InitWord, Dropped, CompactWord, Idle, Roomy, Alive, HoldsLog, ErasedBetween;
    WithInitSame(Snapshot(f, pages, v.first), i, u, v);
  }

  lemma CopiedStep(f: Format, v: View, c: nat)
    requires Formed(f, v) && c < |Copies(f, v)|
    ensures Copied(f, v, c + 1) == Append(f, Copied(f, v, c), Copies(f, v)[c])
    ensures Copied(f, v, 0) == Dropped(f, v) && Copied(f, v, |Copies(f, v)|) == Compacted(f, v)
    ensures Copied(f, v, c).tail >= Dropped(f, v).tail
  {
    hide KindOf, MarksOk, Contiguous, Parses, Start, Append, Copies, Dropped;
    TowerTail(f, Dropped(f, v), Copies(f, v), c);
  }

  lemma CopiedFramed(f: Format, v: View, c: nat)
    requires Compactible(f, v) && c <= |Copies(f, v)|
    ensures Framed(f, Copied(f, v, c)) && Complete(f, Copied(f, v, c)) && Copied(f, v, c).first == v.first + 1
    ensures |Copied(f, v, c).log| == |Dropped(f, v).log| + c
    ensures Start(f, Copied(f, v, c), f.numPages - 1) == Start(f, v, f.numPages)
    ensures c < |Copies(f, v)| ==>
              && Appendable(f, Copies(f, v)[c]) && !IsTorn(KindOf(f, Copies(f, v)[c]))
              && Copied(f, v, c).tail + |Copies(f, v)[c]| <= Start(f, v, f.numPages)
    ensures Alive(f, Copied(f, v, c))
  {
    hide KindOf, MarksOk, Contiguous, Parses, Start, Append, Copies, Dropped, Roomy, Format.M, Alive, Compactable;
    CalmComplete(f, v);
    DroppedFramed(f, v);
    DroppedPos(f, v);
    CopiesAppendable(f, v);
    TowerFramed(f, Dropped(f, v), Copies(f, v), c);
    CompactionFits(f, v, c);
    StartsShift(f, v, Copied(f, v, c));
    NextAlive(f, v, Copied(f, v, c));
  }

  /** The next pages have erase cycles left. */
  lemma NextAlive(f: Format, v: View, d: View)
    requires f.Supported() && Compactable(f, v) && d.first == v.first + 1
    ensures Alive(f, d)
  {
    DivMod(v.first, f.numPages);
    MulMonotone(f.numPages, CycleIndex(f, v.first) + 1, f.maxPageErases);
    MulStep(CycleIndex(f, v.first), f.numPages);
    MulStep(f.maxPageErases, f.numPages);
  }

  /** All of an entry being copied is written. */
  lemma CopyWritten(f: Format, pages: Pages, pages': Pages, v: View, c: nat)
    requires Copying(f, pages, v, c) && Shape(f, pages')
    requires Written(Snapshot(f, pages, v.first), Snapshot(f, pages', v.first), Copied(f, v, c).tail, Copies(f, v)[c])
    ensures Compacting(f, pages', v) && Pending(f, pages', v.first, Copied(f, v, c), Copies(f, v)[c])
    ensures Laid(f, pages', v.first, Copied(f, v, c + 1), !Opens(f, Copied(f, v, c), Copies(f, v)[c]))
    ensures Copied(f, v, c + 1) == Append(f, Copied(f, v, c), Copies(f, v)[c])
  {
    hide Snapshot, Compacting, Pending, Laid, Copied, Copies, Append, Opens, Holds;
    CompactingFormed(f, pages, v);
    CopiedStep(f, v, c);
    CompactingKept(f, pages, pages', v, Copied(f, v, c).tail, |Copies(f, v)[c]|);
    PendingWritten(f, pages, pages', v.first, Copied(f, v, c), Copies(f, v)[c]);
  }

  lemma CompactingFormed(f: Format, pages: Pages, v: View)
    requires Compacting(f, pages, v)
    ensures Formed(f, v) && Idle(f, v) && Roomy(f, v) && Compactible(f, v) && Shape(f, pages)
  {
  }

  /** Once an entry is copied, with the init info of the page that it opens, the next is to be copied. */
  lemma CopyAdvance(f: Format, pages: Pages, v: View, c: nat)
    requires Compacting(f, pages, v) && c < |Copies(f, v)| && Laid(f, pages, v.first, Copied(f, v, c + 1), true)
    ensures Progress(f, pages, v, c + 1)
  {
    hide Snapshot, Pending, Laid, Copied, Copies, Append, Opens, Idle, Roomy, Formed, Alive, HoldsLog, ErasedBetween,
         EraseWord, KindOf, Appendable;
    CompactingFormed(f, pages, v);
    CopiedStep(f, v, c);
    CopiedFramed(f, v, c + 1);
    if c + 1 < |Copies(f, v)| {
      LaidNext(f, pages, v.first, Copied(f, v, c + 1), Copies(f, v)[c + 1]);
      NotErased(f, v);
      CopySize(f, v, c + 1);
    }
  }

  lemma CopySize(f: Format, v: View, c: nat)
    requires Formed(f, v) && c < |Copies(f, v)|
    ensures 1 <= |Copies(f, v)[c]| <= f.M() + 1 <= f.Q()
  {
    hide KindOf, MarksOk, Contiguous, Parses, Copies;
    CopiesAppendable(f, v);
    assert Appendable(f, Copies(f, v)[c]);
  }

  lemma NotErased(f: Format, v: View)
    requires f.Supported()
    ensures EraseWord(f, v) != ERASED_WORD
  {
    hide BuildInternal, ParseWord;
    EraseKind(f, v);
    TornInternal(f, Erase(PageIndex(f, v.first)), EraseWord(f, v));
  }

  /** Starting a compaction. */
  lemma CopyStart(f: Format, pages: Pages, v: View)
    requires Compacting(f, pages, v) && Laid(f, pages, v.first, Dropped(f, v), true)
    ensures Copying(f, pages, v, 0)
  {
    hide Snapshot, Pending, Laid, Copied, Copies, Append, Opens, Idle, Roomy, Formed, Alive, HoldsLog, ErasedBetween,
         EraseWord, KindOf, Appendable, Dropped;
    CompactingFormed(f, pages, v);
    CopiedStep(f, v, 0);
    CopiedFramed(f, v, 0);
    LaidNext(f, pages, v.first, Dropped(f, v), Copies(f, v)[0]);
    NotErased(f, v);
    CopySize(f, v, 0);
  }

  /** The write of an entry being copied is interrupted. */
  lemma CopyTorn(f: Format, pages: Pages, pages': Pages, v: View, c: nat) returns (c': nat)
    requires Copying(f, pages, v, c) && Shape(f, pages')
    requires TornWritten(Snapshot(f, pages, v.first), Snapshot(f, pages', v.first), Copied(f, v, c).tail,
                         Copies(f, v)[c])
    ensures c <= c' && Progress(f, pages', v, c')
  {
    hide Snapshot, Compacting, Pending, Laid, Copied, Copies, Append, Opens, EraseWord, Erasing, SameExcept;
    CompactingFormed(f, pages, v);
    CopiedStep(f, v, c);
    var s, s', pos, ws := Snapshot(f, pages, v.first), Snapshot(f, pages', v.first), Copied(f, v, c).tail,
      Copies(f, v)[c];
    CompactingKept(f, pages, pages', v, pos, |ws|);
    PendingTorn(f, pages, pages', v.first, Copied(f, v, c), ws);
    if c == |Copies(f, v)| - 1 && !Opens(f, Copied(f, v, c), ws) {
      CopyLast(f, v);
      SameLengthOf(s, s', pos, |ws|);
      if At(s', pos) == EraseWord(f, v) {
        assert Written(s, s', pos, ws);
        PendingWritten(f, pages, pages', v.first, Copied(f, v, c), ws);
        CopyAdvance(f, pages', v, c);
        return c + 1;
      }
    }
    return c;
  }

  lemma SameLengthOf(s: Window, s': Window, pos: nat, n: nat)
    requires SameExcept(s, s', pos, n) && InWindow(s, pos, n)
    ensures InWindow(s', pos, n)
  {
  }

  lemma CopyLast(f: Format, v: View)
    requires f.Supported()
    ensures Copies(f, v)[|Copies(f, v)| - 1] == [EraseWord(f, v)]
  {
    hide KindOf, EraseWord, Moved;
  }

  /** The init info of the page that a copied entry opens is written, completely or not. */
  lemma CopyInit(f: Format, pages: Pages, pages': Pages, v: View, c: nat, u: Word) returns (c': nat)
    requires Compacting(f, pages, v) && c < |Copies(f, v)|
    requires Pending(f, pages, v.first, Copied(f, v, c), Copies(f, v)[c])
             && Laid(f, pages, v.first, Copied(f, v, c + 1), false)
    requires Opens(f, Copied(f, v, c), Copies(f, v)[c]) && Shape(f, pages')
    requires Covers(u, InitWord(f, Copied(f, v, c + 1), |Copied(f, v, c).marks|))
    requires Snapshot(f, pages', v.first) == WithInit(Snapshot(f, pages, v.first), 1 + |Copied(f, v, c).marks|, u)
    ensures c <= c' && Progress(f, pages', v, c') && Compacting(f, pages', v)
    ensures u == InitWord(f, Copied(f, v, c + 1), |Copied(f, v, c).marks|) ==>
              c' == c + 1 && Laid(f, pages', v.first, Copied(f, v, c + 1), true)
  {
    hide Snapshot, Compacting, Pending, Laid, Copied, Copies, Append, Opens, EraseWord, Erasing, InitWord, WithInit;
    CompactingFormed(f, pages, v);
    CopiedStep(f, v, c);
    CompactingInit(f, pages, pages', v, 1 + |Copied(f, v, c).marks|, u);
    PendingInit(f, pages, pages', v.first, Copied(f, v, c), Copies(f, v)[c], u);
    if u == InitWord(f, Copied(f, v, c + 1), |Copied(f, v, c).marks|) {
      CopyAdvance(f, pages', v, c);
      return c + 1;
    }
    return c;
  }

  /** An entry that has been copied is there, and initializing its page again changes nothing. */
  lemma CopiedHolds(f: Format, pages: Pages, v: View, c: nat, i: nat)
    requires Copying(f, pages, v, c) && i <= c
    ensures Inited(f, pages, v.first, Copied(f, v, c + 1), 1, f.numPages - 1,
                   !Opens(f, Copied(f, v, c), Copies(f, v)[c]))
    ensures Opens(f, Copied(f, v, c), Copies(f, v)[c]) ==> OpensPage(f, Copied(f, v, c + 1))
    ensures |Copied(f, v, c + 1).log| == |Dropped(f, v).log| + c + 1
    ensures Copied(f, v, c + 1).log[|Dropped(f, v).log| + i] == Item(Copied(f, v, i).tail, Copies(f, v)[i])
    ensures Writable(Snapshot(f, pages, v.first), Copied(f, v, i).tail, Copies(f, v)[i])
    ensures i < c ==> Holds(Snapshot(f, pages, v.first), Copied(f, v, i).tail, Copies(f, v)[i])
    ensures Opens(f, Copied(f, v, c), Copies(f, v)[c]) ==> |Copied(f, v, c + 1).marks| == |Copied(f, v, c).marks| + 1
  {
    hide Snapshot, Compacting, Pending, Copies, Append, Opens, EraseWord, KindOf, Contiguous, MarksOk, Parses, Start,
         OpensPage, Inited, Dropped;
    CompactingFormed(f, pages, v);
    CopiedStep(f, v, c);
    PendingInited(f, pages, v.first, Copied(f, v, c), Copies(f, v)[c]);
    var d, es := Dropped(f, v), Copies(f, v);
    TowerGrows(f, d, es, i, c + 1);
    if i < c {
      TowerGrows(f, d, es, i, c);
      PendingHolds(f, pages, v.first, Copied(f, v, c), es[c], |d.log| + i);
      HeldWritable(Snapshot(f, pages, v.first), Copied(f, v, i).tail, es[i]);
    }
  }

  lemma PendingHolds(f: Format, pages: Pages, w: nat, d: View, ws: seq<Word>, k: nat)
    requires Pending(f, pages, w, d, ws) && k < |d.log|
    ensures Holds(Snapshot(f, pages, w), d.log[k].pos, d.log[k].ws)
  {
  }

  lemma HeldWritable(s: Window, pos: nat, ws: seq<Word>)
    requires Holds(s, pos, ws)
    ensures Writable(s, pos, ws)
  {
  }

  // ---------------------------------------------------------------------------------------------
  // Heads of pages during a compaction

  ghost predicate FirstInit(f: Format, pages: Pages, v: View)
    requires Shape(f, pages)
  {
    Covers(PageInit(Snapshot(f, pages, v.first), 0, 0), InitWord(f, v, 0))
  }

  /** The page being compacted or erased has its head, or none. */
  lemma FirstPageHead(f: Format, pages: Pages, v: View)
    requires Shape(f, pages) && Formed(f, v) && Alive(f, v) && FirstInit(f, pages, v)
    ensures ParseInit(f, InfoOf(f, pages, PageIndex(f, v.first), 0)).Ok?
    ensures PageHead(f, pages, PageIndex(f, v.first)) ==
            if PageInit(Snapshot(f, pages, v.first), 0, 0) == InitWord(f, v, 0) then Some(HeadAt(v, 0)) else None
  {
    hide ParseInit, InitWord, Snapshot, InfoOf, PageIndex, Parses, Contiguous, Alive, Format.Q, Position, HeadAt, Start;
    SnapshotReads(f, pages, v.first);
    var s := Snapshot(f, pages, v.first);
    InfoOfPage(f, pages, v.first, 0);
    assert PageInit(s, 0, 0) == s.inits[0] == InfoOf(f, pages, v.first + 0, 0);
    InitWordParses(f, v, 0, PageInit(s, 0, 0));
    assert MarkOk(f, v, 0);
    PageHeadPos(f, v, 0, HeadAt(v, 0) - Start(f, v, 0));
  }

  /** The head of a page of the window of a compaction. */
  lemma WindowHead(f: Format, pages: Pages, v: View, d: View, tidy: bool, p: nat) returns (i: int)
    requires Shape(f, pages) && Formed(f, v) && Alive(f, v) && FirstInit(f, pages, v) && p < f.numPages
    requires Inited(f, pages, v.first, d, 1, f.numPages - 1, tidy)
    ensures ParseInit(f, InfoOf(f, pages, p, 0)).Ok?
    ensures -1 <= i < f.numPages - 1
    ensures PageHead(f, pages, p) ==
            if i == -1 then
              if PageInit(Snapshot(f, pages, v.first), 0, 0) == InitWord(f, v, 0) then Some(HeadAt(v, 0)) else None
            else if Initialized(f, Snapshot(f, pages, v.first), d, 1, i) then Some(HeadAt(d, i)) else None
  {
    hide ParseInit, InitWord, Snapshot, InfoOf, PageIndex, PageHead, HeadAt, HoldsInits, Alive, Formed, Initialized,
         FirstInit;
    var j := PageOfIndex(f, v.first, p);
    if j == 0 {
      FirstPageHead(f, pages, v);
      return -1;
    }
    PageHeadOf(f, pages, v.first, d, 1, f.numPages - 1, tidy, j - 1);
    assert d.first + (j - 1) == v.first + j;
    return j - 1;
  }

  lemma HeadsApart(f: Format, v: View, d: View, i: nat)
    requires Formed(f, v) && Formed(f, d) && d.first == v.first + 1 && i < |d.marks|
    ensures HeadAt(v, 0) < Start(f, v, 1) == Start(f, d, 0) <= HeadAt(d, i)
  {
    hide Parses, Contiguous, HeadAt, Start, KindOf;
    MarkBound(f, v, 0);
    MarkBound(f, d, i);
    StartStep(f, v, 0);
    StartOrder(f, d, 0, i);
    StartShift(f, v, d, 0);
  }

  /** The least and the greatest page head during a compaction. */
  lemma WindowHeads(f: Format, pages: Pages, v: View, d: View, tidy: bool)
    requires Shape(f, pages) && Formed(f, v) && Alive(f, v) && FirstInit(f, pages, v)
    requires Inited(f, pages, v.first, d, 1, f.numPages - 1, tidy)
    ensures InitsParse(f, pages)
    ensures var n := ReadyPages(f, Snapshot(f, pages, v.first), d, 1);
            && n <= |d.marks| && (tidy ==> n == |d.marks| > 0)
            && (PageInit(Snapshot(f, pages, v.first), 0, 0) == InitWord(f, v, 0) ==>
                  && IsExtremum(f, pages, false, HeadAt(v, 0))
                  && (n == 0 ==> IsExtremum(f, pages, true, HeadAt(v, 0))))
            && (n > 0 ==> IsExtremum(f, pages, true, HeadAt(d, n - 1)))
            && (n > 0 && PageInit(Snapshot(f, pages, v.first), 0, 0) != InitWord(f, v, 0) ==>
                  IsExtremum(f, pages, false, HeadAt(d, 0)))
  {
    hide ParseInit, InitWord, Snapshot, InfoOf, PageIndex, PageHead, HeadAt, Alive, Parses, Contiguous, MarksOk,
         FirstInit, Start;
    var s := Snapshot(f, pages, v.first);
    var n := ReadyPages(f, s, d, 1);
    forall p: nat | p < f.numPages ensures ParseInit(f, InfoOf(f, pages, p, 0)).Ok? {
      var i := WindowHead(f, pages, v, d, tidy, p);
    }
    FirstPageHead(f, pages, v);
    var first := PageIndex(f, v.first);
    forall p: nat | p < f.numPages && PageHead(f, pages, p).Some?
      ensures PageInit(s, 0, 0) == InitWord(f, v, 0) ==> PageHead(f, pages, p).value >= HeadAt(v, 0)
      ensures PageInit(s, 0, 0) != InitWord(f, v, 0) ==> PageHead(f, pages, p).value >= HeadAt(d, 0)
      ensures n == 0 ==> PageHead(f, pages, p).value <= HeadAt(v, 0)
      ensures n > 0 ==> PageHead(f, pages, p).value <= HeadAt(d, n - 1)
    {
      var i := WindowHead(f, pages, v, d, tidy, p);
      if n > 0 { HeadsApart(f, v, d, n - 1); }
      if i >= 0 {
        HeadsApart(f, v, d, i);
        if i > 0 { MarkOrder(f, d, 0, i); }
        if i < n - 1 { MarkOrder(f, d, i, n - 1); }
      }
    }
    if n > 0 {
      LaidHead(f, pages, v, d, tidy, n - 1);
      LaidHead(f, pages, v, d, tidy, 0);
    }
  }

  lemma LaidHead(f: Format, pages: Pages, v: View, d: View, tidy: bool, i: nat)
    requires Shape(f, pages) && Inited(f, pages, v.first, d, 1, f.numPages - 1, tidy)
             && i < ReadyPages(f, Snapshot(f, pages, v.first), d, 1)
    ensures PageIndex(f, d.first + i) < f.numPages
            && PageHead(f, pages, PageIndex(f, d.first + i)) == Some(HeadAt(d, i))
  {
    hide ParseInit, InitWord, Snapshot, InfoOf, PageIndex, PageHead, HeadAt, Alive, Formed;
    PageHeadOf(f, pages, v.first, d, 1, f.numPages - 1, tidy, i);
  }

  lemma CopyingHeads(f: Format, pages: Pages, v: View, c: nat)
    requires Copying(f, pages, v, c)
    ensures Shape(f, pages) && InitsParse(f, pages) && IsExtremum(f, pages, false, HeadAt(v, 0))
    ensures var d := Copied(f, v, c);
            if d.marks == [] then IsExtremum(f, pages, true, HeadAt(v, 0))
            else IsExtremum(f, pages, true, HeadAt(d, |d.marks| - 1))
  {
    hide Snapshot, Pending, Copies, Append, EraseWord, KindOf, Contiguous, MarksOk, Parses, Start, OpensPage, Inited,
         Dropped, Copied, IsExtremum, InitsParse, HeadAt, InitWord;
    CompactingFormed(f, pages, v);
    CopiedStep(f, v, c);
    var d, ws := Copied(f, v, c), Copies(f, v)[c];
    PendingInited(f, pages, v.first, d, ws);
    CoversSelf(InitWord(f, v, 0));
    WindowHeads(f, pages, v, Append(f, d, ws), !Opens(f, d, ws));
    PendingReady(f, pages, v.first, d, ws);
  }

  lemma CoversSelf(w: Word)
    ensures Covers(w, w)
  {
  }

  lemma PendingReady(f: Format, pages: Pages, w: nat, d: View, ws: seq<Word>)
    requires Pending(f, pages, w, d, ws)
    ensures ReadyPages(f, Snapshot(f, pages, w), Append(f, d, ws), 1) == |d.marks|
    ensures d.marks != [] ==> HeadAt(Append(f, d, ws), |d.marks| - 1) == HeadAt(d, |d.marks| - 1)
  {
    hide Snapshot, KindOf, MarksOk, Contiguous, Parses, Start, InitWord, Format.M, Append, HeadAt, HoldsLog, Alive;
    AppendFormed(f, d, ws);
    AppendMarks(f, d, ws);
    AppendHeads(f, d, ws);
  }

  // ---------------------------------------------------------------------------------------------
  // Moving the window once the page is erased

  ghost predicate PageErased(f: Format, pages: Pages, page: nat)
    requires Shape(f, pages) && page < f.numPages
  {
    forall i: nat :: i < f.Q() + 2 ==> pages[page][i] == ERASED_WORD
  }

  /** The next window holds the same pages, the first one after the others. */
  lemma WindowShift(f: Format, pages: Pages, w: nat)
    requires Shape(f, pages)
    ensures var s, s' := Snapshot(f, pages, w), Snapshot(f, pages, w + 1);
            && s'.base == s.base + f.Q() && |s'.mem| == |s.mem| == WindowSize(f)
            && |s.inits| == |s.compacts| == |s'.inits| == |s'.compacts| == f.numPages
            && (forall q: nat :: s'.base <= q < s.base + |s.mem| ==> At(s', q) == At(s, q))
            && (forall i: nat :: i < f.numPages - 1 ==> PageInit(s', 0, i) == PageInit(s, 1, i))
            && (forall i: nat :: i < f.numPages - 1 ==> s'.compacts[i] == s.compacts[i + 1])
            && s'.inits[f.numPages - 1] == s.inits[0] && s'.compacts[f.numPages - 1] == s.compacts[0]
            && s.inits[0] == pages[PageIndex(f, w)][0] && s.compacts[0] == pages[PageIndex(f, w)][1]
  {
    hide Snapshot, ReadWord, PageIndex, InfoOf, Format.Q, Format.Supported, WindowSize;
    SnapshotReads(f, pages, w);
    SnapshotReads(f, pages, w + 1);
    MulStep(w, f.Q());
    var s, s' := Snapshot(f, pages, w), Snapshot(f, pages, w + 1);
    PageWraps(f, w);
    forall i: nat | i < f.numPages - 1
      ensures PageInit(s', 0, i) == PageInit(s, 1, i) && s'.compacts[i] == s.compacts[i + 1]
    {
      assert (w + 1) + i == w + (i + 1);
      assert s'.inits[i] == InfoOf(f, pages, w + 1 + i, 0) && s.inits[i + 1] == InfoOf(f, pages, w + (i + 1), 0);
    }
    InfoWraps(f, pages, w);
    assert w + 1 + (f.numPages - 1) == w + f.numPages;
    assert w + 0 == w;
  }

  lemma PageWraps(f: Format, w: nat)
    requires f.Supported()
    ensures PageIndex(f, w + f.numPages) == PageIndex(f, w)
  {
    DivMod(w, f.numPages);
    MulStep(w / f.numPages, f.numPages);
    DivModUnique(w + f.numPages, f.numPages, w / f.numPages + 1, w % f.numPages);
  }

  lemma InfoWraps(f: Format, pages: Pages, w: nat)
    requires Shape(f, pages)
    ensures InfoOf(f, pages, w + f.numPages, 0) == InfoOf(f, pages, w, 0) == pages[PageIndex(f, w)][0]
    ensures InfoOf(f, pages, w + f.numPages, 1) == InfoOf(f, pages, w, 1) == pages[PageIndex(f, w)][1]
  {
    hide PageIndex;
    PageWraps(f, w);
  }

  /** The last page of the next window is the first of this one. */
  lemma LastPageReads(f: Format, pages: Pages, w: nat, q: nat)
    requires Shape(f, pages) && PageErased(f, pages, PageIndex(f, w))
    requires (w + f.numPages) * f.Q() <= q < (w + f.numPages) * f.Q() + f.Q()
    ensures ReadWord(f, pages, q) == ERASED_WORD
  {
    hide PageIndex, Format.Q, Format.Supported;
    DivModUnique(q, f.Q(), w + f.numPages, q - (w + f.numPages) * f.Q());
    PageWraps(f, w);
  }

  lemma StartIs(f: Format, d: View, w: nat, i: nat)
    requires f.Supported() && d.first == w + 1
    ensures Start(f, d, i) == (w + 1 + i) * f.Q()
    ensures Start(f, d, 0) == w * f.Q() + f.Q()
    ensures Start(f, d, f.numPages - 1) == w * f.Q() + WindowSize(f)
    ensures Start(f, d, f.numPages) == (w + 1) * f.Q() + WindowSize(f)
  {
    MulStep(w, f.Q());
    MulSum(w, f.numPages, f.Q());
    MulSum(w + 1, f.numPages, f.Q());
  }

  /** Once its first page is erased, the window moves by one page. */
  lemma ShiftSteady(f: Format, pages: Pages, w: nat, d: View)
    requires Laid(f, pages, w, d, true) && d.log != [] && d.marks != []
    requires PageErased(f, pages, PageIndex(f, w))
    ensures Steady(f, pages, d, true)
  {
    hide Snapshot, ReadWord, PageIndex, Format.Q, Format.Supported, WindowSize, Start, Contiguous, MarksOk, Parses,
         InitWord, HeadAt, Alive, KindOf, PageInit;
    var s, s', n := Snapshot(f, pages, w), Snapshot(f, pages, w + 1), f.numPages;
    WindowShift(f, pages, w);
    StartIs(f, d, w, n - 1);
    StartStep(f, d, n - 1);
    ShiftHolds(f, s, s', d);
    TailAfter(f, d);
    assert ErasedBetween(s', d.tail, Start(f, d, n)) by {
      forall q: nat | d.tail <= q < Start(f, d, n) ensures At(s', q) == ERASED_WORD {
        if q < Start(f, d, n - 1) {
          assert At(s', q) == At(s, q);
        } else {
          SnapshotReads(f, pages, w + 1);
          LastPageReads(f, pages, w, q);
        }
      }
    }
    assert PageInit(s', 0, n - 1) == ERASED_WORD by { LastInit(s'); }
    assert HoldsInits(f, s', d, 0, n, true);
  }

  lemma LastInit(s: Window)
    ensures s.inits != [] ==> PageInit(s, 0, |s.inits| - 1) == s.inits[|s.inits| - 1]
  {
  }

  lemma ShiftHolds(f: Format, s: Window, s': Window, d: View)
    requires Framed(f, d) && s.base <= s'.base <= Start(f, d, 0) && |s'.mem| == |s.mem|
    requires forall q: nat :: s'.base <= q < s.base + |s.mem| ==> At(s', q) == At(s, q)
    requires d.marks != []
    ensures HoldsLog(s, d) ==> HoldsLog(s', d)
    ensures HoldsLog(s', d) && d.tail <= s.base + |s.mem| ==> HoldsLog(s, d)
  {
    hide Start, Parses;
    assert MarkOk(f, d, 0);
    forall k: nat | k < |d.log|
      ensures Holds(s, d.log[k].pos, d.log[k].ws) ==> Holds(s', d.log[k].pos, d.log[k].ws)
      ensures Holds(s', d.log[k].pos, d.log[k].ws) && d.tail <= s.base + |s.mem| ==> Holds(s, d.log[k].pos, d.log[k].ws)
    {
      PosBefore(d, 0, k);
    }
  }

  /** What a window holds, seen through the window before it. */
  lemma ShiftBack(f: Format, pages: Pages, w: nat, d: View)
    requires Steady(f, pages, d, true) && d.first == w + 1 && Complete(f, d)
    ensures Laid(f, pages, w, d, true) && PageInit(Snapshot(f, pages, w), 0, 0) == ERASED_WORD
  {
    hide Snapshot, ReadWord, PageIndex, Format.Q, Format.Supported, WindowSize, Start, Contiguous, MarksOk, Parses,
         InitWord, HeadAt, Alive, KindOf;
    var s, s', n := Snapshot(f, pages, w), Snapshot(f, pages, w + 1), f.numPages;
    WindowShift(f, pages, w);
    StartIs(f, d, w, n - 1);
    StartStep(f, d, n - 1);
    MarksBelow(f, d);
    ShiftHolds(f, s, s', d);
    assert ErasedBetween(s, d.tail, Start(f, d, n - 1)) by {
      forall q: nat | d.tail <= q < Start(f, d, n - 1) ensures At(s, q) == ERASED_WORD {
        TailAfter(f, d);
        assert At(s', q) == At(s, q);
      }
    }
    assert HoldsInits(f, s, d, 1, n - 1, true);
    assert CompactsErased(s, 1, n - 1) by {
      forall i: nat | 1 <= i < 1 + (n - 1) ensures s.compacts[i] == ERASED_WORD {
        assert s.compacts[i] == s'.compacts[i - 1];
      }
    }
    assert PageInit(s', 0, n - 1) == ERASED_WORD;
  }

  lemma TailAfter(f: Format, d: View)
    requires Formed(f, d)
    ensures Start(f, d, 0) <= d.tail
  {
    hide Start, Parses, KindOf, Contiguous, HeadAt;
    MarkBound(f, d, 0);
    HeadBelow(f, d);
  }

  lemma CopiedInited(f: Format, pages: Pages, v: View, c: nat)
    requires Compacting(f, pages, v) && c < |Copies(f, v)|
             && Pending(f, pages, v.first, Copied(f, v, c), Copies(f, v)[c])
    ensures Inited(f, pages, v.first, Copied(f, v, c + 1), 1, f.numPages - 1,
                   !Opens(f, Copied(f, v, c), Copies(f, v)[c]))
  {
    hide Snapshot, Compacting, Pending, Copies, Copied, Append, Opens, Inited;
    CompactingFormed(f, pages, v);
    CopiedStep(f, v, c);
    PendingInited(f, pages, v.first, Copied(f, v, c), Copies(f, v)[c]);
  }
}
