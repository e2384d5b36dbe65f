/** How compacting a page wears out the flash: the page is erased, and its counters start again. */
module Lifetime {
  import opened Arithmetic
  import opened Words
  import opened Format
  import opened Entries
  import opened Flash
  import opened Log
  import opened States
  import opened Storage
  import opened Appending
  import opened Contents
  import opened Stages
  import opened Compaction
  import opened Migration
  import opened Phases
  import opened Booting
  import opened Wiping
  import opened Endurance

  // ---------------------------------------------------------------------------------------------
  // Copying

  /** Copying an entry of the page being compacted writes erased words. */
  lemma WornCopy(f: Format, pages: Pages, pages': Pages, wear: Wear, wear': Wear, w: nat, v: View, d: View,
                 ws: seq<Word>)
    requires WornIn(f, pages, wear, w, v) && Aged(f, pages, pages', wear, wear', w)
    requires Laid(f, pages, w, d, true) && ws != [] && d.tail + |ws| <= Start(f, d, f.numPages - 1)
    requires Written(Snapshot(f, pages, w), Snapshot(f, pages', w), d.tail, ws)
    requires |Append(f, d, ws).marks| < f.numPages
    ensures WornIn(f, pages', wear', w, v)
    ensures Shape(f, pages') && Intact(f, Snapshot(f, pages', w), Append(f, d, ws), 1)
  {
    hide Snapshot, WornIn, Aged, KindOf, Framed, Alive, Start, Append, InitWord, WindowSize, Format.Q;
    AgedSizes(f, pages, pages', wear, wear', w);
    var s, s' := Snapshot(f, pages, w), Snapshot(f, pages', w);
    WornAppend(f, pages, pages', wear, wear', w, v, v, d.tail, ws);
    AppendIntact(f, s, d, ws, 1, f.numPages - 1);
    IntactSame(f, s, s', Append(f, d, ws), 1);
  }

  /** Making the next copy of a compaction. */
  lemma WornCopied(f: Format, pages: Pages, pages': Pages, wear: Wear, wear': Wear, v: View, c: nat, tidy: bool)
    requires f.Supported() && Compactible(f, v) && c < |Copies(f, v)|
    requires WornIn(f, pages, wear, v.first, v) && Aged(f, pages, pages', wear, wear', v.first)
    requires Laid(f, pages, v.first, Copied(f, v, c), true) && Laid(f, pages', v.first, Copied(f, v, c + 1), tidy)
    requires Written(Snapshot(f, pages, v.first), Snapshot(f, pages', v.first), Copied(f, v, c).tail, Copies(f, v)[c])
    ensures WornIn(f, pages', wear', v.first, v)
    ensures Shape(f, pages') && Intact(f, Snapshot(f, pages', v.first), Copied(f, v, c + 1), 1)
    ensures 1 + |Copied(f, v, c + 1).marks| <= f.numPages
  {
    hide Snapshot, WornIn, Aged, KindOf, Laid, Alive, Start, Append, Intact, Copied, Copies, Idle, Roomy, Compactable,
         Formed;
    CopiedFramed(f, v, c);
    CopiedStep(f, v, c);
    CopySize(f, v, c);
    LaidMarks(f, pages', v.first, Copied(f, v, c + 1), tidy);
    WornCopy(f, pages, pages', wear, wear', v.first, v, Copied(f, v, c), Copies(f, v)[c]);
  }

  /** Writing the compact info of the page of the head, which is erased. */
  lemma WornMark(f: Format, pages: Pages, pages': Pages, wear: Wear, wear': Wear, v: View)
    requires WornIn(f, pages, wear, v.first, v) && Steady(f, pages, v, true)
    requires Shape(f, pages') && WearShape(f, wear') && Counted(f, pages, pages', wear, wear')
    requires DiffersOnlyIn(f, pages, pages', PageIndex(f, v.first), 1, 1)
    ensures WornIn(f, pages', wear', v.first, v)
  {
    hide Snapshot, WornIn, Aged, Standing, KindOf, PageIndex, Counted, Format.Q;
    WornSizes(f, pages, wear, v.first, v);
    CountedAged(f, pages, pages', wear, wear', v.first);
    assert v.first + 0 == v.first;
    InfoChange(f, pages, pages', v.first, 0, 1);
    var s, s' := Snapshot(f, pages, v.first), Snapshot(f, pages', v.first);
    assert forall q: nat :: s.base <= q < s.base + |s.mem| ==> At(s', q) == At(s, q);
    WornStep(f, pages, pages', wear, wear', v.first, v, v);
  }

  lemma {:induction false} TowerExact(f: Format, d: View, es: seq<seq<Word>>, c: nat)
    requires f.Supported() && Framed(f, d) && Complete(f, d) && Exact(f, d) && c <= |es| && AllAppendable(f, es)
    ensures Exact(f, Tower(f, d, es, c))
  {
    hide KindOf, Framed, Append, Exact, Complete;
    if c > 0 {
      TowerExact(f, d, es, c - 1);
      TowerFramed(f, d, es, c - 1);
      AppendExact(f, Tower(f, d, es, c - 1), es[c - 1]);
    }
  }

  lemma DroppedExact(f: Format, v: View)
    requires Formed(f, v) && Exact(f, v)
    ensures Exact(f, Dropped(f, v))
  {
    hide KindOf, Parses, Contiguous, MarksOk, Start;
    var d := Dropped(f, v);
    DroppedPos(f, v);
    forall i: nat, k: nat | i < |d.marks| && k < d.marks[i] && k < |d.log| ensures d.log[k].pos < Start(f, d, i) {
      assert v.log[k + Gone(v)].pos < Start(f, v, i + 1);
    }
  }

  lemma CompactedExact(f: Format, v: View)
    requires f.Supported() && Formed(f, v) && Complete(f, v) && Exact(f, v)
    ensures Exact(f, Compacted(f, v))
  {
    hide KindOf, Formed, Append, Exact, Complete, Dropped, Copies, Framed;
    DroppedExact(f, v);
    DroppedFramed(f, v);
    CopiesAppendable(f, v);
    TowerExact(f, Dropped(f, v), Copies(f, v), |Copies(f, v)|);
  }

  // ---------------------------------------------------------------------------------------------
  // Erasing

  /** Padding that does not start in the page being compacted is still there. */
  lemma {:induction false} TowerPadded(f: Format, d: View, es: seq<seq<Word>>, c: nat)
    requires f.Supported() && c <= |es|
    ensures forall q: nat :: Padded(f, d, q) ==> Padded(f, Tower(f, d, es, c), q)
  {
    hide KindOf, Append, Padded;
    if c > 0 {
      TowerPadded(f, d, es, c - 1);
      AppendShape(f, Tower(f, d, es, c - 1), es[c - 1]);
      PaddedMore(f, Tower(f, d, es, c - 1), Tower(f, d, es, c));
    }
  }

  lemma DroppedPadded(f: Format, v: View, q: nat)
    requires Formed(f, v) && Exact(f, v) && Padded(f, v, q) && q >= Start(f, v, 1)
    ensures Padded(f, Dropped(f, v), q)
  {
    hide KindOf, Parses, MarksOk, Start, Contiguous;
    var k: nat :| k < |v.log| && v.log[k].pos == q && Kinds(f, v, k).Padding?;
    DroppedPos(f, v);
    BeforeTail(f, v, k);
    var d := Dropped(f, v);
    assert k >= Gone(v);
    assert d.log[k - Gone(v)] == v.log[k];
    assert Kinds(f, d, k - Gone(v)).Padding?;
  }

  lemma BeforeTail(f: Format, v: View, k: nat)
    requires Formed(f, v) && k < |v.log|
    ensures v.log[k].pos < v.tail
    ensures |v.marks| <= 1 ==> v.log[k].pos < Start(f, v, 1)
  {
    hide KindOf, Parses, Start;
  }

  lemma CompactedPadded(f: Format, v: View)
    requires f.Supported() && Formed(f, v) && Exact(f, v)
    ensures forall q: nat :: q >= Start(f, v, 1) && Padded(f, v, q) ==> Padded(f, Compacted(f, v), q)
  {
    hide KindOf, Formed, Exact, Padded, Dropped, Tower, Copies;
    TowerPadded(f, Dropped(f, v), Copies(f, v), |Copies(f, v)|);
    forall q: nat | q >= Start(f, v, 1) && Padded(f, v, q) ensures Padded(f, Compacted(f, v), q) {
      DroppedPadded(f, v, q);
    }
  }

  /** The positions of the next window are in the other pages, or in the page that was erased. */
  lemma PageOfNext(f: Format, w: nat, q: nat)
    requires f.Supported() && (w + 1) * f.Q() <= q < (w + 1) * f.Q() + WindowSize(f)
    ensures q < w * f.Q() + WindowSize(f) ==> PageOf(f, q) != PageIndex(f, w)
    ensures q >= w * f.Q() + WindowSize(f) ==> PageOf(f, q) == PageIndex(f, w)
  {
    hide PageIndex, Format.Q, Format.Supported;
    MulStep(w, f.Q());
    MulSum(f.numPages, 1, f.Q());
    DivInRange(q, f.Q(), w + 1, f.numPages);
    MulSum(w, f.numPages, f.Q());
    DivMod(q, f.Q());
    var p := q / f.Q();
    if q < w * f.Q() + WindowSize(f) {
      DivInRange(q, f.Q(), w, f.numPages);
      OtherPage(f, w, 0, p - w);
      assert w + 0 == w;
    } else {
      if p < w + f.numPages { MulMonotone(f.Q(), p + 1, w + f.numPages); MulStep(p, f.Q()); }
      PageWraps(f, w);
    }
  }

  /** The counters of the words in the next window, once the first page of this one is erased. */
  lemma WornEraseWords(f: Format, pages: Pages, pages': Pages, wear: Wear, w: nat, v: View, x: View)
    requires WornIn(f, pages, wear, w, v) && Shape(f, pages') && PageErased(f, pages', PageIndex(f, w))
    requires DiffersOnlyIn(f, pages, pages', PageIndex(f, w), 0, f.Q() + 2)
    requires forall q: nat :: q >= (w + 1) * f.Q() && Padded(f, v, q) ==> Padded(f, x, q)
    ensures WornWords(f, Snapshot(f, pages', w + 1), Refreshed(f, wear, PageIndex(f, w)), x)
  {
    hide Snapshot, PageIndex, PageOf, WordIndex, ReadWord, Format.Q, Format.Supported, WindowSize, KindOf, Padded,
         WornInfos, Cycled;
    SnapshotReads(f, pages, w);
    SnapshotReads(f, pages', w + 1);
    var s, s' := Snapshot(f, pages, w), Snapshot(f, pages', w + 1);
    var wear' := Refreshed(f, wear, PageIndex(f, w));
    MulStep(w, f.Q());
    forall q: nat | s'.base <= q < s'.base + |s'.mem| ensures WearAt(f, wear', q) <= Bound(f, x, At(s', q), q) {
      PageOfNext(f, w, q);
      if q < w * f.Q() + WindowSize(f) {
        assert At(s, q) == ReadWord(f, pages, q);
        OtherWord(f, pages, pages', w, q);
        assert WearAt(f, wear', q) == WearAt(f, wear, q) <= Bound(f, v, At(s, q), q);
      } else {
        assert WearAt(f, wear', q) == 0;
      }
    }
  }

  lemma WornEraseInfos(f: Format, pages: Pages, pages': Pages, wear: Wear, w: nat)
    requires Shape(f, pages) && WearShape(f, wear) && WornInfos(f, Snapshot(f, pages, w), wear, w) && Shape(f, pages')
    requires PageErased(f, pages', PageIndex(f, w)) && DiffersOnlyIn(f, pages, pages', PageIndex(f, w), 0, f.Q() + 2)
    ensures WornInfos(f, Snapshot(f, pages', w + 1), Refreshed(f, wear, PageIndex(f, w)), w + 1)
  {
    hide Snapshot, PageIndex, Format.Q, Format.Supported, WindowSize, PageInit;
    OtherPages(f, pages, pages', w);
    WindowShift(f, pages', w);
    var s, s1, s' := Snapshot(f, pages, w), Snapshot(f, pages', w), Snapshot(f, pages', w + 1);
    var wear' := Refreshed(f, wear, PageIndex(f, w));
    PageWraps(f, w);
    assert w + 0 == w;
    forall i: nat | i < f.numPages
      ensures InfoWear(f, wear', w + 1 + i, 0) == (if s'.inits[i] == ERASED_WORD then 0 else 1)
      ensures InfoWear(f, wear', w + 1 + i, 1) == (if s'.compacts[i] == ERASED_WORD then 0 else 1)
    {
      assert w + 1 + i == w + (i + 1);
      if i < f.numPages - 1 {
        OtherPage(f, w, 0, i + 1);
        PageInitIs(s, s1, s', i);
      }
    }
  }

  lemma PageInitIs(s: Window, s1: Window, s': Window, i: nat)
    requires i + 1 < |s.inits| == |s1.inits| == |s'.inits|
    requires PageInit(s', 0, i) == PageInit(s1, 1, i) && PageInit(s1, 1, i) == PageInit(s, 1, i)
    ensures s'.inits[i] == s.inits[i + 1]
  {
  }

  /** The page at the end of the next window was erased once more. */
  lemma CycledNext(f: Format, wear: Wear, w: nat)
    requires WearShape(f, wear) && Cycled(f, wear, w)
    ensures Cycled(f, Refreshed(f, wear, PageIndex(f, w)), w + 1)
  {
    hide PageIndex, Format.Q, Format.Supported;
    var wear' := Refreshed(f, wear, PageIndex(f, w));
    forall p: nat | w + 1 <= p < w + 1 + f.numPages ensures Erasures(f, wear', p) == CycleIndex(f, p) {
      if p < w + f.numPages {
        OtherPage(f, w, 0, p - w);
        assert w + 0 == w;
        assert Erasures(f, wear', p) == Erasures(f, wear, p);
      } else {
        PageWraps(f, w);
        DivMod(w, f.numPages);
        MulStep(w / f.numPages, f.numPages);
        DivModUnique(p, f.numPages, w / f.numPages + 1, w % f.numPages);
        assert Erasures(f, wear, w) == CycleIndex(f, w);
      }
    }
  }

  /** The erasure of a compaction. */
  lemma WornErase(f: Format, pages: Pages, pages': Pages, wear: Wear, v: View)
    requires WornIn(f, pages, wear, v.first, v) && Exact(f, v) && Erasing(f, pages, v)
    requires Erasing(f, pages', v) && PageErased(f, pages', PageIndex(f, v.first))
    requires DiffersOnlyIn(f, pages, pages', PageIndex(f, v.first), 0, f.Q() + 2)
    ensures Worn(f, pages', Refreshed(f, wear, PageIndex(f, v.first)), Compacted(f, v))
  {
    hide Snapshot, PageIndex, Format.Q, Format.Supported, WindowSize, WornWords, WornInfos, Cycled, Erasing, Compacted,
         Exact, Padded, KindOf, Formed, Complete, PageErased, DiffersOnlyIn, Refreshed, EraseWord, Laid, Steady, Intact,
         Compactable, Idle, Roomy, Alive;
    ErasingFormed(f, pages', v);
    CompactedPadded(f, v);
    FirstStart(f, v);
    WornEraseWords(f, pages, pages', wear, v.first, v, Compacted(f, v));
    WornEraseInfos(f, pages, pages', wear, v.first);
    CycledNext(f, wear, v.first);
    ErasedSteady(f, pages', v);
    SteadyIntact(f, pages', Compacted(f, v));
    IdleCalm(f, v);
    CompactedExact(f, v);
    MoreCycles(f, v);
  }

  lemma FirstStart(f: Format, v: View)
    requires f.Supported()
    ensures Start(f, v, 1) == (v.first + 1) * f.Q()
  {
  }

  lemma SteadyIntact(f: Format, pages: Pages, v: View)
    requires Steady(f, pages, v, true)
    ensures Shape(f, pages) && Intact(f, Snapshot(f, pages, v.first), v, 0)
  {
    hide Snapshot, Formed, HoldsLog, ErasedBetween, InitWord, Start;
  }

  // ---------------------------------------------------------------------------------------------
  // Powering on

  /** No page was written or erased yet. */
  ghost predicate Unworn(f: Format, pages: Pages, wear: Wear) {
    && Shape(f, pages) && WearShape(f, wear) && pages[0][0] == ERASED_WORD
    && (forall p :: 0 <= p < f.numPages ==> wear.erases[p] == 0)
    && forall p, i :: 0 <= p < f.numPages && 0 <= i < f.Q() + 2 ==> wear.writes[p][i] == 0
  }

  /** An erased flash that was never used. */
  lemma UnwornWorn(f: Format, pages: Pages, wear: Wear)
    requires Blank(f, pages) && Unworn(f, pages, wear)
    ensures WornIn(f, pages, wear, 0, EmptyView()) && Intact(f, Snapshot(f, pages, 0), EmptyView(), 0)
  {
    hide BuildInit, Format.Q, Format.Supported, Snapshot, WindowSize, ReadWord, InfoOf, InitWord, Bound, PageIndex;
    SnapshotReads(f, pages, 0);
    var s := Snapshot(f, pages, 0);
    forall i: nat | i < f.numPages
      ensures s.inits[i] == ERASED_WORD && s.compacts[i] == ERASED_WORD && Erasures(f, wear, i) == CycleIndex(f, i) == 0
      ensures InfoWear(f, wear, 0 + i, 0) == InfoWear(f, wear, 0 + i, 1) == 0
    {
      BlankInfos(f, pages, i);
      assert 0 + i == i;
      DivModUnique(i, f.numPages, 0, i);
    }
    assert forall q: nat :: s.base <= q < s.base + |s.mem| ==> WearAt(f, wear, q) == 0;
  }

  /** Initializing such a flash. */
  lemma WornFirst(f: Format, pages: Pages, pages': Pages, wear: Wear, wear': Wear)
    requires Blank(f, pages) && Unworn(f, pages, wear)
    requires Shape(f, pages') && WearShape(f, wear') && Counted(f, pages, pages', wear, wear')
    requires DiffersOnlyIn(f, pages, pages', 0, 0, 1) && pages'[0][0] == BuildInit(InitInfo(0, 0)).value
    ensures Worn(f, pages', wear', EmptyView())
  {
    hide BuildInit, Format.Q, Format.Supported, Snapshot, WornIn, Intact, PageIndex, Counted, DiffersOnlyIn, InitWord,
         Aged;
    UnwornWorn(f, pages, wear);
    CountedAged(f, pages, pages', wear, wear', 0);
    ZeroIndex(f);
    InfoChange(f, pages, pages', 0, 0, 0);
    InitInfoZero(f);
    WornInit(f, pages, pages', wear, wear', 0, EmptyView(), 0, EmptyView());
    EmptyExact(f);
  }

  lemma EmptyExact(f: Format)
    requires f.Supported()
    ensures Exact(f, EmptyView()) && EmptyView().first == 0
  {
  }

  /** A log of padding and user entries. */
  ghost predicate Plain(f: Format, v: View)
    requires f.Supported()
  {
    forall k: nat :: k < |v.log| ==> Kinds(f, v, k).Padding? || Kinds(f, v, k).User?
  }

  lemma RestPlain(f: Format, pages: Pages, v: View)
    requires AtRest(f, pages, v) && f.Supported()
    ensures Plain(f, v)
  {
    hide Steady, Idle, Roomy, Formed, KindOf;
    IdleCalm(f, v);
  }

  /** A recovery only comes across padding and user entries. */
  lemma ScouredPlain(f: Format, v: View, v': View, n: nat)
    requires f.Supported() && Plain(f, v) && Scoured(f, v, v', n) && n < |v'.log|
    ensures Kinds(f, v', n).Padding? || Kinds(f, v', n).User?
  {
    hide KindOf, CleanBetween, Clean, HeadAt;
    assert Kinds(f, v', n) == Kinds(f, v, n);
  }

  /** Wiping words before the head. */
  lemma WornPrefix(f: Format, pages: Pages, pages': Pages, wear: Wear, wear': Wear, v: View)
    requires Steady(f, pages, v, true) && Worn(f, pages, wear, v) && Aged(f, pages, pages', wear, wear', v.first)
    requires Start(f, v, 0) <= HeadAt(v, 0)
    requires Written(Snapshot(f, pages, v.first), Snapshot(f, pages', v.first), Start(f, v, 0),
                     ZeroWords(HeadAt(v, 0) - Start(f, v, 0)))
    ensures Worn(f, pages', wear', v)
  {
    hide Snapshot, WornIn, Aged, KindOf, HeadAt, Padded, Start, Intact, Exact, Standing, Contiguous, Parses, MarksOk;
    AgedSizes(f, pages, pages', wear, wear', v.first);
    SteadyFormed(f, pages, v, true);
    HeadIsFirst(f, v);
    var s, s' := Snapshot(f, pages, v.first), Snapshot(f, pages', v.first);
    forall q: nat | s.base <= q < s.base + |s.mem| ensures StepAt(f, v, v, q, At(s, q), At(s', q)) {
      if Start(f, v, 0) <= q < HeadAt(v, 0) {
        NotPaddedBefore(f, v, q);
        assert At(s', q) == ZERO_WORD;
      }
    }
    WornStep(f, pages, pages', wear, wear', v.first, v, v);
    IntactSame(f, s, s', v, 0);
  }

  // ---------------------------------------------------------------------------------------------
  // What the counters then are

  /** How often a physical page was erased, from where the head of the log is. */
  function PageErases(f: Format, head: nat, page: nat): nat
    requires f.Supported()
  {
    CycleIndex(f, head) + if page < PageIndex(f, head) then 1 else 0
  }

  /** Where a physical page is in the window. */
  lemma PageInWindow(f: Format, v: View, page: nat) returns (i: nat)
    requires f.Supported() && page < f.numPages
    ensures i < f.numPages && PageIndex(f, v.first + i) == page
    ensures CycleIndex(f, v.first + i) == PageErases(f, v.first, page)
    ensures Position(f, PageErases(f, v.first, page), page, 0) == Start(f, v, i)
  {
    hide Format.Q, Format.Supported;
    i := PageOfIndex(f, v.first, page);
    var n, c, r := f.numPages, v.first / f.numPages, v.first % f.numPages;
    DivMod(v.first, n);
    MulStep(c, n);
    if r + i < n {
      DivModUnique(v.first + i, n, c, r + i);
    } else {
      DivModUnique(v.first + i, n, c + 1, r + i - n);
    }
    PageHeadPos(f, v, i, 0);
  }

  lemma MarkedStart(f: Format, v: View, i: nat)
    requires Formed(f, v) && (v.log == [] ==> v.first == 0 && v.tail == 0)
    ensures i < |v.marks| <==> Start(f, v, i) < v.tail || (v.first + i == 0 && v.tail == 0)
  {
    hide KindOf, Contiguous, Parses, Format.Q, Format.M;
    if i < |v.marks| {
      StartOrder(f, v, i, |v.marks| - 1);
      if |v.marks| == 1 && v.log != [] { FirstBelow(f, v); }
    } else {
      StartOrder(f, v, |v.marks|, i);
      StartPositive(f, v, i);
    }
  }

  lemma FirstBelow(f: Format, v: View)
    requires Formed(f, v) && v.log != []
    ensures Start(f, v, 0) < v.tail
  {
    hide KindOf, Parses, Start;
    MarkBound(f, v, 0);
  }

  lemma StartPositive(f: Format, v: View, i: nat)
    requires f.Supported() && i > 0
    ensures v.first + i > 0 && Start(f, v, i) > 0
  {
    MulMonotone(f.Q(), 1, v.first + i);
  }

  /**
   The counters of a store that was never interrupted. Each page was erased once for each cycle, at most
   as often as it may be. Its init info was written once if the page is in use, its compact info was not
   written, and a word of content was written at most twice, and not at all after the tail.
   */
  lemma CheckStorage(f: Format, pages: Pages, wear: Wear, v: View, page: nat, index: nat)
    requires AtRest(f, pages, v) && Worn(f, pages, wear, v) && page < f.numPages && index < f.Q() + 2
    ensures wear.erases[page] == PageErases(f, v.first, page) <= f.maxPageErases
    ensures var pos := Position(f, PageErases(f, v.first, page), page, 0);
            && wear.writes[page][0] == (if pos < v.tail || (page == 0 && v.tail == 0) then 1 else 0)
            && wear.writes[page][1] == 0
            && (index >= 2 ==> wear.writes[page][index] <= 2)
            && (index >= 2 && wear.writes[page][index] > 0 ==> pos + (index - 2) < v.tail)
  {
    hide Format.Q, Format.Supported, Snapshot, PageIndex, CycleIndex, KindOf, Contiguous, MarksOk, Parses, Idle, Roomy,
         Alive, InitWord, Position, Start, HoldsLog, WindowSize, Bound, Intact, Exact, PageErases;
    var i := PageInWindow(f, v, page);
    var s := Snapshot(f, pages, v.first);
    assert wear.erases[page] == Erasures(f, wear, v.first + i) == CycleIndex(f, v.first + i);
    LastCycle(f, v, i);
    assert s.compacts[i] == ERASED_WORD && InfoWear(f, wear, v.first + i, 1) == 0;
    assert InfoWear(f, wear, v.first + i, 0) == if s.inits[i] == ERASED_WORD then 0 else 1;
    InUse(f, pages, v, i);
    MarkedStart(f, v, i);
    ZeroPage(f, v, i);
    if index >= 2 { CheckWord(f, pages, wear, v, i, index - 2); }
  }

  lemma LastCycle(f: Format, v: View, i: nat)
    requires f.Supported() && i < f.numPages && v.first <= f.maxPageErases * f.numPages
    ensures CycleIndex(f, v.first + i) <= f.maxPageErases
  {
    var n, k := f.numPages, (v.first + i) / f.numPages;
    DivMod(v.first + i, n);
    if k > f.maxPageErases {
      MulMonotone(n, f.maxPageErases + 1, k);
      MulStep(f.maxPageErases, n);
    }
  }

  lemma InUse(f: Format, pages: Pages, v: View, i: nat)
    requires Steady(f, pages, v, true) && i < f.numPages
    ensures |Snapshot(f, pages, v.first).inits| == f.numPages
    ensures Snapshot(f, pages, v.first).inits[i] != ERASED_WORD <==> i < |v.marks|
  {
    hide Snapshot, KindOf, Contiguous, Parses, MarksOk, HoldsLog, ErasedBetween, InitWord, Start;
    var s := Snapshot(f, pages, v.first);
    assert PageInit(s, 0, i) == s.inits[i];
    if i < |v.marks| {
      StandingMarks(f, pages, v, true);
      InitWordParses(f, v, i, InitWord(f, v, i));
    }
  }

  lemma ZeroPage(f: Format, v: View, i: nat)
    requires Formed(f, v) && (v.log == [] ==> v.first == 0) && i < f.numPages
    ensures v.tail == 0 ==> (v.first + i == 0 <==> PageIndex(f, v.first + i) == 0)
  {
    hide KindOf, Parses, MarksOk, Start;
    if v.first == 0 { DivModUnique(i, f.numPages, 0, i); }
  }

  lemma CheckWord(f: Format, pages: Pages, wear: Wear, v: View, i: nat, word: nat)
    requires Steady(f, pages, v, true) && Worn(f, pages, wear, v) && i < f.numPages && word < f.Q()
    ensures wear.writes[PageIndex(f, v.first + i)][word + 2] <= 2
    ensures wear.writes[PageIndex(f, v.first + i)][word + 2] > 0 ==> Start(f, v, i) + word < v.tail
  {
    hide Format.Q, Format.Supported, Snapshot, PageIndex, KindOf, Formed, Alive, HoldsLog, HoldsInits, Padded, Intact,
         Exact, WornInfos, Cycled, Start;
    var s := Snapshot(f, pages, v.first);
    var q := Start(f, v, i) + word;
    PageParts(f, v, i, q);
    StartOrder(f, v, 0, i);
    StartOrder(f, v, i, f.numPages);
    SnapshotReads(f, pages, v.first);
    LastStart(f, v);
    assert WearAt(f, wear, q) <= Bound(f, v, At(s, q), q);
  }

  lemma LastStart(f: Format, v: View)
    requires f.Supported()
    ensures Start(f, v, 0) == v.first * f.Q() && Start(f, v, f.numPages) == v.first * f.Q() + WindowSize(f)
  {
    MulSum(v.first, f.numPages, f.Q());
  }
}
