/**
 The phases that a store may be found in when an operation, a compaction or a recovery is interrupted,
 and the map that it stands for in each of them.
 */
module Phases {
  import opened Arithmetic
  import opened Wrappers
  import opened Words
  import opened Format
  import opened Bytes
  import opened Entries
  import opened Flash
  import opened Log
  import opened Parsing
  import opened States
  import opened Storage
  import opened Appending
  import opened Contents
  import opened Stages
  import opened Recovering
  import opened Compaction
  import opened Migration

  datatype Phase =
    | Fresh
    | Operating(v: View, st: Stage)
    | Marking(v: View)
    | Compressing(v: View, c: nat)

  /** The log after a compaction of the first page. */
  function Next(f: Format, v: View): View
    requires f.Supported()
  {
    var x := Compacted(f, v);
    if x.log == [] then x else SetItem(x, |x.log| - 1, [ClearBit(EraseWord(f, v), 0)])
  }

  lemma NextLean(f: Format, v: View)
    requires f.Supported()
    ensures Next(f, v).lean == v.lean
  {
    hide Start, EraseWord, Copies, Tower, Append, Dropped;
    TowerLean(f, Dropped(f, v), Copies(f, v), |Copies(f, v)|);
    DroppedLean(f, v);
  }

  /** The flash is that of a store at rest, but for the compact info of the first page. */
  ghost predicate Markable(f: Format, pages: Pages, v: View) {
    && Standing(f, pages, v, true) && Idle(f, v) && Roomy(f, v)
    && Covers(Snapshot(f, pages, v.first).compacts[0], CompactWord(f, v))
  }

  /** The compact info of the first page is torn. */
  ghost predicate MarkTorn(f: Format, pages: Pages, v: View) {
    && Markable(f, pages, v) && Compactable(f, v)
    && Snapshot(f, pages, v.first).compacts[0] != CompactWord(f, v)
    && Snapshot(f, pages, v.first).compacts[0] != ERASED_WORD
  }

  /** All pages are erased, but for the init info of the first one, which may be torn. */
  ghost predicate Blank(f: Format, pages: Pages) {
    && Shape(f, pages) && BuildInit(InitInfo(0, 0)).Ok?
    && Covers(pages[0][0], BuildInit(InitInfo(0, 0)).value)
    && forall p: nat, i: nat :: p < f.numPages && i < f.Q() + 2 && !(p == 0 && i == 0) ==> pages[p][i] == ERASED_WORD
  }

  /** The compaction of a log was stopped before it started, on its way or with its last step. */
  ghost predicate Amid(f: Format, p: Phase, v: View)
    requires f.Supported()
  {
    p != Fresh && (p.v == v || (p.Operating? && p.v == Next(f, v))) && (p.Operating? ==> p.st == Settled)
  }

  lemma AmidLean(f: Format, p: Phase, v: View)
    requires f.Supported() && Amid(f, p, v)
    ensures p.v.lean == v.lean
  {
    hide Next;
    NextLean(f, v);
  }

  /** The store may be found in a phase. */
  ghost predicate InPhase(f: Format, pages: Pages, p: Phase) {
    match p
    case Fresh => Blank(f, pages)
    case Operating(v, st) => Halted(f, pages, v, st)
    case Marking(v) => MarkTorn(f, pages, v)
    case Compressing(v, c) => Progress(f, pages, v, c)
  }

  /** The map that the store stands for in a phase: the one that recovery leads to. */
  ghost function Promise(f: Format, p: Phase): map<nat, seq<byte>>
    requires f.Supported()
  {
    match p
    case Fresh => map[]
    case Operating(v, st) => if StageOk(f, v, st) then Outcome(f, v, st) else map[]
    case Marking(v) => Content(f, v.log)
    case Compressing(v, _) => Content(f, v.log)
  }

  lemma MarkableFormed(f: Format, pages: Pages, v: View)
    requires Markable(f, pages, v)
    ensures Shape(f, pages) && Formed(f, v) && Idle(f, v) && Roomy(f, v) && Alive(f, v) && Standing(f, pages, v, true)
    ensures |Snapshot(f, pages, v.first).compacts| == f.numPages
  {
    hide Snapshot, Formed, Idle, Roomy, Alive;
  }

  lemma RestMarkable(f: Format, pages: Pages, v: View)
    requires AtRest(f, pages, v)
    ensures Markable(f, pages, v)
  {
    hide Snapshot, Formed, Idle, Roomy, Alive, Matches, CompactWord;
    CoversErased(CompactWord(f, v));
  }

  /** Once the compact info is written, copying may start. */
  lemma StartCompacting(f: Format, pages: Pages, v: View)
    requires Markable(f, pages, v) && Compactable(f, v)
    requires Snapshot(f, pages, v.first).compacts[0] == CompactWord(f, v)
    ensures Copying(f, pages, v, 0) && Laid(f, pages, v.first, Dropped(f, v), true)
  {
    hide Snapshot, KindOf, Start, Contiguous, MarksOk, Parses, HoldsLog, ErasedBetween, HoldsInits, CompactsErased,
         Roomy, Alive, InitWord, Dropped, CompactWord, Idle, Laid, Compactable, Used, Calm, Copying, HeadAt;
    MarkableFormed(f, pages, v);
    var s := Snapshot(f, pages, v.first);
    FirstIs(s);
    DroppedPos(f, v);
    CompactionFits(f, v, 0);
    ErasedUpTo(f, s, v);
    assert Compacting(f, pages, v);
    StartLaid(f, pages, v);
    CopyStart(f, pages, v);
  }

  lemma FirstIs(s: Window)
    ensures s.inits != [] ==> PageInit(s, 0, 0) == s.inits[0]
  {
  }

  lemma ErasedUpTo(f: Format, s: Window, v: View)
    requires Formed(f, v) && ErasedBetween(s, v.tail, Start(f, v, f.numPages))
    requires v.tail <= Dropped(f, v).tail <= Start(f, v, f.numPages)
    ensures ErasedBetween(s, v.tail, Dropped(f, v).tail)
    ensures ErasedBetween(s, Dropped(f, v).tail, Start(f, v, f.numPages))
  {
    hide Start, Dropped, Formed;
  }

  lemma StartLaid(f: Format, pages: Pages, v: View)
    requires Markable(f, pages, v) && Compactable(f, v)
    ensures Laid(f, pages, v.first, Dropped(f, v), true)
  {
    hide Snapshot, KindOf, Start, Contiguous, MarksOk, Parses, InitWord, Roomy, Alive, Dropped, CompactWord,
         Compactable, HeadAt, WindowSize, Standing, Idle, Complete, Matches, CompactsErased;
    MarkableFormed(f, pages, v);
    var d := Dropped(f, v);
    IdleCalm(f, v);
    DroppedPos(f, v);
    DroppedFramed(f, v);
    NextAlive(f, v, d);
    StartMatches(f, pages, v);
  }

  lemma StartMatches(f: Format, pages: Pages, v: View)
    requires Standing(f, pages, v, true) && Roomy(f, v)
    ensures Matches(f, Snapshot(f, pages, v.first), Dropped(f, v), 1, f.numPages - 1, true)
    ensures CompactsErased(Snapshot(f, pages, v.first), 1, f.numPages - 1)
  {
    hide Snapshot, KindOf, Start, Contiguous, MarksOk, Parses, InitWord, Roomy, Alive, Dropped, HeadAt, WindowSize,
         HoldsLog, HoldsInits, ErasedBetween, Initialized, Format.Q, Copies;
    var s, d := Snapshot(f, pages, v.first), Dropped(f, v);
    StandingInited(f, pages, v, true);
    DroppedPos(f, v);
    CompactionFits(f, v, 0);
    StartStep(f, v, 0);
    ErasedUpTo(f, s, v);
    DroppedHolds(f, s, v);
    DroppedInits(f, s, v);
  }

  lemma DroppedHolds(f: Format, s: Window, v: View)
    requires Formed(f, v) && HoldsLog(s, v)
    ensures HoldsLog(s, Dropped(f, v))
  {
    hide KindOf, Start, Contiguous, MarksOk, Parses;
    GoneBound(f, v);
    DroppedPos(f, v);
    var d := Dropped(f, v);
    forall k: nat | k < |d.log| ensures Holds(s, d.log[k].pos, d.log[k].ws) {
      assert d.log[k] == v.log[k + Gone(v)];
    }
  }

  lemma DroppedInits(f: Format, s: Window, v: View)
    requires Formed(f, v) && HoldsInits(f, s, v, 0, f.numPages, true) && |v.marks| < f.numPages
    ensures HoldsInits(f, s, Dropped(f, v), 1, f.numPages - 1, true)
  {
    hide KindOf, Start, Contiguous, MarksOk, Parses, InitWord, HeadAt;
    DroppedPos(f, v);
    MarksCount(f, v);
    var d := Dropped(f, v);
    forall i: nat ensures PageInit(s, 1, i) == PageInit(s, 0, i + 1) {
    }
    forall i: nat | i < |d.marks| ensures InitWord(f, d, i) == InitWord(f, v, i + 1) {
      DroppedInitWord(f, v, i);
    }
    forall i: nat | i < |d.marks| ensures Covers(PageInit(s, 1, i), InitWord(f, d, i))
      && PageInit(s, 1, i) == InitWord(f, d, i) {
      assert Covers(PageInit(s, 0, i + 1), InitWord(f, v, i + 1));
    }
    forall i: nat | |d.marks| <= i < f.numPages - 1 ensures PageInit(s, 1, i) == ERASED_WORD {
      assert PageInit(s, 0, i + 1) == ERASED_WORD;
    }
  }

  lemma DroppedInitWord(f: Format, v: View, i: nat)
    requires Formed(f, v) && i < |Dropped(f, v).marks|
    ensures InitWord(f, Dropped(f, v), i) == InitWord(f, v, i + 1)
  {
    hide KindOf, Start, Contiguous, MarksOk, Parses, HeadAt, BuildInit, CycleIndex;
    DroppedPos(f, v);
    MarksCount(f, v);
    assert Dropped(f, v).first + i == v.first + (i + 1);
  }

  // ---------------------------------------------------------------------------------------------
  // Writing the compact info

  lemma MarkSlice(f: Format, pages: Pages, v: View)
    requires Markable(f, pages, v)
    ensures Shape(f, pages) && Slice(f, pages, PageIndex(f, v.first), 1, 1) == [Snapshot(f, pages, v.first).compacts[0]]
  {
    hide Snapshot, PageIndex, Formed, Idle, Roomy, Alive, InitWord, CompactWord;
    MarkableFormed(f, pages, v);
    SnapshotReads(f, pages, v.first);
    InfoWraps(f, pages, v.first);
    assert v.first + 0 == v.first;
  }

  /** What writing the compact info, completely or not, leads to. */
  lemma MarkWritten(f: Format, pages: Pages, pages': Pages, v: View, ok: bool) returns (p: Phase)
    requires Markable(f, pages, v) && Compactable(f, v) && Shape(f, pages')
    requires DiffersOnlyIn(f, pages, pages', PageIndex(f, v.first), 1, 1)
    requires if ok then Slice(f, pages', PageIndex(f, v.first), 1, 1) == [CompactWord(f, v)]
             else TornAll(Slice(f, pages', PageIndex(f, v.first), 1, 1),
                          Slice(f, pages, PageIndex(f, v.first), 1, 1), [CompactWord(f, v)])
    ensures f.Supported() && InPhase(f, pages', p) && Amid(f, p, v) && Promise(f, p) == Content(f, v.log)
    ensures ok ==> Copying(f, pages', v, 0) && Laid(f, pages', v.first, Dropped(f, v), true)
  {
    hide Snapshot, PageIndex, Formed, Idle, Roomy, Alive, InitWord, CompactWord, Copying, Content, StageOk, Markable,
         Laid, Dropped;
    MarkableFormed(f, pages, v);
    MarkSlice(f, pages, v);
    var page := PageIndex(f, v.first);
    assert v.first + 0 == v.first;
    InfoChange(f, pages, pages', v.first, 0, 1);
    var u: Word := pages'[page][1];
    assert Slice(f, pages', page, 1, 1) == [u];
    var u0 := Snapshot(f, pages, v.first).compacts[0];
    if !ok {
      assert Torn(u, u0, CompactWord(f, v));
      MarkCovers(f, pages, v);
      TornBetween(u, u0, CompactWord(f, v));
    } else {
      CoversSelf(u);
    }
    MarkChanged(f, pages, pages', v, u);
    if u == CompactWord(f, v) {
      StartCompacting(f, pages', v);
      p := Compressing(v, 0);
    } else if u == ERASED_WORD {
      MarkUndone(f, pages', v);
      p := Operating(v, Settled);
    } else {
      p := Marking(v);
    }
  }

  lemma MarkCovers(f: Format, pages: Pages, v: View)
    requires Markable(f, pages, v)
    ensures Covers(Snapshot(f, pages, v.first).compacts[0], CompactWord(f, v))
  {
  }

  lemma MarkChanged(f: Format, pages: Pages, pages': Pages, v: View, u: Word)
    requires Markable(f, pages, v) && Shape(f, pages') && Covers(u, CompactWord(f, v))
    requires var s := Snapshot(f, pages, v.first);
             s.compacts != [] && Snapshot(f, pages', v.first) == s.(compacts := s.compacts[0 := u])
    ensures Markable(f, pages', v) && Snapshot(f, pages', v.first).compacts[0] == u
  {
    hide Snapshot, Formed, Idle, Roomy, Alive, InitWord, CompactWord, Start;
    var s, s' := Snapshot(f, pages, v.first), Snapshot(f, pages', v.first);
    assert forall q: nat :: InWindow(s, q, 1) ==> At(s', q) == At(s, q);
    assert forall i: nat :: PageInit(s', 0, i) == PageInit(s, 0, i);
    forall k: nat | k < |v.log| ensures Holds(s', v.log[k].pos, v.log[k].ws) {
      assert Holds(s, v.log[k].pos, v.log[k].ws);
    }
  }

  /** With an erased compact info, the store is at rest. */
  lemma MarkUndone(f: Format, pages: Pages, v: View)
    requires Markable(f, pages, v) && Snapshot(f, pages, v.first).compacts[0] == ERASED_WORD
    ensures AtRest(f, pages, v) && Halted(f, pages, v, Settled)
    ensures StageOk(f, v, Settled) && Outcome(f, v, Settled) == Content(f, v.log)
  {
    hide Snapshot, Formed, Idle, Roomy, Alive, InitWord, CompactWord, Matches, Content, Standing, StageOk, Halted;
    MarkableFormed(f, pages, v);
    assert AtRest(f, pages, v);
    RestIsHalted(f, pages, v);
    SettledOutcome(f, pages, v);
  }

  // ---------------------------------------------------------------------------------------------
  // Erasing the page

  lemma ErasingFormed(f: Format, pages: Pages, v: View)
    requires Erasing(f, pages, v)
    ensures Shape(f, pages) && Formed(f, v) && Idle(f, v) && Roomy(f, v) && Alive(f, v) && Compactable(f, v)
            && Compactible(f, v)
    ensures Formed(f, Compacted(f, v)) && Complete(f, Compacted(f, v)) && Compacted(f, v).first == v.first + 1
    ensures Laid(f, pages, v.first, Compacted(f, v), true)
    ensures Compacted(f, v).log != []
    ensures var x := Compacted(f, v); x.log[|x.log| - 1].ws == [EraseWord(f, v)]
  {
    hide Snapshot, Idle, Roomy, Alive, InitWord, KindOf, Contiguous, MarksOk, Parses, Compacted, Laid, EraseWord,
         Compactable;
    IdleCalm(f, v);
    CompactedFormed(f, v);
    assert Compactible(f, v);
    assert Shape(f, pages) by { LaidShape(f, pages, v.first, Compacted(f, v), true); }
    CompactedIs(f, v);
    AppendMarks(f, Considered(f, v, Gone(v)), [EraseWord(f, v)]);
  }

  lemma LaidShape(f: Format, pages: Pages, w: nat, d: View, tidy: bool)
    requires Laid(f, pages, w, d, tidy)
    ensures Shape(f, pages)
  {
  }

  lemma ErasingHeads(f: Format, pages: Pages, v: View)
    requires Erasing(f, pages, v)
    ensures Shape(f, pages) && InitsParse(f, pages)
    ensures var x := Compacted(f, v); x.marks != [] && IsExtremum(f, pages, true, HeadAt(x, |x.marks| - 1))
  {
    hide Snapshot, Idle, Roomy, Alive, InitWord, KindOf, Contiguous, MarksOk, Parses, Compacted, Laid, IsExtremum,
         InitsParse, HeadAt, Compactable, Complete;
    ErasingFormed(f, pages, v);
    var x := Compacted(f, v);
    LaidInited(f, pages, v.first, x, true);
    WindowHeads(f, pages, v, x, true);
  }

  lemma LaidInited(f: Format, pages: Pages, w: nat, d: View, tidy: bool)
    requires Laid(f, pages, w, d, tidy) && Formed(f, d)
    ensures Inited(f, pages, w, d, 1, f.numPages - 1, tidy)
  {
    hide Snapshot, Alive, Framed, Formed, HoldsInits, HoldsLog, ErasedBetween;
    LaidMarks(f, pages, w, d, tidy);
  }

  lemma LaidMarks(f: Format, pages: Pages, w: nat, d: View, tidy: bool)
    requires Laid(f, pages, w, d, tidy)
    ensures |d.marks| < f.numPages
  {
    hide Snapshot, Alive, Framed, HoldsLog, ErasedBetween, InitWord;
  }

  /** The entries of a laid log are parsed. */
  lemma LaidParse(f: Format, pages: Pages, w: nat, d: View, tidy: bool, k: nat)
    requires Laid(f, pages, w, d, tidy) && Formed(f, d) && k < |d.log|
    ensures Shape(f, pages) && ParseEntry(f, pages, d.log[k].pos) == Ok((EntryOf(f, d.log[k].ws), PosAt(d, k + 1)))
  {
    hide Snapshot, Alive, Contiguous, MarksOk, Parses, HoldsInits, KindOf, ParseEntry, EntryOf, Start;
    assert !Kinds(f, d, k).TornUser? && !Kinds(f, d, k).TornEntry?;
    ParseItem(f, pages, w, d, k, Start(f, d, f.numPages - 1));
  }

  lemma ErasingParse(f: Format, pages: Pages, v: View)
    requires Erasing(f, pages, v)
    ensures Shape(f, pages) && Compacted(f, v).log != []
    ensures var x := Compacted(f, v);
            ParseEntry(f, pages, x.log[|x.log| - 1].pos)
              == Ok((ParsedInternal(Erase(PageIndex(f, v.first))), x.tail))
  {
    hide Snapshot, Idle, Roomy, Alive, InitWord, KindOf, Contiguous, MarksOk, Parses, Compacted, Laid, ParseEntry,
         EntryOf, EraseWord, PageIndex, Erasing;
    ErasingFormed(f, pages, v);
    var x := Compacted(f, v);
    LaidParse(f, pages, v.first, x, true, |x.log| - 1);
    EraseKind(f, v);
    UserEntryOf(f, [EraseWord(f, v)]);
  }

  /** A change of the first page of the window leaves the other pages as they are. */
  lemma OtherPages(f: Format, pages: Pages, pages': Pages, w: nat)
    requires Shape(f, pages) && Shape(f, pages')
    requires DiffersOnlyIn(f, pages, pages', PageIndex(f, w), 0, f.Q() + 2)
    ensures var s, s' := Snapshot(f, pages, w), Snapshot(f, pages', w);
            && s'.base == s.base && |s'.mem| == |s.mem| && |s'.inits| == |s.inits| && |s'.compacts| == |s.compacts|
            && (forall q: nat :: s.base + f.Q() <= q < s.base + |s.mem| ==> At(s', q) == At(s, q))
            && (forall i: nat :: PageInit(s', 1, i) == PageInit(s, 1, i))
            && (forall i: nat :: 1 <= i < |s.compacts| ==> s'.compacts[i] == s.compacts[i])
            && s.inits != [] && PageInit(s, 0, 0) == pages[PageIndex(f, w)][0]
              && PageInit(s', 0, 0) == pages'[PageIndex(f, w)][0]
  {
    hide Snapshot, ReadWord, PageIndex, InfoOf, Format.Q, Format.Supported, WindowSize;
    SnapshotReads(f, pages, w);
    SnapshotReads(f, pages', w);
    var s, s' := Snapshot(f, pages, w), Snapshot(f, pages', w);
    forall q: nat | s.base + f.Q() <= q < s.base + |s.mem| ensures At(s', q) == At(s, q) {
      OtherWord(f, pages, pages', w, q);
    }
    forall i: nat | 1 <= i < f.numPages ensures s'.inits[i] == s.inits[i] && s'.compacts[i] == s.compacts[i] {
      OtherInfo(f, pages, pages', w, i);
    }
    InfoWraps(f, pages, w);
    InfoWraps(f, pages', w);
    assert w + 0 == w;
  }

  lemma OtherWord(f: Format, pages: Pages, pages': Pages, w: nat, q: nat)
    requires Shape(f, pages) && Shape(f, pages')
    requires DiffersOnlyIn(f, pages, pages', PageIndex(f, w), 0, f.Q() + 2)
    requires w * f.Q() + f.Q() <= q < w * f.Q() + WindowSize(f)
    ensures ReadWord(f, pages', q) == ReadWord(f, pages, q)
  {
    hide PageIndex, Format.Q, Format.Supported;
    MulStep(w, f.Q());
    MulSum(f.numPages, 1, f.Q());
    DivInRange(q, f.Q(), w + 1, f.numPages - 1);
    OtherPage(f, w, 0, q / f.Q() - w);
    assert w + 0 == w;
  }

  lemma OtherInfo(f: Format, pages: Pages, pages': Pages, w: nat, i: nat)
    requires Shape(f, pages) && Shape(f, pages') && 1 <= i < f.numPages
    requires DiffersOnlyIn(f, pages, pages', PageIndex(f, w), 0, f.Q() + 2)
    ensures InfoOf(f, pages', w + i, 0) == InfoOf(f, pages, w + i, 0)
            && InfoOf(f, pages', w + i, 1) == InfoOf(f, pages, w + i, 1)
  {
    hide PageIndex, Format.Q, Format.Supported;
    OtherPage(f, w, 0, i);
    assert w + 0 == w;
  }

  /** Interrupting the erasure of the page. */
  lemma ErasingTorn(f: Format, pages: Pages, pages': Pages, v: View)
    requires Erasing(f, pages, v) && Shape(f, pages')
    requires DiffersOnlyIn(f, pages, pages', PageIndex(f, v.first), 0, f.Q() + 2)
    requires Torn(pages'[PageIndex(f, v.first)][0], pages[PageIndex(f, v.first)][0], ERASED_WORD)
             || pages'[PageIndex(f, v.first)][0] == ERASED_WORD
    ensures Erasing(f, pages', v)
  {
    hide Snapshot, Compactible, InitWord, KindOf, Contiguous, MarksOk, Parses, Compacted, Laid, PageIndex, Alive;
    ErasingFormed(f, pages, v);
    OtherPages(f, pages, pages', v.first);
    LaidKept(f, pages, pages', v.first, Compacted(f, v));
  }

  lemma LaidKept(f: Format, pages: Pages, pages': Pages, w: nat, d: View)
    requires Laid(f, pages, w, d, true) && Formed(f, d) && Shape(f, pages')
    requires DiffersOnlyIn(f, pages, pages', PageIndex(f, w), 0, f.Q() + 2)
    ensures Laid(f, pages', w, d, true)
  {
    hide Snapshot, InitWord, KindOf, Contiguous, MarksOk, Parses, PageIndex, Alive, Start, WindowSize, Format.Q;
    OtherPages(f, pages, pages', w);
    var s, s' := Snapshot(f, pages, w), Snapshot(f, pages', w);
    StartIs(f, d, w, 0);
    TailAfter(f, d);
    ShiftHoldsFrom(f, s, s', d);
  }

  lemma ShiftHoldsFrom(f: Format, s: Window, s': Window, d: View)
    requires Formed(f, d) && s'.base == s.base && |s'.mem| == |s.mem| && s.base + f.Q() == Start(f, d, 0)
             && HoldsLog(s, d)
    requires forall q: nat :: s.base + f.Q() <= q < s.base + |s.mem| ==> At(s', q) == At(s, q)
    ensures HoldsLog(s', d)
  {
    hide Start, KindOf, Format.Q, Format.M;
    assert MarkOk(f, d, 0);
    forall k: nat | k < |d.log| ensures Holds(s', d.log[k].pos, d.log[k].ws) {
      assert Holds(s, d.log[k].pos, d.log[k].ws);
      PosBefore(d, 0, k);
    }
  }

  /** Once the page is erased, the log is steady in the next window. */
  lemma ErasedSteady(f: Format, pages: Pages, v: View)
    requires Erasing(f, pages, v) && PageErased(f, pages, PageIndex(f, v.first))
    ensures Steady(f, pages, Compacted(f, v), true)
  {
    hide Snapshot, Idle, Roomy, Alive, InitWord, KindOf, Contiguous, MarksOk, Parses, Compacted, Laid, EraseWord,
         PageIndex, Erasing, PageErased, Steady;
    ErasingFormed(f, pages, v);
    ShiftSteady(f, pages, v.first, Compacted(f, v));
  }

  /** As long as the erasure is not recorded as done, it may be done again. */
  lemma ErasedAgain(f: Format, pages: Pages, pages': Pages, v: View)
    requires Erasing(f, pages, v) && Steady(f, pages', Compacted(f, v), true)
    ensures Erasing(f, pages', v)
  {
    hide Snapshot, Compactible, InitWord, KindOf, Contiguous, MarksOk, Parses, Compacted, Laid, Steady;
    ErasingFormed(f, pages, v);
    ShiftBack(f, pages', v.first, Compacted(f, v));
    CoversErased(InitWord(f, v, 0));
  }

  /** Changing words before the head of the store leaves it steady. */
  lemma SteadyPrefix(f: Format, pages: Pages, pages': Pages, v: View, n: nat)
    requires Steady(f, pages, v, true) && Shape(f, pages') && Start(f, v, 0) + n <= HeadAt(v, 0)
    requires SameExcept(Snapshot(f, pages, v.first), Snapshot(f, pages', v.first), Start(f, v, 0), n)
    ensures Steady(f, pages', v, true)
  {
    hide Snapshot, InitWord, KindOf, MarksOk, Parses, Alive, Start, HoldsInits, HeadAt;
    var s, s' := Snapshot(f, pages, v.first), Snapshot(f, pages', v.first);
    HeadIsFirst(f, v);
    HeadBelow(f, v);
    SameInits(f, s, s', v, 0, f.numPages, true);
    forall k: nat | k < |v.log| ensures Holds(s', v.log[k].pos, v.log[k].ws) {
      assert Holds(s, v.log[k].pos, v.log[k].ws);
      PosBefore(v, 0, k);
    }
  }

  /** Words before the head of the store may be wiped. */
  lemma PrefixWritable(f: Format, pages: Pages, v: View)
    requires Steady(f, pages, v, true)
    ensures Shape(f, pages) && Start(f, v, 0) <= HeadAt(v, 0) < Start(f, v, 0) + f.Q()
    ensures Writable(Snapshot(f, pages, v.first), Start(f, v, 0), ZeroWords(HeadAt(v, 0) - Start(f, v, 0)))
  {
    hide Snapshot, InitWord, KindOf, MarksOk, Parses, Alive, Start, HoldsInits, HeadAt, WindowSize, Format.M, Format.Q;
    MarkBound(f, v, 0);
    f.SizeBounds();
    HeadBelow(f, v);
    StartOrder(f, v, f.numPages - 1, f.numPages);
  }

  /** Recording the erasure as done completes the compaction. */
  lemma CompactionDone(f: Format, pages: Pages, v: View)
    requires Compactible(f, v) && Steady(f, pages, Next(f, v), true)
    ensures AtRest(f, pages, Next(f, v)) && Content(f, Next(f, v).log) == Content(f, v.log)
  {
    hide Snapshot, Roomy, Alive, KindOf, Contiguous, MarksOk, Parses, Compacted, EraseWord, Steady, Content, Idle,
         Start;
    IdleCalm(f, v);
    CompactedFormed(f, v);
    CompactedRoomy(f, v);
    var x := Compacted(f, v);
    CompactedIs(f, v);
    AppendMarks(f, Considered(f, v, Gone(v)), [EraseWord(f, v)]);
    var ws: seq<Word> := [ClearBit(EraseWord(f, v), 0)];
    PaddedKind(f, EraseWord(f, v));
    SetItemWeaker(f, x, |x.log| - 1, ws);
    WeakerRoomy(f, x, Next(f, v));
    ItemSet(x, |x.log| - 1, ws);
    CompactedIdle(f, v, Next(f, v));
  }

  // ---------------------------------------------------------------------------------------------
  // Going through the page being compacted

  lemma CompactParse(f: Format, pages: Pages, v: View, k: nat)
    requires Compacting(f, pages, v) && k < |v.log|
    ensures Shape(f, pages) && PosAt(v, k) < PosAt(v, k + 1)
    ensures ParseEntry(f, pages, PosAt(v, k)) == Ok((EntryOf(f, v.log[k].ws), PosAt(v, k + 1)))
    ensures EntryOf(f, v.log[k].ws).ParsedUser? <==> Kinds(f, v, k).User?
    ensures EntryOf(f, v.log[k].ws).ParsedUser? || EntryOf(f, v.log[k].ws).ParsedPadding?
    ensures PosAt(v, k + 1) == PosAt(v, k) + |v.log[k].ws| && 1 <= |v.log[k].ws| <= f.M() + 1
    ensures Holds(Snapshot(f, pages, v.first), PosAt(v, k), v.log[k].ws)
  {
    hide Snapshot, Roomy, Alive, InitWord, KindOf, Contiguous, MarksOk, Parses, ParseEntry, EntryOf, Dropped,
         CompactWord;
    assert IsCalm(Kinds(f, v, k));
    EndIsNext(f, v, k);
    EntrySize(f, v, k);
    CompactGap(f, pages, v);
    ParseItem(f, pages, v.first, v, k, v.tail);
    UserEntryOf(f, v.log[k].ws);
  }

  lemma CompactGap(f: Format, pages: Pages, v: View)
    requires Compacting(f, pages, v)
    ensures Dropped(f, v).tail >= v.tail && ErasedBetween(Snapshot(f, pages, v.first), v.tail, v.tail)
    ensures |v.marks| <= 1 ==> Dropped(f, v).tail == Start(f, v, 1)
  {
    hide Snapshot, Roomy, Alive, InitWord, KindOf, Contiguous, MarksOk, Parses, CompactWord, Start;
    DroppedPos(f, v);
  }

  lemma {:induction false} LastWrittenReads(f: Format, pages: Pages, pos: nat, n: nat)
    requires Shape(f, pages)
    ensures LastWritten(f, pages, pos, n).Some? ==>
              LastWritten(f, pages, pos, n).value < n
                && ReadWord(f, pages, pos + LastWritten(f, pages, pos, n).value) != ERASED_WORD
  {
    hide ReadWord, Shape;
    if n > 0 { LastWrittenReads(f, pages, pos, n - 1); }
  }

  /** Between the tail and the next page, there is nothing, and parsing may only skip to the copies. */
  lemma GapParse(f: Format, pages: Pages, v: View)
    requires Compacting(f, pages, v) && |v.marks| == 1 && v.tail < Start(f, v, 1)
    ensures Shape(f, pages) && ParseEntry(f, pages, v.tail).Ok?
    ensures var r := ParseEntry(f, pages, v.tail).value;
            r == (ParsedTail, v.tail) || (r.0 == ParsedPartial && r.1 > Start(f, v, 1))
  {
    hide Snapshot, Roomy, Alive, InitWord, KindOf, Contiguous, MarksOk, Parses, CompactWord, Start, ParseWord, ReadWord,
         LastWritten, Format.M, Format.Q;
    CompactGap(f, pages, v);
    SnapshotReads(f, pages, v.first);
    var s := Snapshot(f, pages, v.first);
    assert At(s, v.tail) == ERASED_WORD;
    ErasedParses(f);
    LastWrittenReads(f, pages, v.tail, f.M());
    assert forall q: nat :: v.tail <= q < Start(f, v, 1) ==> At(s, q) == ReadWord(f, pages, q) == ERASED_WORD;
  }

  /** What the compact info tells. */
  lemma CompactReadBack(f: Format, pages: Pages, v: View)
    requires Compacting(f, pages, v)
    ensures Shape(f, pages)
    ensures ParseCompact(f, InfoOf(f, pages, PageIndex(f, v.first), 1)) ==
            if Distance(f, v) <= f.V() + f.M() then Ok(Valid(Distance(f, v))) else Err(InvalidStorage)
    ensures Dropped(f, v).tail == HeadAt(v, 0) + Distance(f, v)
    ensures Start(f, v, 1) <= Dropped(f, v).tail
    ensures PageOf(f, HeadAt(v, 0)) == PageIndex(f, v.first) && NextPage(f, HeadAt(v, 0)) == Start(f, v, 1)
  {
    hide Snapshot, Roomy, Alive, InitWord, KindOf, Contiguous, MarksOk, Parses, Start, PageIndex, InfoOf, BuildCompact,
         Distance, HeadAt, GetField, GetChecksum, Dropped;
    DistanceNear(f, v);
    DroppedPos(f, v);
    SnapshotReads(f, pages, v.first);
    InfoOfPage(f, pages, v.first, 1);
    assert v.first + 0 == v.first;
    CompactReads(Distance(f, v));
    MarkBound(f, v, 0);
    f.SizeBounds();
    PageParts(f, v, 0, HeadAt(v, 0));
    HeadNextPage(f, v);
  }

  lemma HeadNextPage(f: Format, v: View)
    requires Formed(f, v)
    ensures NextPage(f, HeadAt(v, 0)) == Start(f, v, 1)
  {
    hide KindOf, Contiguous, Parses, Start, HeadAt, MarkOk, NoUserBeforeMark;
    assert MarkOk(f, v, 0);
    PageOfHead(f, v, 0);
  }

  /** The entries of the first page come before those of the next. */
  lemma FirstPageItems(f: Format, v: View, k: nat)
    requires Formed(f, v) && k <= Gone(v) <= |v.log|
    ensures PosAt(v, k) < Start(f, v, 1) && |v.marks| > 1 ==> k < Gone(v)
    ensures |v.marks| <= 1 && k == Gone(v) ==> PosAt(v, k) == v.tail <= Start(f, v, 1)
    ensures k == Gone(v) || PosAt(v, k) >= Start(f, v, 1) ==> Count(f, v, k) == |Copies(f, v)| - 1
    decreases Gone(v) - k
  {
    hide KindOf, Contiguous, Parses, Start, Copies, Count, HeadAt;
    CountEnds(f, v);
    if |v.marks| > 1 {
      MarkBound(f, v, 1);
      HeadIs(v, 1);
    }
    if k < Gone(v) && PosAt(v, k) >= Start(f, v, 1) {
      CountStep(f, v, k);
      NotUserAfter(f, v, k);
      PosBefore(v, k, k + 1);
      FirstPageItems(f, v, k + 1);
    }
  }

  lemma NotUserAfter(f: Format, v: View, k: nat)
    requires Formed(f, v) && k < Gone(v) <= |v.log| && PosAt(v, k) >= Start(f, v, 1)
    ensures !Kinds(f, v, k).User?
  {
    hide KindOf, Parses, Start, HeadAt;
    PosBefore(v, k, |v.log|);
    if |v.marks| > 1 {
      assert NoUserBeforeMark(f, v, 1);
    }
  }

  /** Where the last entry of the compacted log is. */
  lemma EraseAt(f: Format, v: View)
    requires Formed(f, v)
    ensures Compacted(f, v).log != []
    ensures var x := Compacted(f, v); x.log[|x.log| - 1] == Item(Copied(f, v, |Copies(f, v)| - 1).tail,
        [EraseWord(f, v)])
  {
    hide KindOf, Contiguous, MarksOk, Parses, Copies, EraseWord, Append, Tower;
    CopiedStep(f, v, |Copies(f, v)| - 1);
    CopyLast(f, v);
    AppendMarks(f, Copied(f, v, |Copies(f, v)| - 1), [EraseWord(f, v)]);
  }

  lemma ErasingPromised(f: Format, pages: Pages, v: View)
    requires Erasing(f, pages, v)
    ensures f.Supported() && InPhase(f, pages, Compressing(v, |Copies(f, v)|))
    ensures Promise(f, Compressing(v, |Copies(f, v)|)) == Content(f, v.log)
  {
    hide Laid, Compactible, Content, Erasing, Copying, KindOf;
    ErasingFormed(f, pages, v);
  }

  lemma CopyingPromised(f: Format, pages: Pages, v: View, c: nat)
    requires Progress(f, pages, v, c)
    ensures InPhase(f, pages, Compressing(v, c)) && Promise(f, Compressing(v, c)) == Content(f, v.log)
    ensures c <= |Copies(f, v)|
    ensures c < |Copies(f, v)| ==> Copying(f, pages, v, c)
  {
    hide Copying, Erasing, Content;
  }

  lemma RestPromised(f: Format, pages: Pages, v: View)
    requires AtRest(f, pages, v)
    ensures f.Supported() && InPhase(f, pages, Operating(v, Settled))
            && Promise(f, Operating(v, Settled)) == Content(f, v.log)
  {
    hide Steady, SettledOk, Content, Roomy, MayOpen, OpensPage, Halted, AtRest;
    RestIsHalted(f, pages, v);
    SettledOutcome(f, pages, v);
  }

  lemma ErasedErasing(f: Format, pages: Pages, pages': Pages, v: View)
    requires Erasing(f, pages, v) && Shape(f, pages')
    requires DiffersOnlyIn(f, pages, pages', PageIndex(f, v.first), 0, f.Q() + 2)
    requires PageErased(f, pages', PageIndex(f, v.first))
    ensures Erasing(f, pages', v)
  {
    hide Snapshot, PageIndex, Erasing;
    ErasingTorn(f, pages, pages', v);
  }

  /** The page of the head starts where the window does. */
  lemma HeadPage(f: Format, pages: Pages, v: View)
    requires Steady(f, pages, v, true)
    ensures f.Supported() && VirtPage(f, HeadAt(v, 0)) * f.Q() == Start(f, v, 0) <= HeadAt(v, 0)
  {
    hide Snapshot, KindOf, Contiguous, Parses, HeadAt, Matches, Initialized, Alive;
    MarkBound(f, v, 0);
    f.SizeBounds();
    PageParts(f, v, 0, HeadAt(v, 0));
  }

  /** Wiping the words before the head. */
  lemma PrefixWiped(f: Format, pages: Pages, pages': Pages, v: View, ok: bool)
    requires Steady(f, pages, v, true) && Shape(f, pages') && Start(f, v, 0) <= HeadAt(v, 0)
    requires var s, s', zeros := Snapshot(f, pages, v.first), Snapshot(f, pages', v.first),
             ZeroWords(HeadAt(v, 0) - Start(f, v, 0));
             if ok then Written(s, s', Start(f, v, 0), zeros) else TornWritten(s, s', Start(f, v, 0), zeros)
    ensures Steady(f, pages', v, true)
  {
    hide Snapshot, HeadAt, Start, Steady, SameExcept;
    SteadyPrefix(f, pages, pages', v, HeadAt(v, 0) - Start(f, v, 0));
  }

  lemma NextIs(f: Format, v: View)
    requires Formed(f, v)
    ensures var x := Compacted(f, v);
            && x.log != [] && x.log[|x.log| - 1].ws == [EraseWord(f, v)]
            && Next(f, v) == SetItem(x, |x.log| - 1, FirstCleared([EraseWord(f, v)], 0))
  {
    hide KindOf, Contiguous, MarksOk, Parses, Compacted, EraseWord;
    EraseAt(f, v);
    assert FirstCleared([EraseWord(f, v)], 0) == [ClearBit(EraseWord(f, v), 0)];
  }

  lemma NextContent(f: Format, pages: Pages, v: View)
    requires Erasing(f, pages, v)
    ensures f.Supported() && Content(f, Next(f, v).log) == Content(f, v.log)
  {
    hide Snapshot, Roomy, Alive, KindOf, Contiguous, MarksOk, Parses, Compacted, EraseWord, Content, Idle, Start, Laid,
         InitWord;
    ErasingFormed(f, pages, v);
    var x := Compacted(f, v);
    PaddedKind(f, EraseWord(f, v));
    ItemSet(x, |x.log| - 1, [ClearBit(EraseWord(f, v), 0)]);
    CompactedIdle(f, v, Next(f, v));
  }

  lemma CopyingFacts(f: Format, pages: Pages, v: View, c: nat)
    requires Copying(f, pages, v, c)
    ensures Shape(f, pages) && Formed(f, v) && Gone(v) <= |v.log| && Compacting(f, pages, v) && Idle(f, v)
    ensures Progress(f, pages, v, c) && c < |Copies(f, v)|
    ensures InPhase(f, pages, Compressing(v, c)) && Promise(f, Compressing(v, c)) == Content(f, v.log)
  {
    hide Pending, Content, Idle, Roomy, Contiguous, Parses, MarksOk, KindOf, InitWord, Snapshot;
    CompactingFormed(f, pages, v);
    GoneBound(f, v);
  }

  lemma LoopStart(f: Format, v: View)
    requires Formed(f, v)
    ensures Gone(v) <= |v.log| && HeadAt(v, 0) == PosAt(v, 0) && Count(f, v, 0) == 0
    ensures Copied(f, v, 0).tail == Dropped(f, v).tail
  {
    hide KindOf, Contiguous, Parses, MarksOk, Copies, Count, Dropped;
    GoneBound(f, v);
    CountEnds(f, v);
    HeadIsFirst(f, v);
  }

  /** What is parsed where the entries of the page end. */
  lemma GapAt(f: Format, pages: Pages, v: View, k: nat)
    requires Compacting(f, pages, v) && k == Gone(v) <= |v.log| && PosAt(v, k) < Start(f, v, 1)
    ensures Shape(f, pages) && ParseEntry(f, pages, PosAt(v, k)).Ok?
    ensures var r := ParseEntry(f, pages, PosAt(v, k)).value;
            r == (ParsedTail, PosAt(v, k)) || (r.0 == ParsedPartial && r.1 > Start(f, v, 1))
  {
    hide Snapshot, Roomy, Idle, Alive, InitWord, KindOf, Contiguous, MarksOk, Parses, CompactWord, Start, ParseEntry,
         HoldsLog, Copies, Count, PosAt, Dropped;
    CompactingFormed(f, pages, v);
    FirstPageItems(f, v, k);
    GapParse(f, pages, v);
  }

  lemma LengthFits(f: Format, length: nat)
    requires f.Supported() && length <= f.M() + 1
    ensures length <= f.Q()
  {
  }

  /** The words read at an entry are its words. */
  lemma SliceReads(f: Format, pages: Pages, v: View, k: nat, ws: seq<Word>)
    requires Compacting(f, pages, v) && k < |v.log| && |ws| == |v.log[k].ws|
    requires forall i: nat :: i < |ws| ==> ws[i] == ReadWord(f, pages, PosAt(v, k) + i)
    ensures ws == v.log[k].ws
  {
    hide Roomy, Idle, Alive, InitWord, KindOf, Contiguous, MarksOk, Parses, CompactWord, Snapshot, ReadWord;
    SnapshotReads(f, pages, v.first);
    var s, it := Snapshot(f, pages, v.first), v.log[k];
    assert Holds(s, it.pos, it.ws);
    forall i: nat | i < |ws| ensures ws[i] == it.ws[i] {
      var q: nat := it.pos + i;
      assert At(s, q) == it.ws[q - it.pos];
    }
  }

  /** The tail moves by the length of what is copied. */
  lemma CopyAt(f: Format, v: View, k: nat)
    requires Formed(f, v) && k < Gone(v) <= |v.log| && Kinds(f, v, k).User?
    ensures Count(f, v, k) + 1 == Count(f, v, k + 1) < |Copies(f, v)|
    ensures Copied(f, v, Count(f, v, k + 1)).tail == Copied(f, v, Count(f, v, k)).tail + |v.log[k].ws|
  {
    hide KindOf, Contiguous, MarksOk, Parses, Copies, Count, Append, Dropped;
    CountStep(f, v, k);
    CopiedStep(f, v, Count(f, v, k));
    AppendMarks(f, Copied(f, v, Count(f, v, k)), v.log[k].ws);
  }

  lemma AllCopied(f: Format, pages: Pages, v: View, c: nat)
    requires Progress(f, pages, v, c) && c == |Copies(f, v)|
    ensures Erasing(f, pages, v)
  {
    hide Copying, Erasing;
  }

  lemma HeadCycle(f: Format, v: View)
    requires Formed(f, v)
    ensures VirtPage(f, HeadAt(v, 0)) == v.first && PageOf(f, HeadAt(v, 0)) == PageIndex(f, v.first)
  {
    hide KindOf, Contiguous, Parses, HeadAt, Start;
    MarkBound(f, v, 0);
    f.SizeBounds();
    PageParts(f, v, 0, HeadAt(v, 0));
  }

  /** Where copying starts: at the tail, or at the next page if the tail is in the first one. */
  lemma TailMax(f: Format, v: View)
    requires Formed(f, v)
    ensures Dropped(f, v).tail == if v.tail >= NextPage(f, HeadAt(v, 0)) then v.tail else NextPage(f, HeadAt(v, 0))
  {
    hide KindOf, Contiguous, Parses, HeadAt, Start, NextPage;
    HeadNextPage(f, v);
    GoneBound(f, v);
    DroppedPos(f, v);
    NoHeadOne(f, v);
  }

  lemma NoHeadOne(f: Format, v: View)
    requires Formed(f, v)
    ensures |v.marks| <= 1 ==> v.tail <= Start(f, v, 1) == Dropped(f, v).tail
  {
    hide KindOf, Contiguous, Parses, Start;
  }
}
