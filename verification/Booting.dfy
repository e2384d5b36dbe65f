/** Telling an erased flash, possibly with a torn init info, from the flash of a store in use. */
module Booting {
  import opened Arithmetic
  import opened Wrappers
  import opened Words
  import opened Format
  import opened Entries
  import opened Flash
  import opened Log
  import opened Parsing
  import opened States
  import opened Storage
  import opened Contents
  import opened Stages
  import opened Compaction
  import opened Migration
  import opened Phases

  /** The log of a new store. */
  function EmptyView(): View {
    View(0, [], 0, [0], true)
  }

  /** Some word other than the init info of the first page is not erased. */
  ghost predicate Dirty(f: Format, pages: Pages)
    requires Shape(f, pages)
  {
    exists p: nat, i: nat :: p < f.numPages && i < f.Q() + 2 && !(p == 0 && i == 0) && pages[p][i] != ERASED_WORD
  }

  lemma WordDirty(f: Format, pages: Pages, q: nat)
    requires Shape(f, pages) && ReadWord(f, pages, q) != ERASED_WORD
    ensures Dirty(f, pages)
  {
    hide Format.Q, Format.Supported, PageIndex;
    assert pages[PageOf(f, q)][WordIndex(f, q)] != ERASED_WORD;
  }

  /** An entry has a word that is not erased. */
  lemma EntryDirty(f: Format, ws: seq<Word>) returns (i: nat)
    requires f.Supported() && !KindOf(f, ws).Bad?
    ensures i < |ws| && ws[i] != ERASED_WORD
  {
    hide ParseWord;
    ErasedParses(f);
    i := if ws[0] != ERASED_WORD then 0 else |ws| - 1;
  }

  lemma HeldDirty(f: Format, pages: Pages, w: nat, pos: nat, ws: seq<Word>)
    requires Shape(f, pages) && Holds(Snapshot(f, pages, w), pos, ws) && !KindOf(f, ws).Bad?
    ensures Dirty(f, pages)
  {
    hide KindOf, Snapshot, ReadWord, Dirty;
    SnapshotReads(f, pages, w);
    var i := EntryDirty(f, ws);
    var q: nat := pos + i;
    assert At(Snapshot(f, pages, w), q) == ws[q - pos];
    WordDirty(f, pages, q);
  }

  lemma InitInfoZero(f: Format)
    requires f.Supported()
    ensures BuildInit(InitInfo(0, 0)).Ok? && InitWord(f, EmptyView(), 0) == BuildInit(InitInfo(0, 0)).value
    ensures BuildInit(InitInfo(0, 0)).value != ERASED_WORD
    ensures Start(f, EmptyView(), 0) == 0
  {
    hide BuildInit;
    InitReads(InitInfo(0, 0));
  }

  /** A store in use is not mistaken for an erased flash. */
  lemma StandingDirty(f: Format, pages: Pages, v: View, tidy: bool)
    requires Standing(f, pages, v, tidy)
    ensures Shape(f, pages) && BuildInit(InitInfo(0, 0)).Ok?
    ensures Dirty(f, pages) || pages[0][0] == BuildInit(InitInfo(0, 0)).value
  {
    hide Snapshot, KindOf, Contiguous, MarksOk, HoldsInits, ErasedBetween, Alive, InitWord, Dirty, BuildInit, PageIndex;
    InitInfoZero(f);
    if v.log != [] {
      assert Holds(Snapshot(f, pages, v.first), v.log[0].pos, v.log[0].ws);
      EntrySize(f, v, 0);
      HeldDirty(f, pages, v.first, v.log[0].pos, v.log[0].ws);
    } else {
      WindowShift(f, pages, v.first);
      FirstIs(Snapshot(f, pages, v.first));
      ZeroIndex(f);
      EmptyInit(f, pages, v, tidy);
    }
  }

  lemma ZeroIndex(f: Format)
    requires f.Supported()
    ensures PageIndex(f, 0) == 0
  {
  }

  lemma EmptyInit(f: Format, pages: Pages, v: View, tidy: bool)
    requires Standing(f, pages, v, tidy) && v.log == []
    ensures Shape(f, pages) && v.first == 0 && BuildInit(InitInfo(0, 0)) == Ok(PageInit(Snapshot(f, pages, 0), 0, 0))
  {
    hide Snapshot, KindOf, HoldsInits, ErasedBetween, Alive, BuildInit, PageIndex;
    InitInfoZero(f);
    assert InitWord(f, v, 0) == InitWord(f, EmptyView(), 0);
  }

  /** Whatever its phase, a store in use is not mistaken for an erased flash. */
  lemma PhaseDirty(f: Format, pages: Pages, p: Phase)
    requires InPhase(f, pages, p) && p != Fresh
    ensures Shape(f, pages) && BuildInit(InitInfo(0, 0)).Ok?
    ensures Dirty(f, pages) || pages[0][0] == BuildInit(InitInfo(0, 0)).value
  {
    hide Standing, StageOk, Idle, Roomy, OpensPage, MayOpen, Dirty, BuildInit, Snapshot, CompactWord, Copying, Erasing;
    match p
    case Operating(v, st) => StandingDirty(f, pages, v, false);
    case Marking(v) => StandingDirty(f, pages, v, true);
    case Compressing(v, c) =>
      if c < |Copies(f, v)| { CopyingDirty(f, pages, v, c); } else { ErasingDirty(f, pages, v); }
  }

  lemma CopyingDirty(f: Format, pages: Pages, v: View, c: nat)
    requires Copying(f, pages, v, c)
    ensures Shape(f, pages) && BuildInit(InitInfo(0, 0)).Ok? && Dirty(f, pages)
  {
    hide Snapshot, Pending, Formed, Idle, Alive, InitWord, PageIndex, BuildCompact, BuildInit, Distance, HoldsLog,
         ErasedBetween, Roomy, Copies;
    CompactingFormed(f, pages, v);
    InitInfoZero(f);
    DistanceNear(f, v);
    CompactReads(Distance(f, v));
    WindowShift(f, pages, v.first);
    assert pages[PageIndex(f, v.first)][1] != ERASED_WORD;
  }

  lemma ErasingDirty(f: Format, pages: Pages, v: View)
    requires Erasing(f, pages, v)
    ensures Shape(f, pages) && BuildInit(InitInfo(0, 0)).Ok? && Dirty(f, pages)
  {
    hide Snapshot, KindOf, Contiguous, MarksOk, Parses, Idle, Roomy, Alive, InitWord, BuildInit, Compacted, EraseWord,
         Dirty, HoldsInits, ErasedBetween, Compactable;
    ErasingFormed(f, pages, v);
    InitInfoZero(f);
    var x := Compacted(f, v);
    var k := |x.log| - 1;
    EraseKind(f, v);
    assert Holds(Snapshot(f, pages, v.first), x.log[k].pos, x.log[k].ws);
    HeldDirty(f, pages, v.first, x.log[k].pos, x.log[k].ws);
  }

  // ---------------------------------------------------------------------------------------------
  // Initializing the flash

  lemma EmptyFormed(f: Format)
    requires f.Supported()
    ensures Formed(f, EmptyView()) && Idle(f, EmptyView()) && Roomy(f, EmptyView()) && Alive(f, EmptyView())
    ensures Content(f, EmptyView().log) == map[]
    ensures Start(f, EmptyView(), f.numPages) == WindowSize(f) && 0 <= Start(f, EmptyView(), f.numPages - 1)
  {
    var v := EmptyView();
    assert MarkOk(f, v, 0) && NoUserBeforeMark(f, v, 0);
    f.VirtSizeLowerBound();
    TightIsRoomy(f, v);
    MulMonotone(f.numPages, 1, f.maxPageErases + 1);
  }

  /** An erased flash with the init info of its first page holds an empty store. */
  lemma BlankRests(f: Format, pages: Pages)
    requires Blank(f, pages) && pages[0][0] == BuildInit(InitInfo(0, 0)).value
    ensures AtRest(f, pages, EmptyView()) && Content(f, EmptyView().log) == map[]
  {
    hide Snapshot, BuildInit, Formed, Idle, Roomy, Alive, Content, ReadWord, InfoOf, Format.Q, WindowSize, Start,
         InitWord;
    EmptyFormed(f);
    InitInfoZero(f);
    SnapshotReads(f, pages, 0);
    var s, v := Snapshot(f, pages, 0), EmptyView();
    forall q: nat | q < |s.mem| ensures At(s, q) == ERASED_WORD {
      BlankReads(f, pages, q);
    }
    forall i: nat | i < f.numPages
      ensures s.compacts[i] == ERASED_WORD && PageInit(s, 0, i) == if i == 0 then InitWord(f, v, 0) else ERASED_WORD
    {
      BlankInfos(f, pages, i);
      assert 0 + i == i;
    }
    CoversSelf(InitWord(f, v, 0));
  }

  lemma BlankReads(f: Format, pages: Pages, q: nat)
    requires Blank(f, pages)
    ensures ReadWord(f, pages, q) == ERASED_WORD
  {
    hide BuildInit, Format.Q, Format.Supported, PageIndex;
    assert WordIndex(f, q) < f.Q() + 2 && WordIndex(f, q) != 0;
  }

  lemma BlankInfos(f: Format, pages: Pages, i: nat)
    requires Blank(f, pages) && i < f.numPages
    ensures InfoOf(f, pages, i, 0) == (if i == 0 then pages[0][0] else ERASED_WORD)
            && InfoOf(f, pages, i, 1) == ERASED_WORD
  {
    hide BuildInit, Format.Q, Format.Supported;
    DivModUnique(i, f.numPages, 0, i);
  }

  /** Writing the init info of the first page of an erased flash. */
  lemma BlankWritten(f: Format, pages: Pages, pages': Pages, ok: bool)
    requires Blank(f, pages) && Shape(f, pages') && DiffersOnlyIn(f, pages, pages', 0, 0, 1)
    requires if ok then pages'[0][0] == BuildInit(InitInfo(0, 0)).value
             else Torn(pages'[0][0], pages[0][0], BuildInit(InitInfo(0, 0)).value)
    ensures Blank(f, pages')
    ensures ok ==> AtRest(f, pages', EmptyView()) && Content(f, EmptyView().log) == map[]
  {
    hide BuildInit, AtRest, Content;
    if ok {
      CoversSelf(pages'[0][0]);
      BlankRests(f, pages');
    } else {
      TornBetween(pages'[0][0], pages[0][0], BuildInit(InitInfo(0, 0)).value);
    }
  }

  lemma EmptyLog()
    ensures EmptyView().log == [] && EmptyView().lean
  {
  }

  lemma FreshBlank(f: Format, pages: Pages)
    requires InPhase(f, pages, Fresh)
    ensures Blank(f, pages) && BuildInit(InitInfo(0, 0)).Ok?
  {
  }

  lemma FreshPhase(f: Format, pages: Pages)
    requires Blank(f, pages)
    ensures InPhase(f, pages, Fresh)
  {
  }

  lemma NotBlank(f: Format, pages: Pages, page: nat)
    requires Shape(f, pages) && page < f.numPages
    requires (page > 0 && pages[page][0] != ERASED_WORD)
             || exists i: nat :: i < f.Q() + 2 && i != 0 && pages[page][i] != ERASED_WORD
    ensures !Blank(f, pages)
  {
    hide BuildInit, Format.Q;
  }

  lemma NotDirty(f: Format, pages: Pages)
    requires Shape(f, pages)
    requires forall q: nat, i: nat :: q < f.numPages && i < f.Q() + 2 && !(q == 0 && i == 0) ==>
               pages[q][i] == ERASED_WORD
    ensures !Dirty(f, pages)
  {
    hide Format.Q;
  }

  /** The first init info may be written, or is already there. */
  lemma BlankSlice(f: Format, pages: Pages)
    requires Shape(f, pages) && BuildInit(InitInfo(0, 0)).Ok?
    requires Blank(f, pages) || pages[0][0] == BuildInit(InitInfo(0, 0)).value
    ensures Slice(f, pages, 0, 0, 1) == [pages[0][0]] && Covers(pages[0][0], BuildInit(InitInfo(0, 0)).value)
  {
    hide BuildInit, Format.Q;
    CoversSelf(BuildInit(InitInfo(0, 0)).value);
  }

  lemma SliceFirst(f: Format, pages: Pages, pages': Pages, word: Word, ok: bool)
    requires Shape(f, pages) && Shape(f, pages')
    requires if ok then Slice(f, pages', 0, 0, 1) == [word]
             else TornAll(Slice(f, pages', 0, 0, 1), Slice(f, pages, 0, 0, 1), [word])
    ensures if ok then pages'[0][0] == word else Torn(pages'[0][0], pages[0][0], word)
  {
    hide Format.Q;
    assert Slice(f, pages', 0, 0, 1)[0] == pages'[0][0] && Slice(f, pages, 0, 0, 1)[0] == pages[0][0];
  }
}
