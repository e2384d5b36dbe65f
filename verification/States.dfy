/** The states of the flash between the storage operations of the store. */
module States {
  import opened Arithmetic
  import opened Wrappers
  import opened Words
  import opened Format
  import opened Entries
  import opened Flash
  import opened Log
  import opened Parsing

  /** The init infos of the pages in use, and of the next page, have not run out of erase cycles. */
  predicate Alive(f: Format, v: View)
    requires f.Supported()
  {
    v.first + f.numPages - 2 < (f.maxPageErases + 1) * f.numPages
  }

  /**
   The flash holds a log whose head page is the first of the window. Unless `tidy`, the init info of
   the last page in use may be torn. The compact info of the head page may be anything.
   */
  ghost predicate Standing(f: Format, pages: Pages, v: View, tidy: bool) {
    && Shape(f, pages) && Formed(f, v)
    && Matches(f, Snapshot(f, pages, v.first), v, 0, f.numPages, tidy)
    && CompactsErased(Snapshot(f, pages, v.first), 1, f.numPages - 1)
    && v.tail <= Start(f, v, f.numPages - 1)
    && Alive(f, v)
    && Initialized(f, Snapshot(f, pages, v.first), v, 0, 0)
    && (v.log == [] ==> v.first == 0 && v.tail == 0)
  }

  /** The flash holds a log outside of any compaction, and nothing else. */
  ghost predicate Steady(f: Format, pages: Pages, v: View, tidy: bool) {
    Standing(f, pages, v, tidy) && CompactsErased(Snapshot(f, pages, v.first), 0, 1)
  }

  lemma SteadyStands(f: Format, pages: Pages, v: View, tidy: bool)
    requires Steady(f, pages, v, tidy)
    ensures Standing(f, pages, v, tidy)
  {
  }

  // ---------------------------------------------------------------------------------------------
  // Heads of pages

  /** The position that the init info of a physical page points to, if it is valid. */
  function PageHead(f: Format, pages: Pages, page: nat): Option<nat>
    requires Shape(f, pages) && page < f.numPages
  {
    hide Format.Q, Format.Supported, ParseInit, InfoOf;
    match ParseInit(f, InfoOf(f, pages, page, 0))
    case Ok(Valid(info)) => Some(Position(f, info.cycle, page, info.prefix))
    case _ => None
  }

  ghost predicate InitsParse(f: Format, pages: Pages)
    requires Shape(f, pages)
  {
    forall p: nat :: p < f.numPages ==> ParseInit(f, InfoOf(f, pages, p, 0)).Ok?
  }

  ghost predicate IsExtremum(f: Format, pages: Pages, greatest: bool, h: nat)
    requires Shape(f, pages)
  {
    && (exists p: nat :: p < f.numPages && PageHead(f, pages, p) == Some(h))
    && (forall p: nat :: p < f.numPages && PageHead(f, pages, p).Some? ==>
          if greatest then PageHead(f, pages, p).value <= h else PageHead(f, pages, p).value >= h)
  }

  lemma AliveCycle(f: Format, v: View, i: nat)
    requires f.Supported() && Alive(f, v) && i + 2 <= f.numPages
    ensures CycleIndex(f, v.first + i) <= f.maxPageErases
  {
    var n := f.numPages;
    DivMod(v.first + i, n);
    if (v.first + i) / n > f.maxPageErases {
      MulMonotone(n, f.maxPageErases + 1, (v.first + i) / n);
    }
  }

  /** The init info of a page in use, possibly torn, parses as that info or as no info. */
  lemma InitWordParses(f: Format, v: View, i: nat, w: Word)
    requires Formed(f, v) && Alive(f, v) && i < |v.marks| && i + 2 <= f.numPages
    requires Covers(w, InitWord(f, v, i))
    ensures ParseInit(f, w) ==
            if w == ERASED_WORD then Ok(Erased)
            else if w == InitWord(f, v, i)
            then Ok(Valid(InitInfo(CycleIndex(f, v.first + i), HeadAt(v, i) - Start(f, v, i))))
            else Ok(Partial)
    ensures InitWord(f, v, i) != ERASED_WORD
  {
    hide ParseInit, BuildInit, Contiguous, Parses, Start, HeadAt, CycleIndex;
    assert MarkOk(f, v, i);
    AliveCycle(f, v, i);
    var info := InitInfo(CycleIndex(f, v.first + i), HeadAt(v, i) - Start(f, v, i));
    InitReads(info);
    TornInit(f, info, w);
  }

  lemma PageHeadPos(f: Format, v: View, i: nat, prefix: nat)
    requires f.Supported()
    ensures Position(f, CycleIndex(f, v.first + i), PageIndex(f, v.first + i), prefix) == Start(f, v, i) + prefix
  {
    DivMod(v.first + i, f.numPages);
  }

  lemma InfoOfPage(f: Format, pages: Pages, vp: nat, index: nat)
    requires Shape(f, pages) && index < 2
    ensures InfoOf(f, pages, PageIndex(f, vp), index) == InfoOf(f, pages, vp, index)
  {
    DivModUnique(PageIndex(f, vp), f.numPages, 0, PageIndex(f, vp));
  }

  /** Whether the init info of a page is completely written. */
  ghost predicate Initialized(f: Format, s: Window, v: View, off: nat, i: nat)
    requires f.Supported()
  {
    i < |v.marks| && PageInit(s, off, i) == InitWord(f, v, i)
  }

  /** The head of each page of a view is where its init info says, if it is completely written. */
  lemma PageHeadOf(f: Format, pages: Pages, w: nat, v: View, off: nat, n: nat, tidy: bool, i: nat)
    requires Shape(f, pages) && Formed(f, v) && Alive(f, v)
    requires v.first == w + off
    requires HoldsInits(f, Snapshot(f, pages, w), v, off, n, tidy) && i < n && |v.marks| < f.numPages
    ensures ParseInit(f, InfoOf(f, pages, PageIndex(f, v.first + i), 0)).Ok?
    ensures PageHead(f, pages, PageIndex(f, v.first + i)) ==
            if Initialized(f, Snapshot(f, pages, w), v, off, i) then Some(HeadAt(v, i)) else None
  {
    hide ParseInit, InitWord, Snapshot, InfoOf, ReadWord, PageIndex, Parses, Contiguous, HoldsLog, Alive, Format.Q,
         Position, HeadAt, Start;
    SnapshotReads(f, pages, w);
    var s := Snapshot(f, pages, w);
    InfoOfPage(f, pages, v.first + i, 0);
    assert PageInit(s, off, i) == s.inits[off + i] == InfoOf(f, pages, w + (off + i), 0);
    if i < |v.marks| {
      InitWordParses(f, v, i, PageInit(s, off, i));
      assert MarkOk(f, v, i);
      PageHeadPos(f, v, i, HeadAt(v, i) - Start(f, v, i));
    } else {
      assert PageInit(s, off, i) == ERASED_WORD;
      ErasedInit(f);
    }
  }

  lemma ErasedInit(f: Format)
    requires f.Supported()
    ensures ParseInit(f, ERASED_WORD) == Ok(Erased)
  {
  }

  /** The heads of pages come in the order of the pages. */
  lemma MarkOrder(f: Format, v: View, i: nat, j: nat)
    requires Formed(f, v) && i < j < |v.marks|
    ensures HeadAt(v, i) < HeadAt(v, j)
  {
    hide Parses, Contiguous, HeadAt, Start;
    assert MarkOk(f, v, i) && MarkOk(f, v, j);
    StartOrder(f, v, i, j);
  }

  /** The number of pages in use whose init info is complete. */
  ghost function ReadyPages(f: Format, s: Window, v: View, off: nat): nat
    requires f.Supported()
  {
    if v.marks != [] && !Initialized(f, s, v, off, |v.marks| - 1) then |v.marks| - 1 else |v.marks|
  }

  /**
   The head of the store is the least page head. The greatest page head is that of the last page whose
   init info is complete.
   */
  lemma StandingHead(f: Format, pages: Pages, v: View, tidy: bool)
    requires Standing(f, pages, v, tidy)
    ensures Shape(f, pages) && InitsParse(f, pages)
    ensures IsExtremum(f, pages, false, HeadAt(v, 0))
    ensures var n := ReadyPages(f, Snapshot(f, pages, v.first), v, 0);
            0 < n <= |v.marks| && (tidy ==> n == |v.marks|) && IsExtremum(f, pages, true, HeadAt(v, n - 1))
  {
    hide ParseInit, InitWord, Snapshot, InfoOf, PageHead, PageIndex, Parses, Contiguous, HoldsLog, Alive, Start, HeadAt;
    var s := Snapshot(f, pages, v.first);
    MarksBelow(f, v);
    var n := ReadyPages(f, s, v, 0);
    forall p: nat | p < f.numPages
      ensures ParseInit(f, InfoOf(f, pages, p, 0)).Ok?
      ensures PageHead(f, pages, p).Some? ==> PageHead(f, pages, p).value >= HeadAt(v, 0)
      ensures PageHead(f, pages, p).Some? ==> PageHead(f, pages, p).value <= HeadAt(v, n - 1)
    {
      var i := PageOfIndex(f, v.first, p);
      PageHeadOf(f, pages, v.first, v, 0, f.numPages, tidy, i);
      if 0 < i < |v.marks| { MarkOrder(f, v, 0, i); }
      if i < n - 1 { MarkOrder(f, v, i, n - 1); }
    }
    PageHeadOf(f, pages, v.first, v, 0, f.numPages, tidy, 0);
    PageHeadOf(f, pages, v.first, v, 0, f.numPages, tidy, n - 1);
  }

  lemma PageOfIndex(f: Format, first: nat, p: nat) returns (i: nat)
    requires f.Supported() && p < f.numPages
    ensures i < f.numPages && PageIndex(f, first + i) == p
  {
    i := ResidueInRange(f.numPages, first, p);
  }

  lemma MarksBelow(f: Format, v: View)
    requires Formed(f, v) && v.tail <= Start(f, v, f.numPages - 1)
    ensures |v.marks| < f.numPages
  {
    hide Parses, Contiguous;
    if |v.marks| >= f.numPages {
      StartOrder(f, v, f.numPages - 1, |v.marks| - 1);
    }
  }

  lemma SteadyHead(f: Format, pages: Pages, v: View, tidy: bool)
    requires Steady(f, pages, v, tidy)
    ensures Shape(f, pages) && InitsParse(f, pages)
    ensures IsExtremum(f, pages, false, HeadAt(v, 0))
  {
    hide Standing, InitsParse, IsExtremum, HeadAt;
    StandingHead(f, pages, v, tidy);
  }

  lemma StandingFormed(f: Format, pages: Pages, v: View, tidy: bool)
    requires Standing(f, pages, v, tidy)
    ensures Formed(f, v) && Shape(f, pages)
  {
  }

  lemma SteadyFormed(f: Format, pages: Pages, v: View, tidy: bool)
    requires Steady(f, pages, v, tidy)
    ensures Formed(f, v) && Shape(f, pages)
  {
  }

  /** In a steady state, parsing walks through the entries of the log up to the tail. */
  lemma SteadyParse(f: Format, pages: Pages, v: View, tidy: bool, k: nat)
    requires Steady(f, pages, v, tidy) && k <= |v.log|
    ensures Shape(f, pages)
    ensures PosAt(v, k) <= v.tail
    ensures k < |v.log| ==> PosAt(v, k) < PosAt(v, k + 1) <= v.tail
    ensures ParseEntry(f, pages, PosAt(v, k)) ==
            if k < |v.log| then Ok((EntryOf(f, v.log[k].ws), PosAt(v, k + 1))) else Ok((ParsedTail, v.tail))
    ensures k < |v.log| ==> !EntryOf(f, v.log[k].ws).ParsedTail?
  {
    hide Standing, ParseEntry, KindOf, HeaderOf, PosAt;
    StandingParse(f, pages, v, tidy, k);
  }

  lemma StandingParse(f: Format, pages: Pages, v: View, tidy: bool, k: nat)
    requires Standing(f, pages, v, tidy) && k <= |v.log|
    ensures Shape(f, pages)
    ensures PosAt(v, k) <= v.tail
    ensures k < |v.log| ==> PosAt(v, k) < PosAt(v, k + 1) <= v.tail
    ensures ParseEntry(f, pages, PosAt(v, k)) ==
            if k < |v.log| then Ok((EntryOf(f, v.log[k].ws), PosAt(v, k + 1))) else Ok((ParsedTail, v.tail))
    ensures k < |v.log| ==> !EntryOf(f, v.log[k].ws).ParsedTail?
  {
    hide Snapshot, ParseEntry, KindOf, HoldsInits, Start, Format.Q, Format.M, HeaderOf, MarksOk;
    StartStep(f, v, f.numPages - 1);
    if k < |v.log| {
      ParseItem(f, pages, v.first, v, k, Start(f, v, f.numPages));
    } else {
      ParseAtTail(f, pages, v.first, v, Start(f, v, f.numPages));
    }
  }

  // ---------------------------------------------------------------------------------------------
  // Initializing a page

  /** The last entry is the first one to use the last page in use. */
  ghost predicate OpensPage(f: Format, v: View)
    requires f.Supported()
  {
    && v.log != [] && v.marks != []
    && var k, last := |v.log| - 1, |v.marks| - 1;
       || (v.marks[last] == k && v.log[k].pos == Start(f, v, last))
       || (v.marks[last] == |v.log| && v.log[k].pos < Start(f, v, last))
  }

  /** The coordinates of a position in a page of the window. */
  lemma PageParts(f: Format, v: View, i: nat, pos: nat)
    requires f.Supported() && Start(f, v, i) <= pos < Start(f, v, i) + f.Q()
    ensures VirtPage(f, pos) == v.first + i && WordOf(f, pos) == pos - Start(f, v, i)
  {
    hide Format.Q, Format.Supported;
    DivModUnique(pos, f.Q(), v.first + i, pos - Start(f, v, i));
  }

  lemma HasMarks(v: View, pos: nat)
    requires HeadAt(v, 0) <= pos < v.tail
    ensures v.marks != []
  {
  }

  /** A position of the log is in a page in use. */
  lemma PageInUse(f: Format, v: View, pos: nat) returns (i: nat)
    requires Formed(f, v) && HeadAt(v, 0) <= pos < v.tail
    ensures i < |v.marks| && Start(f, v, i) <= pos < Start(f, v, i) + f.Q()
  {
    hide Parses, Contiguous, Format.Q, Format.Supported, Format.M, HeadAt;
    HasMarks(v, pos);
    assert MarkOk(f, v, 0);
    MulSum(v.first, |v.marks|, f.Q());
    DivInRange(pos, f.Q(), v.first, |v.marks|);
    i := pos / f.Q() - v.first;
    DivMod(pos, f.Q());
  }

  /** The position after which `init_page` initializes its page, for an entry at these positions. */
  function NewFirst(f: Format, first: nat, last: nat): Option<nat>
    requires f.Supported()
  {
    if WordOf(f, first) == 0 then Some(first)
    else if PageOf(f, first) == PageOf(f, last) then None
    else Some(last + 1)
  }

  /**
   The page that `init_page` initializes for an entry, if any, is in use. If the entry is the first to
   use the last page, it is that page and the written info is its init info.
   */
  lemma InitPageTarget(f: Format, v: View, k: nat) returns (i: nat)
    requires Formed(f, v) && k < |v.log| && |v.marks| <= f.numPages
    ensures var newFirst := NewFirst(f, v.log[k].pos, End(v.log[k]) - 1);
            if newFirst.None? then
              !(OpensPage(f, v) && k == |v.log| - 1)
            else
              && i < |v.marks|
              && Start(f, v, i) <= newFirst.value < Start(f, v, i) + f.Q()
              && Start(f, v, i) < End(v.log[k])
              && (OpensPage(f, v) && k == |v.log| - 1 ==> i == |v.marks| - 1 && newFirst.value == HeadAt(v, i))
  {
    hide Parses, Format.Q, Format.M, KindOf, WordOf, VirtPage, PageIndex, MarksOk, OpensPage, Start;
    EntrySize(f, v, k);
    var first, last := v.log[k].pos, End(v.log[k]) - 1;
    assert HeadAt(v, 0) <= first by { FirstPos(f, v, k); }
    i := PageInUse(f, v, first);
    PageParts(f, v, i, first);
    if WordOf(f, first) == 0 {
      OpensAtStart(f, v, k, i);
    } else {
      var j := PageInUse(f, v, last);
      PageParts(f, v, j, last);
      StartStep(f, v, i);
      if i == j {
        NotOpening(f, v, k, i);
      } else {
        if j < i {
          StartOrder(f, v, j, i);
          assert false;
        }
        StartOrder(f, v, i, j);
        SpansTwo(f, v, i, j, first, last);
        OpensBySpan(f, v, k, i);
        OtherPage(f, v.first, i, j);
        i := j;
      }
    }
  }

  lemma FirstPos(f: Format, v: View, k: nat)
    requires Formed(f, v) && k < |v.log|
    ensures HeadAt(v, 0) <= v.log[k].pos
  {
    PosBefore(v, 0, k);
  }

  lemma EntrySize(f: Format, v: View, k: nat)
    requires Formed(f, v) && k < |v.log|
    ensures 1 <= |v.log[k].ws| <= f.M() + 1 && !Kinds(f, v, k).Bad?
  {
  }

  lemma OpensAtStart(f: Format, v: View, k: nat, i: nat)
    requires Formed(f, v) && k < |v.log| && i < |v.marks| && v.log[k].pos == Start(f, v, i)
    ensures OpensPage(f, v) && k == |v.log| - 1 ==> i == |v.marks| - 1 && v.log[k].pos == HeadAt(v, i)
  {
    hide Parses, Format.Q, Format.M, KindOf, Start;
    if OpensPage(f, v) && k == |v.log| - 1 {
      var last := |v.marks| - 1;
      StartOrder(f, v, i, last);
      if i < last {
        StartOrder(f, v, i + 1, last);
        StartStep(f, v, i);
        EntrySize(f, v, k);
      }
    }
  }

  lemma NotOpening(f: Format, v: View, k: nat, i: nat)
    requires Formed(f, v) && k < |v.log| && i < |v.marks|
    requires Start(f, v, i) < v.log[k].pos && End(v.log[k]) <= Start(f, v, i + 1)
    ensures !(OpensPage(f, v) && k == |v.log| - 1)
  {
    hide Parses, Format.Q, Format.M, KindOf, Start;
    if OpensPage(f, v) && k == |v.log| - 1 {
      var last := |v.marks| - 1;
      if i < last { StartOrder(f, v, i + 1, last); }
    }
  }

  lemma SpansTwo(f: Format, v: View, i: nat, j: nat, first: nat, last: nat)
    requires f.Supported() && i < j
    requires Start(f, v, i) < first < Start(f, v, i + 1) && Start(f, v, j) <= last < Start(f, v, j) + f.Q()
    requires last - first <= f.M()
    ensures j == i + 1
    ensures last + 1 < Start(f, v, j) + f.Q()
  {
    hide Format.Q, Format.Supported, Format.M;
    StartStep(f, v, i);
    StartStep(f, v, i + 1);
    if j > i + 1 { StartOrder(f, v, i + 2, j); }
  }

  lemma OpensBySpan(f: Format, v: View, k: nat, i: nat)
    requires Formed(f, v) && k < |v.log| && i + 1 < |v.marks|
    requires Start(f, v, i) < v.log[k].pos < Start(f, v, i + 1) < End(v.log[k])
    ensures OpensPage(f, v) && k == |v.log| - 1 ==> i + 1 == |v.marks| - 1 && End(v.log[k]) == HeadAt(v, i + 1)
  {
    hide Parses, Format.Q, Format.M, KindOf, Start;
    if OpensPage(f, v) && k == |v.log| - 1 {
      var last := |v.marks| - 1;
      assert |v.log[k].ws| <= f.M() + 1 by { EntrySize(f, v, k); }
      StartOrder(f, v, i + 1, last);
    }
  }

  /** A window with the init info of one page replaced. */
  function WithInit(s: Window, i: nat, u: Word): Window {
    if i < |s.inits| then s.(inits := s.inits[i := u]) else s
  }

  /** Writing the init info of the last page in use, completely or not. */
  lemma SteadyInit(f: Format, pages: Pages, pages': Pages, v: View, u: Word)
    requires Steady(f, pages, v, false) && Shape(f, pages')
    requires v.marks != [] && Covers(u, InitWord(f, v, |v.marks| - 1))
    requires Snapshot(f, pages', v.first) == WithInit(Snapshot(f, pages, v.first), |v.marks| - 1, u)
    requires |v.marks| == 1 ==> u == InitWord(f, v, 0)
    ensures Steady(f, pages', v, false)
    ensures u == InitWord(f, v, |v.marks| - 1) ==> Steady(f, pages', v, true)
  {
    hide Snapshot, InitWord, Formed, Alive;
    var s, s' := Snapshot(f, pages, v.first), Snapshot(f, pages', v.first);
    WithInitSame(s, |v.marks| - 1, u, v);
    forall i: nat | i < f.numPages && i != |v.marks| - 1 ensures PageInit(s', 0, i) == PageInit(s, 0, i) {
    }
  }

  /** The content of a window does not depend on its init infos. */
  lemma WithInitSame(s: Window, i: nat, u: Word, v: View)
    ensures var s' := WithInit(s, i, u);
            && (HoldsLog(s, v) ==> HoldsLog(s', v))
            && (forall lo: nat, hi: nat :: ErasedBetween(s, lo, hi) ==> ErasedBetween(s', lo, hi))
            && forall q: nat :: InWindow(s, q, 1) ==> At(s', q) == At(s, q)
  {
    var s' := WithInit(s, i, u);
    assert forall q: nat :: InWindow(s, q, 1) ==> At(s', q) == At(s, q);
    if HoldsLog(s, v) {
      forall k: nat | k < |v.log| ensures Holds(s', v.log[k].pos, v.log[k].ws) {
        assert Holds(s, v.log[k].pos, v.log[k].ws);
      }
    }
  }

  /** The last page in use holds the tail. */
  lemma LastPage(f: Format, v: View)
    requires Formed(f, v) && v.marks != []
    ensures v.tail <= NextPage(f, HeadAt(v, |v.marks| - 1)) == Start(f, v, |v.marks|)
    ensures HeadAt(v, |v.marks| - 1) == PosAt(v, v.marks[|v.marks| - 1]) <= v.tail
    ensures v.marks[|v.marks| - 1] <= |v.log|
  {
    hide Parses, KindOf, Format.Q, Format.Supported, Format.M;
    assert MarkOk(f, v, |v.marks| - 1);
    PageOfHead(f, v, |v.marks| - 1);
  }

  lemma PageOfHead(f: Format, v: View, i: nat)
    requires f.Supported() && i < |v.marks| && MarkOk(f, v, i)
    ensures NextPage(f, HeadAt(v, i)) == Start(f, v, i + 1)
  {
    hide Format.Q, Format.Supported, Format.M, HeadAt;
    DivModUnique(HeadAt(v, i), f.Q(), v.first + i, HeadAt(v, i) - Start(f, v, i));
  }

  /** The init infos of the pages in use of a view are those seen through a window. */
  ghost predicate Inited(f: Format, pages: Pages, w: nat, v: View, off: nat, n: nat, tidy: bool) {
    && Shape(f, pages) && Formed(f, v) && Alive(f, v) && v.first == w + off && |v.marks| < f.numPages
    && HoldsInits(f, Snapshot(f, pages, w), v, off, n, tidy)
  }

  lemma StandingInited(f: Format, pages: Pages, v: View, tidy: bool)
    requires Standing(f, pages, v, tidy)
    ensures Inited(f, pages, v.first, v, 0, f.numPages, tidy)
  {
    hide Snapshot, Formed, HoldsLog, HoldsInits, Alive, Initialized;
    MarksBelow(f, v);
  }

  /** The last entry of a log comes before the start of the last page or opens it. */
  lemma OpensLast(f: Format, v: View, k: nat)
    requires Formed(f, v) && OpensPage(f, v) && k < |v.log| - 1
    ensures End(v.log[k]) <= Start(f, v, |v.marks| - 1)
  {
    hide Parses, Start, MarksOk;
    Disjoint(f, v, k, |v.log| - 1);
  }

  /**
   What `init_page` finds for an entry: the init info of its page is complete, or the entry is the last
   one and the page is the last one, which it opens.
   */
  lemma InitTarget(f: Format, pages: Pages, w: nat, v: View, off: nat, n: nat, tidy: bool, k: nat)
    requires Inited(f, pages, w, v, off, n, tidy) && k < |v.log|
    requires tidy || OpensPage(f, v)
    ensures f.Supported() && Shape(f, pages)
    ensures var newFirst := NewFirst(f, v.log[k].pos, End(v.log[k]) - 1);
            if newFirst.None? then tidy || k < |v.log| - 1
            else
              var page := PageOf(f, newFirst.value);
              var p := ParseInit(f, InfoOf(f, pages, page, 0));
              && p.Ok?
              && (tidy || k < |v.log| - 1 ==> p.value.Valid?)
              && (p.value.Valid? ==>
                    tidy || k < |v.log| - 1 || Initialized(f, Snapshot(f, pages, w), v, off, |v.marks| - 1))
              && (!p.value.Valid? ==>
                    var info := InitInfo(CycleIndex(f, VirtPage(f, newFirst.value)), WordOf(f, newFirst.value));
                    && v.marks != [] && page == PageIndex(f, v.first + |v.marks| - 1)
                    && !Initialized(f, Snapshot(f, pages, w), v, off, |v.marks| - 1)
                    && BuildInit(info).Ok? && BuildInit(info).value == InitWord(f, v, |v.marks| - 1))
  {
    hide ParseInit, Snapshot, InfoOf, PageIndex, Parses, Contiguous, HoldsLog, Alive, Start, HeadAt, VirtPage, WordOf,
         NewFirst, BuildInit, CycleIndex, InitWord, Format.Q, OpensPage, MarksOk;
    EntrySize(f, v, k);
    var i := InitPageTarget(f, v, k);
    var newFirst := NewFirst(f, v.log[k].pos, End(v.log[k]) - 1);
    if newFirst.Some? {
      PageParts(f, v, i, newFirst.value);
      PageHeadOf(f, pages, w, v, off, n, tidy, i);
      HeadIffValid(f, pages, PageOf(f, newFirst.value));
      if !tidy && k < |v.log| - 1 {
        OpensLast(f, v, k);
        if i == |v.marks| - 1 { assert false; }
      }
      if !Initialized(f, Snapshot(f, pages, w), v, off, i) {
        InitWordIs(f, v, i);
      }
    }
  }

  lemma HeadIffValid(f: Format, pages: Pages, page: nat)
    requires Shape(f, pages) && page < f.numPages
    requires ParseInit(f, InfoOf(f, pages, page, 0)).Ok?
    ensures PageHead(f, pages, page).Some? <==> ParseInit(f, InfoOf(f, pages, page, 0)).value.Valid?
  {
    hide ParseInit, InfoOf, Position;
  }

  lemma FirstInitialized(f: Format, pages: Pages, v: View, tidy: bool)
    requires Steady(f, pages, v, tidy)
    ensures v.marks != [] && Initialized(f, Snapshot(f, pages, v.first), v, 0, 0)
  {
    hide Snapshot, InitWord, Formed, HoldsLog, ErasedBetween, Alive;
  }

  lemma InitWordIs(f: Format, v: View, i: nat)
    requires Formed(f, v) && Alive(f, v) && i == |v.marks| - 1 && |v.marks| < f.numPages
    ensures Start(f, v, i) <= HeadAt(v, i)
    ensures var info := InitInfo(CycleIndex(f, v.first + i), HeadAt(v, i) - Start(f, v, i));
            BuildInit(info).Ok? && BuildInit(info).value == InitWord(f, v, i)
  {
    hide BuildInit, Start, HeadAt, Parses, Contiguous, CycleIndex;
    assert MarkOk(f, v, i);
    AliveCycle(f, v, i);
    InitReads(InitInfo(CycleIndex(f, v.first + i), HeadAt(v, i) - Start(f, v, i)));
  }

  /** The init word of the last page in use may be completed. */
  lemma InitSlice(f: Format, pages: Pages, w: nat, v: View, off: nat, n: nat, tidy: bool)
    requires Inited(f, pages, w, v, off, n, tidy) && v.marks != []
    ensures off + |v.marks| - 1 < f.numPages && PageIndex(f, v.first + |v.marks| - 1) < f.numPages
    ensures Covers(pages[PageIndex(f, v.first + |v.marks| - 1)][0], InitWord(f, v, |v.marks| - 1))
  {
    hide Snapshot, InitWord, Alive, PageIndex, Formed, ReadWord;
    SnapshotReads(f, pages, w);
    var i: nat := off + (|v.marks| - 1);
    assert w + i == v.first + |v.marks| - 1;
    assert Covers(PageInit(Snapshot(f, pages, w), off, |v.marks| - 1), InitWord(f, v, |v.marks| - 1));
  }

  // ---------------------------------------------------------------------------------------------
  // Changing the words of an entry

  function SetItem(v: View, k: nat, ws: seq<Word>): View
    requires k < |v.log|
  {
    v.(log := v.log[k := Item(v.log[k].pos, ws)])
  }

  /** The words of an entry may be replaced by those of another entry that is not a new user entry. */
  ghost predicate Replaces(f: Format, v: View, k: nat, ws: seq<Word>)
    requires f.Supported() && k < |v.log|
  {
    && |ws| == |v.log[k].ws|
    && !KindOf(f, ws).Bad?
    && (KindOf(f, ws).TornUser? || KindOf(f, ws).TornEntry? ==> k == |v.log| - 1)
    && (KindOf(f, ws).User? ==> Kinds(f, v, k).User?)
  }

  lemma SetItemPos(f: Format, v: View, k: nat, ws: seq<Word>)
    requires f.Supported() && k < |v.log|
    ensures forall i: nat :: PosAt(SetItem(v, k, ws), i) == PosAt(v, i)
    ensures forall i: nat :: HeadAt(SetItem(v, k, ws), i) == HeadAt(v, i)
    ensures forall i: nat :: Start(f, SetItem(v, k, ws), i) == Start(f, v, i)
    ensures forall i: nat :: InitWord(f, SetItem(v, k, ws), i) == InitWord(f, v, i)
  {
    hide BuildInit, Format.Q, Format.Supported;
  }

  lemma SetItemContiguous(v: View, k: nat, ws: seq<Word>)
    requires Contiguous(v) && k < |v.log| && |ws| == |v.log[k].ws|
    ensures Contiguous(SetItem(v, k, ws))
  {
  }

  lemma SetItemMark(f: Format, v: View, k: nat, ws: seq<Word>, i: nat)
    requires f.Supported() && i < |v.marks| && MarkOk(f, v, i) && NoUserBeforeMark(f, v, i)
    requires k < |v.log| && Replaces(f, v, k, ws)
    ensures MarkOk(f, SetItem(v, k, ws), i) && NoUserBeforeMark(f, SetItem(v, k, ws), i)
  {
    hide KindOf, Start, HeadAt, Format.M;
    SetItemPos(f, v, k, ws);
    var v' := SetItem(v, k, ws);
    forall j: nat | j < v'.marks[i] && Kinds(f, v', j).User? ensures v'.log[j].pos < Start(f, v', i) {
      assert Kinds(f, v, j).User?;
    }
  }

  lemma SetItemFormed(f: Format, v: View, k: nat, ws: seq<Word>)
    requires Formed(f, v) && k < |v.log| && Replaces(f, v, k, ws)
    ensures Formed(f, SetItem(v, k, ws))
  {
    hide KindOf, MarkOk, NoUserBeforeMark, Start, Contiguous, Format.M, Format.Q;
    SetItemPos(f, v, k, ws);
    SetItemContiguous(v, k, ws);
    forall i: nat | i < |v.marks| ensures MarkOk(f, SetItem(v, k, ws), i) && NoUserBeforeMark(f, SetItem(v, k, ws), i) {
      SetItemMark(f, v, k, ws, i);
    }
  }

  lemma HoldsLogSet(f: Format, s: Window, s': Window, v: View, k: nat, ws: seq<Word>)
    requires Formed(f, v) && k < |v.log| && |ws| == |v.log[k].ws| && HoldsLog(s, v)
    requires SameExcept(s, s', v.log[k].pos, |ws|) && Holds(s', v.log[k].pos, ws)
    ensures HoldsLog(s', SetItem(v, k, ws))
  {
    hide Formed;
    var v' := SetItem(v, k, ws);
    forall j: nat | j < |v.log| ensures Holds(s', v'.log[j].pos, v'.log[j].ws) {
      assert Holds(s, v.log[j].pos, v.log[j].ws);
      if j != k { Disjoint(f, v, j, k); }
    }
  }

  lemma HoldsInitsSame(f: Format, s: Window, s': Window, v: View, v': View, off: nat, n: nat, tidy: bool)
    requires f.Supported() && HoldsInits(f, s, v, off, n, tidy)
    requires s'.inits == s.inits && v'.marks == v.marks
    requires forall i: nat :: i < |v.marks| ==> InitWord(f, v', i) == InitWord(f, v, i)
    ensures HoldsInits(f, s', v', off, n, tidy)
  {
    hide InitWord;
    assert forall i: nat :: PageInit(s', off, i) == PageInit(s, off, i);
  }

  /** Changing the words of one entry in the flash changes the words of that entry in the view. */
  lemma SteadySet(f: Format, pages: Pages, pages': Pages, v: View, tidy: bool, k: nat, ws: seq<Word>)
    requires Steady(f, pages, v, tidy) && Shape(f, pages')
    requires k < |v.log| && Replaces(f, v, k, ws)
    requires SameExcept(Snapshot(f, pages, v.first), Snapshot(f, pages', v.first), v.log[k].pos, |ws|)
    requires Holds(Snapshot(f, pages', v.first), v.log[k].pos, ws)
    ensures Steady(f, pages', SetItem(v, k, ws), tidy)
  {
    hide Snapshot, InitWord, Formed, Start, HeadAt, PosAt, Replaces, KindOf, MarksOk, Alive, HoldsLog, Holds,
         HoldsInits;
    SetItemFormed(f, v, k, ws);
    SetItemPos(f, v, k, ws);
    SameLength(f, v, k, ws);
    var s, s', v' := Snapshot(f, pages, v.first), Snapshot(f, pages', v.first), SetItem(v, k, ws);
    HoldsLogSet(f, s, s', v, k, ws);
    HoldsInitsSame(f, s, s', v, v', 0, f.numPages, tidy);
    Disjoint(f, v, k, k);
    AliveSame(f, v, v');
  }

  lemma AliveSame(f: Format, v: View, v': View)
    requires f.Supported() && Alive(f, v) && v'.first == v.first
    ensures Alive(f, v')
  {
  }

  lemma SameLength(f: Format, v: View, k: nat, ws: seq<Word>)
    requires f.Supported() && k < |v.log| && Replaces(f, v, k, ws)
    ensures |ws| == |v.log[k].ws|
  {
  }

  /** Entries do not overlap and end before the tail. */
  lemma Disjoint(f: Format, v: View, j: nat, k: nat)
    requires Formed(f, v) && j < |v.log| && k < |v.log|
    ensures j < k ==> End(v.log[j]) <= v.log[k].pos
    ensures k < j ==> End(v.log[k]) <= v.log[j].pos
    ensures End(v.log[j]) <= v.tail
  {
  }

  lemma TornOneBit(u: Word, w: Word, bit: nat)
    requires bit < 32 && Torn(u, w, ClearBit(w, bit))
    ensures u == w || u == ClearBit(w, bit)
  {
    if u[bit] == w[bit] {
      assert u == w;
    } else {
      assert u == ClearBit(w, bit);
    }
  }

  /** The words of an entry with a bit of the first one cleared. */
  function FirstCleared(ws: seq<Word>, bit: nat): seq<Word>
    requires ws != [] && bit < 32
  {
    ws[0 := ClearBit(ws[0], bit)]
  }

  /** Clearing a bit of the first word of an entry either happens or does not. */
  lemma ClearedFirst(f: Format, pages: Pages, pages': Pages, v: View, tidy: bool, k: nat, bit: nat, ok: bool)
    requires Steady(f, pages, v, tidy) && Shape(f, pages') && k < |v.log| && bit < 32 && v.log[k].ws != []
    requires Replaces(f, v, k, FirstCleared(v.log[k].ws, bit))
    requires var s, s' := Snapshot(f, pages, v.first), Snapshot(f, pages', v.first);
             var w: Word := ClearBit(v.log[k].ws[0], bit);
             if ok then Written(s, s', v.log[k].pos, [w]) else TornWritten(s, s', v.log[k].pos, [w])
    ensures Steady(f, pages', SetItem(v, k, FirstCleared(v.log[k].ws, bit)), tidy)
            || (!ok && Steady(f, pages', v, tidy))
  {
    hide Snapshot, Steady, KindOf;
    SteadyHolds(f, pages, v, tidy, k);
    var s, s' := Snapshot(f, pages, v.first), Snapshot(f, pages', v.first);
    var it := v.log[k];
    var w: Word := ClearBit(it.ws[0], bit);
    var u := At(s', it.pos);
    assert At(s, it.pos) == it.ws[0];
    if !ok { TornOneBit(u, it.ws[0], bit); }
    assert u == it.ws[0] || u == w;
    var ws := if u == w then FirstCleared(it.ws, bit) else it.ws;
    assert Holds(s', it.pos, ws);
    SteadySet(f, pages, pages', v, tidy, k, ws);
    if u != w { assert SetItem(v, k, ws) == v; }
  }

  lemma SteadyHolds(f: Format, pages: Pages, v: View, tidy: bool, k: nat)
    requires Steady(f, pages, v, tidy) && k < |v.log|
    ensures Shape(f, pages) && Formed(f, v)
    ensures Holds(Snapshot(f, pages, v.first), v.log[k].pos, v.log[k].ws)
    ensures 1 <= |v.log[k].ws| <= f.M() + 1 && Replaces(f, v, k, v.log[k].ws)
    ensures End(v.log[k]) <= v.tail
  {
    hide Snapshot, KindOf, HoldsInits, MarksOk, Alive;
    assert Contiguous(v) && Parses(f, v) && HoldsLog(Snapshot(f, pages, v.first), v);
  }

  function ZeroWords(n: nat): (ws: seq<Word>)
    ensures |ws| == n && forall i :: 0 <= i < n ==> ws[i] == ZERO_WORD
  {
    seq(n, i => ZERO_WORD)
  }

  /** The first word of an entry followed by zeros. */
  function Wiped(ws: seq<Word>): (r: seq<Word>)
    requires ws != []
    ensures |r| == |ws|
  {
    [ws[0]] + ZeroWords(|ws| - 1)
  }

  /** The words of an entry whose words after the first are being wiped. */
  lemma WipedWords(f: Format, pages: Pages, pages': Pages, v: View, tidy: bool, k: nat, ok: bool)
    returns (ws: seq<Word>)
    requires Steady(f, pages, v, tidy) && Shape(f, pages') && k < |v.log| && v.log[k].ws != []
    requires Kinds(f, v, k).Padding? || (Kinds(f, v, k).TornEntry? && k == |v.log| - 1)
    requires var s, s' := Snapshot(f, pages, v.first), Snapshot(f, pages', v.first);
             var zeros := ZeroWords(|v.log[k].ws| - 1);
             if ok then Written(s, s', v.log[k].pos + 1, zeros) else TornWritten(s, s', v.log[k].pos + 1, zeros)
    ensures |ws| == |v.log[k].ws| && ws[0] == v.log[k].ws[0] && KindOf(f, ws) == Kinds(f, v, k)
    ensures ok ==> ws == Wiped(v.log[k].ws)
    ensures Steady(f, pages', SetItem(v, k, ws), tidy)
  {
    hide Snapshot, Steady, KindOf;
    SteadyHolds(f, pages, v, tidy, k);
    var s, s' := Snapshot(f, pages, v.first), Snapshot(f, pages', v.first);
    var it := v.log[k];
    ws := seq(|it.ws|, i requires 0 <= i < |it.ws| => At(s', it.pos + i));
    assert ws[0] == At(s', it.pos) == At(s, it.pos) == it.ws[0];
    if ok {
      forall i | 0 <= i < |ws| ensures ws[i] == Wiped(it.ws)[i] {
        if i > 0 { assert At(s', it.pos + i) == ZeroWords(|it.ws| - 1)[it.pos + i - (it.pos + 1)]; }
      }
      assert ws == Wiped(it.ws);
    }
    if Kinds(f, v, k).Padding? {
      PaddingKind(f, it.ws, ws);
    } else {
      TornIsWritten(f, it.ws);
      if |ws| > 1 {
        var q := it.pos + |ws| - 1;
        assert At(s, q) == it.ws[|ws| - 1];
        assert ws[|ws| - 1] == At(s', q);
        if ok {
          assert At(s', q) == ZERO_WORD;
        } else {
          assert Torn(At(s', q), At(s, q), ZERO_WORD);
        }
        StillWritten(At(s', q), At(s, q));
      }
      WipedTornKind(f, it.ws, ws);
    }
    SteadySet(f, pages, pages', v, tidy, k, ws);
  }

  lemma TornIsWritten(f: Format, ws: seq<Word>)
    requires f.Supported() && KindOf(f, ws) == TornEntry
    ensures ws != [] && ws[|ws| - 1] != ERASED_WORD
  {
    hide ParseWord;
  }

  lemma StillWritten(u: Word, w: Word)
    requires w != ERASED_WORD && (u == ZERO_WORD || Torn(u, w, ZERO_WORD))
    ensures u != ERASED_WORD
  {
    assert (forall i :: 0 <= i < 32 ==> w[i]) ==> w == ERASED_WORD;
    var i :| 0 <= i < 32 && !w[i];
    assert !u[i];
  }

  // ---------------------------------------------------------------------------------------------
  // Deleting user entries

  /** The words of a user entry once it is deleted and wiped. */
  function DeletedWords(ws: seq<Word>): (r: seq<Word>)
    requires ws != []
    ensures |r| == |ws|
  {
    Wiped(FirstCleared(ws, 2))
  }

  ghost predicate Targeted(f: Format, v: View, keys: seq<nat>, k: nat)
    requires f.Supported() && k < |v.log|
  {
    Kinds(f, v, k).User? && Kinds(f, v, k).key in keys
  }

  /** Some of the user entries for the given keys, among the `n` first entries, have become padding. */
  ghost predicate Fades(f: Format, v: View, v': View, keys: seq<nat>, n: nat)
    requires f.Supported()
  {
    && v' == v.(log := v'.log) && |v'.log| == |v.log|
    && forall k: nat :: k < |v.log| ==>
         && v'.log[k].pos == v.log[k].pos && |v'.log[k].ws| == |v.log[k].ws|
         && (v'.log[k] == v.log[k] || (k < n && Targeted(f, v, keys, k) && Kinds(f, v', k).Padding?))
  }

  /** All of the user entries for the given keys, among the `n` first entries, are wiped. */
  ghost predicate Faded(f: Format, v: View, v': View, keys: seq<nat>, n: nat)
    requires f.Supported()
  {
    && Fades(f, v, v', keys, n)
    && forall k: nat :: k < n && k < |v.log| && v.log[k].ws != [] && Targeted(f, v, keys, k) ==>
         v'.log[k].ws == DeletedWords(v.log[k].ws)
  }

  /** Deleting one more targeted entry, or interrupting its deletion. */
  lemma FadesSet(f: Format, v: View, v0: View, v1: View, keys: seq<nat>, k: nat)
    requires f.Supported() && Faded(f, v, v0, keys, k) && k < |v.log| && v.log[k].ws != [] && Targeted(f, v, keys, k)
    requires |v1.log| == |v0.log| && v1 == SetItem(v0, k, v1.log[k].ws) && |v1.log[k].ws| == |v0.log[k].ws|
    requires v1 == v0 || Kinds(f, v1, k).Padding?
    ensures Fades(f, v, v1, keys, k + 1)
    ensures v1.log[k].ws == DeletedWords(v.log[k].ws) ==> Faded(f, v, v1, keys, k + 1)
  {
    hide KindOf, DeletedWords;
  }

  lemma FadesSkip(f: Format, v: View, v': View, keys: seq<nat>, k: nat)
    requires f.Supported() && Faded(f, v, v', keys, k) && k < |v.log| && !Targeted(f, v, keys, k)
    ensures Faded(f, v, v', keys, k + 1)
  {
    hide KindOf, DeletedWords;
  }

  lemma FadesMore(f: Format, v: View, v': View, keys: seq<nat>, k: nat, n: nat)
    requires f.Supported() && Fades(f, v, v', keys, k) && k <= n
    ensures Fades(f, v, v', keys, n)
  {
    hide KindOf;
  }

  lemma SteadyStart(f: Format, pages: Pages, v: View, tidy: bool)
    requires Steady(f, pages, v, tidy)
    ensures HeadAt(v, 0) == PosAt(v, 0)
  {
  }

  lemma FadesSelf(f: Format, v: View, keys: seq<nat>)
    requires f.Supported()
    ensures Faded(f, v, v, keys, 0)
  {
    hide KindOf;
  }

  lemma FadedFades(f: Format, v: View, v': View, keys: seq<nat>, n: nat)
    requires f.Supported() && Faded(f, v, v', keys, n)
    ensures Fades(f, v, v', keys, n)
  {
  }

  lemma FadesPos(f: Format, v: View, v': View, keys: seq<nat>, n: nat)
    requires f.Supported() && Fades(f, v, v', keys, n)
    ensures |v'.log| == |v.log| && v'.first == v.first && v'.tail == v.tail && v'.marks == v.marks
    ensures forall k: nat :: PosAt(v', k) == PosAt(v, k)
    ensures forall k: nat :: HeadAt(v', k) == HeadAt(v, k)
    ensures forall k: nat :: n <= k < |v.log| ==> v'.log[k] == v.log[k]
    ensures forall k: nat :: k < |v.log| && v'.log[k] != v.log[k] ==>
              Targeted(f, v, keys, k) && Kinds(f, v', k).Padding?
  {
    hide KindOf;
  }

  lemma SteadyOrder(f: Format, pages: Pages, v: View, tidy: bool, i: nat, j: nat)
    requires Steady(f, pages, v, tidy) && i <= |v.log| && j <= |v.log|
    ensures PosAt(v, i) < PosAt(v, j) <==> i < j
    ensures PosAt(v, i) == PosAt(v, j) <==> i == j
  {
    hide Snapshot, Parses, MarksOk;
    PosBefore(v, i, j);
  }

  lemma UserEntryOf(f: Format, ws: seq<Word>)
    requires f.Supported()
    ensures KindOf(f, ws).User? ==> EntryOf(f, ws).ParsedUser? && EntryOf(f, ws).header.key == KindOf(f, ws).key
    ensures KindOf(f, ws).Padding? ==> EntryOf(f, ws).ParsedPadding?
    ensures KindOf(f, ws).Internal? ==> EntryOf(f, ws) == ParsedInternal(KindOf(f, ws).entry)
    ensures KindOf(f, ws).TornUser? ==> EntryOf(f, ws).ParsedPartialUser?
    ensures KindOf(f, ws).TornEntry? ==> EntryOf(f, ws).ParsedPartial?
  {
    hide ParseWord;
  }

  lemma EndIsNext(f: Format, v: View, k: nat)
    requires Formed(f, v) && k < |v.log|
    ensures PosAt(v, k) == v.log[k].pos && PosAt(v, k + 1) == v.log[k].pos + |v.log[k].ws|
  {
    PosBefore(v, k, k + 1);
  }

  /** The tail is where parsing finds no entry. */
  lemma SteadyEnd(f: Format, pages: Pages, v: View, tidy: bool, k: nat)
    requires Steady(f, pages, v, tidy) && k <= |v.log|
    ensures Shape(f, pages)
    ensures ParseEntry(f, pages, PosAt(v, k)).Ok? && ParseEntry(f, pages, PosAt(v, k)).value.0.ParsedTail? ==>
              k == |v.log|
  {
    hide Steady, ParseEntry, EntryOf, KindOf;
    SteadyFormed(f, pages, v, tidy);
    SteadyParse(f, pages, v, tidy, k);
  }
}
