/**
 How the flash wears out. Between two erasures of its page, a word of content is written at most twice,
 once as part of an entry and once to delete or to wipe it, and an init or compact info at most once.
 A page is erased once for each of its cycles.
 */
module Endurance {
  import opened Words
  import opened Format
  import opened Entries
  import opened Flash
  import opened Log
  import opened States
  import opened Storage
  import opened Appending

  /** How often a word that is not the first of padding may have been written, from what it holds. */
  function Level(word: Word): nat {
    if word == ERASED_WORD then 0 else if word == ZERO_WORD then 2 else 1
  }

  /** How often a word of the window was written since its page was erased. */
  function WearAt(f: Format, wear: Wear, q: nat): nat
    requires WearShape(f, wear)
  {
    wear.writes[PageOf(f, q)][WordIndex(f, q)]
  }

  /** How often an init info (`index == 0`) or a compact info (`index == 1`) was written. */
  function InfoWear(f: Format, wear: Wear, page: nat, index: nat): nat
    requires WearShape(f, wear) && index < 2
  {
    wear.writes[PageIndex(f, page)][index]
  }

  /** How often the physical page of a virtual page was erased. */
  function Erasures(f: Format, wear: Wear, page: nat): nat
    requires WearShape(f, wear)
  {
    wear.erases[PageIndex(f, page)]
  }

  /** Padding starts at a position. */
  ghost predicate Padded(f: Format, v: View, q: nat)
    requires f.Supported()
  {
    exists k: nat :: k < |v.log| && v.log[k].pos == q && Kinds(f, v, k).Padding?
  }

  /** How often a word may have been written. */
  ghost function Bound(f: Format, v: View, word: Word, q: nat): nat
    requires f.Supported()
  {
    if word != ERASED_WORD && Padded(f, v, q) then 2 else Level(word)
  }

  /** The counters of the words of a window. */
  ghost predicate WornWords(f: Format, s: Window, wear: Wear, v: View)
    requires WearShape(f, wear)
  {
    forall q: nat :: s.base <= q < s.base + |s.mem| ==> WearAt(f, wear, q) <= Bound(f, v, At(s, q), q)
  }

  /** The counters of the infos of a window. */
  ghost predicate WornInfos(f: Format, s: Window, wear: Wear, w: nat)
    requires WearShape(f, wear)
  {
    && |s.inits| == |s.compacts| == f.numPages
    && forall i: nat :: i < f.numPages ==>
         && InfoWear(f, wear, w + i, 0) == (if s.inits[i] == ERASED_WORD then 0 else 1)
         && InfoWear(f, wear, w + i, 1) == (if s.compacts[i] == ERASED_WORD then 0 else 1)
  }

  /** The pages of a window were erased once for each of their cycles. */
  ghost predicate Cycled(f: Format, wear: Wear, w: nat)
    requires WearShape(f, wear)
  {
    forall p: nat :: w <= p < w + f.numPages ==> Erasures(f, wear, p) == CycleIndex(f, p)
  }

  /** The counters of the pages of a window. */
  ghost predicate WornIn(f: Format, pages: Pages, wear: Wear, w: nat, v: View) {
    && Shape(f, pages) && WearShape(f, wear) && Cycled(f, wear, w)
    && WornWords(f, Snapshot(f, pages, w), wear, v)
    && WornInfos(f, Snapshot(f, pages, w), wear, w)
  }

  /** The init infos of the pages in use are complete or missing. */
  ghost predicate Intact(f: Format, s: Window, v: View, off: nat)
    requires f.Supported()
  {
    forall i: nat :: i < |v.marks| && PageInit(s, off, i) != ERASED_WORD ==> PageInit(s, off, i) == InitWord(f, v, i)
  }

  /** The entry that an init info points to is the first one that starts in its page. */
  ghost predicate Exact(f: Format, v: View)
    requires f.Supported()
  {
    forall i: nat, k: nat :: i < |v.marks| && k < v.marks[i] && k < |v.log| ==> v.log[k].pos < Start(f, v, i)
  }

  /** The counters of a store that was never interrupted. */
  ghost predicate Worn(f: Format, pages: Pages, wear: Wear, v: View) {
    && WornIn(f, pages, wear, v.first, v)
    && Intact(f, Snapshot(f, pages, v.first), v, 0) && Exact(f, v)
    && v.first <= f.maxPageErases * f.numPages
  }

  // ---------------------------------------------------------------------------------------------
  // Changes

  /** Every word of a window that changed was written once more. */
  ghost predicate Aged(f: Format, pages: Pages, pages': Pages, wear: Wear, wear': Wear, w: nat) {
    && Shape(f, pages) && Shape(f, pages') && WearShape(f, wear) && WearShape(f, wear')
    && wear'.erases == wear.erases
    && var s, s' := Snapshot(f, pages, w), Snapshot(f, pages', w);
       && s'.base == s.base && |s'.mem| == |s.mem|
       && |s.inits| == |s.compacts| == |s'.inits| == |s'.compacts| == f.numPages
       && (forall q: nat :: s.base <= q < s.base + |s.mem| ==>
             WearAt(f, wear', q) == WearAt(f, wear, q) + if At(s', q) == At(s, q) then 0 else 1)
       && (forall i: nat :: i < f.numPages ==>
             && InfoWear(f, wear', w + i, 0) == InfoWear(f, wear, w + i, 0) + (if s'.inits[i] == s.inits[i] then 0
                 else 1)
             && InfoWear(f, wear', w + i, 1) == InfoWear(f, wear, w + i,
                                                         1) + (if s'.compacts[i] == s.compacts[i] then 0 else 1))
  }

  lemma CountedAged(f: Format, pages: Pages, pages': Pages, wear: Wear, wear': Wear, w: nat)
    requires Shape(f, pages) && Shape(f, pages') && WearShape(f, wear) && WearShape(f, wear')
    requires Counted(f, pages, pages', wear, wear')
    ensures Aged(f, pages, pages', wear, wear', w)
  {
    hide Snapshot, PageOf, WordIndex, PageIndex, Format.Q, Format.Supported, WindowSize;
    SnapshotReads(f, pages, w);
    SnapshotReads(f, pages', w);
  }

  lemma SameAged(f: Format, pages: Pages, wear: Wear, w: nat)
    requires Shape(f, pages) && WearShape(f, wear)
    ensures Aged(f, pages, pages, wear, wear, w)
  {
    hide Snapshot, PageOf, WordIndex, PageIndex, Format.Q, Format.Supported, WindowSize, WearAt, InfoWear;
    SnapshotReads(f, pages, w);
  }

  /** Two changes of different words. */
  lemma AgedThen(f: Format, pages: Pages, pages1: Pages, pages2: Pages, wear: Wear, wear1: Wear, wear2: Wear, w: nat,
                 pos: nat, n: nat, m: nat)
    requires Aged(f, pages, pages1, wear, wear1, w) && Aged(f, pages1, pages2, wear1, wear2, w)
    requires SameExcept(Snapshot(f, pages, w), Snapshot(f, pages1, w), pos, n)
    requires SameExcept(Snapshot(f, pages1, w), Snapshot(f, pages2, w), pos + n, m)
    ensures Aged(f, pages, pages2, wear, wear2, w)
  {
    hide Snapshot, PageOf, WordIndex, PageIndex, Format.Q, Format.Supported, WindowSize, WearAt, InfoWear;
    var s, s1, s2 := Snapshot(f, pages, w), Snapshot(f, pages1, w), Snapshot(f, pages2, w);
    forall q: nat | s.base <= q < s.base + |s.mem| ensures At(s1, q) == At(s, q) || At(s2, q) == At(s1, q) {
    }
  }

  /** What may happen to a word: it is written first, it is wiped, or the first word of an entry is padded out. */
  ghost predicate StepAt(f: Format, v: View, v': View, q: nat, word: Word, word': Word)
    requires f.Supported()
  {
    || word' == word
    || word == ERASED_WORD
    || (word' == ZERO_WORD && !Padded(f, v, q))
    || (Padded(f, v', q) && !Padded(f, v, q) && word != ZERO_WORD && word' != ERASED_WORD)
  }

  lemma StepBound(f: Format, v: View, v': View, q: nat, word: Word, word': Word, n: nat)
    requires f.Supported() && StepAt(f, v, v', q, word, word') && n <= Bound(f, v, word, q)
    requires Padded(f, v, q) ==> Padded(f, v', q)
    ensures n + (if word' == word then 0 else 1) <= Bound(f, v', word', q)
  {
    hide Padded;
  }

  lemma WornStep(f: Format, pages: Pages, pages': Pages, wear: Wear, wear': Wear, w: nat, v: View, v': View)
    requires WornIn(f, pages, wear, w, v) && Aged(f, pages, pages', wear, wear', w)
    requires var s, s' := Snapshot(f, pages, w), Snapshot(f, pages', w);
             && (forall q: nat :: s.base <= q < s.base + |s.mem| ==>
                   StepAt(f, v, v', q, At(s, q), At(s', q)) && (Padded(f, v, q) ==> Padded(f, v', q)))
             && (forall i: nat :: i < f.numPages ==> s'.inits[i] == s.inits[i] || s.inits[i] == ERASED_WORD)
             && (forall i: nat :: i < f.numPages ==> s'.compacts[i] == s.compacts[i] || s.compacts[i] == ERASED_WORD)
    ensures WornIn(f, pages', wear', w, v')
  {
    hide Snapshot, PageOf, WordIndex, PageIndex, CycleIndex, Format.Q, Format.Supported, WindowSize, WearAt, InfoWear,
         Bound, Padded, StepAt;
    var s, s' := Snapshot(f, pages, w), Snapshot(f, pages', w);
    forall q: nat | s'.base <= q < s'.base + |s'.mem| ensures WearAt(f, wear', q) <= Bound(f, v', At(s', q), q) {
      StepBound(f, v, v', q, At(s, q), At(s', q), WearAt(f, wear, q));
    }
    assert WornWords(f, s', wear', v');
    assert WornInfos(f, s', wear', w);
    assert Cycled(f, wear', w) by {
      forall p: nat | w <= p < w + f.numPages ensures Erasures(f, wear', p) == CycleIndex(f, p) {
        assert Erasures(f, wear', p) == Erasures(f, wear, p);
      }
    }
  }

  /** Writing erased words at the end of the log. */
  lemma WornAppend(f: Format, pages: Pages, pages': Pages, wear: Wear, wear': Wear, w: nat, v: View, v': View,
                   pos: nat, ws: seq<Word>)
    requires WornIn(f, pages, wear, w, v) && Aged(f, pages, pages', wear, wear', w)
    requires var s := Snapshot(f, pages, w); ErasedBetween(s, pos, pos + |ws|)
    requires Written(Snapshot(f, pages, w), Snapshot(f, pages', w), pos, ws)
    requires |v.log| <= |v'.log| && forall k: nat :: k < |v.log| ==> v'.log[k] == v.log[k]
    ensures WornIn(f, pages', wear', w, v')
  {
    hide Snapshot, PageOf, WordIndex, PageIndex, CycleIndex, Format.Q, WindowSize, WearAt, InfoWear, KindOf, WornIn,
         Aged, Padded;
    AgedSizes(f, pages, pages', wear, wear', w);
    PaddedMore(f, v, v');
    WornStep(f, pages, pages', wear, wear', w, v, v');
  }

  lemma WornSizes(f: Format, pages: Pages, wear: Wear, w: nat, v: View)
    requires WornIn(f, pages, wear, w, v)
    ensures Shape(f, pages) && WearShape(f, wear)
    ensures |Snapshot(f, pages, w).inits| == |Snapshot(f, pages, w).compacts| == f.numPages
  {
    hide Snapshot, Bound, WearAt, InfoWear, CycleIndex, PageIndex;
  }

  lemma AgedSizes(f: Format, pages: Pages, pages': Pages, wear: Wear, wear': Wear, w: nat)
    requires Aged(f, pages, pages', wear, wear', w)
    ensures f.Supported() && Shape(f, pages) && Shape(f, pages') && WearShape(f, wear) && WearShape(f, wear')
    ensures var s, s' := Snapshot(f, pages, w), Snapshot(f, pages', w);
            && s'.base == s.base && |s'.mem| == |s.mem|
            && |s.inits| == |s.compacts| == |s'.inits| == |s'.compacts| == f.numPages
  {
    hide Snapshot, Format.Supported, PageIndex, WearAt, InfoWear;
  }

  lemma PaddedMore(f: Format, v: View, v': View)
    requires f.Supported() && |v.log| <= |v'.log| && forall k: nat :: k < |v.log| ==> v'.log[k] == v.log[k]
    ensures forall q: nat :: Padded(f, v, q) ==> Padded(f, v', q)
  {
    hide KindOf;
    forall q: nat | Padded(f, v, q) ensures Padded(f, v', q) {
      var k: nat :| k < |v.log| && v.log[k].pos == q && Kinds(f, v, k).Padding?;
      assert v'.log[k].pos == q && Kinds(f, v', k).Padding?;
    }
  }

  /** No padding starts inside an entry, or where no entry starts. */
  lemma NotPaddedInside(f: Format, v: View, k: nat, q: nat)
    requires f.Supported() && Contiguous(v) && k < |v.log| && v.log[k].pos < q < End(v.log[k])
    ensures !Padded(f, v, q)
  {
    hide KindOf;
    forall j: nat | j < |v.log| ensures v.log[j].pos != q {
      PosBefore(v, j, k);
      PosBefore(v, k, j);
    }
  }

  lemma NotPaddedAt(f: Format, v: View, k: nat)
    requires f.Supported() && Contiguous(v) && k < |v.log| && !Kinds(f, v, k).Padding?
    ensures !Padded(f, v, v.log[k].pos)
  {
    hide KindOf;
    forall j: nat | j < |v.log| && j != k ensures v.log[j].pos != v.log[k].pos {
      PosBefore(v, j, k);
      PosBefore(v, k, j);
    }
  }

  lemma NotPaddedBefore(f: Format, v: View, q: nat)
    requires f.Supported() && Contiguous(v) && q < PosAt(v, 0)
    ensures !Padded(f, v, q)
  {
    hide KindOf;
    forall j: nat | j < |v.log| ensures v.log[j].pos != q {
      PosBefore(v, 0, j);
    }
  }

  /** Replacing the words of an entry leaves the other entries where they are. */
  lemma SetItemExact(f: Format, v: View, k: nat, ws: seq<Word>)
    requires f.Supported() && k < |v.log|
    ensures Exact(f, SetItem(v, k, ws)) == Exact(f, v)
    ensures KindOf(f, ws).Padding? || !Kinds(f, v, k).Padding? ==>
              forall q: nat :: Padded(f, v, q) ==> Padded(f, SetItem(v, k, ws), q)
    ensures KindOf(f, ws).Padding? ==> Padded(f, SetItem(v, k, ws), v.log[k].pos)
  {
    hide KindOf;
    var v' := SetItem(v, k, ws);
    StartSame(f, v, v');
    forall j: nat | j < |v.log| ensures v'.log[j].pos == v.log[j].pos
      && (j != k ==> Kinds(f, v', j) == Kinds(f, v, j)) {
    }
    assert Kinds(f, v', k) == KindOf(f, ws);
    forall q: nat | Padded(f, v, q) && (KindOf(f, ws).Padding? || !Kinds(f, v, k).Padding?) ensures Padded(f, v', q) {
      var j: nat :| j < |v.log| && v.log[j].pos == q && Kinds(f, v, j).Padding?;
      assert v'.log[j].pos == q && Kinds(f, v', j).Padding?;
    }
  }

  lemma SetItemIntact(f: Format, s: Window, v: View, k: nat, ws: seq<Word>, off: nat)
    requires f.Supported() && k < |v.log|
    ensures Intact(f, s, SetItem(v, k, ws), off) == Intact(f, s, v, off)
  {
    var v' := SetItem(v, k, ws);
    forall i: nat ensures InitWord(f, v', i) == InitWord(f, v, i) {
      SetItemHeads(v, k, ws, i);
      StartSame(f, v, v');
    }
  }

  lemma SetItemHeads(v: View, k: nat, ws: seq<Word>, i: nat)
    requires k < |v.log|
    ensures HeadAt(SetItem(v, k, ws), i) == HeadAt(v, i)
  {
  }

  lemma IntactSame(f: Format, s: Window, s': Window, v: View, off: nat)
    requires f.Supported() && s'.inits == s.inits
    ensures Intact(f, s', v, off) == Intact(f, s, v, off)
  {
    hide InitWord;
    assert forall i: nat :: PageInit(s', off, i) == PageInit(s, off, i);
  }

  /** Padding out the first word of an entry that is not padding yet. */
  lemma WornPad(f: Format, pages: Pages, pages': Pages, wear: Wear, wear': Wear, v: View, k: nat, word: Word)
    requires Worn(f, pages, wear, v) && Aged(f, pages, pages', wear, wear', v.first) && Formed(f, v)
    requires k < |v.log| && v.log[k].ws != [] && !Kinds(f, v, k).Padding? && word != ERASED_WORD
    requires KindOf(f, v.log[k].ws[0 := word]).Padding?
    requires Holds(Snapshot(f, pages, v.first), v.log[k].pos, v.log[k].ws)
    requires Written(Snapshot(f, pages, v.first), Snapshot(f, pages', v.first), v.log[k].pos, [word])
    ensures Worn(f, pages', wear', SetItem(v, k, v.log[k].ws[0 := word]))
  {
    hide Snapshot, PageOf, WordIndex, PageIndex, CycleIndex, Format.Q, WindowSize, WearAt, InfoWear, KindOf, WornIn,
         Aged, SetItem, Intact, Exact, Contiguous, MarksOk, Parses, Padded;
    AgedSizes(f, pages, pages', wear, wear', v.first);
    var ws := v.log[k].ws[0 := word];
    var v' := SetItem(v, k, ws);
    var s, s' := Snapshot(f, pages, v.first), Snapshot(f, pages', v.first);
    SetFirst(v, k, ws);
    SetItemExact(f, v, k, ws);
    SetItemIntact(f, s, v, k, ws, 0);
    IntactSame(f, s, s', v', 0);
    NotPaddedAt(f, v, k);
    NotZero(f, v.log[k].ws);
    EntrySize(f, v, k);
    forall q: nat | s.base <= q < s.base + |s.mem| ensures StepAt(f, v, v', q, At(s, q), At(s', q)) {
      if q == v.log[k].pos {
        assert At(s, q) == v.log[k].ws[0] && At(s', q) == word;
      }
    }
    WornStep(f, pages, pages', wear, wear', v.first, v, v');
  }

  /** Clearing a bit of the first word of an entry that is not padding yet makes it padding. */
  lemma WornClear(f: Format, pages: Pages, pages': Pages, wear: Wear, wear': Wear, v: View, k: nat, bit: nat)
    requires Worn(f, pages, wear, v) && Aged(f, pages, pages', wear, wear', v.first) && Formed(f, v)
    requires k < |v.log| && v.log[k].ws != [] && !Kinds(f, v, k).Padding? && bit < 32
    requires KindOf(f, FirstCleared(v.log[k].ws, bit)).Padding?
    requires Holds(Snapshot(f, pages, v.first), v.log[k].pos, v.log[k].ws)
    requires Written(Snapshot(f, pages, v.first), Snapshot(f, pages', v.first), v.log[k].pos,
                     [ClearBit(At(Snapshot(f, pages, v.first), v.log[k].pos), bit)])
    ensures Worn(f, pages', wear', SetItem(v, k, FirstCleared(v.log[k].ws, bit)))
  {
    hide Snapshot, KindOf, Aged, Worn, Formed, SetItem, Written;
    AgedSizes(f, pages, pages', wear, wear', v.first);
    assert At(Snapshot(f, pages, v.first), v.log[k].pos) == v.log[k].ws[0];
    assert ClearBit(v.log[k].ws[0], bit)[bit] != ERASED_WORD[bit];
    WornPad(f, pages, pages', wear, wear', v, k, ClearBit(v.log[k].ws[0], bit));
  }

  /** There are fewer pages in use than pages. */
  lemma StandingMarks(f: Format, pages: Pages, v: View, tidy: bool)
    requires Steady(f, pages, v, tidy)
    ensures f.Supported() && |v.marks| < f.numPages
  {
    hide Snapshot, Formed, Matches, Initialized, CompactsErased, Alive, Start;
    MarksBelow(f, v);
  }

  lemma SetFirst(v: View, k: nat, ws: seq<Word>)
    requires k < |v.log|
    ensures SetItem(v, k, ws).first == v.first
  {
  }

  /** An entry that starts with a zero word is padding. */
  lemma NotZero(f: Format, ws: seq<Word>)
    requires f.Supported() && ws != [] && !KindOf(f, ws).Padding?
    ensures ws[0] == ZERO_WORD ==> KindOf(f, ws).Bad?
  {
  }

  /** Wiping the words of padding after the first. */
  lemma WornWipe(f: Format, pages: Pages, pages': Pages, wear: Wear, wear': Wear, v: View, k: nat, ws: seq<Word>)
    requires Worn(f, pages, wear, v) && Aged(f, pages, pages', wear, wear', v.first) && Formed(f, v)
    requires k < |v.log| && v.log[k].ws != [] && KindOf(f, ws) == Kinds(f, v, k)
    requires Written(Snapshot(f, pages, v.first), Snapshot(f, pages', v.first), v.log[k].pos + 1,
                     ZeroWords(|v.log[k].ws| - 1))
    ensures Worn(f, pages', wear', SetItem(v, k, ws))
  {
    hide Snapshot, PageOf, WordIndex, PageIndex, CycleIndex, Format.Q, WindowSize, WearAt, InfoWear, KindOf, WornIn,
         Aged, SetItem, Intact, Exact, Contiguous, MarksOk, Parses, Padded;
    AgedSizes(f, pages, pages', wear, wear', v.first);
    var v' := SetItem(v, k, ws);
    var s, s' := Snapshot(f, pages, v.first), Snapshot(f, pages', v.first);
    SetFirst(v, k, ws);
    SetItemExact(f, v, k, ws);
    SetItemIntact(f, s, v, k, ws, 0);
    IntactSame(f, s, s', v', 0);
    forall q: nat | s.base <= q < s.base + |s.mem| ensures StepAt(f, v, v', q, At(s, q), At(s', q)) {
      if v.log[k].pos < q < End(v.log[k]) {
        NotPaddedInside(f, v, k, q);
        assert At(s', q) == ZERO_WORD;
      }
    }
    WornStep(f, pages, pages', wear, wear', v.first, v, v');
  }

  /** Writing an entry at the tail. */
  lemma WornNext(f: Format, pages: Pages, pages': Pages, wear: Wear, wear': Wear, v: View, ws: seq<Word>, pos: nat,
                 part: seq<Word>)
    requires Worn(f, pages, wear, v) && Aged(f, pages, pages', wear, wear', v.first) && Framed(f, v) && ws != []
    requires var s := Snapshot(f, pages, v.first);
             ErasedBetween(s, pos, pos + |part|) && HoldsInits(f, s, v, 0, f.numPages, true)
    requires Written(Snapshot(f, pages, v.first), Snapshot(f, pages', v.first), pos, part)
    requires |Append(f, v, ws).marks| <= f.numPages
    ensures Worn(f, pages', wear', Append(f, v, ws))
  {
    hide Snapshot, PageOf, WordIndex, PageIndex, CycleIndex, Format.Q, WindowSize, WearAt, InfoWear, KindOf, WornIn,
         Aged, Exact, Contiguous, MarksOk, Parses, Append, InitWord, Intact;
    AgedSizes(f, pages, pages', wear, wear', v.first);
    var s, s', v' := Snapshot(f, pages, v.first), Snapshot(f, pages', v.first), Append(f, v, ws);
    AppendShape(f, v, ws);
    WornAppend(f, pages, pages', wear, wear', v.first, v, v', pos, part);
    AppendExact(f, v, ws);
    AppendIntact(f, s, v, ws, 0, f.numPages);
    IntactSame(f, s, s', v', 0);
  }

  /** Writing an entry at the tail of a steady log. */
  lemma WornSteadyNext(f: Format, pages: Pages, pages': Pages, wear: Wear, wear': Wear, v: View, ws: seq<Word>)
    requires Steady(f, pages, v, true) && v.tail + |ws| <= Start(f, v, f.numPages - 1) && ws != []
    requires Worn(f, pages, wear, v) && Aged(f, pages, pages', wear, wear', v.first)
    requires Written(Snapshot(f, pages, v.first), Snapshot(f, pages', v.first), v.tail, ws)
    ensures Worn(f, pages', wear', Append(f, v, ws))
  {
    hide Snapshot, Format.Q, WindowSize, KindOf, Worn, Aged, Contiguous, MarksOk, Parses, Append, InitWord, Alive,
         Start;
    TailWritable(f, pages, v, true, ws);
    StandingMarks(f, pages, v, true);
    AppendShape(f, v, ws);
    WornNext(f, pages, pages', wear, wear', v, ws, v.tail, ws);
  }

  lemma AppendShape(f: Format, v: View, ws: seq<Word>)
    requires f.Supported()
    ensures var v' := Append(f, v, ws);
            && v'.first == v.first && |v'.log| == |v.log| + 1
              && (forall k: nat :: k < |v.log| ==> v'.log[k] == v.log[k])
            && |v.marks| <= |v'.marks| <= |v.marks| + 1
  {
    hide KindOf, Start;
  }

  lemma AppendExact(f: Format, v: View, ws: seq<Word>)
    requires Framed(f, v) && Exact(f, v)
    ensures Exact(f, Append(f, v, ws))
  {
    hide KindOf, Start, Parses;
    var v' := Append(f, v, ws);
    StartSame(f, v, v');
    forall i: nat, k: nat | i < |v'.marks| && k < v'.marks[i] && k < |v'.log| ensures v'.log[k].pos < Start(f, v', i) {
      if i < |v.marks| {
        if k == |v.log| { MarkInLog(f, v, i); }
      } else if k < |v.log| {
        assert End(v.log[k]) <= v.tail && v.log[k].ws != [];
      }
    }
  }

  lemma MarkInLog(f: Format, v: View, i: nat)
    requires f.Supported() && MarksOk(f, v) && i < |v.marks|
    ensures v.marks[i] <= |v.log|
  {
    hide KindOf, Start;
    assert MarkOk(f, v, i);
  }

  lemma AppendIntact(f: Format, s: Window, v: View, ws: seq<Word>, off: nat, n: nat)
    requires Framed(f, v) && ws != [] && HoldsInits(f, s, v, off, n, true) && |Append(f, v, ws).marks| <= n
    ensures Intact(f, s, Append(f, v, ws), off)
  {
    hide KindOf, Parses, Contiguous, MarksOk, InitWord, Append;
    AppendHeads(f, v, ws);
    AppendShape(f, v, ws);
  }

  /** Writing the init info of the last page in use. */
  lemma WornInit(f: Format, pages: Pages, pages': Pages, wear: Wear, wear': Wear, w: nat, v: View, off: nat, pads: View)
    requires WornIn(f, pages, wear, w, pads) && Aged(f, pages, pages', wear, wear', w) && f.Supported()
    requires Intact(f, Snapshot(f, pages, w), v, off) && v.marks != [] && off + |v.marks| <= f.numPages
    requires Snapshot(f, pages', w) == WithInit(Snapshot(f, pages, w), off + |v.marks| - 1,
                                                InitWord(f, v, |v.marks| - 1))
    ensures WornIn(f, pages', wear', w, pads) && Intact(f, Snapshot(f, pages', w), v, off)
  {
    hide Snapshot, PageOf, WordIndex, PageIndex, CycleIndex, Format.Q, WindowSize, WearAt, InfoWear, KindOf, WornIn,
         Aged, InitWord, Padded;
    AgedSizes(f, pages, pages', wear, wear', w);
    var s, s' := Snapshot(f, pages, w), Snapshot(f, pages', w);
    assert forall q: nat :: s.base <= q < s.base + |s.mem| ==> At(s', q) == At(s, q);
    var j := off + |v.marks| - 1;
    assert PageInit(s, off, |v.marks| - 1) == s.inits[j];
    forall i: nat | i < |v.marks| - 1 ensures PageInit(s', off, i) == PageInit(s, off, i) {
    }
    assert forall i: nat :: i < f.numPages ==> s'.inits[i] == s.inits[i] || s.inits[i] == ERASED_WORD;
    WornStep(f, pages, pages', wear, wear', w, pads, pads);
  }

  lemma LessLeanWorn(f: Format, pages: Pages, wear: Wear, v: View)
    ensures Worn(f, pages, wear, v) ==> Worn(f, pages, wear, v.(lean := false))
  {
    hide KindOf, Snapshot, WearAt, WornInfos, Cycled, Level;
    var v' := v.(lean := false);
    if Worn(f, pages, wear, v) {
      assert forall k: nat :: k < |v.log| ==> Kinds(f, v', k) == Kinds(f, v, k);
      assert forall i: nat :: Start(f, v', i) == Start(f, v, i);
      assert forall i: nat :: HeadAt(v', i) == HeadAt(v, i);
      forall q: nat ensures Padded(f, v', q) == Padded(f, v, q) {
        LessLeanPadded(f, v, q);
      }
      forall i: nat ensures InitWord(f, v', i) == InitWord(f, v, i) {
      }
    }
  }

  lemma LessLeanPadded(f: Format, v: View, q: nat)
    requires f.Supported()
    ensures Padded(f, v.(lean := false), q) == Padded(f, v, q)
  {
    hide KindOf;
    var v' := v.(lean := false);
    assert forall k: nat :: k < |v.log| ==> Kinds(f, v', k) == Kinds(f, v, k);
  }
}
