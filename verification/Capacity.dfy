/**
 The capacity of the store: what a scan of the log sees of it, and how many compactions it takes to
 have a given capacity immediately available.
 */
module Capacity {
  import opened Wrappers
  import opened Words
  import opened Format
  import opened Bytes
  import opened Entries
  import opened Flash
  import opened Log
  import opened Parsing
  import opened States
  import opened Appending
  import opened Contents
  import opened Stages
  import opened Storage
  import opened Recovering
  import opened Compaction
  import opened Migration
  import opened Phases

  /** How much of a metric is used, and how much can be used at most. */
  datatype StoreRatio = StoreRatio(used: nat, total: nat) {
    /** How much is remaining, in words of 32 bits: more than the total may be used. */
    function Remaining(): nat {
      (total - used) % 0x1_0000_0000
    }
  }

  /** All user entries start within the virtual capacity, so that a scan sees them. */
  ghost predicate Scannable(f: Format, v: View)
    requires f.Supported()
  {
    forall k: nat :: k < |v.log| && Kinds(f, v, k).User? ==> v.log[k].pos < HeadAt(v, 0) + f.V()
  }

  lemma TightScannable(f: Format, v: View)
    requires Formed(f, v) && Tight(f, v)
    ensures Scannable(f, v)
  {
    hide KindOf, MarksOk, Parses, Format.V;
    forall k: nat | k < |v.log| ensures v.log[k].pos < v.tail {
      assert End(v.log[k]) <= v.tail;
    }
  }

  /** The words of the user entries that start before a position. */
  function UsedUntil(f: Format, log: seq<Item>, end: nat): nat
    requires f.Supported()
  {
    if log == [] then 0
    else
      var n := |log| - 1;
      UsedUntil(f, log[..n], end) + if log[n].pos < end then UsedBy(f, log[n]) else 0
  }

  /** The words of the user entries that a scan sees. */
  function Seen(f: Format, v: View): nat
    requires f.Supported()
  {
    UsedUntil(f, v.log, HeadAt(v, 0) + f.V())
  }

  /** The remaining capacity as a scan sees it. */
  function Spare(f: Format, v: View): nat
    requires f.Supported()
  {
    StoreRatio(Seen(f, v), f.C()).Remaining()
  }

  lemma {:induction false} UsedUntilConcat(f: Format, a: seq<Item>, b: seq<Item>, end: nat)
    requires f.Supported() && (forall k: nat :: k < |a| ==> a[k].pos < end)
             && (forall k: nat :: k < |b| ==> b[k].pos >= end)
    ensures UsedUntil(f, a + b, end) == Used(f, a)
  {
    hide KindOf, UsedBy;
    if b != [] {
      UsedUntilConcat(f, a, b[..|b| - 1], end);
      assert (a + b)[..|a + b| - 1] == a + b[..|b| - 1];
    } else if a != [] {
      var n := |a| - 1;
      UsedUntilConcat(f, a[..n], [], end);
      assert a[..n] + [] == a[..n] && a + b == a;
    }
  }

  /** A scan sees no more words than are used, and all of them exactly when it sees all user entries. */
  lemma SeenUsed(f: Format, v: View)
    requires Formed(f, v)
    ensures Seen(f, v) <= Used(f, v.log)
    ensures Seen(f, v) == Used(f, v.log) <==> Scannable(f, v)
  {
    hide KindOf, MarksOk, Parses, Format.V, Used, HeadAt, UsedUntil;
    var n := FirstFrom(v, HeadAt(v, 0) + f.V());
    ScanCounts(f, v, n);
  }

  /** The index of the first entry that does not start before a position. */
  ghost function FirstFrom(v: View, end: nat): (n: nat)
    requires Contiguous(v)
    ensures n <= |v.log| && (n == |v.log| || PosAt(v, n) >= end)
    ensures forall k: nat :: k < n ==> v.log[k].pos < end
  {
    FirstFromBelow(v, end, |v.log|)
  }

  ghost function FirstFromBelow(v: View, end: nat, n: nat): (k: nat)
    requires Contiguous(v) && n <= |v.log| && (n == |v.log| || PosAt(v, n) >= end)
    ensures k <= n && (k == |v.log| || PosAt(v, k) >= end)
    ensures forall j: nat :: j < k ==> v.log[j].pos < end
  {
    if n > 0 && v.log[n - 1].pos >= end then FirstFromBelow(v, end, n - 1)
    else n
  }

  /** Within the capacity, what is remaining is what is not used. */
  lemma SpareIs(f: Format, v: View)
    requires Formed(f, v) && Scannable(f, v) && Used(f, v.log) <= f.C()
    ensures Spare(f, v) == f.C() - Used(f, v.log)
  {
    hide KindOf, MarksOk, Contiguous, Parses, Format.V, Format.C, Used, Seen, Scannable;
    SeenUsed(f, v);
    VirtSizes(f);
    SizeLimits(f);
  }

  /** What a scan sees is what an operation takes to be remaining, at least. */
  lemma SpareAtLeast(f: Format, v: View)
    requires Formed(f, v) && Used(f, v.log) <= f.C()
    ensures f.C() - Used(f, v.log) <= Spare(f, v) == f.C() - Seen(f, v) <= f.C()
  {
    hide KindOf, MarksOk, Contiguous, Parses, Format.V, Format.C, Used, Seen, Scannable;
    SeenUsed(f, v);
    VirtSizes(f);
    SizeLimits(f);
  }

  /** A scan that stops at an entry counts all used words exactly when no user entry comes after. */
  lemma ScanCounts(f: Format, v: View, n: nat)
    requires Formed(f, v) && n <= |v.log|
    requires n == |v.log| || PosAt(v, n) >= HeadAt(v, 0) + f.V()
    requires forall k: nat :: k < n ==> v.log[k].pos < HeadAt(v, 0) + f.V()
    ensures Used(f, v.log[..n]) == Seen(f, v) <= Used(f, v.log)
    ensures Used(f, v.log[..n]) == Used(f, v.log) <==> Scannable(f, v)
  {
    hide KindOf, MarksOk, Parses, Format.V, Used, UsedUntil, HeadAt;
    UsedPrefix(f, v.log, n);
    ScanSees(f, v, n);
    var rest := v.log[n..];
    forall k: nat | n <= k < |v.log| ensures v.log[k].pos >= HeadAt(v, 0) + f.V() && rest[k - n] == v.log[k] {
      PosBefore(v, n, k);
    }
    if Scannable(f, v) {
      forall i: nat | i < |rest| ensures !KindOf(f, rest[i].ws).User? {
        assert v.log[i + n] == rest[i] && Kinds(f, v, i + n) == KindOf(f, rest[i].ws);
      }
      UsedNone(f, rest);
    } else {
      var k: nat :| k < |v.log| && Kinds(f, v, k).User? && v.log[k].pos >= HeadAt(v, 0) + f.V();
      assert rest[k - n] == v.log[k];
      UsedSome(f, rest, k - n);
    }
  }

  lemma ScanSees(f: Format, v: View, n: nat)
    requires Formed(f, v) && n <= |v.log|
    requires n == |v.log| || PosAt(v, n) >= HeadAt(v, 0) + f.V()
    requires forall k: nat :: k < n ==> v.log[k].pos < HeadAt(v, 0) + f.V()
    ensures Used(f, v.log[..n]) == Seen(f, v)
  {
    hide KindOf, MarksOk, Parses, Format.V, Used, UsedUntil, HeadAt;
    forall k: nat | n <= k < |v.log| ensures v.log[k].pos >= HeadAt(v, 0) + f.V() {
      PosBefore(v, n, k);
    }
    assert v.log == v.log[..n] + v.log[n..];
    UsedUntilConcat(f, v.log[..n], v.log[n..], HeadAt(v, 0) + f.V());
  }

  lemma {:induction false} UsedSome(f: Format, log: seq<Item>, k: nat)
    requires f.Supported() && k < |log| && KindOf(f, log[k].ws).User? && log[k].ws != []
    ensures Used(f, log) > 0
    decreases |log|
  {
    hide KindOf;
    if k < |log| - 1 {
      UsedSome(f, log[..|log| - 1], k);
    }
  }

  // ---------------------------------------------------------------------------------------------
  // Termination of repeated compaction

  /** The words from a position on that are not used. */
  function Waste(f: Format, log: seq<Item>, from: nat): nat
    requires f.Supported()
  {
    if log == [] then 0
    else
      var it := log[|log| - 1];
      Waste(f, log[..|log| - 1], from) + if it.pos >= from && !KindOf(f, it.ws).User? then |it.ws| else 0
  }

  lemma {:induction false} WasteConcat(f: Format, a: seq<Item>, b: seq<Item>, from: nat)
    requires f.Supported()
    ensures Waste(f, a + b, from) == Waste(f, a, from) + Waste(f, b, from)
  {
    hide KindOf;
    if b == [] {
      assert a + b == a;
    } else {
      WasteConcat(f, a, b[..|b| - 1], from);
      assert (a + b)[..|a + b| - 1] == a + b[..|b| - 1];
    }
  }

  /** Nothing is wasted after the tail. */
  lemma {:induction false} NoWaste(f: Format, log: seq<Item>, from: nat)
    requires f.Supported() && forall k: nat :: k < |log| ==> log[k].pos < from
    ensures Waste(f, log, from) == 0
  {
    hide KindOf;
    if log != [] {
      NoWaste(f, log[..|log| - 1], from);
    }
  }

  /** A log is made of used and wasted words. */
  lemma {:induction false} WasteFits(f: Format, v: View, n: nat)
    requires Formed(f, v) && n <= |v.log|
    ensures PosAt(v, n) == PosAt(v, 0) + Used(f, v.log[..n]) + Waste(f, v.log[..n], PosAt(v, 0))
  {
    hide KindOf, MarksOk, Parses;
    if n > 0 {
      WasteFits(f, v, n - 1);
      assert v.log[..n][..n - 1] == v.log[..n - 1];
      PosBefore(v, n - 1, n);
      PosBefore(v, 0, n - 1);
    }
  }

  lemma {:induction false} WasteFrom(f: Format, log: seq<Item>, from: nat, from': nat)
    requires f.Supported() && from <= from'
    ensures Waste(f, log, from') <= Waste(f, log, from)
    ensures (forall k: nat :: k < |log| ==> log[k].pos >= from') ==> Waste(f, log, from') == Waste(f, log, from)
  {
    hide KindOf;
    if log != [] {
      WasteFrom(f, log[..|log| - 1], from, from');
    }
  }

  /** A compaction wastes one word. */
  lemma NextWaste(f: Format, v: View, from: nat)
    requires Formed(f, v)
    ensures Waste(f, Next(f, v).log, from) <= Waste(f, v.log, from) + 1
    ensures Used(f, Next(f, v).log) == Used(f, v.log)
    ensures Next(f, v).first == v.first + 1
  {
    hide KindOf, MarksOk, Contiguous, Parses, Start, EraseWord, Copies, Tower, Append, Dropped, Used;
    var es := Copies(f, v);
    var n := |es| - 1;
    CopiedStep(f, v, n);
    CopyLast(f, v);
    CopiesAppendable(f, v);
    DroppedLog(f, v);
    DroppedPos(f, v);
    TowerWaste(f, Dropped(f, v), es, n, from);
    var t := Copied(f, v, n);
    AppendMarks(f, t, [EraseWord(f, v)]);
    NextLog(f, v);
    assert v.log == v.log[..Gone(v)] + v.log[Gone(v)..];
    WasteConcat(f, v.log[..Gone(v)], v.log[Gone(v)..], from);
    var it := Item(t.tail, [ClearBit(EraseWord(f, v), 0)]);
    WasteConcat(f, t.log, [it], from);
    WasteOne(f, it, from);
    CompactedUsed(f, v);
    PaddedUsed(f, v);
    TowerFirst(f, Dropped(f, v), es, |es|);
  }

  lemma {:induction false} TowerFirst(f: Format, d: View, es: seq<seq<Word>>, c: nat)
    requires f.Supported() && c <= |es|
    ensures Tower(f, d, es, c).first == d.first
  {
    hide Start;
    if c > 0 {
      TowerFirst(f, d, es, c - 1);
      AppendMarks(f, Tower(f, d, es, c - 1), es[c - 1]);
    }
  }

  lemma WasteOne(f: Format, it: Item, from: nat)
    requires f.Supported()
    ensures Waste(f, [it], from) <= |it.ws|
  {
    hide KindOf;
    assert [it][..0] == [];
    assert Waste(f, [it][..0], from) == 0;
  }

  lemma NextLog(f: Format, v: View)
    requires Formed(f, v)
    ensures var t := Copied(f, v, |Copies(f, v)| - 1);
            Next(f, v).log == t.log + [Item(t.tail, [ClearBit(EraseWord(f, v), 0)])]
  {
    hide KindOf, MarksOk, Contiguous, Parses, Start, EraseWord, Copies, Tower, Append, Dropped;
    var n := |Copies(f, v)| - 1;
    CopiedStep(f, v, n);
    CopyLast(f, v);
    AppendMarks(f, Copied(f, v, n), [EraseWord(f, v)]);
  }

  lemma PaddedUsed(f: Format, v: View)
    requires Formed(f, v)
    ensures Used(f, Next(f, v).log) == Used(f, Compacted(f, v).log)
  {
    hide KindOf, MarksOk, Contiguous, Parses, Start, EraseWord, Compacted, Used;
    EraseAt(f, v);
    EraseKind(f, v);
    PaddedKind(f, EraseWord(f, v));
    var x := Compacted(f, v);
    UsedUpdate(f, x.log, |x.log| - 1, Item(x.log[|x.log| - 1].pos, [ClearBit(EraseWord(f, v), 0)]));
  }

  lemma {:induction false} TowerWaste(f: Format, d: View, es: seq<seq<Word>>, c: nat, from: nat)
    requires f.Supported() && c <= |es|
    requires forall i: nat :: i < c ==> KindOf(f, es[i]).User?
    ensures Waste(f, Tower(f, d, es, c).log, from) == Waste(f, d.log, from)
  {
    hide KindOf, Start;
    if c > 0 {
      TowerWaste(f, d, es, c - 1, from);
      var t := Tower(f, d, es, c - 1);
      assert (t.log + [Item(t.tail, es[c - 1])])[..|t.log|] == t.log;
    }
  }

  /**
   Once the head is past the tail that the log had before some compactions, all of the log is used but
   for one word for each compaction, so that more than the remaining capacity is available.
   */
  lemma EnoughCompactions(f: Format, v: View, from: nat, c: nat)
    requires Formed(f, v) && Roomy(f, v) && Waste(f, v.log, from) <= c <= f.numPages - 1
    requires from <= Start(f, v, 0)
    ensures v.tail + (f.C() - Used(f, v.log)) + 1 <= HeadAt(v, 0) + f.V()
  {
    hide KindOf, MarkOk, NoUserBeforeMark, Contiguous, Parses, Start, Used, Waste, Format.V, Format.C, Format.Q;
    MarkBound(f, v, 0);
    HeadIsFirst(f, v);
    WasteFits(f, v, |v.log|);
    assert v.log[..|v.log|] == v.log;
    forall k: nat | k < |v.log| ensures v.log[k].pos >= PosAt(v, 0) {
      PosBefore(v, 0, k);
    }
    WasteFrom(f, v.log, from, PosAt(v, 0));
    VirtSizes(f);
  }

  /** How often a store has been compacted since its tail was at a position. */
  ghost predicate Since(f: Format, v: View, from: nat, first: nat, c: nat)
    requires f.Supported()
  {
    v.first == first + c && Waste(f, v.log, from) <= c && from <= (first + f.numPages - 1) * f.Q()
  }

  lemma SinceStart(f: Format, v: View)
    requires Formed(f, v) && Roomy(f, v)
    ensures Since(f, v, v.tail, v.first, 0)
  {
    hide KindOf, MarksOk, Parses, Used;
    forall k: nat | k < |v.log| ensures v.log[k].pos < v.tail {
      assert v.log[k].ws != [] && End(v.log[k]) <= v.tail;
    }
    NoWaste(f, v.log, v.tail);
  }

  lemma SinceNext(f: Format, v: View, from: nat, first: nat, c: nat)
    requires Formed(f, v) && Since(f, v, from, first, c)
    ensures Since(f, Next(f, v), from, first, c + 1)
    ensures Used(f, Next(f, v).log) == Used(f, v.log)
  {
    hide KindOf, MarksOk, Contiguous, Parses, Start, Used, Waste, Next;
    NextWaste(f, v, from);
  }

  /** After as many compactions as there are other pages, there is enough room. */
  lemma SinceEnough(f: Format, v: View, from: nat, first: nat, c: nat)
    requires Formed(f, v) && Roomy(f, v) && Since(f, v, from, first, c) && c <= f.numPages - 1
    ensures c == f.numPages - 1 ==> v.tail + (f.C() - Used(f, v.log)) + 1 <= HeadAt(v, 0) + f.V()
  {
    hide KindOf, MarksOk, Contiguous, Parses, Used, Waste, Format.V, Format.C, Format.Q, HeadAt;
    if c == f.numPages - 1 {
      EnoughCompactions(f, v, from, c);
    }
  }

  /** There is not immediately room for a number of words. */
  predicate Crowded(f: Format, v: View, length: nat)
    requires f.Supported()
  {
    length > 0 && v.tail + length > HeadAt(v, 0) + f.V()
  }

  /** How many more pages can be compacted before all erase cycles are used. */
  function CyclesLeft(f: Format, v: View): nat
    requires f.Supported()
  {
    if v.first < f.maxPageErases * f.numPages then f.maxPageErases * f.numPages - v.first else 0
  }

  lemma NextFirst(f: Format, v: View)
    requires f.Supported()
    ensures Next(f, v).first == v.first + 1
    ensures Compactable(f, v) ==> CyclesLeft(f, Next(f, v)) < CyclesLeft(f, v)
  {
    hide KindOf, Start, EraseWord, Copies, Tower, Append, Next, CycleIndex;
    NextKeeps(f, v);
    TowerFirst(f, Dropped(f, v), Copies(f, v), |Copies(f, v)|);
    if Compactable(f, v) { MoreCycles(f, v); }
  }

  /** The log once pages are compacted until there is room for a number of words, and how that ends. */
  function Freed(f: Format, v: View, length: nat): (View, Status)
    requires f.Supported()
    decreases CyclesLeft(f, v)
  {
    if !Crowded(f, v, length) then (v, Ok(()))
    else if !Compactable(f, v) then (v, Err(NoLifetime))
    else if Distance(f, v) > f.V() + f.M() then (v, Err(InvalidStorage))
    else
      NextFirst(f, v);
      Freed(f, Next(f, v), length)
  }

  function Settle(f: Format, v: View, length: nat): View
    requires f.Supported()
  {
    Freed(f, v, length).0
  }

  function Verdict(f: Format, v: View, length: nat): Status
    requires f.Supported()
  {
    Freed(f, v, length).1
  }

  /** The same if only one page is compacted, whether that makes enough room or not. */
  function FreedOnce(f: Format, v: View, length: nat): (View, Status)
    requires f.Supported()
  {
    if !Crowded(f, v, length) then (v, Ok(()))
    else if !Compactable(f, v) then (v, Err(NoLifetime))
    else if Distance(f, v) > f.V() + f.M() then (v, Err(InvalidStorage))
    else (Next(f, v), Ok(()))
  }

  lemma FreedStep(f: Format, v: View, length: nat)
    requires f.Supported()
    ensures Freed(f, v, length) ==
            if Crowded(f, v, length) && FreedOnce(f, v, length).1.Ok? then Freed(f, Next(f, v), length)
            else FreedOnce(f, v, length)
  {
    hide Crowded, Compactable, Distance, Next;
  }

  lemma NoVerdict(f: Format, v: View)
    requires f.Supported()
    ensures Freed(f, v, 0) == FreedOnce(f, v, 0) == (v, Ok(()))
  {
  }

  lemma UnitOk(r: Result<(), StoreError>)
    ensures r.Ok? ==> r == Ok(())
  {
    if r.Ok? {
      var u := r.value;
      match u
      case () => assert r == Ok(u);
    }
  }

  /** A compaction from a log within the virtual capacity leaves all user entries within it. */
  lemma NextScannable(f: Format, v: View)
    requires Formed(f, v) && Complete(f, v) && Tight(f, v)
    ensures Scannable(f, Next(f, v))
  {
    hide KindOf, MarksOk, Contiguous, Parses, Start, Used, EraseWord, Copies, Dropped, Format.V, HeadAt, Compacted,
         Next, Tight;
    GoneBound(f, v);
    var x, y := Compacted(f, v), Next(f, v);
    CompactedFormed(f, v);
    NextIs(f, v);
    ItemSet(x, |x.log| - 1, FirstCleared([EraseWord(f, v)], 0));
    PaddedKind(f, EraseWord(f, v));
    assert FirstCleared([EraseWord(f, v)], 0) == [ClearBit(EraseWord(f, v), 0)];
    NextHead(f, v);
    forall k: nat | k < |y.log| && Kinds(f, y, k).User? ensures y.log[k].pos < HeadAt(y, 0) + f.V() {
      assert k < |x.log| - 1;
      UserEnds(f, x, k);
    }
  }

  /** An entry that is not the last one ends before the last word. */
  lemma UserEnds(f: Format, v: View, k: nat)
    requires Formed(f, v) && k < |v.log| - 1
    ensures v.log[k].pos + 2 <= v.tail
  {
    hide KindOf, MarksOk, Parses;
    assert v.log[k].ws != [] && v.log[|v.log| - 1].ws != [];
    PosBefore(v, k, |v.log| - 1);
  }

  lemma NextKeeps(f: Format, v: View)
    requires f.Supported()
    ensures Next(f, v).tail == Compacted(f, v).tail && Next(f, v).first == Compacted(f, v).first
    ensures forall i: nat :: HeadAt(Next(f, v), i) == HeadAt(Compacted(f, v), i)
  {
    hide Start, EraseWord, Compacted, KindOf;
    var x := Compacted(f, v);
    if x.log != [] { SetItemPos(f, x, |x.log| - 1, [ClearBit(EraseWord(f, v), 0)]); }
  }

  /** A compaction makes the log at most one word longer. */
  lemma NextHead(f: Format, v: View)
    requires Formed(f, v) && Complete(f, v) && Tight(f, v)
    ensures Next(f, v).tail == Compacted(f, v).tail <= HeadAt(Next(f, v), 0) + f.V() + 1
  {
    hide KindOf, MarksOk, Contiguous, Parses, Start, Used, Copies, Dropped, Format.V, HeadAt, Compacted, UsedBefore,
         Next, PosAt;
    CompactedUsed(f, v);
    CopiesSum(f, v);
    NextKeeps(f, v);
    DroppedPos(f, v);
    MarksCount(f, v);
    UsedBeforeFits(f, v, 1);
    HeadIsFirst(f, v);
    if |v.marks| > 1 {
      KeptUsed(f, v, 0);
    } else {
      OneMarkHead(f, v);
    }
  }

  lemma OneMarkHead(f: Format, v: View)
    requires Formed(f, v) && Complete(f, v) && Tight(f, v) && |v.marks| <= 1
    ensures HeadAt(Compacted(f, v), 0) >= Dropped(f, v).tail
    ensures UsedBefore(f, v, 1) <= f.V()
  {
    hide KindOf, Contiguous, Parses, Start, Used, EraseWord, Copies, Compacted, Format.V, HeadAt;
    CompactedFormed(f, v);
    MarkBound(f, Compacted(f, v), 0);
    StartShift(f, v, Compacted(f, v), 0);
    DroppedOne(f, v);
    UsedFits(f, v, |v.log|);
    assert v.log[..|v.log|] == v.log;
    HeadIsFirst(f, v);
  }

  lemma RestFacts(f: Format, pages: Pages, v: View)
    requires AtRest(f, pages, v)
    ensures Shape(f, pages) && Formed(f, v) && Steady(f, pages, v, true) && Idle(f, v) && Roomy(f, v)
    ensures Calm(f, v, |v.log|) && Complete(f, v) && (v.lean ==> Used(f, v.log) <= f.C())
    ensures forall k: nat :: k < |v.log| ==> Kinds(f, v, k).User? || Kinds(f, v, k).Padding?
  {
    hide Steady, KindOf, Used;
    SteadyFormed(f, pages, v, true);
    IdleCalm(f, v);
  }

  lemma UsedStart(f: Format, v: View)
    requires f.Supported()
    ensures Used(f, v.log[..0]) == 0
  {
  }

  lemma UsedStep(f: Format, v: View, k: nat)
    requires f.Supported() && k < |v.log|
    ensures Used(f, v.log[..k + 1]) == Used(f, v.log[..k]) + if Kinds(f, v, k).User? then |v.log[k].ws| else 0
  {
    hide KindOf;
    assert v.log[..k + 1] == v.log[..k] + [v.log[k]];
    UsedAppend(f, v.log[..k], v.log[k]);
  }

  /** Padding out entries hides no user entry from scans. */
  lemma WeakerScannable(f: Format, v: View, v': View)
    requires f.Supported() && Weaker(f, v, v')
    ensures Scannable(f, v) ==> Scannable(f, v')
  {
    hide KindOf, Format.V;
    WeakerPos(f, v, v');
    if Scannable(f, v) {
      forall k: nat | k < |v'.log| && Kinds(f, v', k).User? ensures v'.log[k].pos < HeadAt(v', 0) + f.V() {
        assert v'.log[k] == v.log[k] && Kinds(f, v, k).User?;
      }
    }
  }

  // ---------------------------------------------------------------------------------------------
  // Going beyond the capacity

  /** The log, lean no more if so many more words would be beyond the capacity. */
  function Charged(f: Format, v: View, length: nat): View
    requires f.Supported()
  {
    if Used(f, v.log) + length > f.C() then v.(lean := false) else v
  }

  lemma ChargedRest(f: Format, pages: Pages, v: View, length: nat)
    requires AtRest(f, pages, v) && f.Supported()
    ensures AtRest(f, pages, Charged(f, v, length))
    ensures Charged(f, v, length).lean ==> v.lean && Used(f, v.log) + length <= f.C()
    ensures Charged(f, v, length).log == v.log && Charged(f, v, length).tail == v.tail
    ensures HeadAt(Charged(f, v, length), 0) == HeadAt(v, 0)
  {
    hide KindOf, Idle, Steady, Roomy, Used, Format.C, Format.V;
    var v' := Charged(f, v, length);
    if v' != v {
      LessLean(f, v);
      LessLeanIdle(f, v);
      LessLeanSteady(f, pages, v);
    }
  }

  /** A log that is lean no more is the same otherwise. */
  lemma LessLeanSame(f: Format, v: View)
    requires f.Supported()
    ensures var v' := v.(lean := false);
            && (forall i: nat :: Start(f, v', i) == Start(f, v, i))
            && (forall i: nat :: HeadAt(v', i) == HeadAt(v, i))
            && (forall i: nat :: PosAt(v', i) == PosAt(v, i))
            && (forall i: nat :: InitWord(f, v', i) == InitWord(f, v, i))
            && (forall i: nat :: UsedBefore(f, v', i) == UsedBefore(f, v, i))
            && (forall k: nat :: k < |v.log| ==> Kinds(f, v', k) == Kinds(f, v, k))
  {
    hide KindOf, Used, BuildInit, CycleIndex, Format.Q;
  }

  lemma LessLeanFormed(f: Format, v: View)
    requires Formed(f, v)
    ensures Formed(f, v.(lean := false))
  {
    hide KindOf, Format.Q, Format.M, Start, HeadAt, PosAt, Kinds;
    LessLeanSame(f, v);
    var v' := v.(lean := false);
    forall i: nat | i < |v'.marks| ensures MarkOk(f, v', i) && NoUserBeforeMark(f, v', i) {
      assert MarkOk(f, v, i) && NoUserBeforeMark(f, v, i);
    }
  }

  lemma LessLeanIdle(f: Format, v: View)
    requires f.Supported() && Idle(f, v)
    ensures Idle(f, v.(lean := false))
  {
    hide KindOf, Kinds;
    LessLeanSame(f, v);
  }

  lemma LessLeanSteady(f: Format, pages: Pages, v: View)
    requires Steady(f, pages, v, true)
    ensures Steady(f, pages, v.(lean := false), true)
  {
    hide KindOf, Snapshot, Format.V, Format.Q, WindowSize, Formed, Start, HeadAt, InitWord, Alive;
    var s, v' := Snapshot(f, pages, v.first), v.(lean := false);
    LessLeanFormed(f, v);
    LessLeanSame(f, v);
    AliveSame(f, v, v');
    assert HoldsInits(f, s, v', 0, f.numPages, true);
  }

  lemma LessLean(f: Format, v: View)
    requires f.Supported() && Roomy(f, v)
    ensures Roomy(f, v.(lean := false))
  {
    hide KindOf, Used, Start, HeadAt, UsedBefore;
    var v' := v.(lean := false);
    VirtSizes(f);
    LessLeanSame(f, v);
    forall i: nat | 1 <= i < f.numPages ensures FitsAfter(f, v', i) {
      assert FitsAfter(f, v, i);
    }
    forall i: nat | i < f.numPages - 1 ensures NearAfter(f, v', i) {
      assert NearAfter(f, v, i);
    }
  }

  // ---------------------------------------------------------------------------------------------
  // How operations end

  /** An entry was appended to a log, and entries of the log may have become padding. */
  ghost predicate Extended(f: Format, v: View, ws: seq<Word>, v': View)
    requires f.Supported()
  {
    Weaker(f, Append(f, v.(lean := v'.lean), ws), v')
  }

  /** An operation that needs so many words within the capacity leaves a lean log lean, however it ends. */
  ghost predicate LeanAfter(f: Format, v: View, length: nat, p: Phase)
    requires f.Supported()
  {
    p != Fresh && (v.lean && Used(f, v.log) + length <= f.C() ==> p.v.lean)
  }

  /** The store is at rest. */
  ghost predicate Resting(f: Format, pages: Pages, p: Phase) {
    p.Operating? && p.st == Settled && AtRest(f, pages, p.v)
  }

  /**
   How an operation that takes the map from `before` to `after` may end. It may only fail half-way
   because of the storage; the store then still stands for one of both maps.
   */
  ghost predicate Ended(f: Format, pages: Pages, before: map<nat, seq<byte>>, after: map<nat, seq<byte>>,
                        r: Result<(), StoreError>, p: Phase) {
    && f.Supported() && InPhase(f, pages, p)
    && if r.Ok? then Resting(f, pages, p) && Promise(f, p) == after
       else if r.error == StoreError.StorageError || r.error == InvalidStorage then
         && (Promise(f, p) == before || Promise(f, p) == after)
         && (r.error == InvalidStorage ==> p.Compressing? && (p.v.lean ==> f.Overflows()))
       else Resting(f, pages, p) && Promise(f, p) == before
  }

  /** Ending at rest. */
  lemma RestEnds(f: Format, pages: Pages, v: View)
    requires AtRest(f, pages, v)
    ensures f.Supported() && InPhase(f, pages, Operating(v, Settled)) && Resting(f, pages, Operating(v, Settled))
    ensures Promise(f, Operating(v, Settled)) == Content(f, v.log)
  {
    hide AtRest, InPhase, Promise, Content;
    RestPromised(f, pages, v);
  }

  lemma RestOutcome(f: Format, pages: Pages, v: View)
    requires AtRest(f, pages, v)
    ensures f.Supported() && StageOk(f, v, Settled) && Outcome(f, v, Settled) == Content(f, v.log)
  {
    hide AtRest, Content, StageOk, Halted;
    RestIsHalted(f, pages, v);
    SettledOutcome(f, pages, v);
  }

  lemma EndedRest(f: Format, pages: Pages, v: View, before: map<nat, seq<byte>>, after: map<nat, seq<byte>>,
                  r: Result<(), StoreError>)
    requires AtRest(f, pages, v) && f.Supported() && Content(f, v.log) == if r.Ok? then after else before
    requires r.Err? ==> r.error != InvalidStorage
    ensures Ended(f, pages, before, after, r, Operating(v, Settled)) && Resting(f, pages, Operating(v, Settled))
  {
    hide AtRest, InPhase, Promise, Content, Format.M;
    RestEnds(f, pages, v);
  }

  lemma EndedStopped(f: Format, pages: Pages, p: Phase, before: map<nat, seq<byte>>, after: map<nat, seq<byte>>,
                     r: Result<(), StoreError>)
    requires InPhase(f, pages, p) && f.Supported() && (Promise(f, p) == before || Promise(f, p) == after)
    requires r.Err? && (r.error == StoreError.StorageError || r.error == InvalidStorage)
    requires r == Err(InvalidStorage) ==> p.Compressing? && (p.v.lean ==> f.Overflows())
    ensures Ended(f, pages, before, after, r, p)
  {
    hide InPhase, Promise, Format.M;
  }

  // ---------------------------------------------------------------------------------------------
  // Finding entries

  /** A pointer to an entry: its key, its position and the length of its value in bytes. */
  datatype StoreHandle = StoreHandle(key: nat, pos: nat, len: nat)

  /** The handle of a user entry. */
  function HandleOf(f: Format, v: View, k: nat): StoreHandle
    requires f.Supported() && k < |v.log| && Kinds(f, v, k).User?
  {
    StoreHandle(Kinds(f, v, k).key, v.log[k].pos, HeaderOf(f, v.log[k].ws).length)
  }

  lemma {:induction false} ContentOf(f: Format, v: View, k: nat)
    requires f.Supported() && Idle(f, v) && k < |v.log| && Kinds(f, v, k).User? && Kinds(f, v, k).key <= MAX_KEY
    ensures Kinds(f, v, k).key in Content(f, v.log) && Content(f, v.log)[Kinds(f, v, k).key] == ValueOf(f, v.log[k].ws)
  {
    hide KindOf, ValueOf, LastFor;
    var key := Kinds(f, v, k).key;
    forall j: nat | k < j < |v.log| ensures !Updates(f, v.log[j], key) {
      OnlyOne(f, v, key, k, j);
    }
    LookupAt(f, v.log, key, k);
  }

  lemma ContentNone(f: Format, v: View, key: nat)
    requires f.Supported() && Idle(f, v)
    requires forall k: nat :: k < |v.log| ==> Kinds(f, v, k) != User(key)
    ensures key !in Content(f, v.log)
  {
    hide KindOf, ValueOf, Lookup;
    forall j: nat | j < |v.log| ensures !Updates(f, v.log[j], key) {
      assert IsCalm(Kinds(f, v, j)) && Kinds(f, v, j) != User(key);
    }
    LookupNone(f, v.log, key);
  }

  /** There is no user entry between two indexes. */
  ghost predicate NoUsers(f: Format, v: View, a: nat, b: nat)
    requires f.Supported()
  {
    forall j: nat :: a <= j < b && j < |v.log| ==> !Kinds(f, v, j).User?
  }

  /** What a step of an iteration gives: the next user entry, or none if scans see no more. */
  ghost predicate Iterated(f: Format, v: View, k: nat, k': nat, r: Option<StoreHandle>) {
    && f.Supported() && k <= k' <= |v.log|
    && match r
       case None => NoUsers(f, v, k, k') && (k' == |v.log| || PosAt(v, k') >= HeadAt(v, 0) + f.V())
       case Some(h) =>
         && k < k' && NoUsers(f, v, k, k' - 1) && Kinds(f, v, k' - 1).User? && h == HandleOf(f, v, k' - 1)
         && v.log[k' - 1].pos < HeadAt(v, 0) + f.V()
  }

  /** There is an entry for a key that a scan sees. */
  ghost predicate Visible(f: Format, v: View, key: nat)
    requires f.Supported()
  {
    exists k: nat :: k < |v.log| && Kinds(f, v, k) == User(key) && v.log[k].pos < HeadAt(v, 0) + f.V()
  }

  /** Scans see entries of the map only, and all of them if they all start within the virtual capacity. */
  lemma VisibleKey(f: Format, v: View, key: nat)
    requires f.Supported() && Idle(f, v)
    ensures Visible(f, v, key) ==> key in Content(f, v.log)
    ensures Scannable(f, v) ==> (Visible(f, v, key) <==> key in Content(f, v.log))
  {
    hide KindOf, Content, Format.V, HeadAt, Idle;
    if Visible(f, v, key) {
      var k: nat :| k < |v.log| && Kinds(f, v, k) == User(key) && v.log[k].pos < HeadAt(v, 0) + f.V();
      ContentAt(f, v, k, key);
    } else if Scannable(f, v) {
      forall k: nat | k < |v.log| ensures Kinds(f, v, k) != User(key) {
      }
      ContentNone(f, v, key);
    }
  }

  /** What an iteration step finds is within the reach of scans. */
  lemma IterSees(f: Format, v: View, k: nat, k': nat, r: Option<StoreHandle>, key: nat)
    requires Formed(f, v) && Iterated(f, v, k, k', r) && r.Some? && r.value.key == key
    ensures Visible(f, v, key) && Kinds(f, v, k' - 1) == User(key)
  {
    hide KindOf, MarksOk, Parses, Format.V, HeaderOf;
  }

  /** What an iteration step rules out. */
  lemma IterSkips(f: Format, v: View, k: nat, k': nat, r: Option<StoreHandle>, key: nat)
    requires f.Supported() && k <= |v.log| && forall j: nat :: j < k ==> Kinds(f, v, j) != User(key)
    requires Formed(f, v) && Iterated(f, v, k, k', r)
    ensures r.Some? ==> k < k' <= |v.log| && Kinds(f, v, k' - 1).User? && r.value == HandleOf(f, v, k' - 1)
    ensures r.Some? && r.value.key != key ==> forall j: nat :: j < k' ==> Kinds(f, v, j) != User(key)
    ensures r.None? ==> !Visible(f, v, key)
  {
    hide KindOf, MarksOk, Parses, Format.V, HeaderOf;
    if r.None? {
      forall j: nat | k' <= j < |v.log| ensures v.log[j].pos >= HeadAt(v, 0) + f.V() {
        PosBefore(v, k', j);
      }
    }
  }

  lemma ContentAt(f: Format, v: View, k: nat, key: nat)
    requires f.Supported() && Idle(f, v) && k < |v.log| && Kinds(f, v, k) == User(key)
    ensures key in Content(f, v.log) && Content(f, v.log)[key] == ValueOf(f, v.log[k].ws)
  {
    hide ValueOf, Content, ParseWord, Idle;
    assert key <= MAX_KEY;
    ContentOf(f, v, k);
  }

  /** The header that is parsed for a user entry. */
  lemma UserValue(f: Format, ws: seq<Word>, e: ParsedEntry)
    requires f.Supported() && KindOf(f, ws).User? && e == EntryOf(f, ws)
    ensures e.ParsedUser? && e.header == HeaderOf(f, ws) && e.header.key == KindOf(f, ws).key
    ensures |ws| == 1 + BytesToWords(e.header.length) && e.header.length <= 4 * (|ws| - 1) && |ws| <= f.M() + 1
  {
    hide ParseWord;
    WordsCover(e.header.length);
    WordsMonotone(e.header.length, f.MaxValueLen());
  }

  lemma WordsCover(n: nat)
    ensures n <= 4 * BytesToWords(n)
  {
  }

  /** The words read after the header are those of the value. */
  lemma ValueWords(f: Format, pages: Pages, v: View, k: nat, ws: seq<Word>)
    requires AtRest(f, pages, v) && f.Supported() && Shape(f, pages) && k < |v.log| && v.log[k].ws != []
             && |ws| == |v.log[k].ws| - 1
    requires forall i: nat :: i < |ws| ==> ws[i] == ReadWord(f, pages, v.log[k].pos + 1 + i)
    ensures ws == v.log[k].ws[1..]
  {
    hide Roomy, Idle, KindOf, Snapshot, ReadWord, Formed, Matches;
    SteadyHolds(f, pages, v, true, k);
    SnapshotReads(f, pages, v.first);
    var s, it := Snapshot(f, pages, v.first), v.log[k];
    forall i: nat | i < |ws| ensures ws[i] == it.ws[1..][i] {
      var q: nat := it.pos + 1 + i;
      assert At(s, q) == it.ws[q - it.pos];
    }
  }

  /** One step of a walk through a store at rest. */
  lemma RestStep(f: Format, pages: Pages, v: View, a: nat, k: nat)
    requires AtRest(f, pages, v) && f.Supported() && a <= k <= |v.log| && NoUsers(f, v, a, k)
    ensures Shape(f, pages) && ParseEntry(f, pages, PosAt(v, k)).Ok?
    ensures var r := ParseEntry(f, pages, PosAt(v, k)).value;
            && (r.0.ParsedTail? <==> k == |v.log|)
            && (k < |v.log| ==> r.1 == PosAt(v, k + 1))
            && (r.0.ParsedUser? ==>
                  k < |v.log| && Kinds(f, v, k).User?
                  && HandleOf(f, v, k) == StoreHandle(r.0.header.key, PosAt(v, k), r.0.header.length))
            && (k < |v.log| && !r.0.ParsedUser? ==> NoUsers(f, v, a, k + 1))
  {
    hide Steady, KindOf, ParseEntry, HeaderOf, EntryOf, Idle, Roomy, PosAt;
    EntryKind(f, pages, v, true, k);
    SteadyParse(f, pages, v, true, k);
    if k < |v.log| {
      ItemPos(v, k);
      if Kinds(f, v, k).User? { UserValue(f, v.log[k].ws, EntryOf(f, v.log[k].ws)); }
    }
  }

  lemma NoUsersStart(f: Format, v: View, k: nat)
    requires f.Supported()
    ensures NoUsers(f, v, k, k)
  {
  }
}
