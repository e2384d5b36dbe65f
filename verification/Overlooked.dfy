/** A run that leaves a store with an entry that scans do not see, and what that leads to. */
module Overlooked {
  import opened Arithmetic
  import opened Wrappers
  import opened Words
  import opened Format
  import opened Bytes
  import opened Entries
  import opened Flash
  import opened Log
  import opened Storage
  import opened Appending
  import opened Contents
  import opened Stages
  import opened Compaction
  import opened Migration
  import opened Phases
  import opened Booting
  import opened StoreUpdates
  import opened Searching
  import opened Capacity
  import opened Model
  import opened Wiping
  import opened Overflow
  import opened Growing
  import opened Scenarios
  import opened Driver

  /** Formats for which this is shown: the capacity is more than three pages, and there are enough keys to fill it. */
  predicate Suitable(f: Format) {
    f.Supported() && f.maxPageErases > 0 && 3 * f.Q() < f.C() <= MAX_KEY + 1
  }

  /** A log of so many live entries of one word. */
  ghost predicate Ones(f: Format, v: View, n: nat)
    requires f.Supported()
  {
    && v.first == 0 && HeadAt(v, 0) == 0 && n <= |v.log| && PosAt(v, n) == n <= v.tail && Within(f, v, 0, n)
    && OnesMap(Content(f, v.log), n)
  }

  ghost predicate OnesMap(m: map<nat, seq<byte>>, n: nat) {
    && Keyed(m) && MapWords(m) == n
    && (forall key: nat :: key in m <==> key < n) && (forall key :: key in m ==> m[key] == [])
  }

  lemma NoOnes(f: Format)
    requires f.Supported()
    ensures Ones(f, EmptyView(), 0) && EmptyView().tail == 0
  {
    EmptyContent(f, EmptyView().log);
    WordsEmpty(map[], MAX_KEY + 1);
  }

  /** One more entry. */
  lemma OneMore(f: Format, v: View, ws: seq<Word>, v': View, n: nat)
    requires f.Supported() && Framed(f, v) && v.marks != [] && Ones(f, v, n) && v.tail == n && n <= MAX_KEY
    requires PosAt(v', n + 1) == v'.tail && |v'.log| == |v.log| + 1 && |v.log| == n
    requires Extended(f, v, ws, v') && |ws| == 1 && Content(f, v'.log) == Content(f, v.log)[n := []]
    ensures Ones(f, v', n + 1) && v'.tail == n + 1
  {
    hide KindOf, Framed, Extended, HeadAt, PosAt, Within, Content, WordsBelow, EntryWords;
    ExtendedTail(f, v, ws, v');
    WithinMore(f, v, 0, n, n + 1);
    ExtendedWithin(f, v, ws, v', 0, n + 1);
    WordsInsert(Content(f, v.log), MAX_KEY + 1, n, []);
    assert EntryWords([]) == 1 by { CapacityIs(f); }
  }

  lemma CapacityIs(f: Format)
    requires f.Supported()
    ensures EntryWords([]) == 1 && f.C() < f.V()
  {
    VirtSizes(f);
  }

  lemma TailPos(f: Format, v: View)
    requires f.Supported()
    ensures PosAt(v, |v.log|) == v.tail
  {
  }

  /** Fills the capacity but for one word. */
  method LayOnes(j: Journal) returns (ghost v: View)
    requires Going(j, EmptyView()) && Suitable(j.store.f)
    modifies j, j.store.storage
    ensures Going(j, v) && Ones(j.store.f, v, j.store.f.C() - 1) && v.tail == j.store.f.C() - 1
  {
    hide AtRest, Content, Extended, Going, KindOf, HeadAt, PosAt, Format.V, Format.C, Used, EntryWords, Format.Q,
         Framed, Idle, Roomy, Complete, Contiguous, MarksOk, Parses, MapWords, Within, OnesMap;
    var f := j.store.f;
    v := EmptyView();
    NoOnes(f);
    CapacityIs(f);
    for i := 0 to f.C() - 1
      invariant Going(j, v) && Ones(f, v, i) && v.tail == i == |v.log|
    {
      ghost var u, ws := v, [];
      GoingFacts(j, u);
      OnesUsed(f, u, i);
      v, ws := Put(j, i, [], u);
      ExtendedLog(f, u, ws, v);
      TailPos(f, v);
      OneMore(f, u, ws, v, i);
    }
  }

  lemma OnesUsed(f: Format, v: View, n: nat)
    requires Formed(f, v) && Idle(f, v) && Ones(f, v, n)
    ensures Used(f, v.log) == n
  {
    hide Content, Used, Formed, Idle, HeadAt, PosAt, Within, MapWords;
    ContentWords(f, v);
  }

  /** Padding leaves these entries as they are. */
  lemma OnesPadded(f: Format, v: View, v': View, n: nat, m: nat)
    requires f.Supported() && Ones(f, v, n) && PaddedOut(f, v, v', m) && Content(f, v'.log) == Content(f, v.log)
    ensures Ones(f, v', n) && v'.first == 0
  {
    hide Content, HeadAt, PosAt, Within, PageFrom, OnesMap, Format.Q;
  }

  /** The first two pages have no dead entries, and a later compaction moves the last live entry of the second. */
  lemma OnesFull(f: Format, v: View, n: nat)
    requires f.Supported() && Formed(f, v) && Idle(f, v) && Ones(f, v, n) && 3 * f.Q() <= n && v.tail > 3 * f.Q()
    ensures FullPages(f, v, 2) && |v.marks| > 2 && 0 < Gone(v) < v.marks[2] <= |v.log|
    ensures Kinds(f, v, v.marks[2] - 1).User? && |v.log[v.marks[2] - 1].ws| == 1
    ensures Kinds(f, v, Gone(v) - 1).User?
  {
    hide Content, KindOf, Parses, Used, Within, FullPages, HeadAt, MapWords, Idle, Format.Q, Format.M, Contiguous,
         PosAt;
    OnesUsed(f, v, n);
    TailBound(f, v);
    if |v.marks| <= 3 { MulMonotone(f.Q(), |v.marks|, 3); }
    assert MarkOk(f, v, 1) && MarkOk(f, v, 2);
    BlockFull(f, v, 2, n);
    HeadIs(v, 1);
    HeadIs(v, 2);
    HeadIsFirst(f, v);
    PosBefore(v, 0, v.marks[1]);
    PosBefore(v, v.marks[1], v.marks[2]);
    OneWord(f, v, n, v.marks[2] - 1);
  }

  lemma OneWord(f: Format, v: View, n: nat, k: nat)
    requires f.Supported() && Formed(f, v) && Idle(f, v) && Ones(f, v, n) && k < |v.log| && Kinds(f, v, k).User?
    ensures |v.log[k].ws| == 1 && Kinds(f, v, k).key < n
  {
    hide Content, KindOf, Formed, Within, HeadAt, PosAt, MapWords, ValueOf, Idle, EntryWords;
    UserKey(f, v.log[k].ws);
    ContentAt(f, v, k, Kinds(f, v, k).key);
    CapacityIs(f);
  }

  /** After two compactions, that entry starts at the end of the virtual capacity. */
  lemma TwiceHides(f: Format, v: View)
    requires Formed(f, v) && Idle(f, v) && Roomy(f, v) && FullPages(f, v, 2) && |v.marks| > 2
    requires v.tail == HeadAt(v, 0) + f.V() && 0 < Gone(v) < v.marks[2] <= |v.log|
    requires Kinds(f, v, v.marks[2] - 1).User? && |v.log[v.marks[2] - 1].ws| == 1
    ensures var x := Next(f, Next(f, v));
            && |x.log| >= 2 && Kinds(f, x, |x.log| - 2) == Kinds(f, v, v.marks[2] - 1)
            && x.log[|x.log| - 2].pos == HeadAt(x, 0) + f.V()
    ensures Formed(f, Next(f, v)) && Next(f, v).tail == HeadAt(Next(f, v), 0) + f.V() + 1
    ensures |Next(f, v).marks| > 1 && Next(f, v).first == v.first + 1
  {
    hide KindOf, Parses, MarksOk, Contiguous, Used, Roomy, FullPages, HeadAt, Next, Idle, Format.V, Complete, Start;
    IdleCalm(f, v);
    FullMarks(f, v, 2);
    FullNext(f, v, 2);
    var w := Next(f, v);
    FullMarks(f, w, 1);
    FullNext(f, w, 1);
    SecondGone(f, v);
    NextItems(f, v);
    assert w.log[Gone(w) - 1] == v.log[v.marks[2] - 1];
    assert Kinds(f, w, Gone(w) - 1) == Kinds(f, v, v.marks[2] - 1);
    NextLast(f, w);
  }

  lemma FullMarks(f: Format, v: View, j: nat)
    requires f.Supported() && FullPages(f, v, j)
    ensures |v.marks| > j
  {
    hide HeadAt, UsedBefore;
  }

  /** The entries of the second page are the first ones after its compaction. */
  lemma SecondGone(f: Format, v: View)
    requires Formed(f, v) && Complete(f, v) && Roomy(f, v) && |v.marks| > 2
    requires 0 < Gone(v) < v.marks[2] <= |v.log|
    ensures |Next(f, v).marks| > 1 && Gone(Next(f, v)) == v.marks[2] - Gone(v)
  {
    hide KindOf, Parses, MarksOk, Used, Roomy, Next, Complete, Start, Compacted, Dropped, UsedBefore;
    DroppedPos(f, v);
    KeptUsed(f, v, 1);
    NextMarks(f, v, 1);
    NextKeeps(f, v);
    NextFormed(f, v);
    NextItems(f, v);
    var w := Next(f, v);
    HeadIs(v, 2);
    HeadIs(w, 1);
    var k: nat := v.marks[2] - 1 - Gone(v);
    PosBefore(v, v.marks[2] - 1, v.marks[2]);
    assert w.log[k] == v.log[v.marks[2] - 1];
    MarkUpTo(f, w, 1, 1);
    PosBefore(w, k, k + 1);
    PosBefore(w, k + 1, w.marks[1]);
  }

  /** Two compactions on demand of one word. */
  method PrepareTwice(j: Journal, ghost v0: View) returns (ghost v: View)
    requires Going(j, v0) && Suitable(j.store.f) && Ones(j.store.f, v0, j.store.f.C() - 1)
    requires v0.tail == HeadAt(v0, 0) + j.store.f.V()
    modifies j, j.store.storage
    ensures Going(j, v) && Content(j.store.f, v.log) == Content(j.store.f, v0.log)
    ensures exists k: nat :: Hidden(j.store.f, v, k)
  {
    hide AtRest, Content, Going, KindOf, HeadAt, PosAt, Format.V, Format.C, Used, Format.Q, Idle, Roomy, Complete,
         Formed, MapWords, Within, OnesMap, Forecast, Overdrawn, Stepped, Next, FreedOnce, Gone, FullPages, Ones;
    var f := j.store.f;
    GoingFacts(j, v0);
    CapacityIs(f);
    OnesTail(f, v0);
    OnesFull(f, v0, f.C() - 1);
    TwiceHides(f, v0);
    FirstForecast(f, v0);
    ghost var w := Do(j, Prepare(1), v0);
    PrepareStepped(f, v0, w);
    GoingFacts(j, w);
    SecondForecast(f, v0);
    v := Do(j, Prepare(1), w);
    PrepareStepped(f, w, v);
    HiddenLast(f, v0, v);
  }

  /** A live entry that scans do not see. */
  ghost predicate Hidden(f: Format, v: View, k: nat)
    requires f.Supported()
  {
    k < |v.log| && Kinds(f, v, k).User? && v.log[k].pos >= HeadAt(v, 0) + f.V()
  }

  lemma OnesTail(f: Format, v: View)
    requires Suitable(f) && Ones(f, v, f.C() - 1) && v.tail == HeadAt(v, 0) + f.V()
    ensures v.tail > 3 * f.Q() && v.first == 0 && f.C() - 1 >= 3 * f.Q()
  {
    hide HeadAt, PosAt, Within, Content, OnesMap, Format.Q;
    CapacityIs(f);
  }

  lemma PrepareStepped(f: Format, v: View, v': View)
    requires f.Supported() && Stepped(f, v, Prepare(1), v') && FreedOnce(f, v, 1) == (Next(f, v), Ok(()))
    ensures v' == Next(f, v)
  {
    hide FreedOnce, Next;
  }

  lemma PreparesNext(f: Format, v: View)
    requires f.Supported() && Formed(f, v) && |v.marks| > 1 && v.first < f.numPages && f.maxPageErases > 0
    requires HeadAt(v, 0) + f.V() <= v.tail <= HeadAt(v, 0) + f.V() + f.M()
    ensures FreedOnce(f, v, 1) == (Next(f, v), Ok(()))
  {
    hide Formed, HeadAt, Format.V, Format.M, Distance, Next;
    DivModUnique(v.first, f.numPages, 0, v.first);
    ShortDistance(f, v);
  }

  lemma FirstForecast(f: Format, v: View)
    requires Suitable(f) && Formed(f, v) && Idle(f, v) && Ones(f, v, f.C() - 1) && v.tail == HeadAt(v, 0) + f.V()
             && |v.marks| > 1
    ensures Forecast(f, v, Prepare(1)) == Ok(()) && !Overdrawn(f, v, Prepare(1))
    ensures FreedOnce(f, v, 1) == (Next(f, v), Ok(()))
  {
    hide Formed, Idle, HeadAt, PosAt, Format.V, Format.C, Format.M, Used, Spare, Scannable, FreedOnce, Next, Within,
         Content, OnesMap, Format.Q;
    TightNow(f, v, 0);
    OnesUsed(f, v, f.C() - 1);
    SpareIs(f, v);
    PreparesNext(f, v);
  }

  lemma SecondForecast(f: Format, v0: View)
    requires Suitable(f) && Formed(f, v0) && Idle(f, v0) && Complete(f, v0) && Ones(f, v0, f.C() - 1)
             && v0.tail == HeadAt(v0, 0) + f.V()
    requires var v := Next(f, v0);
             Formed(f, v) && |v.marks| > 1 && v.first == v0.first + 1 && v.tail == HeadAt(v, 0) + f.V() + 1
    ensures var v := Next(f, v0);
            && Forecast(f, v, Prepare(1)) == Ok(()) && !Overdrawn(f, v, Prepare(1))
            && FreedOnce(f, v, 1) == (Next(f, v), Ok(()))
  {
    hide Formed, Idle, HeadAt, PosAt, Format.V, Format.C, Format.M, Used, Spare, Scannable, FreedOnce, Next, Within,
         Content, OnesMap, Format.Q, Complete;
    TightNow(f, v0, 0);
    OnesUsed(f, v0, f.C() - 1);
    NextScannable(f, v0);
    NextWaste(f, v0, 0);
    SpareIs(f, Next(f, v0));
    PreparesNext(f, Next(f, v0));
  }

  lemma HiddenLast(f: Format, v0: View, v: View)
    requires f.Supported() && v == Next(f, Next(f, v0)) && |v.log| >= 2 && Kinds(f, v, |v.log| - 2).User?
    requires v.log[|v.log| - 2].pos == HeadAt(v, 0) + f.V()
    ensures exists k: nat :: Hidden(f, v, k)
  {
    hide KindOf, HeadAt, Format.V, Next;
    assert Hidden(f, v, |v.log| - 2);
  }

  /** No scan finds the key of such an entry, and the remaining capacity is taken to be too large. */
  lemma HiddenMeans(f: Format, v: View, k: nat)
    requires f.Supported() && Formed(f, v) && Idle(f, v) && Hidden(f, v, k) && Used(f, v.log) == f.C() - 1
             && f.C() > 0
    ensures !Scannable(f, v) && Spare(f, v) >= 2
    ensures var key := Kinds(f, v, k).key; key in Content(f, v.log) && !Visible(f, v, key)
  {
    hide KindOf, HeadAt, Format.V, Format.C, Formed, Idle, Content, Used, Spare, Seen;
    UserKey(f, v.log[k].ws);
    var key := Kinds(f, v, k).key;
    ContentAt(f, v, k, key);
    if Visible(f, v, key) {
      var j: nat :| j < |v.log| && Kinds(f, v, j) == User(key) && v.log[j].pos < HeadAt(v, 0) + f.V();
      OnlyOne(f, v, key, k, j);
    }
    SeenUsed(f, v);
    SpareAtLeast(f, v);
  }

  /** The insertion that goes beyond the capacity. */
  function Beyond(f: Format): StoreOperation
    requires Suitable(f)
  {
    Transaction([InsertUpdate(f.C() - 1, [0])])
  }

  /**
   A history without any interruption after which a scan overlooks a key, so that it is not found, and after
   which an operation is accepted that the model refuses because it needs more words than the capacity has.
   */
  method Overlook(storage: BufferStorage)
    returns (key: nat, found: Result<Option<seq<byte>>, StoreError>, r: Status, ghost ops: seq<StoreOperation>,
             ghost views: seq<View>, ghost pages: Pages)
    requires storage.Valid() && storage.interruption.Disarmed? && InPhase(storage.f, storage.pages, Fresh)
    requires Suitable(storage.f)
    modifies storage
    ensures History(storage.f, ops, views) && AtRest(storage.f, pages, views[|ops|])
    ensures var v := views[|ops|];
            && key in Content(storage.f, v.log) && !Visible(storage.f, v, key) && found == Ok(None)
            && Overdrawn(storage.f, v, Beyond(storage.f)) && Foreseen(storage.f, v, Beyond(storage.f), r)
            && !Agrees(storage.f, Content(storage.f, v.log), Beyond(storage.f), r)
  {
    hide AtRest, Content, Going, KindOf, HeadAt, PosAt, Format.V, Format.C, Format.Q, MapWords, Within, Idle, Roomy,
         Complete, Formed, InPhase, Promise, Stuck, EmptyView, Cleanable, Clean, Ones, PaddedOut, Hidden, Visible,
         Freed, Extended, Spare, Used, EntryWords, OnesMap, Tight, History, Agrees, Foreseen, Overdrawn, Beyond;
    var f := storage.f;
    NotStuck(f, Fresh);
    PhaseShape(f, storage.pages, Fresh);
    var resumed;
    ghost var p;
    resumed, p := Open(storage, Fresh);
    OnlyErrors(resumed);
    var j := new Journal(resumed.value);
    StartsGoing(j);
    ghost var v := LayOnes(j);
    CapacityIs(f);
    ghost var u := v;
    OnesKeys(f, v, f.C() - 1);
    v := PadUp(j, f.C() - 1, u);
    OnesPadded(f, u, v, f.C() - 1, HeadAt(u, 0) + f.V() - u.tail);
    ghost var v0 := v;
    v := PrepareTwice(j, v0);
    GoingFacts(j, v);
    OnesAgain(f, v0, v, f.C() - 1);
    ghost var k: nat :| Hidden(f, v, k);
    HiddenMeans(f, v, k);
    HiddenKey(f, v, k, f.C() - 1);
    TooMuch(f, v);
    GoingRest(j, v);
    ops, views, pages := j.ops, j.views, storage.pages;
    key := 0;
    found := j.store.Find(key, v);
    while found != Ok(None)
      invariant key <= Kinds(f, v, k).key && Going(j, v) && j.ops == ops && j.views == views && storage.pages == pages
      invariant found == Ok(if Visible(f, v, key) then Some(Content(f, v.log)[key]) else None)
      decreases Kinds(f, v, k).key - key
    {
      key := key + 1;
      GoingRest(j, v);
      found := j.store.Find(key, v);
    }
    GoingRest(j, v);
    r, p := j.store.Apply(Beyond(f), v);
    ForeseenAgrees(f, v, Beyond(f), r);
  }

  lemma OnesKeys(f: Format, v: View, n: nat)
    requires f.Supported() && Ones(f, v, n) && v.tail == n <= f.V()
    ensures forall key :: key in Content(f, v.log) ==> key < n
    ensures v.tail <= HeadAt(v, 0) + f.V()
  {
    hide Content, HeadAt, PosAt, Within, MapWords, Format.V;
  }

  lemma OnesAgain(f: Format, v0: View, v: View, n: nat)
    requires f.Supported() && Formed(f, v) && Idle(f, v) && Ones(f, v0, n) && Content(f, v.log) == Content(f, v0.log)
    ensures OnesMap(Content(f, v.log), n) && MapWords(Content(f, v.log)) == n && Used(f, v.log) == n
  {
    hide Content, HeadAt, PosAt, Within, MapWords, Formed, Idle, Used;
    ContentWords(f, v);
  }

  lemma HiddenKey(f: Format, v: View, k: nat, n: nat)
    requires f.Supported() && Hidden(f, v, k) && OnesMap(Content(f, v.log), n)
             && Kinds(f, v, k).key in Content(f, v.log)
    ensures k < |v.log| && Kinds(f, v, k).User?
    ensures forall key: nat :: key <= Kinds(f, v, k).key ==> key in Content(f, v.log)
  {
    hide Content, KindOf, HeadAt, MapWords, Format.V;
  }

  /** What is left, as a scan sees it, is enough for the insertion. */
  lemma TooMuch(f: Format, v: View)
    requires Suitable(f) && Spare(f, v) >= 2 && Used(f, v.log) == f.C() - 1
    ensures Overdrawn(f, v, Beyond(f))
  {
    hide Used, Spare, Format.C, Format.Q;
    var us: seq<StoreUpdate> := [InsertUpdate(f.C() - 1, [0])];
    OneUpdate(f, map[], us);
    OneSize(us);
  }
}
