/** Operations that succeed, one after the other, as parts of the runs that show what a store may come to. */
module Scenarios {
  import opened Arithmetic
  import opened Wrappers
  import opened Words
  import opened Format
  import opened Bytes
  import opened Entries
  import opened Flash
  import opened Log
  import opened Appending
  import opened Contents
  import opened Stages
  import opened Migration
  import opened Phases
  import opened Booting
  import opened StoreUpdates
  import opened Searching
  import opened Capacity
  import opened Model
  import opened Wiping
  import opened Store
  import opened Overflow
  import opened Growing
  import opened Driver

  /** An operation succeeds, is not accepted beyond the capacity, and has its effect on the log and on the map. */
  ghost predicate Succeeds(f: Format, v: View, op: StoreOperation, v': View)
    requires f.Supported()
  {
    && Forecast(f, v, op) == Ok(()) && !Overdrawn(f, v, op)
    && Stepped(f, v, op, v') && v'.lean && Content(f, v'.log) == Effect(Content(f, v.log), op)
  }

  /** Operations on a new store, which all succeed, and the logs that they lead to. */
  ghost predicate History(f: Format, ops: seq<StoreOperation>, views: seq<View>)
    requires f.Supported()
  {
    && |views| == |ops| + 1 && views[0] == EmptyView()
    && forall i :: 0 <= i < |ops| ==> Succeeds(f, views[i], ops[i], views[i + 1])
  }

  lemma NewHistory(f: Format)
    requires f.Supported()
    ensures History(f, [], [EmptyView()])
  {
  }

  lemma LongerHistory(f: Format, ops: seq<StoreOperation>, views: seq<View>, op: StoreOperation, v: View)
    requires f.Supported() && History(f, ops, views) && Succeeds(f, views[|ops|], op, v)
    ensures History(f, ops + [op], views + [v])
  {
    hide Succeeds, EmptyView;
  }

  /** A store, with the operations that were applied since it was new. */
  class Journal {
    const store: Store
    ghost var ops: seq<StoreOperation>
    ghost var views: seq<View>

    ghost predicate Valid()
      reads this, store, store.storage
    {
      store.Ready() && History(store.f, ops, views)
    }

    constructor (store: Store)
      requires store.Ready()
      ensures this.store == store && Valid() && ops == [] && views == [EmptyView()]
    {
      this.store := store;
      this.ops, this.views := [], [EmptyView()];
      new;
      NewHistory(store.f);
    }
  }

  /** The store is at rest with the last log of its history; it is not interrupted. */
  ghost predicate Going(j: Journal, v: View)
    reads j, j.store, j.store.storage
  {
    && j.Valid() && v == j.views[|j.ops|] && v.lean
    && AtRest(j.store.f, j.store.storage.pages, v) && j.store.storage.interruption.Disarmed?
  }

  lemma StartsGoing(j: Journal)
    requires j.Valid() && j.ops == [] && j.views == [EmptyView()]
    requires AtRest(j.store.f, j.store.storage.pages, EmptyView()) && j.store.storage.interruption.Disarmed?
    ensures Going(j, EmptyView())
  {
    hide AtRest, History;
  }

  lemma GoingRest(j: Journal, v: View)
    requires Going(j, v)
    ensures j.store.Ready() && AtRest(j.store.f, j.store.storage.pages, v) && j.store.storage.interruption.Disarmed?
    ensures History(j.store.f, j.ops, j.views) && v == j.views[|j.ops|] && v.lean
  {
    hide AtRest;
  }

  /** Applies an operation that is forecast to succeed. */
  method Do(j: Journal, op: StoreOperation, ghost v: View) returns (ghost v': View)
    requires Going(j, v) && Forecast(j.store.f, v, op) == Ok(()) && !Overdrawn(j.store.f, v, op)
    modifies j, j.store.storage
    ensures Going(j, v') && Stepped(j.store.f, v, op, v')
    ensures Content(j.store.f, v'.log) == Effect(Content(j.store.f, v.log), op)
  {
    hide AtRest, Content, Stepped, Effect, Forecast, Overdrawn, InPhase, Promise, Clean, Cleanable, Tight, Crowded,
         Room, Stuck, Compactable, History;
    var r;
    ghost var p;
    ghost var f := j.store.f;
    r, p := j.store.Apply(op, v);
    EndedPhase(f, j.store.storage.pages, Content(f, v.log), Effect(Content(f, v.log), op), r, p);
    v' := p.v;
    LongerHistory(f, j.ops, j.views, op, v');
    HistoryViews(f, j.ops, j.views);
    j.ops, j.views := j.ops + [op], j.views + [v'];
  }

  lemma HistoryViews(f: Format, ops: seq<StoreOperation>, views: seq<View>)
    requires f.Supported() && History(f, ops, views)
    ensures |views| == |ops| + 1
  {
    hide Succeeds, EmptyView;
  }

  /** Inserts an entry for which there is room. */
  method Put(j: Journal, key: nat, value: seq<byte>, ghost v: View) returns (ghost v': View, ghost ws: seq<Word>)
    requires Going(j, v) && key <= MAX_KEY && |value| <= j.store.f.MaxValueLen()
    requires v.tail + EntryWords(value) <= HeadAt(v, 0) + j.store.f.V()
    requires Used(j.store.f, v.log) + EntryWords(value) <= j.store.f.C()
    modifies j, j.store.storage
    ensures Going(j, v') && Extended(j.store.f, v, ws, v') && |ws| == EntryWords(value) > 0
    ensures KindOf(j.store.f, ws) == User(key)
    ensures Content(j.store.f, v'.log) == Content(j.store.f, v.log)[key := value]
    ensures Formed(j.store.f, v) && Formed(j.store.f, v') && Tight(j.store.f, v')
  {
    hide AtRest, Content, Extended, EntryWords, BuildUser, HeadAt, Format.V, Format.C, Used, Forecast, Overdrawn, Going,
         Format.MaxValueLen, Stepped;
    ghost var f := j.store.f;
    GoingFacts(j, v);
    EntryLength(value);
    PutForecast(f, v, key, value);
    v' := Do(j, Transaction([InsertUpdate(key, value)]), v);
    GoingFacts(j, v');
    ws := PutStepped(f, v, key, value, v');
    OneEffect(Content(f, v.log), InsertUpdate(key, value));
    ExtendedTail(f, v, ws, v');
    TightMore(f, v, v', |ws|);
  }

  lemma GoingFacts(j: Journal, v: View)
    requires Going(j, v)
    ensures j.store.Ready() && j.store.f.Supported() && Formed(j.store.f, v)
    ensures Idle(j.store.f, v) && Complete(j.store.f, v)
    ensures Roomy(j.store.f, v) && v.lean && Used(j.store.f, v.log) <= j.store.f.C()
    ensures Framed(j.store.f, v) && v.marks != []
  {
    hide AtRest, Framed, Idle, Complete, Used, Roomy, Format.C;
    RestFacts(j.store.f, j.store.storage.pages, v);
  }

  lemma TightMore(f: Format, v: View, v': View, n: nat)
    requires f.Supported() && v.marks != [] && v'.tail == v.tail + n && v.tail + n <= HeadAt(v, 0) + f.V()
    requires forall i: nat :: i < |v.marks| ==> HeadAt(v', i) == HeadAt(v, i)
    ensures Tight(f, v')
  {
    hide HeadAt, Format.V;
  }

  lemma PutForecast(f: Format, v: View, key: nat, value: seq<byte>)
    requires f.Supported() && Formed(f, v) && Idle(f, v) && key <= MAX_KEY && |value| <= f.MaxValueLen()
    requires 0 < EntryWords(value) && v.tail + EntryWords(value) <= HeadAt(v, 0) + f.V()
             && Used(f, v.log) + EntryWords(value) <= f.C()
    ensures var op := Transaction([InsertUpdate(key, value)]);
            && Forecast(f, v, op) == Ok(()) && !Overdrawn(f, v, op)
            && Settle(f, v, Room(op)) == v && Room(op) == EntryWords(value)
  {
    hide Formed, Idle, EntryWords, HeadAt, Format.V, Format.C, Used, Spare, Format.MaxValueLen, Scannable, IsValid;
    var us := [InsertUpdate(key, value)];
    OneUpdate(f, map[], us);
    OneSize(us);
    TightNow(f, v, EntryWords(value));
    SpareIs(f, v);
    FreedStep(f, v, EntryWords(value));
  }

  lemma TightNow(f: Format, v: View, n: nat)
    requires Formed(f, v) && v.tail + n <= HeadAt(v, 0) + f.V()
    ensures Tight(f, v) && Scannable(f, v) && !Crowded(f, v, n)
  {
    hide Formed, HeadAt, Format.V, Scannable;
    TightScannable(f, v);
  }

  lemma PutStepped(f: Format, v: View, key: nat, value: seq<byte>, v': View) returns (ws: seq<Word>)
    requires f.Supported() && key <= MAX_KEY && |value| <= f.MaxValueLen()
    requires Stepped(f, v, Transaction([InsertUpdate(key, value)]), v')
    requires Settle(f, v, Room(Transaction([InsertUpdate(key, value)]))) == v
    ensures Extended(f, v, ws, v') && |ws| == EntryWords(value) > 0 && KindOf(f, ws) == User(key)
  {
    hide Extended, BuildUser, Settle, Room, ValueOf, KindOf, Format.MaxValueLen, WordOf;
    BuildUserReads(f, key, value);
    ws := BuildUser(key, value).value;
    EntryLength(value);
  }

  lemma OneEffect(m: map<nat, seq<byte>>, u: StoreUpdate)
    ensures Effect(m, Transaction([u])) == ApplyUpdate(m, u)
  {
    assert [u][..0] == [] && ApplyUpdates(m, [u][..0]) == m;
  }

  /** Removes a key. */
  method Take(j: Journal, key: nat, ghost v: View) returns (ghost v': View)
    requires Going(j, v) && key <= MAX_KEY
    modifies j, j.store.storage
    ensures Going(j, v') && Weaker(j.store.f, v, v')
    ensures Content(j.store.f, v'.log) == Content(j.store.f, v.log) - {key}
  {
    hide AtRest, Content, Weaker, Forecast, Overdrawn, Going, Stepped;
    ghost var f := j.store.f;
    GoingFacts(j, v);
    TakeForecast(f, v, key);
    v' := Do(j, Transaction([RemoveUpdate(key)]), v);
    TakeStepped(f, v, key, v');
    OneEffect(Content(f, v.log), RemoveUpdate(key));
  }

  lemma TakeForecast(f: Format, v: View, key: nat)
    requires f.Supported() && key <= MAX_KEY
    ensures Forecast(f, v, Transaction([RemoveUpdate(key)])) == Ok(())
    ensures !Overdrawn(f, v, Transaction([RemoveUpdate(key)]))
  {
    hide Spare, IsValid, Used, Format.C, HeadAt;
    var us := [RemoveUpdate(key)];
    OneUpdate(f, map[], us);
    OneSize(us);
    NoVerdict(f, v);
  }

  lemma TakeStepped(f: Format, v: View, key: nat, v': View)
    requires f.Supported() && Stepped(f, v, Transaction([RemoveUpdate(key)]), v')
    ensures Weaker(f, v, v')
  {
    hide Weaker, Room, Extended, BuildUser, Settle;
  }

  /** Clears keys that are not there, which leaves one word of padding. */
  method Pad(j: Journal, minKey: nat, ghost v: View) returns (ghost v': View, ghost w: Word)
    requires Going(j, v) && minKey <= MAX_KEY && Verdict(j.store.f, v, 1) == Ok(())
    requires forall key :: key in Content(j.store.f, v.log) ==> key < minKey
    modifies j, j.store.storage
    ensures Going(j, v') && Extended(j.store.f, Settle(j.store.f, v, 1), [w], v') && !KindOf(j.store.f, [w]).User?
    ensures Content(j.store.f, v'.log) == Content(j.store.f, v.log)
  {
    hide AtRest, Content, Extended, Forecast, Overdrawn, Going, Stepped, Freed, KindOf, BuildInternal;
    ghost var f := j.store.f;
    GoingFacts(j, v);
    PadForecast(f, v, minKey);
    v' := Do(j, ClearFrom(minKey), v);
    w := PadStepped(f, v, minKey, v');
    assert Below(Content(f, v.log), minKey) == Content(f, v.log);
  }

  lemma PadForecast(f: Format, v: View, minKey: nat)
    requires f.Supported() && minKey <= MAX_KEY && Verdict(f, v, 1) == Ok(())
    ensures Forecast(f, v, ClearFrom(minKey)) == Ok(()) && !Overdrawn(f, v, ClearFrom(minKey))
  {
    hide Spare, Used, Format.C, Freed;
  }

  lemma PadStepped(f: Format, v: View, minKey: nat, v': View) returns (w: Word)
    requires f.Supported() && minKey <= MAX_KEY && Stepped(f, v, ClearFrom(minKey), v')
    ensures Extended(f, Settle(f, v, 1), [w], v') && !KindOf(f, [w]).User?
  {
    hide Extended, BuildInternal, Freed, KindOf;
    InternalKind(f, InternalEntry.Clear(minKey));
    w := BuildInternal(InternalEntry.Clear(minKey)).value;
  }

  lemma NoWords(f: Format, v: View)
    requires f.Supported() && Formed(f, v) && Idle(f, v)
    ensures Content(f, v.log) == map[] ==> Used(f, v.log) == 0
  {
    hide Content, Used, Formed, Idle;
    ContentWords(f, v);
    if Content(f, v.log) == map[] { WordsEmpty(Content(f, v.log), MAX_KEY + 1); }
  }

  lemma MoreThanOne(f: Format, v: View)
    requires Formed(f, v) && v.tail > (v.first + 1) * f.Q()
    ensures |v.marks| > 1
  {
    hide KindOf, Format.Q;
    if |v.marks| <= 1 { MulMonotone(f.Q(), v.first + |v.marks|, v.first + 1); }
  }

  /** The first page can be compacted: it was never erased, and the distance is short. */
  lemma FirstErasable(f: Format, v: View)
    requires Formed(f, v) && |v.marks| > 1 && v.first < f.numPages && f.maxPageErases > 0 && Tight(f, v)
    ensures Compactable(f, v) && Distance(f, v) <= f.V() + f.M()
  {
    hide Formed, HeadAt, Format.V, Format.M, Distance;
    DivModUnique(v.first, f.numPages, 0, v.first);
    ShortDistance(f, v);
  }

  method ImmediateRoom(j: Journal, ghost v: View) returns (n: nat)
    requires Going(j, v) && v.tail <= HeadAt(v, 0) + j.store.f.V()
    ensures n == HeadAt(v, 0) + j.store.f.V() - v.tail
  {
    var immediate := j.store.ImmediateCapacity(v);
    n := immediate.value;
  }

  // ---------------------------------------------------------------------------------------------
  // Padding

  /** A log that became longer by some words of padding: pages and live entries stay where they are. */
  ghost predicate PaddedOut(f: Format, v: View, v': View, n: nat)
    requires f.Supported()
  {
    && v'.first == v.first && v'.tail == v.tail + n && HeadAt(v', 0) == HeadAt(v, 0) && |v'.log| >= |v.log|
    && (forall k: nat :: k <= |v.log| ==> PosAt(v', k) == PosAt(v, k))
    && (forall page: nat, pos: nat :: PageFrom(f, v, page, pos) ==> PageFrom(f, v', page, pos))
    && (forall lo: nat, hi: nat :: Within(f, v, lo, hi) ==> Within(f, v', lo, hi))
    && (n > 0 && v.tail == (v.first + |v.marks|) * f.Q() ==> PageFrom(f, v', v.first + |v.marks|, v.tail))
  }

  lemma PaddedOnce(f: Format, v: View, w: Word, v': View)
    requires f.Supported() && Formed(f, v) && Framed(f, v) && v.marks != [] && Extended(f, v, [w], v')
    requires !KindOf(f, [w]).User?
    ensures PaddedOut(f, v, v', 1)
  {
    hide PosAt, HeadAt, PageFrom, Within, Format.Q, Extended, Framed, Contiguous, MarksOk, Parses, KindOf;
    ExtendedTail(f, v, [w], v');
    ExtendedLog(f, v, [w], v');
    forall page: nat, pos: nat | PageFrom(f, v, page, pos) ensures PageFrom(f, v', page, pos) {
      ExtendedPage(f, v, [w], v', page, pos);
    }
    forall lo: nat, hi: nat | Within(f, v, lo, hi) ensures Within(f, v', lo, hi) {
      ExtendedWithin(f, v, [w], v', lo, hi);
    }
    var page: nat := v.first + |v.marks|;
    if v.tail == page * f.Q() { ExtendedOpens(f, v, [w], v', page); }
  }

  lemma PaddedThen(f: Format, v: View, v1: View, v2: View, n: nat)
    requires f.Supported() && PaddedOut(f, v, v1, n) && PaddedOut(f, v1, v2, 1) && (n == 0 ==> v1 == v)
    ensures PaddedOut(f, v, v2, n + 1)
  {
    hide PosAt, HeadAt, PageFrom, Within, Format.Q;
  }

  /** Appends some words of padding for which there is room, by clears from a key above all others. */
  method PadOut(j: Journal, n: nat, minKey: nat, ghost v0: View) returns (ghost v: View)
    requires Going(j, v0) && v0.tail + n <= HeadAt(v0, 0) + j.store.f.V() && minKey <= MAX_KEY
    requires forall key :: key in Content(j.store.f, v0.log) ==> key < minKey
    modifies j, j.store.storage
    ensures Going(j, v) && Content(j.store.f, v.log) == Content(j.store.f, v0.log)
    ensures PaddedOut(j.store.f, v0, v, n)
  {
    hide AtRest, Content, Extended, Going, Freed, KindOf, HeadAt, PosAt, PageFrom, Within, Format.V, Format.Q, Framed,
         Idle, Roomy, Complete, Contiguous, MarksOk, Parses;
    ghost var f := j.store.f;
    v := v0;
    GoingFacts(j, v0);
    for i := 0 to n
      invariant Going(j, v) && Content(f, v.log) == Content(f, v0.log)
      invariant PaddedOut(f, v0, v, i) && (i == 0 ==> v == v0)
    {
      ghost var u, w := v, ERASED_WORD;
      GoingFacts(j, u);
      TightNow(f, u, 1);
      FreedStep(f, u, 1);
      v, w := Pad(j, minKey, u);
      PaddedOnce(f, u, w, v);
      PaddedThen(f, v0, u, v, i);
    }
  }

  /** Appends padding until there is no room left without compaction. */
  method PadUp(j: Journal, minKey: nat, ghost v0: View) returns (ghost v: View)
    requires Going(j, v0) && v0.tail <= HeadAt(v0, 0) + j.store.f.V() && minKey <= MAX_KEY
    requires forall key :: key in Content(j.store.f, v0.log) ==> key < minKey
    modifies j, j.store.storage
    ensures Going(j, v) && Content(j.store.f, v.log) == Content(j.store.f, v0.log)
    ensures PaddedOut(j.store.f, v0, v, HeadAt(v0, 0) + j.store.f.V() - v0.tail)
    ensures v.tail == HeadAt(v, 0) + j.store.f.V()
  {
    hide Going, Content, PaddedOut, HeadAt, Format.V;
    GoingFacts(j, v0);
    var n := ImmediateRoom(j, v0);
    v := PadOut(j, n, minKey, v0);
    PaddedTail(j.store.f, v0, v, n);
  }

  lemma PaddedTail(f: Format, v: View, v': View, n: nat)
    requires f.Supported() && PaddedOut(f, v, v', n)
    ensures v'.first == v.first && v'.tail == v.tail + n && HeadAt(v', 0) == HeadAt(v, 0)
  {
    hide PosAt, HeadAt, PageFrom, Within;
  }
}
