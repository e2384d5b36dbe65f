/**
 Whole runs of the store: operations one after the other against the model, and an operation that is
 interrupted any number of times, during itself and during its recoveries.
 */
module Driver {
  import opened Wrappers
  import opened Format
  import opened Bytes
  import opened Flash
  import opened Log
  import opened Storage
  import opened Contents
  import opened States
  import opened Recovering
  import opened Stages
  import opened Migration
  import opened Phases
  import opened Capacity
  import opened Model
  import opened Wiping
  import opened Searching
  import opened Booting
  import opened Endurance
  import opened Lifetime
  import opened Store

  /**
   Opens the store that a flash holds, or a new one on an erased flash. A storage that is not interrupted can be opened
   unless it holds a compaction that recorded too long a log.
   */
  method Open(storage: BufferStorage, ghost p: Phase) returns (r: Result<Store, StoreError>, ghost p': Phase)
    requires storage.Valid() || !storage.f.Supported()
    requires storage.f.Supported() ==> InPhase(storage.f, storage.pages, p)
    modifies storage
    ensures r == Err(InvalidArgument) <==> !storage.f.Supported()
    ensures r == Err(InvalidArgument) ==> unchanged(storage)
    ensures r.Ok? ==> r.value.storage == storage && r.value.f == storage.f && r.value.Ready()
    ensures r.Ok? ==> Resting(storage.f, storage.pages, p') && !Stuck(storage.f, p)
    ensures r.Ok? && p == Fresh ==> p' == Operating(EmptyView(), Settled)
    ensures r.Ok? && p.Operating? && Tight(storage.f, p.v) ==> Tight(storage.f, p'.v)
    ensures r.Ok? && Cleanable(storage.f, p) ==> Clean(storage.f, p'.v)
    ensures r != Err(InvalidArgument) ==>
              InPhase(storage.f, storage.pages, p') && Promise(storage.f, p') == Promise(storage.f, p)
    ensures r == Err(InvalidStorage) ==>
              Stuck(storage.f, p) && Stuck(storage.f, p') && (p.v.lean ==> storage.f.Overflows())
    ensures r != Err(InvalidArgument) && p' != Fresh ==> p'.v.lean == (p == Fresh || p.v.lean)
    ensures r != Err(NoCapacity) && r != Err(NoLifetime)
    ensures Undisturbed(old(storage.interruption), storage.interruption, r == Err(StoreError.StorageError))
    ensures r.Ok? && p == Fresh
            && old(storage.interruption.Disarmed? && Unworn(storage.f, storage.pages, storage.wear)) ==>
              Worn(storage.f, storage.pages, storage.wear, p'.v)
    ensures r.Ok? && old(storage.interruption.Disarmed? && Resting(storage.f, storage.pages, p)
                         && Worn(storage.f, storage.pages, storage.wear, p.v)) ==>
              Worn(storage.f, storage.pages, storage.wear, p'.v)
  {
    hide InPhase, Promise, Content, Clean, Cleanable, Rinsed, Tight, Stuck, EmptyView, Worn, Unworn;
    if !storage.f.Supported() {
      return Err(InvalidArgument), p;
    }
    var store := new Store(storage);
    var s;
    s, p' := store.Recover(p);
    if s.Err? {
      return Err(s.error), p';
    }
    OpenedRest(storage.f, storage.pages, p');
    if p.Operating? { RinsedTight(storage.f, p, p'.v); }
    p' := Operating(p'.v, Settled);
    return Ok(store), p';
  }

  lemma RinsedTight(f: Format, p: Phase, v': View)
    requires f.Supported() && p.Operating? && Rinsed(f, p.v, p.st, v')
    ensures Tight(f, p.v) ==> Tight(f, v')
  {
    hide Clean, Tight, CleanBetween;
  }

  lemma PhaseShape(f: Format, pages: Pages, p: Phase)
    requires InPhase(f, pages, p)
    ensures Shape(f, pages)
  {
    if p != Fresh { PhaseDirty(f, pages, p); }
  }

  lemma OpenedRest(f: Format, pages: Pages, p: Phase)
    requires InPhase(f, pages, p) && p.Operating? && AtRest(f, pages, p.v) && f.Supported()
    requires Promise(f, p) == Content(f, p.v.log)
    ensures InPhase(f, pages, Operating(p.v, Settled)) && Resting(f, pages, Operating(p.v, Settled))
    ensures Promise(f, Operating(p.v, Settled)) == Promise(f, p)
  {
    hide AtRest, InPhase, Promise, Content;
    RestEnds(f, pages, p.v);
  }

  /** Whether an operation or a recovery was interrupted. */
  predicate Interrupted(r: Status) {
    r == Err(StoreError.StorageError)
  }

  /**
   Powers a store on. The first recoveries are interrupted after some storage operations, unless they are
   over before; the last one is not.
   */
  method Resume(store: Store, delays: seq<nat>, ghost p0: Phase) returns (r: Status, ghost p: Phase)
    requires store.Ready() && InPhase(store.f, store.storage.pages, p0)
    modifies store.storage
    ensures store.Ready() && InPhase(store.f, store.storage.pages, p) && store.storage.interruption.Disarmed?
    ensures Promise(store.f, p) == Promise(store.f, p0)
    ensures r.Ok? ==> Resting(store.f, store.storage.pages, p) && Content(store.f, p.v.log) == Promise(store.f, p0)
    ensures r.Err? ==> r == Err(InvalidStorage) && Stuck(store.f, p) && (p.v.lean ==> store.f.Overflows())
    ensures p0 == Fresh || p0.Operating? ==> r.Ok?
    ensures p != Fresh ==> p.v.lean == (p0 == Fresh || p0.v.lean)
    ensures p == Fresh ==> p0 == Fresh
    ensures p0.Operating? ==> p.Operating? && Kept(p0.v, p.v)
    ensures delays == [] && r.Ok? && Cleanable(store.f, p0) ==> Clean(store.f, p.v)
  {
    hide InPhase, Content, AtRest, Format.Overflows, Stuck, Cleanable, Clean, Rinsed, Promise, Worn, Unworn, EmptyView,
         HeadAt;
    store.storage.ResetInterruption();
    p := p0;
    r := Err(StoreError.StorageError);
    var n := 0;
    while n < |delays| && Interrupted(r)
      invariant store.Ready() && InPhase(store.f, store.storage.pages, p) && store.storage.interruption.Disarmed?
      invariant Promise(store.f, p) == Promise(store.f, p0)
      invariant r.Ok? ==>
        Resting(store.f, store.storage.pages, p) && Content(store.f, p.v.log) == Promise(store.f, p0)
      invariant r.Err? && !Interrupted(r) ==>
        r == Err(InvalidStorage) && Stuck(store.f, p) && p != Fresh && (p.v.lean ==> store.f.Overflows())
      invariant p != Fresh ==> p.v.lean == (p0 == Fresh || p0.v.lean)
      invariant p0.Operating? ==> p.Operating? && Kept(p0.v, p.v)
      invariant p0 == Fresh || p0.Operating? ==> (p == Fresh || p.Operating?) && (r.Ok? || Interrupted(r))
      invariant p == Fresh ==> p0 == Fresh
      invariant delays == [] ==> p == p0 && Interrupted(r)
    {
      store.storage.ArmInterruption(delays[n]);
      ghost var p1 := p;
      if p1 == Fresh || p1.Operating? { NotStuck(store.f, p1); }
      r, p := store.Recover(p1);
      if r.Ok? {
        OpenedRest(store.f, store.storage.pages, p);
        p := Operating(p.v, Settled);
      }
      store.storage.ResetInterruption();
      n := n + 1;
    }
    if Interrupted(r) {
      ghost var p1 := p;
      if p1 == Fresh || p1.Operating? { NotStuck(store.f, p1); }
      r, p := store.Recover(p1);
      if r.Ok? {
        OpenedRest(store.f, store.storage.pages, p);
        p := Operating(p.v, Settled);
      }
    }
  }

  /**
   Crash atomicity. Applies an operation that may be interrupted after some storage operations, and powers
   the store on again, where each recovery but the last may be interrupted in turn. The store then holds
   the map before or after the operation. The only other way this can end is a compaction that recorded
   too long a log. Where the operation stopped tells whether the log is within the virtual capacity
   again; if not, it is only so much longer.
   */
  method PartialApply(store: Store, op: StoreOperation, delay: Option<nat>, delays: seq<nat>, ghost v: View)
    returns (r: Status, recovered: Status, ghost crash: Phase, ghost p: Phase)
    requires store.Ready() && AtRest(store.f, store.storage.pages, v)
    requires store.storage.interruption.Disarmed?
    modifies store.storage
    ensures store.Ready() && InPhase(store.f, store.storage.pages, p) && store.storage.interruption.Disarmed?
    ensures Foreseen(store.f, v, op, r) && (delay.None? ==> r == Forecast(store.f, v, op))
    ensures Promise(store.f, p) == Content(store.f, v.log)
            || Promise(store.f, p) == Effect(Content(store.f, v.log), op)
    ensures r.Ok? ==> Promise(store.f, p) == Effect(Content(store.f, v.log), op)
    ensures r.Err? && !Interrupted(r) && r != Err(InvalidStorage) ==> Promise(store.f, p) == Content(store.f, v.log)
    ensures recovered.Ok? ==>
              && Resting(store.f, store.storage.pages, p) && Content(store.f, p.v.log) == Promise(store.f, p)
              && Near(store.f, p.v)
    ensures recovered.Err? ==>
            recovered == Err(InvalidStorage) && Stuck(store.f, p) && (p.v.lean ==> store.f.Overflows())
    ensures p != Fresh && (v.lean && !Overdrawn(store.f, v, op) ==> p.v.lean)
    ensures crash.Operating? && Tight(store.f, crash.v) ==> p.Operating? && Tight(store.f, p.v)
    ensures Tight(store.f, v) && !Crowded(store.f, v, Room(op)) ==> p.Operating? && Tight(store.f, p.v)
    ensures Clean(store.f, v) && Tight(store.f, v) && delays == [] && recovered.Ok? ==> Clean(store.f, p.v)
  {
    hide InPhase, Content, AtRest, Foreseen, Effect, Format.Overflows, Stuck, Forecast, Cleanable, Clean, Rinsed,
         Compactable, Overdrawn, Tight, Crowded, Near, HeadAt, Room;
    var f, storage := store.f, store.storage;
    ghost var before, after := Content(f, v.log), Effect(Content(f, v.log), op);
    if delay.Some? {
      storage.ArmInterruption(delay.value);
    }
    r, crash := store.Apply(op, v);
    if delay.None? { ForeseenNow(f, v, op, r); }
    EndedPhase(f, storage.pages, before, after, r, crash);
    storage.ResetInterruption();
    p := crash;
    if r.Err? && (r.error == StoreError.StorageError || r.error == InvalidStorage) {
      recovered, p := Resume(store, delays, crash);
      if crash.Operating? { KeptTight(f, crash.v, p.v); }
    } else {
      recovered := Ok(());
    }
    if recovered.Ok? { RestNear(f, storage.pages, p.v); }
  }

  lemma ForeseenNow(f: Format, v: View, op: StoreOperation, r: Status)
    requires f.Supported() && Foreseen(f, v, op, r) && !Interrupted(r)
    ensures r == Forecast(f, v, op)
  {
    hide Forecast, IsProper, Demand, Spare;
  }

  /** The log is not much longer than the virtual capacity. */
  predicate Near(f: Format, v: View)
    requires f.Supported()
  {
    v.tail <= HeadAt(v, 0) + f.V() + if v.lean then f.Drift() else f.numPages - 1
  }

  lemma RestNear(f: Format, pages: Pages, v: View)
    requires AtRest(f, pages, v)
    ensures f.Supported() && Near(f, v)
  {
    hide Steady, Idle, HeadAt, Used, Start, Format.V, Format.Drift;
    RestFacts(f, pages, v);
    HeadBelow(f, v);
    assert NearAfter(f, v, 0);
  }

  /** However an operation ends, the store stands for the map before or after it. */
  lemma EndedPhase(f: Format, pages: Pages, before: map<nat, seq<byte>>, after: map<nat, seq<byte>>, r: Status,
                   p: Phase)
    requires Ended(f, pages, before, after, r, p)
    ensures f.Supported() && InPhase(f, pages, p) && (Promise(f, p) == before || Promise(f, p) == after)
    ensures r.Ok? || (r.error != StoreError.StorageError && r.error != InvalidStorage) ==>
              Resting(f, pages, p) && Content(f, p.v.log) == Promise(f, p)
    ensures r.Err? && r.error != StoreError.StorageError && r.error != InvalidStorage ==> Promise(f, p) == before
    ensures r == Err(InvalidStorage) ==> p.Compressing? && (p.v.lean ==> f.Overflows())
    ensures r.Ok? ==> Promise(f, p) == after
  {
    hide AtRest, InPhase, Content, Format.Overflows, Promise;
    if Resting(f, pages, p) { RestEnds(f, pages, p.v); }
  }

  /** The map after some operations, of which some took effect. */
  function MapAfter(m: map<nat, seq<byte>>, ops: seq<StoreOperation>, done: seq<bool>): map<nat, seq<byte>>
    requires |done| <= |ops|
  {
    if done == [] then m
    else
      var n := |done| - 1;
      var m1 := MapAfter(m, ops, done[..n]);
      if done[n] then Effect(m1, ops[n]) else m1
  }

  function Successes(results: seq<Status>): (done: seq<bool>)
    ensures |done| == |results| && forall i :: 0 <= i < |results| ==> done[i] == results[i].Ok?
  {
    if results == [] then [] else Successes(results[..|results| - 1]) + [results[|results| - 1].Ok?]
  }

  lemma MapAfterOne(m: map<nat, seq<byte>>, ops: seq<StoreOperation>, done: seq<bool>, b: bool)
    requires |done| < |ops|
    ensures MapAfter(m, ops, done + [b]) ==
            if b then Effect(MapAfter(m, ops, done), ops[|done|]) else MapAfter(m, ops, done)
  {
    assert (done + [b])[..|done|] == done;
  }

  lemma MapAfterMore(m: map<nat, seq<byte>>, ops: seq<StoreOperation>, results: seq<Status>, r: Status)
    requires |results| < |ops|
    ensures MapAfter(m, ops, Successes(results + [r])) ==
            if r.Ok? then Effect(MapAfter(m, ops, Successes(results)), ops[|results|])
            else MapAfter(m, ops, Successes(results))
  {
    assert (results + [r])[..|results|] == results;
    assert Successes(results + [r]) == Successes(results) + [r.Ok?];
    MapAfterOne(m, ops, Successes(results), r.Ok?);
  }

  predicate NoPrepare(ops: seq<StoreOperation>) {
    forall i :: 0 <= i < |ops| ==> !ops[i].Prepare?
  }

  /** No operation was accepted beyond the capacity. */
  predicate Moderate(f: Format, ops: seq<StoreOperation>, views: seq<View>)
    requires f.Supported() && |views| <= |ops|
  {
    forall i :: 0 <= i < |views| ==> !Overdrawn(f, views[i], ops[i])
  }

  /**
   What some operations lead a log to. It is lean unless one of them was accepted beyond the capacity. With
   transactions and clears only, it stays lean and within the virtual capacity. It stays clean.
   */
  ghost predicate Reached(f: Format, v: View, ops: seq<StoreOperation>, views: seq<View>, v': View)
    requires f.Supported() && |views| <= |ops|
  {
    && (v.lean && Moderate(f, ops, views) ==> v'.lean)
    && (v.lean && Tight(f, v) && NoPrepare(ops) ==> v'.lean && Tight(f, v'))
    && (Clean(f, v) ==> Clean(f, v'))
  }

  /**
   An operation of a run. Its result is exactly what is forecast from the log, which stands for the map of
   the operations that succeeded. Within the capacity, the result is that of the model exactly if the
   operation is not accepted beyond the capacity, which no log within the virtual capacity allows.
   */
  ghost predicate Conducted(f: Format, v: View, ops: seq<StoreOperation>, results: seq<Status>, views: seq<View>,
                            i: nat)
    requires f.Supported() && i < |views| == |results| <= |ops|
  {
    && results[i] == Forecast(f, views[i], ops[i])
    && Content(f, views[i].log) == MapAfter(Content(f, v.log), ops, Successes(results[..i]))
    && Reached(f, v, ops, views[..i], views[i])
    && (views[i].lean ==>
          (Agrees(f, Content(f, views[i].log), ops[i], results[i]) <==> !Overdrawn(f, views[i], ops[i])))
    && (views[i].lean && Tight(f, views[i]) ==> !Overdrawn(f, views[i], ops[i]))
  }

  /**
   Refinement over runs: operations applied one after the other, without interruption. A run ends early only
   if the flash is worn out or if a compaction records too long a log.
   */
  method Run(store: Store, ops: seq<StoreOperation>, ghost v: View)
    returns (results: seq<Status>, ghost p: Phase, ghost views: seq<View>)
    requires store.Ready() && AtRest(store.f, store.storage.pages, v)
    requires store.storage.interruption.Disarmed?
    modifies store.storage
    ensures store.Ready() && |views| == |results| <= |ops| && store.storage.interruption.Disarmed?
    ensures forall i :: 0 <= i < |results| ==> Conducted(store.f, v, ops, results, views, i)
    ensures |results| < |ops| ==> Failed(results)
    ensures forall i :: 0 <= i < |results| ==>
              !Interrupted(results[i]) && (i < |results| - 1 ==> !IsStorageFailure(results[i]))
    ensures results != [] && results[|results| - 1] == Err(InvalidStorage) ==>
              Stuck(store.f, p) && (v.lean && Moderate(store.f, ops, views) ==> store.f.Overflows())
    ensures results == [] || results[|results| - 1] != Err(InvalidStorage) ==>
              && Resting(store.f, store.storage.pages, p)
              && Content(store.f, p.v.log) == MapAfter(Content(store.f, v.log), ops, Successes(results))
              && (old(store.Tame(v)) ==> store.Tame(p.v))
    ensures !Failed(results) ==> Reached(store.f, v, ops, views, p.v)
    ensures results != [] && results[|results| - 1] == Err(NoLifetime) ==> p.Operating? && !Compactable(store.f, p.v)
  {
    hide InPhase, Content, AtRest, Agrees, Format.Overflows, Ended, Tight, Clean, Promise, Forecast, Stuck, Compactable,
         Worn, Overdrawn, Effect, Cleanable, Crowded, MapAfter, Successes, Conducted, Reached, Moderate, NoPrepare,
         Room;
    var f := store.f;
    ghost var m := Content(f, v.log);
    results := [];
    views := [];
    p := Operating(v, Settled);
    NothingRan(f, v, ops);
    while |results| < |ops|
      invariant store.Ready() && |views| == |results| <= |ops| && store.storage.interruption.Disarmed?
      invariant Resting(f, store.storage.pages, p)
      invariant Content(f, p.v.log) == MapAfter(m, ops, Successes(results))
      invariant forall i :: 0 <= i < |results| ==> Conducted(f, v, ops, results, views, i)
      invariant Reached(f, v, ops, views, p.v)
      invariant forall i :: 0 <= i < |results| ==> !IsStorageFailure(results[i])
      invariant old(store.Tame(v)) ==> store.Tame(p.v)
    {
      var n := |results|;
      ghost var v0, pages := p.v, store.storage.pages;
      var r;
      r, p := store.Apply(ops[n], v0);
      EndedPhase(f, store.storage.pages, Content(f, v0.log), Effect(Content(f, v0.log), ops[n]), r, p);
      RanOne(f, pages, v, ops, results, views, v0, r, p);
      MapAfterMore(m, ops, results, r);
      results := results + [r];
      views := views + [v0];
      if IsStorageFailure(r) {
        return;
      }
    }
  }

  lemma NothingRan(f: Format, v: View, ops: seq<StoreOperation>)
    requires f.Supported()
    ensures Reached(f, v, ops, [], v)
    ensures MapAfter(Content(f, v.log), ops, Successes([])) == Content(f, v.log)
  {
    hide Content, Tight, Clean;
  }

  /** One more operation of a run. */
  lemma RanOne(f: Format, pages: Pages, v: View, ops: seq<StoreOperation>, results: seq<Status>, views: seq<View>,
               v0: View, r: Status, p: Phase)
    requires AtRest(f, pages, v0) && f.Supported() && |results| == |views| < |ops|
    requires forall i :: 0 <= i < |results| ==> Conducted(f, v, ops, results, views, i)
    requires Reached(f, v, ops, views, v0) && r == Forecast(f, v0, ops[|results|])
    requires Content(f, v0.log) == MapAfter(Content(f, v.log), ops, Successes(results))
    requires p != Fresh && (v0.lean && !Overdrawn(f, v0, ops[|results|]) ==> p.v.lean)
    requires !IsStorageFailure(r) && !ops[|results|].Prepare? && Tight(f, v0) ==> Tight(f, p.v)
    requires !IsStorageFailure(r) && Clean(f, v0) ==> Clean(f, p.v)
    ensures forall i :: 0 <= i <= |results| ==> Conducted(f, v, ops, results + [r], views + [v0], i)
    ensures !IsStorageFailure(r) ==> Reached(f, v, ops, views + [v0], p.v)
    ensures v.lean && Moderate(f, ops, views + [v0]) ==> p.v.lean
  {
    hide AtRest, Content, Tight, Clean, Agrees, Overdrawn, MapAfter, Successes, Forecast, Scannable;
    RestFacts(f, pages, v0);
    var n, results', views' := |results|, results + [r], views + [v0];
    forall i | 0 <= i <= n ensures results'[..i] == results[..i] && views'[..i] == views[..i] {
    }
    assert results[..n] == results && views[..n] == views;
    if v0.lean {
      ForeseenAgrees(f, v0, ops[n], r);
      if Tight(f, v0) {
        TightScannable(f, v0);
        NotOverdrawn(f, v0, ops[n]);
      }
    }
    forall i | 0 <= i <= n ensures Conducted(f, v, ops, results', views', i) {
      if i < n { assert Conducted(f, v, ops, results, views, i); }
    }
    if Moderate(f, ops, views') {
      forall i | 0 <= i < n ensures !Overdrawn(f, views[i], ops[i]) {
        assert views'[i] == views[i];
      }
      assert !Overdrawn(f, views'[n], ops[n]);
    }
  }

  /** The map after some sessions, each of which applies some operations. */
  function MapAfterSessions(sessions: seq<seq<StoreOperation>>, results: seq<seq<Status>>): map<nat, seq<byte>>
    requires |results| <= |sessions|
    requires forall i :: 0 <= i < |results| ==> |results[i]| <= |sessions[i]|
  {
    if results == [] then map[]
    else
      var n := |results| - 1;
      MapAfter(MapAfterSessions(sessions, results[..n]), sessions[n], Successes(results[n]))
  }

  /** Some operation of a session failed because of the storage. */
  predicate Failed(results: seq<Status>) {
    results != [] && IsStorageFailure(results[|results| - 1])
  }

  /** The results of some operations are those that the model has, or failures of the flash. */
  predicate Modelled(f: Format, m: map<nat, seq<byte>>, ops: seq<StoreOperation>, results: seq<Status>)
    requires f.Supported() && |results| <= |ops|
  {
    forall i :: 0 <= i < |results| ==> Agrees(f, MapAfter(m, ops, Successes(results[..i])), ops[i], results[i])
  }

  /** Transactions and clears are as in the model. */
  lemma RunModelled(f: Format, v: View, ops: seq<StoreOperation>, results: seq<Status>, views: seq<View>)
    requires f.Supported() && |views| == |results| <= |ops|
    requires forall i :: 0 <= i < |results| ==> Conducted(f, v, ops, results, views, i)
    ensures v.lean && Tight(f, v) && NoPrepare(ops) ==> Modelled(f, Content(f, v.log), ops, results)
  {
    hide Content, Tight, Clean, Agrees, Overdrawn, MapAfter, Successes, Forecast, Moderate;
    if v.lean && Tight(f, v) && NoPrepare(ops) {
      forall i | 0 <= i < |results|
        ensures Agrees(f, MapAfter(Content(f, v.log), ops, Successes(results[..i])), ops[i], results[i])
      {
        assert Conducted(f, v, ops, results, views, i);
      }
    }
  }

  /** The flash is new, or holds a store at rest with all deleted values wiped; it is worn as it should be. */
  ghost predicate Sound(f: Format, pages: Pages, wear: Wear, p: Phase) {
    f.Supported() && InPhase(f, pages, p)
    && if p == Fresh then Unworn(f, pages, wear)
       else Resting(f, pages, p) && Clean(f, p.v) && Worn(f, pages, wear, p.v)
  }

  /** The log is within the virtual capacity and has always been within the capacity. */
  ghost predicate Simple(f: Format, p: Phase)
    requires f.Supported()
  {
    p == Fresh || (Tight(f, p.v) && p.v.lean)
  }

  predicate Undisrupted(results: seq<Status>) {
    forall i :: 0 <= i < |results| ==> !Interrupted(results[i])
  }

  /** Powers a store on and applies operations. */
  method Session(storage: BufferStorage, ops: seq<StoreOperation>, ghost p0: Phase)
    returns (results: seq<Status>, ghost p: Phase)
    requires storage.Valid() && storage.interruption.Disarmed?
    requires Sound(storage.f, storage.pages, storage.wear, p0)
    modifies storage
    ensures storage.Valid() && storage.interruption.Disarmed? && |results| <= |ops|
    ensures |results| < |ops| ==> Failed(results)
    ensures Undisrupted(results)
    ensures Simple(storage.f, p0) && NoPrepare(ops) ==> Modelled(storage.f, Promise(storage.f, p0), ops, results)
    ensures !Failed(results) ==>
              && p != Fresh && Sound(storage.f, storage.pages, storage.wear, p)
              && Content(storage.f, p.v.log) == Promise(storage.f, p)
              == MapAfter(Promise(storage.f, p0), ops, Successes(results))
              && (Simple(storage.f, p0) && NoPrepare(ops) ==> Simple(storage.f, p))
  {
    hide InPhase, Content, AtRest, Agrees, Tight, Clean, Promise, Stuck, Compactable, Worn, Unworn, MapAfter, Conducted,
         Modelled, Reached, Moderate, Successes, Format.Overflows, Cleanable, NoPrepare;
    var f := storage.f;
    NotStuck(f, p0);
    if p0 != Fresh { SettledCleanable(f, p0.v); } else { FreshPromise(f); }
    EmptyTight(f);
    var resumed;
    resumed, p := Open(storage, p0);
    OnlyErrors(resumed);
    var store := resumed.value;
    RestEnds(f, storage.pages, p.v);
    ghost var v, views := p.v, [];
    results, p, views := Run(store, ops, v);
    RunModelled(f, v, ops, results, views);
    ReachedWhat(f, v, ops, views, if Failed(results) then v else p.v);
    if !Failed(results) { RestEnds(f, storage.pages, p.v); }
  }

  /**
   Durability. A store is created on an erased flash and then powered off and on again between sessions.
   As long as the flash is not worn out, each session goes on from the map that the one before it left, all
   deleted values are wiped, and the flash is worn exactly as the log tells. Sessions of transactions and
   clears are as in the model.
   */
  method PowerCycles(storage: BufferStorage, sessions: seq<seq<StoreOperation>>)
    returns (results: seq<seq<Status>>, ghost p: Phase)
    requires storage.Valid() && storage.interruption.Disarmed?
    requires InPhase(storage.f, storage.pages, Fresh) && Unworn(storage.f, storage.pages, storage.wear)
    modifies storage
    ensures storage.Valid() && |results| <= |sessions|
    ensures forall i :: 0 <= i < |results| ==>
              |results[i]| <= |sessions[i]| && (i < |results| - 1 ==> !Failed(results[i]))
    ensures |results| < |sessions| ==> results != [] && Failed(results[|results| - 1])
    ensures forall i :: 0 <= i < |results| ==> Undisrupted(results[i])
    ensures (forall i :: 0 <= i < |sessions| ==> NoPrepare(sessions[i])) ==>
              forall i :: 0 <= i < |results| ==>
                Modelled(storage.f, MapAfterSessions(sessions, results[..i]), sessions[i], results[i])
    ensures (results == [] || !Failed(results[|results| - 1])) && sessions != [] ==>
              && Resting(storage.f, storage.pages, p) && Clean(storage.f, p.v)
              && Content(storage.f, p.v.log) == MapAfterSessions(sessions, results)
              && Worn(storage.f, storage.pages, storage.wear, p.v)
  {
    hide InPhase, Content, AtRest, Clean, Promise, Worn, Unworn, MapAfter, Modelled, Successes, Simple, NoPrepare,
         Failed, Resting, Undisrupted, MapAfterSessions, Sound;
    var f := storage.f;
    ghost var simple := forall i :: 0 <= i < |sessions| ==> NoPrepare(sessions[i]);
    results := [];
    p := Fresh;
    PhaseShape(f, storage.pages, p);
    FreshPromise(f);
    FreshSound(f, storage.pages, storage.wear, sessions);
    while |results| < |sessions|
      invariant storage.Valid() && storage.interruption.Disarmed? && |results| <= |sessions| && storage.f == f
      invariant Sound(f, storage.pages, storage.wear, p) && (p == Fresh <==> results == [])
      invariant simple ==> Simple(f, p)
      invariant forall i :: 0 <= i < |results| ==> |results[i]| <= |sessions[i]| && !Failed(results[i])
      invariant forall i :: 0 <= i < |results| ==> Undisrupted(results[i])
      invariant Promise(f, p) == MapAfterSessions(sessions, results)
      invariant p != Fresh ==> Content(f, p.v.log) == Promise(f, p)
      invariant simple ==> forall i :: 0 <= i < |results| ==>
        Modelled(f, MapAfterSessions(sessions, results[..i]), sessions[i], results[i])
    {
      var n := |results|;
      ghost var before := results;
      var session;
      session, p := Session(storage, sessions[n], p);
      MoreSessions(sessions, before, session);
      results := results + [session];
      assert results[..n] == before;
      assert forall i :: 0 <= i < n ==> results[..i] == before[..i];
      if Failed(session) {
        return;
      }
    }
    SoundRest(f, storage.pages, storage.wear, p);
  }

  lemma MoreSessions(sessions: seq<seq<StoreOperation>>, results: seq<seq<Status>>, session: seq<Status>)
    requires |results| < |sessions| && |session| <= |sessions[|results|]|
    requires forall i :: 0 <= i < |results| ==> |results[i]| <= |sessions[i]|
    ensures forall i :: 0 <= i <= |results| ==> |(results + [session])[i]| <= |sessions[i]|
    ensures MapAfterSessions(sessions, results + [session]) ==
            MapAfter(MapAfterSessions(sessions, results), sessions[|results|], Successes(session))
  {
    hide MapAfter, Successes;
    assert (results + [session])[..|results|] == results;
  }

  lemma FreshSound(f: Format, pages: Pages, wear: Wear, sessions: seq<seq<StoreOperation>>)
    requires f.Supported() && InPhase(f, pages, Fresh) && Unworn(f, pages, wear)
    ensures Sound(f, pages, wear, Fresh) && Simple(f, Fresh)
    ensures MapAfterSessions(sessions, []) == map[]
  {
    hide InPhase, Unworn;
  }

  lemma SoundRest(f: Format, pages: Pages, wear: Wear, p: Phase)
    requires Sound(f, pages, wear, p)
    ensures p != Fresh ==> Resting(f, pages, p) && Clean(f, p.v) && Worn(f, pages, wear, p.v)
  {
    hide InPhase, Unworn, Worn, Clean, Resting;
  }

  lemma ReachedWhat(f: Format, v: View, ops: seq<StoreOperation>, views: seq<View>, v': View)
    requires f.Supported() && |views| <= |ops|
    ensures Reached(f, v, ops, views, v') ==>
              && (v.lean && Tight(f, v) && NoPrepare(ops) ==> v'.lean && Tight(f, v'))
              && (Clean(f, v) ==> Clean(f, v'))
  {
    hide Tight, Clean, Moderate;
  }

  // ---------------------------------------------------------------------------------------------
  // Runs with interruptions

  /** An operation, and after how many storage operations it, if at all, and then its recoveries are interrupted. */
  datatype Step = Step(op: StoreOperation, delay: Option<nat>, delays: seq<nat>)

  function Operations(steps: seq<Step>): (ops: seq<StoreOperation>)
    ensures |ops| == |steps| && forall i :: 0 <= i < |steps| ==> ops[i] == steps[i].op
  {
    seq(|steps|, i requires 0 <= i < |steps| => steps[i].op)
  }

  /**
   An operation of such a run, and whether it took effect: it did if it succeeded, and did not if it was
   refused or there was no page left to compact. The log is never much longer than the virtual capacity.
   */
  ghost predicate Endured(f: Format, ops: seq<StoreOperation>, results: seq<Status>, done: seq<bool>,
                          views: seq<View>, i: nat)
    requires f.Supported() && i < |results| == |done| == |views| <= |ops|
  {
    && Foreseen(f, views[i], ops[i], results[i]) && Near(f, views[i])
    && (results[i].Ok? ==> done[i])
    && (results[i].Err? && !Interrupted(results[i]) && results[i] != Err(InvalidStorage) ==> !done[i])
    && Content(f, views[i].log) == MapAfter(map[], ops, done[..i])
    && (Moderate(f, ops, views[..i]) ==> views[i].lean)
  }

  /** A log within the virtual capacity stays within it if no page has to be compacted. */
  predicate KeepsTight(f: Format, v: View, op: StoreOperation, v': View)
    requires f.Supported()
  {
    Tight(f, v) && !Crowded(f, v, Room(op)) ==> Tight(f, v')
  }

  /**
   Durability under interruptions. A store is created on an erased flash; then operations are applied, each
   of which may be interrupted at any point and recovered with any number of interruptions. The run ends
   early only if a compaction recorded too long a log, which takes a format that overflows or an operation
   that was accepted beyond the capacity.
   */
  method InterruptedRun(storage: BufferStorage, start: seq<nat>, steps: seq<Step>)
    returns (results: seq<Status>, recovered: Status, ghost done: seq<bool>, ghost views: seq<View>, ghost p: Phase)
    requires storage.Valid() && InPhase(storage.f, storage.pages, Fresh)
    modifies storage
    ensures storage.Valid() && InPhase(storage.f, storage.pages, p)
    ensures |results| == |done| == |views| <= |steps|
    ensures forall i :: 0 <= i < |results| ==>
              && Endured(storage.f, Operations(steps), results, done, views, i)
              && (steps[i].delay.None? ==> results[i] == Forecast(storage.f, views[i], steps[i].op))
              && (i < |results| - 1 ==> KeepsTight(storage.f, views[i], steps[i].op, views[i + 1]))
    ensures Promise(storage.f, p) == MapAfter(map[], Operations(steps), done)
    ensures recovered.Ok? ==> |results| == |steps|
    ensures recovered.Err? ==>
              && recovered == Err(InvalidStorage) && Stuck(storage.f, p)
              && (Moderate(storage.f, Operations(steps), views) ==> storage.f.Overflows())
    ensures recovered.Ok? ==>
              && Resting(storage.f, storage.pages, p) && Near(storage.f, p.v)
              && Content(storage.f, p.v.log) == MapAfter(map[], Operations(steps), done)
              && (steps != [] ==> KeepsTight(storage.f, views[|views| - 1], steps[|views| - 1].op, p.v))
  {
    hide InPhase, Content, AtRest, Tight, Promise, Stuck, Near, Foreseen, MapAfter, Format.Overflows, Overdrawn, Kept,
         Moderate, Crowded, Effect, Room, Operations, Clean, Cleanable, Endured, KeepsTight, Forecast;
    var f := storage.f;
    ghost var ops := Operations(steps);
    PhaseShape(f, storage.pages, Fresh);
    FreshPromise(f);
    results, done, views := [], [], [];
    var store := new Store(storage);
    recovered, p := Resume(store, start, Fresh);
    RestNear(f, storage.pages, p.v);
    NothingDone(f, ops, p.v);
    while |results| < |steps|
      invariant store.Ready() && store.f == f && store.storage == storage && storage.interruption.Disarmed?
      invariant |results| == |done| == |views| <= |steps|
      invariant Resting(f, storage.pages, p) && Near(f, p.v) && InPhase(f, storage.pages, p) && recovered.Ok?
      invariant Content(f, p.v.log) == Promise(f, p) == MapAfter(map[], ops, done)
      invariant Moderate(f, ops, views) ==> p.v.lean
      invariant forall i :: 0 <= i < |results| ==> Endured(f, ops, results, done, views, i)
      invariant forall i :: 0 <= i < |results| && steps[i].delay.None? ==>
        results[i] == Forecast(f, views[i], steps[i].op)
      invariant forall i :: 0 <= i < |results| - 1 ==> KeepsTight(f, views[i], steps[i].op, views[i + 1])
      invariant results != [] ==> KeepsTight(f, views[|results| - 1], steps[|results| - 1].op, p.v)
    {
      var n := |results|;
      ghost var v0 := p.v;
      var r;
      ghost var crash;
      r, recovered, crash, p := PartialApply(store, steps[n].op, steps[n].delay, steps[n].delays, v0);
      ghost var b := Promise(f, p) != Content(f, v0.log) || r.Ok?;
      EnduredOne(f, ops, results, done, views, v0, r, b, p);
      MapAfterOne(map[], ops, done, b);
      TightKept(f, v0, steps[n].op, p.v);
      results := results + [r];
      done := done + [b];
      views := views + [v0];
      if recovered.Err? {
        return;
      }
    }
  }

  lemma TightKept(f: Format, v: View, op: StoreOperation, v': View)
    requires f.Supported()
    ensures (Tight(f, v) && !Crowded(f, v, Room(op)) ==> Tight(f, v')) ==> KeepsTight(f, v, op, v')
  {
    hide Tight, Crowded, Room;
  }

  lemma NothingDone(f: Format, ops: seq<StoreOperation>, v: View)
    requires f.Supported()
    ensures MapAfter(map[], ops, []) == map[]
  {
  }

  /** One more operation of a run with interruptions. */
  lemma EnduredOne(f: Format, ops: seq<StoreOperation>, results: seq<Status>, done: seq<bool>, views: seq<View>,
                   v0: View, r: Status, b: bool, p: Phase)
    requires f.Supported() && |results| == |done| == |views| < |ops| && p != Fresh
    requires forall i :: 0 <= i < |results| ==> Endured(f, ops, results, done, views, i)
    requires Foreseen(f, v0, ops[|results|], r) && Near(f, v0)
    requires r.Ok? ==> b
    requires r.Err? && !Interrupted(r) && r != Err(InvalidStorage) ==> !b
    requires Content(f, v0.log) == MapAfter(map[], ops, done)
    requires Moderate(f, ops, views) ==> v0.lean
    requires v0.lean && !Overdrawn(f, v0, ops[|results|]) ==> p.v.lean
    ensures forall i :: 0 <= i <= |results| ==> Endured(f, ops, results + [r], done + [b], views + [v0], i)
    ensures Moderate(f, ops, views + [v0]) ==> p.v.lean
  {
    hide Content, MapAfter, Foreseen, Near, Overdrawn;
    var n, results', done', views' := |results|, results + [r], done + [b], views + [v0];
    forall i | 0 <= i <= n ensures done'[..i] == done[..i] && views'[..i] == views[..i] {
    }
    assert done[..n] == done && views[..n] == views;
    forall i | 0 <= i <= n ensures Endured(f, ops, results', done', views', i) {
      if i < n { assert Endured(f, ops, results, done, views, i); }
    }
    if Moderate(f, ops, views') {
      forall i | 0 <= i < n ensures !Overdrawn(f, views[i], ops[i]) {
        assert views'[i] == views[i];
      }
      assert !Overdrawn(f, views'[n], ops[n]);
    }
  }

  lemma FreshPromise(f: Format)
    requires f.Supported()
    ensures Promise(f, Fresh) == map[] && Cleanable(f, Fresh)
  {
  }

  lemma EmptyTight(f: Format)
    requires f.Supported()
    ensures Tight(f, EmptyView())
  {
    f.VirtSizeLowerBound();
  }

  lemma OnlyErrors<T>(r: Result<T, StoreError>)
    ensures r.Ok? || r == Err(InvalidArgument) || r == Err(NoCapacity) || r == Err(NoLifetime)
            || r == Err(StoreError.StorageError) || r == Err(InvalidStorage)
  {
    match r
    case Ok(_) =>
    case Err(error) =>
      match error
      case InvalidArgument =>
      case NoCapacity =>
      case NoLifetime =>
      case StorageError =>
      case InvalidStorage =>
  }

  lemma NotStuck(f: Format, p: Phase)
    requires f.Supported() && !p.Marking? && !p.Compressing?
    ensures !Stuck(f, p)
  {
  }
}
