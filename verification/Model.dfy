/** The model of the store: a map with a capacity. */
module Model {
  import opened Wrappers
  import opened Words
  import opened Format
  import opened Bytes
  import opened Entries
  import opened Log
  import opened Storage
  import opened Migration
  import opened Phases
  import opened Contents
  import opened Stages
  import opened StoreUpdates
  import opened SortedKeys
  import opened Capacity

  /** What may be done to a store. */
  datatype StoreOperation =
    | Transaction(updates: seq<StoreUpdate>)
    | ClearFrom(minKey: nat)
    | Prepare(length: nat)

  // ---------------------------------------------------------------------------------------------
  // The capacity that a map uses

  function WordsBelow(m: map<nat, seq<byte>>, n: nat): nat {
    if n == 0 then 0 else WordsBelow(m, n - 1) + if n - 1 in m then EntryWords(m[n - 1]) else 0
  }

  /** The number of words needed to hold the entries of a map. */
  function MapWords(m: map<nat, seq<byte>>): nat {
    WordsBelow(m, MAX_KEY + 1)
  }

  lemma {:induction false} WordsInsert(m: map<nat, seq<byte>>, n: nat, key: nat, value: seq<byte>)
    requires key !in m
    ensures WordsBelow(m[key := value], n) == WordsBelow(m, n) + if key < n then EntryWords(value) else 0
  {
    hide EntryWords;
    if n > 0 {
      WordsInsert(m, n - 1, key, value);
    }
  }

  lemma {:induction false} WordsEmpty(m: map<nat, seq<byte>>, n: nat)
    requires forall key: nat :: key < n ==> key !in m
    ensures WordsBelow(m, n) == 0
  {
    if n > 0 {
      WordsEmpty(m, n - 1);
    }
  }

  /** The words that the map of a log at rest needs are those that the log uses. */
  lemma ContentWords(f: Format, v: View)
    requires Formed(f, v) && Idle(f, v)
    ensures MapWords(Content(f, v.log)) == Used(f, v.log)
  {
    hide KindOf, Content, Used, MapWords;
    PrefixWords(f, v, |v.log|);
    assert v.log[..|v.log|] == v.log;
  }

  lemma {:induction false} PrefixWords(f: Format, v: View, n: nat)
    requires Formed(f, v) && Idle(f, v) && n <= |v.log|
    ensures MapWords(Content(f, v.log[..n])) == Used(f, v.log[..n])
  {
    hide KindOf, Content, MarksOk, Contiguous, Parses, ValueOf, EntryWords, WordsBelow;
    if n == 0 {
      EmptyContent(f, v.log[..0]);
      WordsEmpty(Content(f, v.log[..0]), MAX_KEY + 1);
    } else {
      PrefixWords(f, v, n - 1);
      var it := v.log[n - 1];
      assert v.log[..n] == v.log[..n - 1] + [it];
      assert IsCalm(Kinds(f, v, n - 1));
      UsedAppendOne(f, v.log[..n - 1], it);
      if KindOf(f, it.ws).User? {
        var key := KindOf(f, it.ws).key;
        UserKey(f, it.ws);
        NotThere(f, v, n - 1);
        ContentInsert(f, v.log[..n - 1], it, key);
        WordsInsert(Content(f, v.log[..n - 1]), MAX_KEY + 1, key, ValueOf(f, it.ws));
      } else {
        ContentIgnore(f, v.log[..n - 1], it);
      }
    }
  }

  lemma UsedAppendOne(f: Format, log: seq<Item>, it: Item)
    requires f.Supported()
    ensures Used(f, log + [it]) == Used(f, log) + if KindOf(f, it.ws).User? then |it.ws| else 0
  {
    hide KindOf;
    UsedAppend(f, log, it);
  }

  lemma EmptyContent(f: Format, log: seq<Item>)
    requires f.Supported() && log == []
    ensures Content(f, log) == map[]
  {
  }

  lemma UserKey(f: Format, ws: seq<Word>)
    requires f.Supported() && KindOf(f, ws).User?
    ensures KindOf(f, ws).key <= MAX_KEY && |ws| == EntryWords(ValueOf(f, ws))
  {
    hide ParseWord;
  }

  lemma NotThere(f: Format, v: View, n: nat)
    requires Formed(f, v) && Idle(f, v) && n < |v.log| && Kinds(f, v, n).User?
    ensures Kinds(f, v, n).key !in Content(f, v.log[..n])
  {
    hide KindOf, MarksOk, Contiguous, Parses, ValueOf, Lookup;
    var key := Kinds(f, v, n).key;
    forall j: nat | j < n ensures !Updates(f, v.log[..n][j], key) {
      OnlyOne(f, v, key, n, j);
    }
    LookupNone(f, v.log[..n], key);
  }

  // ---------------------------------------------------------------------------------------------
  // What operations do

  predicate Keyed(m: map<nat, seq<byte>>) {
    forall key :: key in m ==> key <= MAX_KEY
  }

  function ModelTransaction(f: Format, m: map<nat, seq<byte>>, us: seq<StoreUpdate>): (map<nat, seq<byte>>, Status)
    requires f.Supported()
  {
    if !IsValid(f, us) then (m, Err(InvalidArgument))
    else if MapWords(m) + TransactionCapacity(us) > f.C() then (m, Err(NoCapacity))
    else (ApplyUpdates(m, us), Ok(()))
  }

  function ModelClear(m: map<nat, seq<byte>>, minKey: nat): (map<nat, seq<byte>>, Status) {
    if minKey > MAX_KEY then (m, Err(InvalidArgument)) else (Below(m, minKey), Ok(()))
  }

  function ModelPrepare(f: Format, m: map<nat, seq<byte>>, length: nat): (map<nat, seq<byte>>, Status)
    requires f.Supported()
  {
    if MapWords(m) + length > f.C() then (m, Err(NoCapacity)) else (m, Ok(()))
  }

  /** The content after an operation, and its result. */
  function ModelRun(f: Format, m: map<nat, seq<byte>>, op: StoreOperation): (map<nat, seq<byte>>, Status)
    requires f.Supported()
  {
    match op
    case Transaction(us) => ModelTransaction(f, m, us)
    case ClearFrom(minKey) => ModelClear(m, minKey)
    case Prepare(length) => ModelPrepare(f, m, length)
  }

  /** The model keeps the map within the capacity. */
  lemma {:induction false} ModelFits(f: Format, m: map<nat, seq<byte>>, op: StoreOperation)
    requires f.Supported() && Keyed(m) && MapWords(m) <= f.C()
    ensures Keyed(ModelRun(f, m, op).0) && MapWords(ModelRun(f, m, op).0) <= f.C()
  {
    hide EntryWords, WordsBelow, Format.C;
    match op
    case Transaction(us) =>
      if IsValid(f, us) {
        TransactionWords(f, m, us);
      }
    case ClearFrom(minKey) =>
      WordsLess(m, Below(m, minKey), MAX_KEY + 1);
    case Prepare(_) =>
  }

  lemma {:induction false} WordsLess(m: map<nat, seq<byte>>, m': map<nat, seq<byte>>, n: nat)
    requires forall key :: key in m' ==> key in m && m'[key] == m[key]
    ensures WordsBelow(m', n) <= WordsBelow(m, n)
  {
    hide EntryWords;
    if n > 0 { WordsLess(m, m', n - 1); }
  }

  lemma {:induction false} WordsReplace(m: map<nat, seq<byte>>, n: nat, key: nat, value: seq<byte>)
    ensures WordsBelow(m[key := value], n) <= WordsBelow(m, n) + EntryWords(value)
  {
    hide EntryWords;
    WordsInsert(m - {key}, n, key, value);
    assert (m - {key})[key := value] == m[key := value];
    WordsLess(m, m - {key}, n);
  }

  lemma {:induction false} UpdatesWords(f: Format, m: map<nat, seq<byte>>, us: seq<StoreUpdate>)
    requires f.Supported() && Keyed(m) && forall i :: 0 <= i < |us| ==> ValidUpdate(f, us[i])
    ensures Keyed(ApplyUpdates(m, us)) && MapWords(ApplyUpdates(m, us)) <= MapWords(m) + UpdatesSize(us)
  {
    hide EntryWords, WordsBelow;
    if us != [] {
      var n := |us| - 1;
      UpdatesWords(f, m, us[..n]);
      var m1 := ApplyUpdates(m, us[..n]);
      match us[n]
      case InsertUpdate(key, value) => WordsReplace(m1, MAX_KEY + 1, key, value);
      case RemoveUpdate(key) => WordsLess(m1, m1 - {key}, MAX_KEY + 1);
    }
  }

  lemma TransactionWords(f: Format, m: map<nat, seq<byte>>, us: seq<StoreUpdate>)
    requires f.Supported() && Keyed(m) && IsValid(f, us)
    ensures Keyed(ApplyUpdates(m, us))
    ensures MapWords(ApplyUpdates(m, us)) <= MapWords(m) + TransactionCapacity(us)
  {
    hide EntryWords, WordsBelow;
    ValidIs(f, us);
    UpdatesWords(f, m, us);
    if |us| == 1 {
      var m1 := ApplyUpdates(m, us[..0]);
      assert us[..0] == [];
      match us[0]
      case InsertUpdate(key, value) =>
      case RemoveUpdate(key) => WordsLess(m1, m1 - {key}, MAX_KEY + 1);
    }
  }

  // ---------------------------------------------------------------------------------------------
  // Validity of transactions

  /** The sorted keys of a transaction, if it is valid. */
  function SortedOf(f: Format, us: seq<StoreUpdate>): Option<seq<nat>>
    requires f.Supported()
  {
    if us == [] then Some([])
    else
      var n := |us| - 1;
      var keys := SortedOf(f, us[..n]);
      if keys.None? || !ValidUpdate(f, us[n]) || Found(keys.value, us[n].key) then None
      else Some(Inserted(keys.value, us[n].key))
  }

  predicate IsValid(f: Format, us: seq<StoreUpdate>)
    requires f.Supported()
  {
    |us| <= MAX_UPDATES && SortedOf(f, us).Some?
  }

  /** A transaction is valid exactly when its updates are, and are for different keys. */
  lemma {:induction false} SortedOfIs(f: Format, us: seq<StoreUpdate>)
    requires f.Supported()
    ensures SortedOf(f, us).Some? <==>
              && (forall i :: 0 <= i < |us| ==> ValidUpdate(f, us[i]))
              && (forall i, j :: 0 <= i < j < |us| ==> us[i].key != us[j].key)
    ensures SortedOf(f, us).Some? ==>
              && Sorted(SortedOf(f, us).value)
              && forall key: nat :: key in SortedOf(f, us).value <==> exists i :: 0 <= i < |us| && us[i].key == key
  {
    hide Search, Inserted, ValidUpdate;
    if us != [] {
      var n := |us| - 1;
      SortedOfIs(f, us[..n]);
      var keys := SortedOf(f, us[..n]);
      assert forall i :: 0 <= i < n ==> us[..n][i] == us[i];
      if keys.Some? {
        InsertedSorted(keys.value, us[n].key);
      }
    }
  }

  lemma ValidIs(f: Format, us: seq<StoreUpdate>)
    requires f.Supported()
    ensures IsValid(f, us) <==> ValidTransaction(f, us)
  {
    hide ValidUpdate;
    SortedOfIs(f, us);
  }

  lemma {:induction false} NotValid(f: Format, us: seq<StoreUpdate>, n: nat)
    requires f.Supported() && n <= |us| && SortedOf(f, us[..n]).None?
    ensures !IsValid(f, us)
    decreases |us| - n
  {
    hide ValidUpdate, Search, Inserted, Found;
    if n == |us| {
      assert us[..n] == us;
    } else {
      assert us[..n + 1][..n] == us[..n];
      NotValid(f, us, n + 1);
    }
  }

  lemma NoUpdates(f: Format, m: map<nat, seq<byte>>, us: seq<StoreUpdate>)
    requires f.Supported() && us == []
    ensures ApplyUpdates(m, us) == m && IsValid(f, us) && TransactionCapacity(us) == 0
  {
  }

  lemma OneUpdate(f: Format, m: map<nat, seq<byte>>, us: seq<StoreUpdate>)
    requires f.Supported() && |us| == 1
    ensures IsValid(f, us) <==> ValidUpdate(f, us[0])
    ensures ApplyUpdates(m, us) == ApplyUpdate(m, us[0])
  {
    hide ValidUpdate;
    ValidIs(f, us);
    assert us[..0] == [] && ApplyUpdates(m, us[..0]) == m;
  }

  lemma EntryLength(value: seq<byte>)
    ensures EntryWords(value) > 0
  {
  }

  /** Errors that only a store has: its flash failed, is worn out, or cannot record a compaction. */
  predicate IsStorageFailure(r: Status) {
    r.Err? && (r.error == NoLifetime || r.error == StoreError.StorageError || r.error == InvalidStorage)
  }

  /** A result of a store agrees with that of the model unless the storage failed. */
  predicate Agrees(f: Format, m: map<nat, seq<byte>>, op: StoreOperation, r: Status)
    requires f.Supported()
  {
    var expected := ModelRun(f, m, op).1;
    if r.Ok? then expected.Ok? else expected == Err(r.error) || (IsStorageFailure(r) && expected.Ok?)
  }

  // ---------------------------------------------------------------------------------------------
  // What a store does

  predicate IsProper(f: Format, op: StoreOperation)
    requires f.Supported()
  {
    match op
    case Transaction(us) => IsValid(f, us)
    case ClearFrom(minKey) => minKey <= MAX_KEY
    case Prepare(_) => true
  }

  /** The words that an operation asks to be remaining. */
  function Demand(op: StoreOperation): nat {
    match op
    case Transaction(us) => TransactionCapacity(us)
    case ClearFrom(_) => 0
    case Prepare(length) => length
  }

  /** The words for which an operation makes room. */
  function Room(op: StoreOperation): nat {
    if op.ClearFrom? then 1 else Demand(op)
  }

  /** The map after an operation that succeeds. */
  function Effect(m: map<nat, seq<byte>>, op: StoreOperation): map<nat, seq<byte>> {
    match op
    case Transaction(us) => ApplyUpdates(m, us)
    case ClearFrom(minKey) => Below(m, minKey)
    case Prepare(_) => m
  }

  /**
   The result of an operation on a store at rest that is not interrupted. The capacity is checked against
   what a scan sees; then pages are compacted, which may find a page without erase cycles left or a
   distance that cannot be recorded.
   */
  function Forecast(f: Format, v: View, op: StoreOperation): Status
    requires f.Supported()
  {
    if !IsProper(f, op) then Err(InvalidArgument)
    else if Spare(f, v) < Demand(op) then Err(NoCapacity)
    else
      if op.Prepare? then FreedOnce(f, v, Room(op)).1 else Verdict(f, v, Room(op))
  }

  /** An operation is accepted although it needs more words than the capacity has. */
  predicate Overdrawn(f: Format, v: View, op: StoreOperation)
    requires f.Supported()
  {
    IsProper(f, op) && 0 < Demand(op) <= Spare(f, v) && Used(f, v.log) + Demand(op) > f.C()
  }

  /** What may come out of an operation that is forecast to have a result, if it may be interrupted. */
  predicate Foreseen(f: Format, v: View, op: StoreOperation, r: Status)
    requires f.Supported()
  {
    r == Forecast(f, v, op) || (r == Err(StoreError.StorageError) && IsProper(f, op) && Demand(op) <= Spare(f, v))
  }

  /**
   What an operation that succeeds does to the log, unless it is a transaction of several updates: after the
   compactions that it needs, an entry is appended; some entries become padding, and all others stay.
   */
  ghost predicate Stepped(f: Format, v: View, op: StoreOperation, v': View)
    requires f.Supported()
  {
    match op
    case Transaction(us) =>
      && (|us| == 0 ==> v' == v)
      && (|us| == 1 ==>
            match us[0]
            case InsertUpdate(key, value) =>
              BuildUser(key, value).Ok? && Extended(f, Settle(f, v, Room(op)), BuildUser(key, value).value, v')
            case RemoveUpdate(_) => Weaker(f, v, v'))
    case ClearFrom(minKey) =>
      BuildInternal(Clear(minKey)).Ok? && Extended(f, Settle(f, v, Room(op)), [BuildInternal(Clear(minKey)).value], v')
    case Prepare(length) => v' == FreedOnce(f, v, length).0
  }

  lemma SteppedNone(f: Format, v: View, us: seq<StoreUpdate>)
    requires f.Supported() && us == []
    ensures Stepped(f, v, Transaction(us), v)
  {
  }

  lemma SteppedOne(f: Format, v: View, us: seq<StoreUpdate>, v': View)
    requires f.Supported() && |us| == 1
    requires match us[0]
             case InsertUpdate(key, value) =>
               BuildUser(key, value).Ok?
                 && Extended(f, Settle(f, v, EntryWords(value)), BuildUser(key, value).value, v')
             case RemoveUpdate(_) => Weaker(f, v, v')
    ensures Stepped(f, v, Transaction(us), v')
  {
    hide Weaker, BuildUser, Settle, Extended, EntryWords;
    OneSize(us);
  }

  lemma SteppedMany(f: Format, v: View, us: seq<StoreUpdate>, v': View)
    requires f.Supported() && |us| > 1
    ensures Stepped(f, v, Transaction(us), v')
  {
  }

  lemma {:induction false} FreedResult(f: Format, v: View, length: nat)
    requires f.Supported()
    ensures var r := Verdict(f, v, length); r == Ok(()) || r == Err(NoLifetime) || r == Err(InvalidStorage)
    decreases CyclesLeft(f, v)
  {
    hide Crowded, Compactable, Distance, Next, CyclesLeft;
    FreedStep(f, v, length);
    NextFirst(f, v);
    if Crowded(f, v, length) && FreedOnce(f, v, length).1.Ok? {
      FreedResult(f, Next(f, v), length);
    }
  }

  /** The store agrees with the model exactly when it does not accept what is beyond the capacity. */
  lemma ForeseenAgrees(f: Format, v: View, op: StoreOperation, r: Status)
    requires f.Supported() && Formed(f, v) && Idle(f, v) && Used(f, v.log) <= f.C() && Foreseen(f, v, op, r)
    ensures Agrees(f, Content(f, v.log), op, r) <==> !Overdrawn(f, v, op)
    ensures r.Ok? && !Overdrawn(f, v, op) ==>
              ModelRun(f, Content(f, v.log), op).0 == Effect(Content(f, v.log), op)
    ensures r.Err? && !IsStorageFailure(r) ==> ModelRun(f, Content(f, v.log), op).0 == Content(f, v.log)
  {
    hide MapWords, Format.C, IsValid, ApplyUpdates, TransactionCapacity, Content, Used, Freed, FreedOnce, Below, Formed,
         Idle, Spare;
    ContentWords(f, v);
    SpareAtLeast(f, v);
    match op
    case Transaction(us) => FreedResult(f, v, TransactionCapacity(us));
    case ClearFrom(_) => FreedResult(f, v, 1);
    case Prepare(length) => OnceResult(f, v, length);
  }

  lemma OnceResult(f: Format, v: View, length: nat)
    requires f.Supported()
    ensures var r := FreedOnce(f, v, length).1; r == Ok(()) || r == Err(NoLifetime) || r == Err(InvalidStorage)
  {
    hide Crowded, Compactable, Distance, Next;
  }

  /** Nothing beyond the capacity is accepted when a scan sees all user entries. */
  lemma NotOverdrawn(f: Format, v: View, op: StoreOperation)
    requires f.Supported() && Formed(f, v) && Scannable(f, v) && Used(f, v.log) <= f.C()
    ensures !Overdrawn(f, v, op)
  {
    hide Format.C, IsValid, TransactionCapacity, Used, Formed, Spare, Scannable;
    SpareIs(f, v);
  }

  lemma TransactionForeseen(f: Format, v: View, us: seq<StoreUpdate>, r: Status)
    requires f.Supported()
    requires r == Err(InvalidArgument) <==> !IsValid(f, us)
    requires r == Err(NoCapacity) <==> IsValid(f, us) && Spare(f, v) < TransactionCapacity(us)
    requires r == Verdict(f, v, TransactionCapacity(us)) || r == Err(StoreError.StorageError)
             || r == Err(InvalidArgument) || r == Err(NoCapacity)
    ensures Foreseen(f, v, Transaction(us), r)
  {
    hide IsValid, TransactionCapacity, Verdict, Spare;
  }

  lemma ClearForeseen(f: Format, v: View, minKey: nat, r: Status)
    requires f.Supported()
    requires r == Err(InvalidArgument) <==> minKey > MAX_KEY
    requires r == Verdict(f, v, 1) || r == Err(StoreError.StorageError) || r == Err(InvalidArgument)
    ensures Foreseen(f, v, ClearFrom(minKey), r)
  {
    hide Verdict, Spare;
  }

  lemma PrepareForeseen(f: Format, v: View, length: nat, r: Status)
    requires f.Supported()
    requires r == Err(NoCapacity) <==> Spare(f, v) < length
    requires r == FreedOnce(f, v, length).1 || r == Err(StoreError.StorageError) || r == Err(NoCapacity)
    ensures Foreseen(f, v, Prepare(length), r)
  {
    hide FreedOnce, Spare;
  }

  // ---------------------------------------------------------------------------------------------
  // The model itself

  class StoreModel {
    const f: Format
    var content: map<nat, seq<byte>>

    ghost predicate Valid()
      reads this
    {
      f.Supported() && Keyed(content) && MapWords(content) <= f.C()
    }

    constructor (f: Format)
      requires f.Supported()
      ensures Valid() && this.f == f && content == map[]
    {
      this.f := f;
      content := map[];
      new;
      WordsEmpty(content, MAX_KEY + 1);
    }

    /** Returns the capacity according to the model. */
    method GetCapacity() returns (r: StoreRatio)
      requires Valid()
      ensures r == StoreRatio(MapWords(content), f.C())
    {
      var used := 0;
      var rest := content;
      while rest != map[]
        invariant used + MapWords(rest) == MapWords(content) && Keyed(rest)
        decreases |rest|
      {
        var key :| key in rest;
        WordsInsert(rest - {key}, MAX_KEY + 1, key, rest[key]);
        assert (rest - {key})[key := rest[key]] == rest;
        used := used + EntryWords(rest[key]);
        assert |rest - {key}| < |rest| by { assert rest.Keys - {key} < rest.Keys; MapSmaller(rest, key); }
        rest := rest - {key};
      }
      WordsEmpty(rest, MAX_KEY + 1);
      return StoreRatio(used, f.C());
    }

    /** Simulates a store operation. */
    method Apply(op: StoreOperation) returns (r: Status)
      requires Valid()
      modifies this
      ensures Valid()
      ensures (content, r) == ModelRun(f, old(content), op)
    {
      ModelFits(f, content, op);
      match op {
        case Transaction(us) =>
          if !IsValid(f, us) {
            return Err(InvalidArgument);
          }
          var capacity := GetCapacity();
          RemainingIs(f, capacity.used);
          if capacity.Remaining() < TransactionCapacity(us) {
            return Err(NoCapacity);
          }
          ghost var before := content;
          for i := 0 to |us|
            invariant content == ApplyUpdates(before, us[..i])
          {
            assert us[..i + 1][..i] == us[..i];
            match us[i] {
              case InsertUpdate(key, value) => content := content[key := value];
              case RemoveUpdate(key) => content := content - {key};
            }
          }
          assert us[..|us|] == us;
          return Ok(());
        case ClearFrom(minKey) =>
          if minKey > MAX_KEY {
            return Err(InvalidArgument);
          }
          content := map key | key in content && key < minKey :: content[key];
          return Ok(());
        case Prepare(length) =>
          var capacity := GetCapacity();
          RemainingIs(f, capacity.used);
          if capacity.Remaining() < length {
            return Err(NoCapacity);
          }
          return Ok(());
      }
    }
  }

  /** Within the capacity, no subtraction wraps around. */
  lemma RemainingIs(f: Format, used: nat)
    requires f.Supported() && used <= f.C()
    ensures StoreRatio(used, f.C()).Remaining() == f.C() - used
  {
    hide Format.C, Format.V, Format.M, Format.Q;
    VirtSizes(f);
    SizeLimits(f);
  }

  lemma MapSmaller(m: map<nat, seq<byte>>, key: nat)
    requires key in m
    ensures |m - {key}| < |m|
  {
    assert (m - {key}).Keys == m.Keys - {key};
    assert |m.Keys - {key}| == |m.Keys| - 1;
  }
}
