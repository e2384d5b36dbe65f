/** Transactions: their validity, their size, their meaning, and the log while they are written. */
module StoreUpdates {
  import opened Wrappers
  import opened Words
  import opened Format
  import opened Bytes
  import opened Entries
  import opened Flash
  import opened Log
  import opened States
  import opened Appending
  import opened Contents
  import opened Stages
  import opened Transactions

  /** One key gets a value or is removed. */
  datatype StoreUpdate = InsertUpdate(key: nat, value: seq<byte>) | RemoveUpdate(key: nat)

  function EntryWords(value: seq<byte>): nat {
    1 + BytesToWords(|value|)
  }

  /** The capacity of an update in a transaction of several updates. */
  function UpdateSize(u: StoreUpdate): nat {
    match u
    case InsertUpdate(_, value) => EntryWords(value)
    case RemoveUpdate(_) => 1
  }

  function UpdatesSize(us: seq<StoreUpdate>): nat {
    if us == [] then 0 else UpdatesSize(us[..|us| - 1]) + UpdateSize(us[|us| - 1])
  }

  /** The words that a transaction takes: several updates need a marker, a removal alone needs nothing. */
  function TransactionCapacity(us: seq<StoreUpdate>): nat {
    if |us| == 0 then 0
    else if |us| == 1 then
      match us[0]
      case InsertUpdate(_, value) => EntryWords(value)
      case RemoveUpdate(_) => 0
    else 1 + UpdatesSize(us)
  }

  predicate ValidUpdate(f: Format, u: StoreUpdate)
    requires f.Supported()
  {
    u.key <= MAX_KEY && (u.InsertUpdate? ==> |u.value| <= f.MaxValueLen())
  }

  /** A transaction has few enough updates, all of them valid, for different keys. */
  ghost predicate ValidTransaction(f: Format, us: seq<StoreUpdate>)
    requires f.Supported()
  {
    && |us| <= MAX_UPDATES
    && (forall i :: 0 <= i < |us| ==> ValidUpdate(f, us[i]))
    && (forall i, j :: 0 <= i < j < |us| ==> us[i].key != us[j].key)
  }

  function ApplyUpdate(m: map<nat, seq<byte>>, u: StoreUpdate): map<nat, seq<byte>> {
    match u
    case InsertUpdate(key, value) => m[key := value]
    case RemoveUpdate(key) => m - {key}
  }

  /** What a transaction does to the map: its updates one after the other. */
  function ApplyUpdates(m: map<nat, seq<byte>>, us: seq<StoreUpdate>): map<nat, seq<byte>> {
    if us == [] then m else ApplyUpdate(ApplyUpdates(m, us[..|us| - 1]), us[|us| - 1])
  }

  // ---------------------------------------------------------------------------------------------
  // Writing a transaction

  /** The entry written for an update. */
  predicate WrittenFor(f: Format, u: StoreUpdate, ws: seq<Word>)
    requires f.Supported()
  {
    match u
    case InsertUpdate(key, value) => key <= MAX_KEY && |value| <= f.MaxValueLen() && BuildUser(key, value) == Ok(ws)
    case RemoveUpdate(key) =>
      key <= MAX_KEY && BuildInternal(Remove(key)).Ok? && ws == [BuildInternal(Remove(key)).value]
  }

  predicate KindFor(u: StoreUpdate, kind: Kind) {
    match u
    case InsertUpdate(key, _) => kind == User(key)
    case RemoveUpdate(key) => kind == Internal(Remove(key))
  }

  lemma WrittenKind(f: Format, u: StoreUpdate, ws: seq<Word>)
    requires f.Supported() && ValidUpdate(f, u) && WrittenFor(f, u, ws)
    ensures KindFor(u, KindOf(f, ws)) && |ws| == UpdateSize(u) && Appendable(f, ws)
    ensures u.InsertUpdate? ==> ValueOf(f, ws) == u.value && ForUser(f, u.key, u.value, ws)
  {
    hide KindOf, ValueOf, BuildUser, BuildInternal;
    match u
    case InsertUpdate(key, value) =>
      BuildUserReads(f, key, value);
      WordsMonotone(|value|, f.MaxValueLen());
    case RemoveUpdate(key) =>
      InternalKind(f, Remove(key));
  }

  /** The log of a store that was at rest once the marker and some of the updates are written. */
  ghost predicate Writing(f: Format, v0: View, v: View, us: seq<StoreUpdate>, i: nat)
    requires f.Supported()
  {
    var m := |v0.log|;
    && i <= |us| && |v.log| == m + 1 + i && v.log[..m] == v0.log && v.first == v0.first && v.lean == v0.lean
    && HeadAt(v, 0) == HeadAt(v0, 0)
    && Kinds(f, v, m) == Internal(Marker(|us|))
    && (forall j: nat :: j < i ==> KindFor(us[j], KindOf(f, v.log[m + 1 + j].ws)))
    && v.tail == v0.tail + 1 + UpdatesSize(us[..i])
    && Used(f, v.log) <= Used(f, v0.log) + UpdatesSize(us[..i])
    && Content(f, v.log) == ApplyUpdates(Content(f, v0.log), us[..i])
  }

  /** The store was at rest and has the capacity for a transaction. */
  ghost predicate Prepared(f: Format, v0: View, us: seq<StoreUpdate>)
    requires f.Supported()
  {
    && Idle(f, v0) && ValidTransaction(f, us) && us != []
    && v0.tail + 1 + UpdatesSize(us) <= HeadAt(v0, 0) + f.V()
    && (v0.lean ==> Used(f, v0.log) + 1 + UpdatesSize(us) <= f.C())
  }

  lemma {:induction false} SizePrefix(us: seq<StoreUpdate>, i: nat)
    requires i <= |us|
    ensures UpdatesSize(us[..i]) <= UpdatesSize(us)
    ensures i < |us| ==> UpdatesSize(us[..i]) + UpdateSize(us[i]) == UpdatesSize(us[..i + 1]) <= UpdatesSize(us)
    decreases |us|
  {
    if i == |us| {
      assert us[..i] == us;
    } else {
      assert us[..i + 1][..i] == us[..i];
      if i + 1 == |us| {
        assert us[..i + 1] == us;
      } else {
        var n := |us| - 1;
        SizePrefix(us[..n], i + 1);
        assert us[..n][..i + 1] == us[..i + 1];
      }
    }
  }

  lemma WritingCalm(f: Format, v0: View, v: View, us: seq<StoreUpdate>, i: nat)
    requires f.Supported() && Idle(f, v0) && Writing(f, v0, v, us, i)
    ensures Calm(f, v, |v0.log|) && Apart(f, v, |v0.log|)
    ensures forall k: nat :: |v0.log| < k < |v.log| ==> KindFor(us[k - |v0.log| - 1], Kinds(f, v, k))
    ensures Complete(f, v)
  {
    hide KindOf, Content, Used, UpdatesSize, ApplyUpdates;
    var m := |v0.log|;
    forall k: nat | k < m ensures v.log[k] == v0.log[k] && Kinds(f, v, k) == Kinds(f, v0, k) && IsCalm(Kinds(f, v, k)) {
      assert v.log[k] == v.log[..m][k];
      assert IsCalm(Kinds(f, v0, k));
    }
    forall a: nat, b: nat | a < b < m && Kinds(f, v, a).User? ensures !Updates(f, v.log[b], Kinds(f, v, a).key) {
      assert Kinds(f, v0, a).User?;
    }
    forall k: nat | m < k < |v.log| ensures KindFor(us[k - m - 1], Kinds(f, v, k)) {
      assert v.log[m + 1 + (k - m - 1)] == v.log[k];
    }
    forall k: nat | k < |v.log| ensures !Kinds(f, v, k).TornUser? && !Kinds(f, v, k).TornEntry? {
      if k > m { assert KindFor(us[k - m - 1], Kinds(f, v, k)); }
    }
  }

  /** While its updates are written, a transaction is under way; it is committed by the last one. */
  lemma WritingOk(f: Format, v0: View, v: View, us: seq<StoreUpdate>, i: nat)
    requires Formed(f, v) && Prepared(f, v0, us) && Writing(f, v0, v, us, i)
    ensures TransactionOk(f, v, |v0.log|) && Roomy(f, v) && Complete(f, v)
    ensures MayOpen(f, v, InTransaction(|v0.log|))
    ensures Committed(f, v, |v0.log|) <==> i == |us|
    ensures Outcome(f, v, InTransaction(|v0.log|)) ==
            if i == |us| then ApplyUpdates(Content(f, v0.log), us) else Content(f, v0.log)
  {
    hide KindOf, Content, Used, UpdatesSize, ApplyUpdates, Apart, Calm, Contiguous, Parses, MarksOk, Format.V, Format.C,
         HeadAt;
    WritingCalm(f, v0, v, us, i);
    SizePrefix(us, i);
    TightIsRoomy(f, v);
    var m := |v0.log|;
    WritingShape(f, v0, v, us, i);
    if i == |us| { assert us[..i] == us; }
  }

  lemma WritingShape(f: Format, v0: View, v: View, us: seq<StoreUpdate>, i: nat)
    requires Formed(f, v) && Prepared(f, v0, us) && Writing(f, v0, v, us, i) && Tight(f, v)
    ensures TransactionOk(f, v, |v0.log|) && MayOpen(f, v, InTransaction(|v0.log|))
    ensures Committed(f, v, |v0.log|) <==> i == |us|
  {
    hide KindOf, Content, Used, UpdatesSize, ApplyUpdates, Apart, Calm, Contiguous, Parses, MarksOk, Tight, Format.V,
         Format.C;
    WritingCalm(f, v0, v, us, i);
    var m := |v0.log|;
    forall k: nat | m < k < |v.log| ensures IsUpdate(Kinds(f, v, k)) && UpdateKey(Kinds(f, v, k)) == us[k - m - 1].key {
      assert KindFor(us[k - m - 1], Kinds(f, v, k));
    }
  }

  lemma OneMark(f: Format, v: View)
    requires Formed(f, v)
    ensures |v.marks| >= 1
  {
    hide KindOf, Contiguous, Parses;
  }

  /** Writing the marker starts the transaction. */
  lemma WritingStart(f: Format, v0: View, v: View, us: seq<StoreUpdate>, ws: seq<Word>)
    requires Formed(f, v0) && Prepared(f, v0, us) && |ws| == 1 && KindOf(f, ws) == Internal(Marker(|us|))
    requires v == Append(f, v0, ws)
    ensures Formed(f, v) && Writing(f, v0, v, us, 0)
  {
    hide KindOf, Content, Contiguous, Parses, MarksOk, Start, Apart, Calm, Format.V, Format.C, Format.M;
    CalmComplete(f, v0);
    AppendFormed(f, v0, ws);
    OneMark(f, v0);
    AppendHeads(f, v0, ws);
    AppendKinds(f, v0, ws);
    UsedAppend(f, v0.log, Item(v0.tail, ws));
    ContentIgnore(f, v0.log, Item(v0.tail, ws));
    assert v.log[..|v0.log|] == v0.log;
    assert us[..0] == [];
  }

  /** Writing the next update. */
  lemma WritingNext(f: Format, v0: View, v: View, v': View, us: seq<StoreUpdate>, i: nat, ws: seq<Word>)
    requires Formed(f, v) && Prepared(f, v0, us) && Writing(f, v0, v, us, i) && i < |us|
    requires WrittenFor(f, us[i], ws) && v' == Append(f, v, ws)
    ensures Formed(f, v') && Writing(f, v0, v', us, i + 1)
  {
    hide KindOf, Content, Used, UpdatesSize, ApplyUpdates, ApplyUpdate, Apart, Calm, Contiguous, Parses, MarksOk, Start,
         WrittenFor, Format.V, Format.C, Format.M;
    WrittenKind(f, us[i], ws);
    WritingCalm(f, v0, v, us, i);
    AppendFormed(f, v, ws);
    OneMark(f, v);
    AppendHeads(f, v, ws);
    SizePrefix(us, i);
    var it := Item(v.tail, ws);
    assert v'.log == v.log + [it];
    UsedAppend(f, v.log, it);
    WritingNextContent(f, v.log, us, i, it, Content(f, v0.log));
    var m := |v0.log|;
    assert v'.log[..m] == v.log[..m];
    forall j: nat | j < i + 1 ensures KindFor(us[j], KindOf(f, v'.log[m + 1 + j].ws)) {
      if j < i { assert v'.log[m + 1 + j] == v.log[m + 1 + j]; }
    }
    assert v'.log[m] == v.log[m];
  }

  lemma WritingNextContent(f: Format, log: seq<Item>, us: seq<StoreUpdate>, i: nat, it: Item, c: map<nat, seq<byte>>)
    requires f.Supported() && i < |us| && ValidUpdate(f, us[i])
    requires KindFor(us[i], KindOf(f, it.ws))
    requires us[i].InsertUpdate? ==> ValueOf(f, it.ws) == us[i].value
    requires Content(f, log) == ApplyUpdates(c, us[..i])
    ensures Content(f, log + [it]) == ApplyUpdates(c, us[..i + 1])
  {
    hide KindOf, Content, ValueOf;
    assert us[..i + 1][..i] == us[..i];
    match us[i]
    case InsertUpdate(key, value) => ContentInsert(f, log, it, key);
    case RemoveUpdate(key) => ContentRemove(f, log, it, key);
  }

  lemma ContentRemove(f: Format, log: seq<Item>, it: Item, key: nat)
    requires f.Supported() && KindOf(f, it.ws) == Internal(Remove(key)) && key <= MAX_KEY
    ensures Content(f, log + [it]) == Content(f, log) - {key}
  {
    hide KindOf, ValueOf, Lookup;
    forall k: nat | k <= MAX_KEY
      ensures Lookup(f, log + [it], k) == if k == key then None else Lookup(f, log, k)
    {
      LookupAppend(f, log, it, k);
    }
    RemovedContent(f, log, log + [it], key);
  }

  /** A torn update leaves the transaction under way and uncommitted. */
  lemma WritingTorn(f: Format, v0: View, v: View, v': View, us: seq<StoreUpdate>, i: nat, ts: seq<Word>)
    requires Formed(f, v) && Prepared(f, v0, us) && Writing(f, v0, v, us, i) && i < |us|
    requires |ts| <= UpdateSize(us[i]) && Appendable(f, ts) && IsTorn(KindOf(f, ts)) && v' == Append(f, v, ts)
    ensures Formed(f, v') && TransactionOk(f, v', |v0.log|) && Roomy(f, v') && MayOpen(f, v', InTransaction(|v0.log|))
    ensures Outcome(f, v', InTransaction(|v0.log|)) == Content(f, v0.log)
  {
    hide KindOf, Content, Used, UpdatesSize, ApplyUpdates, Contiguous, Parses, MarksOk, Start, UpdateSize, Format.V,
         Format.C, Format.M, Apart, Calm;
    WritingCalm(f, v0, v, us, i);
    SizePrefix(us, i);
    AppendTight(f, v, ts);
    AppendApart(f, v, ts, |v0.log|);
    var m := |v0.log|;
    TornShape(f, v0, v, v', us, i, ts);
    assert v'.log[..m] == v.log[..m];
    assert !IsUpdate(Kinds(f, v', |v'.log| - 1));
  }

  lemma TornShape(f: Format, v0: View, v: View, v': View, us: seq<StoreUpdate>, i: nat, ts: seq<Word>)
    requires f.Supported() && Prepared(f, v0, us) && Writing(f, v0, v, us, i) && i < |us|
    requires IsTorn(KindOf(f, ts)) && v' == Append(f, v, ts) && Tight(f, v')
    requires Calm(f, v', |v0.log|) && Apart(f, v', |v0.log|)
    ensures TransactionOk(f, v', |v0.log|) && Kinds(f, v', |v'.log| - 1) == KindOf(f, ts)
    ensures MayOpen(f, v', InTransaction(|v0.log|))
  {
    hide KindOf, Content, Used, UpdatesSize, ApplyUpdates, Tight, Start, Apart, Calm, Format.V, Format.C;
    WritingCalm(f, v0, v, us, i);
    AppendKinds(f, v, ts);
    var m := |v0.log|;
    forall k: nat | m < k < |v.log| ensures IsUpdate(Kinds(f, v', k))
      && UpdateKey(Kinds(f, v', k)) == us[k - m - 1].key {
      assert KindFor(us[k - m - 1], Kinds(f, v, k));
    }
  }

  /** What writing an update leaves. */
  ghost predicate LeavesUpdate(f: Format, v: View, v': View, u: StoreUpdate)
    requires f.Supported()
  {
    || v' == v
    || (exists ws: seq<Word> :: v' == Append(f, v, ws) && WrittenFor(f, u, ws))
    || (exists ts: seq<Word> ::
          v' == Append(f, v, ts) && |ts| <= UpdateSize(u) && Appendable(f, ts) && IsTorn(KindOf(f, ts)))
  }

  lemma UserLeavesUpdate(f: Format, v: View, v': View, u: StoreUpdate, ws: seq<Word>)
    requires f.Supported() && u.InsertUpdate? && ForUser(f, u.key, u.value, ws)
    requires LeavesUser(f, v, v', ws)
    ensures LeavesUpdate(f, v, v', u)
  {
    hide KindOf, BuildUser, Append;
    if v' == v {
    } else if v' == Append(f, v, ws) {
      assert WrittenFor(f, u, ws);
    } else {
      var ts: seq<Word> :| v' == Append(f, v, ts) && |ts| <= |ws| && Appendable(f, ts)
                           && (KindOf(f, ts).TornEntry? || KindOf(f, ts).TornUser?);
      assert |ts| <= UpdateSize(u) && IsTorn(KindOf(f, ts));
    }
  }

  lemma RemoveLeavesUpdate(f: Format, v: View, v': View, u: StoreUpdate)
    requires f.Supported() && u.RemoveUpdate? && u.key <= MAX_KEY && BuildInternal(Remove(u.key)).Ok?
    requires LeavesInternal(f, v, v', Remove(u.key))
    ensures LeavesUpdate(f, v, v', u)
  {
    hide KindOf, BuildInternal, Append;
    if v' != v {
      var t: Word :| v' == Append(f, v, [t])
        && (KindOf(f, [t]).TornEntry?
            || (t == BuildInternal(Remove(u.key)).value && KindOf(f, [t]) == Internal(Remove(u.key))));
      f.SizeBounds();
      if !KindOf(f, [t]).TornEntry? {
        assert WrittenFor(f, u, [t]);
      } else {
        assert IsTorn(KindOf(f, [t])) && |[t]| <= UpdateSize(u) && Appendable(f, [t]);
      }
    }
  }

  /** Interrupting the write of an update leaves a transaction that is rolled back or, with its last update, applied. */
  lemma UpdateHalts(f: Format, pages: Pages, v0: View, v: View, v': View, us: seq<StoreUpdate>, i: nat)
    requires Formed(f, v) && Prepared(f, v0, us) && Writing(f, v0, v, us, i) && i < |us|
    requires LeavesUpdate(f, v, v', us[i]) && Steady(f, pages, v', |v'.marks| == |v.marks|)
    ensures Halted(f, pages, v', InTransaction(|v0.log|))
    ensures Outcome(f, v', InTransaction(|v0.log|)) == Content(f, v0.log)
         || Outcome(f, v', InTransaction(|v0.log|)) == ApplyUpdates(Content(f, v0.log), us)
    ensures Unbroken(f, v', InTransaction(|v0.log|)) && v'.lean == v0.lean
  {
    hide KindOf, Content, Prepared, Writing, Contiguous, Parses, MarksOk, Steady, OpensPage, TransactionOk, Committed,
         Roomy, WrittenFor, Append, ApplyUpdates, UpdateSize;
    if v' == v {
      WritingOk(f, v0, v, us, i);
      WritingUnbroken(f, v0, v, us, i);
      SteadyUntidy(f, pages, v);
    } else if exists ws: seq<Word> :: v' == Append(f, v, ws) && WrittenFor(f, us[i], ws) {
      var ws: seq<Word> :| v' == Append(f, v, ws) && WrittenFor(f, us[i], ws);
      PreparedValid(f, v0, us, i);
      WrittenKind(f, us[i], ws);
      WritingNext(f, v0, v, v', us, i, ws);
      WritingOk(f, v0, v', us, i + 1);
      WritingUnbroken(f, v0, v', us, i + 1);
      AppendedSteady(f, pages, v, ws);
    } else {
      var ts: seq<Word> :| v' == Append(f, v, ts) && |ts| <= UpdateSize(us[i]) && Appendable(f, ts)
        && IsTorn(KindOf(f, ts));
      WritingTorn(f, v0, v, v', us, i, ts);
      WritingUnbroken(f, v0, v, us, i);
      AppendedUnbroken(f, v, v', |v0.log|, ts);
      AppendedSteady(f, pages, v, ts);
    }
  }

  /** Once all updates are written, the transaction is committed. */
  lemma WritingDone(f: Format, pages: Pages, v0: View, v: View, us: seq<StoreUpdate>)
    requires f.Supported() && Formed(f, v) && Prepared(f, v0, us) && Writing(f, v0, v, us, |us|)
    requires Steady(f, pages, v, true)
    ensures Halted(f, pages, v, InTransaction(|v0.log|)) && TransactionOk(f, v, |v0.log|) && Committed(f, v, |v0.log|)
    ensures StageOk(f, v, InTransaction(|v0.log|))
    ensures Outcome(f, v, InTransaction(|v0.log|)) == ApplyUpdates(Content(f, v0.log), us)
  {
    hide KindOf, Content, ApplyUpdates, Writing, Prepared, Formed, Steady, TransactionOk, Committed, Outcome, MayOpen,
         OpensPage, Roomy, Complete;
    WritingOk(f, v0, v, us, |us|);
    SteadyUntidy(f, pages, v);
  }

  /** The updates that were written are there. */
  lemma WritingUnbroken(f: Format, v0: View, v: View, us: seq<StoreUpdate>, i: nat)
    requires f.Supported() && Prepared(f, v0, us) && Writing(f, v0, v, us, i)
    ensures Unbroken(f, v, InTransaction(|v0.log|)) && v.lean == v0.lean && |v.log| > |v0.log|
    ensures Tight(f, v)
  {
    hide KindOf, Content, Used, UpdatesSize, ApplyUpdates, Apart, Calm, Format.V, Format.C, HeadAt;
    WritingCalm(f, v0, v, us, i);
    SizePrefix(us, i);
    forall k: nat | |v0.log| < k < |v.log| ensures !Kinds(f, v, k).Padding? {
      assert KindFor(us[k - |v0.log| - 1], Kinds(f, v, k));
    }
  }

  lemma AppendedUnbroken(f: Format, v: View, v': View, m: nat, ts: seq<Word>)
    requires f.Supported() && v' == Append(f, v, ts) && IsTorn(KindOf(f, ts)) && Unbroken(f, v, InTransaction(m))
    ensures Unbroken(f, v', InTransaction(m)) && v'.lean == v.lean
  {
    hide KindOf, Start;
    AppendKinds(f, v, ts);
    AppendedLast(f, v, ts);
  }

  lemma PreparedValid(f: Format, v0: View, us: seq<StoreUpdate>, i: nat)
    requires f.Supported() && Prepared(f, v0, us) && i < |us|
    ensures ValidUpdate(f, us[i])
  {
    hide KindOf, Content, Used;
  }

  lemma CompleteLeaves(f: Format, v: View, v': View, ws: seq<Word>, ok: bool)
    requires f.Supported() && (if ok then v' == Append(f, v, ws) else LeavesUser(f, v, v', ws))
    ensures LeavesUser(f, v, v', ws)
  {
    hide KindOf, Append;
  }

  lemma InternalLeaves(f: Format, v: View, v': View, e: InternalEntry, ok: bool)
    requires f.Supported() && InternalInRange(f, e)
    requires if ok then BuildInternal(e).Ok? && v' == Append(f, v, [BuildInternal(e).value])
             else LeavesInternal(f, v, v', e)
    ensures LeavesInternal(f, v, v', e)
    ensures BuildInternal(e).Ok?
  {
    hide KindOf, BuildInternal, Append;
    InternalKind(f, e);
    if ok {
      var t: Word := BuildInternal(e).value;
      assert v' == Append(f, v, [t]);
    }
  }

  lemma PreparedRoom(f: Format, v0: View, us: seq<StoreUpdate>)
    requires Formed(f, v0) && Prepared(f, v0, us)
    ensures Complete(f, v0) && v0.tail + 1 <= Start(f, v0, f.numPages - 1) && InternalInRange(f, Marker(|us|))
  {
    hide KindOf, Start, Contiguous, Parses, MarksOk, Format.V, UpdatesSize, Used;
    CalmComplete(f, v0);
    WithinWindow(f, v0, v0.tail + 1);
  }

  /** What writing the marker leaves is a halted store with the old map. */
  lemma MarkerLeft(f: Format, pages: Pages, v0: View, v': View, us: seq<StoreUpdate>) returns (st: Stage)
    requires Formed(f, v0) && Prepared(f, v0, us) && Roomy(f, v0) && BuildInternal(Marker(|us|)).Ok?
    requires LeavesInternal(f, v0, v', Marker(|us|)) && Steady(f, pages, v', |v'.marks| == |v0.marks|)
    ensures Halted(f, pages, v', st)
    ensures Outcome(f, v', st) == Content(f, v0.log)
    ensures Tight(f, v') && Unbroken(f, v', st) && v'.lean == v0.lean
    ensures v' == Append(f, v0, [BuildInternal(Marker(|us|)).value]) ==>
              st == InTransaction(|v0.log|) && Formed(f, v') && Writing(f, v0, v', us, 0)
  {
    hide KindOf, Content, Contiguous, Parses, MarksOk, Steady, OpensPage, TransactionOk, SettledOk, Committed, Roomy,
         Append, ApplyUpdates, UpdatesSize, Writing, BuildInternal, Used, Format.V, Format.C, Idle;
    var w := BuildInternal(Marker(|us|)).value;
    f.SizeBounds();
    InternalKind(f, Marker(|us|));
    if v' == Append(f, v0, [w]) {
      WritingStart(f, v0, v', us, [w]);
      WritingOk(f, v0, v', us, 0);
      WritingUnbroken(f, v0, v', us, 0);
      AppendedSteady(f, pages, v0, [w]);
      st := InTransaction(|v0.log|);
    } else if v' == v0 {
      SteadyUntidy(f, pages, v0);
      IdleSettled(f, v0);
      st := Settled;
    } else {
      var t: Word :| v' == Append(f, v0, [t]) && KindOf(f, [t]).TornEntry?;
      AppendedSteady(f, pages, v0, [t]);
      AppendedTorn(f, v0, [t]);
      AppendedLast(f, v0, [t]);
      st := Settled;
    }
  }

  lemma MarkerLast(f: Format, v0: View, v: View, us: seq<StoreUpdate>)
    requires f.Supported() && BuildInternal(Marker(|us|)).Ok? && v == Append(f, v0, [BuildInternal(Marker(|us|)).value])
    ensures |v.log| == |v0.log| + 1 && v.log[|v0.log|].pos == v0.tail && End(v.log[|v0.log|]) == v0.tail + 1
    ensures v.tail == v0.tail + 1
  {
    hide KindOf, BuildInternal, Start;
  }

  lemma UpdateRoom(f: Format, v0: View, v: View, us: seq<StoreUpdate>, i: nat)
    requires Formed(f, v) && Prepared(f, v0, us) && Writing(f, v0, v, us, i) && i < |us|
    ensures Complete(f, v) && ValidUpdate(f, us[i])
    ensures v.tail + UpdateSize(us[i]) <= Start(f, v, f.numPages - 1)
  {
    hide KindOf, Start, Contiguous, Parses, MarksOk, Format.V, UpdatesSize, UpdateSize, Used, Content, HeadAt,
         ApplyUpdates;
    WritingCalm(f, v0, v, us, i);
    SizePrefix(us, i);
    WithinWindow(f, v, v.tail + UpdateSize(us[i]));
  }

  lemma UpdateLast(f: Format, v0: View, v: View, v': View, us: seq<StoreUpdate>, i: nat, length: nat)
    requires Formed(f, v) && Prepared(f, v0, us) && Writing(f, v0, v, us, i) && i < |us|
    requires exists ws: seq<Word> :: v' == Append(f, v, ws) && WrittenFor(f, us[i], ws) && |ws| == length + 1
    ensures Formed(f, v') && Writing(f, v0, v', us, i + 1)
    ensures |v'.log| == |v.log| + 1 && v'.log[|v.log|].pos == v.tail
            && End(v'.log[|v.log|]) == v.tail + length + 1 == v'.tail
  {
    hide KindOf, WrittenFor, Contiguous, Parses, MarksOk, Start, Prepared, Writing;
    var ws: seq<Word> :| v' == Append(f, v, ws) && WrittenFor(f, us[i], ws) && |ws| == length + 1;
    WritingNext(f, v0, v, v', us, i, ws);
  }

  lemma WritingKeys(f: Format, v0: View, v: View, us: seq<StoreUpdate>, keys: seq<nat>)
    requires f.Supported() && Idle(f, v0) && Writing(f, v0, v, us, |us|)
    requires forall key: nat :: key in keys <==> exists i :: 0 <= i < |us| && us[i].key == key
    ensures KeysOf(f, v, |v0.log|, keys)
  {
    hide KindOf, Content, Used, UpdatesSize, ApplyUpdates;
    WritingCalm(f, v0, v, us, |us|);
    var m := |v0.log|;
    forall k: nat | m < k < |v.log| && IsUpdate(Kinds(f, v, k)) ensures UpdateKey(Kinds(f, v, k)) in keys {
      assert KindFor(us[k - m - 1], Kinds(f, v, k));
    }
    forall key: nat | key in keys ensures exists k: nat :: m < k < |v.log| && Updates(f, v.log[k], key) {
      var i :| 0 <= i < |us| && us[i].key == key;
      var k: nat := m + 1 + i;
      assert KindFor(us[k - m - 1], Kinds(f, v, k));
      assert Updates(f, v.log[k], key);
    }
  }

  lemma WritingMarker(f: Format, v0: View, v: View, us: seq<StoreUpdate>)
    requires Formed(f, v0) && Formed(f, v) && Writing(f, v0, v, us, |us|)
    ensures |v0.log| < |v.log| && v.log[|v0.log|].pos == v0.tail
  {
    hide KindOf, Content, Used, UpdatesSize, ApplyUpdates, MarksOk, Parses;
    var m := |v0.log|;
    HeadIsFirst(f, v0);
    HeadIsFirst(f, v);
    if m > 0 {
      assert v.log[m - 1] == v.log[..m][m - 1] == v0.log[m - 1];
    }
  }

  /** A transaction of several updates that has been given the capacity it needs may be written. */
  lemma ManyUpdates(f: Format, pages: Pages, v: View, us: seq<StoreUpdate>)
    requires AtRest(f, pages, v) && |us| > 1 && ValidTransaction(f, us)
    requires v.tail + TransactionCapacity(us) <= HeadAt(v, 0) + f.V()
             && (v.lean ==> Used(f, v.log) + TransactionCapacity(us) <= f.C())
    ensures f.Supported() && Prepared(f, v, us)
  {
    hide Steady, Idle, Roomy, Used, HeadAt, Format.V, Format.C, ValidTransaction, UpdatesSize;
    SteadyFormed(f, pages, v, true);
  }

  lemma OneSize(us: seq<StoreUpdate>)
    requires |us| <= 1
    ensures TransactionCapacity(us) ==
            if us == [] then 0 else match us[0] case InsertUpdate(_,
                value) => EntryWords(value) case RemoveUpdate(_) => 0
  {
  }

  lemma ManySize(us: seq<StoreUpdate>)
    requires |us| > 1
    ensures TransactionCapacity(us) > 0
  {
  }

  /** What writing the clear entry leaves: the clear operation under way, or a store with the old map. */
  lemma ClearLeft(f: Format, pages: Pages, v: View, v': View, minKey: nat) returns (st: Stage)
    requires Formed(f, v) && Idle(f, v) && Roomy(f, v) && minKey <= MAX_KEY && BuildInternal(Clear(minKey)).Ok?
    requires v.tail + 1 <= HeadAt(v, 0) + f.V()
    requires LeavesInternal(f, v, v', Clear(minKey)) && Steady(f, pages, v', |v'.marks| == |v.marks|)
    ensures Halted(f, pages, v', st)
    ensures Outcome(f, v', st) == Content(f, v.log) || Outcome(f, v', st) == Below(Content(f, v.log), minKey)
    ensures v' == Append(f, v, [BuildInternal(Clear(minKey)).value]) ==>
              st == Clearing(minKey) && v'.log != [] && v'.log[|v'.log| - 1].pos == v.tail
              && Outcome(f, v', st) == Below(Content(f, v.log), minKey)
    ensures Tight(f, v') && Unbroken(f, v', st) && v'.lean == v.lean
  {
    hide KindOf, Content, Contiguous, Parses, MarksOk, Steady, OpensPage, SettledOk, Roomy, Append, BuildInternal, Used,
         Format.V, Format.C, Format.M, Idle, Below;
    var w := BuildInternal(Clear(minKey)).value;
    f.SizeBounds();
    InternalKind(f, Clear(minKey));
    if v' == Append(f, v, [w]) {
      AppendedSteady(f, pages, v, [w]);
      AppendedClear(f, v, minKey, w);
      AppendedLast(f, v, [w]);
      st := Clearing(minKey);
    } else if v' == v {
      SteadyUntidy(f, pages, v);
      IdleSettled(f, v);
      st := Settled;
    } else {
      var t: Word :| v' == Append(f, v, [t]) && KindOf(f, [t]).TornEntry?;
      AppendedSteady(f, pages, v, [t]);
      RoomyUsed(f, v);
      AppendedTorn(f, v, [t]);
      AppendedLast(f, v, [t]);
      st := Settled;
    }
  }

  lemma AppendedClear(f: Format, v: View, minKey: nat, w: Word)
    requires Formed(f, v) && Idle(f, v) && Roomy(f, v) && KindOf(f, [w]) == Internal(Clear(minKey))
    requires v.tail + 1 <= HeadAt(v, 0) + f.V()
    ensures var v' := Append(f, v, [w]);
            && ClearingOk(f, v', minKey) && Roomy(f, v') && Content(f, v'.log) == Content(f, v.log)
            && v'.log[|v'.log| - 1].pos == v.tail
  {
    hide KindOf, Contiguous, Parses, MarksOk, Start, Used, Apart, Roomy, Content, Tight, Format.M, Format.V, Format.C,
         Calm;
    f.SizeBounds();
    CalmComplete(f, v);
    RoomyUsed(f, v);
    AppendTight(f, v, [w]);
    AppendKinds(f, v, [w]);
    AppendApart(f, v, [w], |v.log|);
    assert Append(f, v, [w]).log == v.log + [Item(v.tail, [w])];
    ContentIgnore(f, v.log, Item(v.tail, [w]));
  }

  lemma RoomyUsed(f: Format, v: View)
    requires f.Supported() && Roomy(f, v)
    ensures v.lean ==> Used(f, v.log) <= f.C()
  {
  }
}
