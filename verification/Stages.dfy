/**
 The stages that an operation on the store goes through, as shapes of the log, and the map that the
 store ends up with once the operation is completed or rolled back.
 */
module Stages {
  import opened Wrappers
  import opened Words
  import opened Format
  import opened Bytes
  import opened Entries
  import opened Flash
  import opened Log
  import opened States
  import opened Appending
  import opened Contents

  datatype Stage =
    | Settled
    | Clearing(minKey: nat)
    | InTransaction(marker: nat)

  predicate IsCalm(kind: Kind) {
    kind.Padding? || kind.User?
  }

  predicate IsRemove(kind: Kind) {
    kind.Internal? && kind.entry.Remove?
  }

  predicate IsTorn(kind: Kind) {
    kind.TornUser? || kind.TornEntry?
  }

  /** The `n` first entries are user entries and padding. */
  ghost predicate Calm(f: Format, v: View, n: nat)
    requires f.Supported() && n <= |v.log|
  {
    forall k: nat :: k < n ==> IsCalm(Kinds(f, v, k))
  }

  /** Among the `n` first entries, none updates the key of a user entry before it. */
  ghost predicate Apart(f: Format, v: View, n: nat)
    requires f.Supported() && n <= |v.log|
  {
    forall i: nat, j: nat :: i < j < n && Kinds(f, v, i).User? ==> !Updates(f, v.log[j], Kinds(f, v, i).key)
  }

  /** No operation is under way. */
  ghost predicate Idle(f: Format, v: View)
    requires f.Supported()
  {
    Calm(f, v, |v.log|) && Apart(f, v, |v.log|)
  }

  ghost predicate SettledOk(f: Format, v: View)
    requires f.Supported()
  {
    && (forall k: nat :: k < |v.log| ==>
          IsCalm(Kinds(f, v, k)) || IsRemove(Kinds(f, v, k)) || (k == |v.log| - 1 && IsTorn(Kinds(f, v, k))))
    && (Apart(f, v, |v.log|) || (Calm(f, v, |v.log|) && v.log != [] && Apart(f, v, |v.log| - 1)))
    && (Tight(f, v) || Idle(f, v))
  }

  ghost predicate ClearingOk(f: Format, v: View, minKey: nat)
    requires f.Supported()
  {
    && v.log != [] && Kinds(f, v, |v.log| - 1) == Internal(Clear(minKey))
    && Calm(f, v, |v.log| - 1) && Apart(f, v, |v.log| - 1) && Tight(f, v)
  }

  /** The key that an update of a transaction is for. */
  function UpdateKey(kind: Kind): nat
    requires kind.User? || IsRemove(kind)
  {
    if kind.User? then kind.key else kind.entry.key
  }

  predicate IsUpdate(kind: Kind) {
    kind.User? || IsRemove(kind)
  }

  /** One of the updates of a transaction is missing: it has been rolled back. */
  ghost predicate Broken(f: Format, v: View, m: nat, count: nat)
    requires f.Supported()
  {
    exists k: nat :: m < k <= m + count && k < |v.log| && Kinds(f, v, k).Padding?
  }

  ghost predicate TransactionOk(f: Format, v: View, m: nat)
    requires f.Supported()
  {
    && m < |v.log| && Kinds(f, v, m).Internal? && Kinds(f, v, m).entry.Marker? && Kinds(f, v, m).entry.count > 0
    && (|v.log| <= m + 1 + Kinds(f, v, m).entry.count || Broken(f, v, m, Kinds(f, v, m).entry.count))
    && Calm(f, v, m) && Apart(f, v, m) && Tight(f, v)
    && (forall k: nat :: m < k < |v.log| ==>
          IsUpdate(Kinds(f, v, k)) || Kinds(f, v, k).Padding? || (k == |v.log| - 1 && IsTorn(Kinds(f, v, k))))
    && (forall i: nat, j: nat :: m < i < j < |v.log| && IsUpdate(Kinds(f, v, i)) && IsUpdate(Kinds(f, v, j)) ==>
          UpdateKey(Kinds(f, v, i)) != UpdateKey(Kinds(f, v, j)))
  }

  ghost predicate StageOk(f: Format, v: View, st: Stage)
    requires f.Supported()
  {
    match st
    case Settled => SettledOk(f, v)
    case Clearing(minKey) => ClearingOk(f, v, minKey)
    case InTransaction(m) => TransactionOk(f, v, m)
  }

  /** All updates of a transaction have been written. */
  ghost predicate Committed(f: Format, v: View, m: nat)
    requires f.Supported() && TransactionOk(f, v, m)
  {
    && |v.log| == m + 1 + Kinds(f, v, m).entry.count
    && forall k: nat :: m < k < |v.log| ==> IsUpdate(Kinds(f, v, k))
  }

  function Below(m: map<nat, seq<byte>>, minKey: nat): map<nat, seq<byte>> {
    map key | key in m && key < minKey :: m[key]
  }

  /** The map that the store ends up with. */
  ghost function Outcome(f: Format, v: View, st: Stage): map<nat, seq<byte>>
    requires f.Supported() && StageOk(f, v, st)
  {
    match st
    case Settled => Content(f, v.log)
    case Clearing(minKey) => Below(Content(f, v.log), minKey)
    case InTransaction(m) => if Committed(f, v, m) then Content(f, v.log) else Content(f, v.log[..m])
  }

  // ---------------------------------------------------------------------------------------------
  // Entries that become padding

  /** Some of the entries have become padding. */
  ghost predicate Weaker(f: Format, v: View, v': View)
    requires f.Supported()
  {
    && v' == v.(log := v'.log) && |v'.log| == |v.log|
    && forall k: nat :: k < |v.log| ==>
         && v'.log[k].pos == v.log[k].pos && |v'.log[k].ws| == |v.log[k].ws|
         && (v'.log[k] == v.log[k] || Kinds(f, v', k).Padding?)
  }

  lemma WeakerSelf(f: Format, v: View)
    requires f.Supported()
    ensures Weaker(f, v, v)
  {
    hide KindOf;
  }

  lemma WeakerThen(f: Format, v: View, v1: View, v2: View)
    requires f.Supported() && Weaker(f, v, v1) && Weaker(f, v1, v2)
    ensures Weaker(f, v, v2)
  {
    hide KindOf;
    forall k: nat | k < |v.log| ensures v2.log[k] == v.log[k] || Kinds(f, v2, k).Padding? {
      if v2.log[k] == v1.log[k] && v1.log[k] != v.log[k] { assert Kinds(f, v1, k).Padding?; }
    }
  }

  lemma FadesWeaker(f: Format, v: View, v': View, keys: seq<nat>, n: nat)
    requires f.Supported() && Fades(f, v, v', keys, n)
    ensures Weaker(f, v, v')
  {
    hide KindOf;
  }

  lemma WeakerPos(f: Format, v: View, v': View)
    requires f.Supported() && Weaker(f, v, v')
    ensures |v'.log| == |v.log| && v'.first == v.first && v'.tail == v.tail && v'.marks == v.marks
    ensures forall k: nat :: PosAt(v', k) == PosAt(v, k)
    ensures forall k: nat :: HeadAt(v', k) == HeadAt(v, k)
    ensures Tight(f, v') == Tight(f, v)
  {
    hide KindOf, Format.V;
  }

  lemma {:induction false} WeakerUsed(f: Format, v: View, v': View, n: nat)
    requires f.Supported() && Weaker(f, v, v') && n <= |v.log|
    ensures Used(f, v'.log[..n]) <= Used(f, v.log[..n])
  {
    hide KindOf;
    if n > 0 {
      WeakerUsed(f, v, v', n - 1);
      assert v'.log[..n][..n - 1] == v'.log[..n - 1] && v.log[..n][..n - 1] == v.log[..n - 1];
    }
  }

  lemma WeakerRoomy(f: Format, v: View, v': View)
    requires f.Supported() && Weaker(f, v, v') && Roomy(f, v)
    ensures Roomy(f, v')
  {
    hide KindOf, Used, Start, Format.C, Format.Q;
    WeakerPos(f, v, v');
    StartSame(f, v, v');
    WeakerUsed(f, v, v', |v.log|);
    assert v.log[..|v.log|] == v.log && v'.log[..|v.log|] == v'.log;
    forall i: nat | 1 <= i < f.numPages ensures FitsAfter(f, v', i) {
      assert FitsAfter(f, v, i);
      if i < |v.marks| && v.marks[i] <= |v.log| { WeakerUsed(f, v, v', v.marks[i]); }
    }
    forall i: nat | i < f.numPages - 1 ensures NearAfter(f, v', i) {
      assert NearAfter(f, v, i);
      if i < |v.marks| && v.marks[i] <= |v.log| { WeakerUsed(f, v, v', v.marks[i]); }
    }
  }

  lemma WeakerShape(f: Format, v: View, v': View, n: nat)
    requires f.Supported() && Weaker(f, v, v') && n <= |v.log|
    ensures Calm(f, v, n) ==> Calm(f, v', n)
    ensures Apart(f, v, n) ==> Apart(f, v', n)
  {
    hide KindOf;
    forall k: nat | k < n ensures Kinds(f, v', k) == Kinds(f, v, k) || Kinds(f, v', k).Padding? {
      assert v'.log[k].pos == v.log[k].pos;
    }
    if Apart(f, v, n) {
      forall i: nat, j: nat | i < j < n && Kinds(f, v', i).User? ensures !Updates(f, v'.log[j], Kinds(f, v', i).key) {
        assert Kinds(f, v, i).User? && !Updates(f, v.log[j], Kinds(f, v, i).key);
        assert Kinds(f, v', j) == Kinds(f, v, j) || Kinds(f, v', j).Padding?;
      }
    }
  }

  /** Padding out entries keeps a settled log settled. */
  lemma WeakerSettled(f: Format, v: View, v': View)
    requires f.Supported() && Weaker(f, v, v') && SettledOk(f, v)
    ensures SettledOk(f, v')
    ensures Idle(f, v) ==> Idle(f, v')
  {
    hide KindOf, Calm, Apart, Tight;
    WeakerPos(f, v, v');
    forall k: nat | k < |v.log| ensures Kinds(f, v', k) == Kinds(f, v, k) || Kinds(f, v', k).Padding? {
      assert v'.log[k].pos == v.log[k].pos;
    }
    WeakerShape(f, v, v', |v.log|);
    if v.log != [] { WeakerShape(f, v, v', |v.log| - 1); }
  }

  /** An entry that became padding had a later update for its key. */
  ghost predicate Superseded(f: Format, v: View, v': View, k: nat)
    requires f.Supported() && k < |v.log| && |v'.log| == |v.log|
  {
    Kinds(f, v, k).User? ==>
      exists j: nat :: k < j < |v.log| && v'.log[j] == v.log[j] && Updates(f, v.log[j], Kinds(f, v, k).key)
  }

  /** Padding out superseded user entries does not change the map. */
  lemma WeakerContent(f: Format, v: View, v': View)
    requires f.Supported() && Weaker(f, v, v')
    requires forall k: nat :: k < |v.log| && v'.log[k] != v.log[k] ==>
               !IsRemove(Kinds(f, v, k)) && Superseded(f, v, v', k)
    ensures Content(f, v'.log) == Content(f, v.log)
  {
    hide KindOf;
    forall key: nat | key <= MAX_KEY ensures Lookup(f, v'.log, key) == Lookup(f, v.log, key) {
      WeakerLookup(f, v, v', key);
    }
    SameContent(f, v.log, v'.log);
  }

  lemma WeakerLookup(f: Format, v: View, v': View, key: nat)
    requires f.Supported() && Weaker(f, v, v')
    requires forall k: nat :: k < |v.log| && v'.log[k] != v.log[k] ==>
               !IsRemove(Kinds(f, v, k)) && Superseded(f, v, v', k)
    ensures Lookup(f, v'.log, key) == Lookup(f, v.log, key)
  {
    hide KindOf, LastFor;
    var k := LastFor(f, v.log, key);
    if k < 0 {
      LookupNone(f, v'.log, key);
    } else {
      assert v'.log[k] == v.log[k];
      LookupAt(f, v'.log, key, k);
    }
  }

  // ---------------------------------------------------------------------------------------------
  // States of the store

  /** The store is at rest: no operation is under way. */
  ghost predicate AtRest(f: Format, pages: Pages, v: View) {
    Steady(f, pages, v, true) && Idle(f, v) && Roomy(f, v)
  }

  /** The last entry may have been written without the init info of the page that it opens. */
  ghost predicate MayOpen(f: Format, v: View, st: Stage)
    requires f.Supported()
  {
    && Tight(f, v) && v.log != []
    && match st
       case Settled => Kinds(f, v, |v.log| - 1).User? || IsTorn(Kinds(f, v, |v.log| - 1))
       case Clearing(_) => true
       case InTransaction(m) =>
         IsTorn(Kinds(f, v, |v.log| - 1)) || forall k: nat :: m < k < |v.log| ==> !Kinds(f, v, k).Padding?
  }

  /** None of the updates of a transaction that is under way was padded out. */
  ghost predicate Unbroken(f: Format, v: View, st: Stage)
    requires f.Supported()
  {
    st.InTransaction? ==> forall k: nat :: st.marker < k < |v.log| ==> !Kinds(f, v, k).Padding?
  }

  lemma CommittedUnbroken(f: Format, v: View, m: nat)
    requires f.Supported() && TransactionOk(f, v, m) && Committed(f, v, m)
    ensures Unbroken(f, v, InTransaction(m)) && Tight(f, v)
  {
    hide KindOf, Tight;
    forall k: nat | m < k < |v.log| ensures !Kinds(f, v, k).Padding? {
      assert IsUpdate(Kinds(f, v, k));
    }
  }

  /** An operation other than a compaction stopped between two storage operations or inside one. */
  ghost predicate Halted(f: Format, pages: Pages, v: View, st: Stage) {
    && Steady(f, pages, v, false) && StageOk(f, v, st) && Roomy(f, v)
    && (Steady(f, pages, v, true) || (OpensPage(f, v) && MayOpen(f, v, st)))
  }

  lemma SteadyUntidy(f: Format, pages: Pages, v: View)
    requires Steady(f, pages, v, true)
    ensures Steady(f, pages, v, false)
  {
    hide Snapshot, Formed, HoldsLog, Start, InitWord, Alive, ErasedBetween;
  }

  lemma RestIsHalted(f: Format, pages: Pages, v: View)
    requires AtRest(f, pages, v)
    ensures Halted(f, pages, v, Settled)
  {
    hide KindOf, Roomy, Snapshot;
    SteadyUntidy(f, pages, v);
  }

  /** Deleting the entries that a new user entry replaces. */
  lemma ReplacedFades(f: Format, v: View, v': View, key: nat, k: nat)
    requires Formed(f, v) && Formed(f, v') && SettledOk(f, v) && Roomy(f, v) && Calm(f, v, |v.log|)
    requires k < |v.log| && Kinds(f, v, k) == User(key) && (k == |v.log| - 1 || Idle(f, v))
    requires Fades(f, v, v', [key], k)
    ensures SettledOk(f, v') && Roomy(f, v') && Content(f, v'.log) == Content(f, v.log) && Calm(f, v', |v'.log|)
    ensures Faded(f, v, v', [key], k) ==> Idle(f, v')
    ensures Tight(f, v') == Tight(f, v)
  {
    hide KindOf, Contiguous, Parses, MarksOk, Roomy, SettledOk, Content, Tight, Idle, Calm, Apart;
    FadesWeaker(f, v, v', [key], k);
    FadesPos(f, v, v', [key], k);
    WeakerPos(f, v, v');
    WeakerSettled(f, v, v');
    WeakerRoomy(f, v, v');
    WeakerShape(f, v, v', |v.log|);
    forall i: nat | i < |v.log| && v'.log[i] != v.log[i]
      ensures !IsRemove(Kinds(f, v, i)) && Superseded(f, v, v', i)
    {
      assert Targeted(f, v, [key], i);
      assert v'.log[k] == v.log[k] && Updates(f, v.log[k], key);
    }
    WeakerContent(f, v, v');
    if Faded(f, v, v', [key], k) {
      if k == |v.log| - 1 { ReplacedApart(f, v, v', key); }
    }
  }

  lemma ReplacedApart(f: Format, v: View, v': View, key: nat)
    requires Formed(f, v) && SettledOk(f, v) && Calm(f, v, |v.log|)
    requires v.log != [] && Kinds(f, v, |v.log| - 1) == User(key)
    requires Faded(f, v, v', [key], |v.log| - 1)
    ensures Idle(f, v')
  {
    hide KindOf, Roomy, Tight, MarksOk, Contiguous, DeletedWords;
    var n := |v.log| - 1;
    FadesWeaker(f, v, v', [key], n);
    WeakerShape(f, v, v', |v.log|);
    WeakerShape(f, v, v', n);
    FadesPos(f, v, v', [key], n);
    forall i: nat, j: nat | i < j < |v'.log| && Kinds(f, v', i).User?
      ensures !Updates(f, v'.log[j], Kinds(f, v', i).key)
    {
      assert Apart(f, v', n);
      if j == n {
        assert Kinds(f, v', n) == User(key);
        assert v'.log[i] == v.log[i];
        if Kinds(f, v', i).key == key {
          assert Targeted(f, v, [key], i);
          FadedIsPadding(f, v, v', [key], n, i);
        }
      }
    }
  }

  lemma FadedIsPadding(f: Format, v: View, v': View, keys: seq<nat>, n: nat, i: nat)
    requires Formed(f, v) && Faded(f, v, v', keys, n) && i < n && i < |v.log| && Targeted(f, v, keys, i)
    ensures Kinds(f, v', i).Padding?
  {
    hide KindOf, MarksOk, Contiguous;
    EntrySize(f, v, i);
    DeletedKind(f, v.log[i].ws, DeletedWords(v.log[i].ws));
    assert v'.log[i].ws == DeletedWords(v.log[i].ws);
  }

  lemma HaltedTidy(f: Format, pages: Pages, v: View) returns (tidy: bool)
    requires Steady(f, pages, v, false) && (OpensPage(f, v) || Steady(f, pages, v, true))
    ensures Steady(f, pages, v, tidy) && (tidy || OpensPage(f, v))
    ensures Steady(f, pages, v, true) <==> tidy
  {
    hide Steady, OpensPage;
    tidy := Steady(f, pages, v, true);
  }

  lemma ItemPos(v: View, k: nat)
    requires k < |v.log|
    ensures PosAt(v, k) == v.log[k].pos
  {
  }

  // ---------------------------------------------------------------------------------------------
  // Appending to a store at rest

  lemma AppendKinds(f: Format, v: View, ws: seq<Word>)
    requires f.Supported()
    ensures forall k: nat :: k < |v.log| ==> Kinds(f, Append(f, v, ws), k) == Kinds(f, v, k)
    ensures Kinds(f, Append(f, v, ws), |v.log|) == KindOf(f, ws)
  {
    hide KindOf, Start;
  }

  lemma AppendApart(f: Format, v: View, ws: seq<Word>, n: nat)
    requires f.Supported() && n <= |v.log|
    ensures Apart(f, v, n) ==> Apart(f, Append(f, v, ws), n)
    ensures Calm(f, v, n) ==> Calm(f, Append(f, v, ws), n)
  {
    hide KindOf, Start;
    AppendKinds(f, v, ws);
    var v' := Append(f, v, ws);
    if Apart(f, v, n) {
      forall i: nat, j: nat | i < j < n && Kinds(f, v', i).User? ensures !Updates(f, v'.log[j], Kinds(f, v', i).key) {
        assert Kinds(f, v, i).User? && v'.log[j] == v.log[j];
      }
    }
  }

  /** An appended entry that updates no key of the log keeps the entries apart. */
  lemma AppendApartMore(f: Format, v: View, ws: seq<Word>)
    requires f.Supported() && Apart(f, v, |v.log|)
    requires IsUpdate(KindOf(f, ws)) ==>
               forall i: nat :: i < |v.log| && Kinds(f, v, i).User? ==> Kinds(f, v, i).key != UpdateKey(KindOf(f, ws))
    ensures |Append(f, v, ws).log| == |v.log| + 1 && Apart(f, Append(f, v, ws), |v.log| + 1)
  {
    hide KindOf, Start;
    AppendKinds(f, v, ws);
    AppendApart(f, v, ws, |v.log|);
    var v' := Append(f, v, ws);
    forall i: nat, j: nat | i < j < |v'.log|
      && Kinds(f, v', i).User? ensures !Updates(f, v'.log[j], Kinds(f, v', i).key) {
      assert Kinds(f, v, i).User?;
    }
  }

  /** Words appended within the virtual capacity leave the log within it, with room for compaction. */
  lemma AppendTight(f: Format, v: View, ws: seq<Word>)
    requires Formed(f, v) && Complete(f, v) && Appendable(f, ws)
    requires v.tail + |ws| <= HeadAt(v, 0) + f.V()
    requires v.lean ==> Used(f, v.log) + (if KindOf(f, ws).User? then |ws| else 0) <= f.C()
    ensures Formed(f, Append(f, v, ws)) && Tight(f, Append(f, v, ws)) && Roomy(f, Append(f, v, ws))
  {
    hide KindOf, Start, Used, Contiguous, Parses, MarkOk, NoUserBeforeMark, Roomy, Complete, Format.C, Format.V,
         Format.M;
    AppendFormed(f, v, ws);
    AppendHeads(f, v, ws);
    var it := Item(v.tail, ws);
    UsedAppend(f, v.log, it);
    TightIsRoomy(f, Append(f, v, ws));
  }

  lemma UsedAppend(f: Format, log: seq<Item>, it: Item)
    requires f.Supported()
    ensures Used(f, log + [it]) == Used(f, log) + UsedBy(f, it)
  {
    hide KindOf, UsedBy;
    assert (log + [it])[..|log|] == log;
  }

  lemma CalmComplete(f: Format, v: View)
    requires f.Supported() && Calm(f, v, |v.log|)
    ensures Complete(f, v)
  {
    hide KindOf;
    forall k: nat | k < |v.log| ensures !IsTorn(Kinds(f, v, k)) {
      assert IsCalm(Kinds(f, v, k));
    }
  }

  /** Within the virtual capacity, the log stays clear of the last page of the window. */
  lemma WithinWindow(f: Format, v: View, n: nat)
    requires Formed(f, v) && n <= HeadAt(v, 0) + f.V()
    ensures n <= Start(f, v, f.numPages - 1)
  {
    hide Contiguous, Parses, Start, Format.Q, Format.M, Format.V, HeadAt;
    VirtSizes(f);
    assert MarkOk(f, v, 0);
    StartSum(f, v, 0, f.numPages - 1);
  }

  /** A user entry appended to a store at rest updates the map. */
  lemma AppendedUser(f: Format, v: View, key: nat, value: seq<byte>, ws: seq<Word>)
    requires Formed(f, v) && Idle(f, v) && ForUser(f, key, value, ws)
    requires v.tail + |ws| <= HeadAt(v, 0) + f.V() && (v.lean ==> Used(f, v.log) + |ws| <= f.C())
    ensures var v' := Append(f, v, ws);
            && SettledOk(f, v') && Calm(f, v', |v'.log|) && Roomy(f, v') && Tight(f, v')
            && Content(f, v'.log) == Content(f, v.log)[key := value]
  {
    hide KindOf, Contiguous, Parses, MarksOk, Start, Used, Apart, Roomy, Content, BuildUser, Tight, ValueOf, Format.M,
         Format.V, Format.C;
    CalmComplete(f, v);
    AppendTight(f, v, ws);
    AppendKinds(f, v, ws);
    AppendApart(f, v, ws, |v.log|);
    var v' := Append(f, v, ws);
    forall k: nat | k < |v'.log| ensures IsCalm(Kinds(f, v', k)) {
      if k < |v.log| { assert IsCalm(Kinds(f, v, k)); }
    }
    assert v'.log == v.log + [Item(v.tail, ws)];
    BuildUserReads(f, key, value);
    ContentInsert(f, v.log, Item(v.tail, ws), key);
  }

  lemma ContentInsert(f: Format, log: seq<Item>, it: Item, key: nat)
    requires f.Supported() && key <= MAX_KEY && KindOf(f, it.ws) == User(key)
    ensures Content(f, log + [it]) == Content(f, log)[key := ValueOf(f, it.ws)]
  {
    hide KindOf, ValueOf, Lookup;
    forall k: nat | k <= MAX_KEY
      ensures Lookup(f, log + [it], k) == if k == key then Some(it.ws) else Lookup(f, log, k)
    {
      LookupAppend(f, log, it, k);
    }
  }

  /** A torn entry appended to a store at rest leaves the map as it was. */
  lemma AppendedTorn(f: Format, v: View, ts: seq<Word>)
    requires Formed(f, v) && Idle(f, v) && Appendable(f, ts) && IsTorn(KindOf(f, ts))
    requires v.tail + |ts| <= HeadAt(v, 0) + f.V() && (v.lean ==> Used(f, v.log) <= f.C())
    ensures var v' := Append(f, v, ts);
            && SettledOk(f, v') && Roomy(f, v') && Tight(f, v') && Content(f, v'.log) == Content(f, v.log)
            && v'.log != [] && Kinds(f, v', |v'.log| - 1) == KindOf(f, ts)
  {
    hide KindOf, Contiguous, Parses, MarksOk, Start, Used, Apart, Roomy, Content, Tight, Format.M;
    CalmComplete(f, v);
    AppendTight(f, v, ts);
    AppendKinds(f, v, ts);
    AppendApartMore(f, v, ts);
    var v' := Append(f, v, ts);
    assert v'.log == v.log + [Item(v.tail, ts)];
    forall k: nat | k < |v'.log| ensures IsCalm(Kinds(f, v', k)) || (k == |v'.log| - 1 && IsTorn(Kinds(f, v', k))) {
      if k < |v.log| { assert IsCalm(Kinds(f, v, k)); }
    }
    ContentIgnore(f, v.log, Item(v.tail, ts));
  }

  lemma ContentIgnore(f: Format, log: seq<Item>, it: Item)
    requires f.Supported() && !IsUpdate(KindOf(f, it.ws))
    ensures Content(f, log + [it]) == Content(f, log)
  {
    hide KindOf, Lookup;
    forall k: nat | k <= MAX_KEY ensures Lookup(f, log + [it], k) == Lookup(f, log, k) {
      LookupAppend(f, log, it, k);
    }
    SameContent(f, log, log + [it]);
  }

  /** The conditions under which a user entry may be appended to a store at rest. */
  lemma InsertPrepared(f: Format, pages: Pages, v: View, key: nat, value: seq<byte>, ws: seq<Word>)
    requires AtRest(f, pages, v) && ForUser(f, key, value, ws)
    requires v.tail + |ws| <= HeadAt(v, 0) + f.V()
    ensures Complete(f, v) && v.tail + |ws| <= Start(f, v, f.numPages - 1) && |ws| >= 1
  {
    hide KindOf, Roomy, Start, Matches, CompactsErased, Snapshot, Alive;
    CalmComplete(f, v);
    WithinWindow(f, v, v.tail + |ws|);
  }

  /** Whether an appended entry opened a page, its init info is the only one that may be missing. */
  lemma AppendedSteady(f: Format, pages: Pages, v: View, ws: seq<Word>)
    requires Formed(f, v) && Appendable(f, ws)
    requires var v' := Append(f, v, ws); Steady(f, pages, v', |v'.marks| == |v.marks|)
    ensures var v' := Append(f, v, ws);
            Steady(f, pages, v', false) && (OpensPage(f, v') || Steady(f, pages, v', true))
  {
    hide KindOf, Contiguous, Parses, MarksOk, Start, Steady, OpensPage, Format.M;
    var v' := Append(f, v, ws);
    if |v'.marks| == |v.marks| {
      SteadyUntidy(f, pages, v');
    } else {
      AppendNewMark(f, v, ws);
    }
  }

  /** What writing a user entry leaves is a halted store that either has the update or does not. */
  lemma AppendedHalts(f: Format, pages: Pages, v: View, v': View, key: nat, value: seq<byte>, ws: seq<Word>)
    requires Formed(f, v) && Idle(f, v) && Roomy(f, v) && ForUser(f, key, value, ws)
    requires v.tail + |ws| <= HeadAt(v, 0) + f.V() && (v.lean ==> Used(f, v.log) + |ws| <= f.C())
    requires LeavesUser(f, v, v', ws) && Steady(f, pages, v', |v'.marks| == |v.marks|)
    ensures Halted(f, pages, v', Settled)
    ensures v' == Append(f, v, ws) ==>
              Content(f, v'.log) == Content(f, v.log)[key := value] && Tight(f, v') && Calm(f, v', |v'.log|)
              && |v'.log| == |v.log| + 1 && v'.log[|v.log|] == Item(v.tail, ws) && Kinds(f, v', |v.log|) == User(key)
    ensures v' != Append(f, v, ws) ==> Content(f, v'.log) == Content(f, v.log)
    ensures Tight(f, v') && v'.lean == v.lean
  {
    hide KindOf, Contiguous, Parses, MarksOk, Start, Steady, OpensPage, Roomy, SettledOk, Calm, Content, Used, HeadAt,
         BuildUser, Append;
    if v' == Append(f, v, ws) {
      AppendedSteady(f, pages, v, ws);
      AppendedUser(f, v, key, value, ws);
      AppendedLast(f, v, ws);
    } else if v' == v {
      SteadyUntidy(f, pages, v);
      IdleSettled(f, v);
    } else {
      var ts: seq<Word> :| v' == Append(f, v, ts) && |ts| <= |ws| && Appendable(f, ts)
                           && (KindOf(f, ts).TornEntry? || KindOf(f, ts).TornUser?);
      AppendedSteady(f, pages, v, ts);
      AppendedTorn(f, v, ts);
      AppendedLast(f, v, ts);
    }
  }

  lemma AppendedLast(f: Format, v: View, ws: seq<Word>)
    requires f.Supported()
    ensures var v' := Append(f, v, ws); |v'.log| == |v.log| + 1 && v'.log[|v.log|] == Item(v.tail, ws)
    ensures Append(f, v, ws).lean == v.lean
  {
    hide KindOf, Start;
  }

  lemma IdleSettled(f: Format, v: View)
    requires f.Supported() && Idle(f, v)
    ensures SettledOk(f, v)
  {
    hide KindOf;
  }

  // ---------------------------------------------------------------------------------------------
  // Removals

  /** Deleting the entry for a key from a store at rest removes the key from the map. */
  lemma RemovedFades(f: Format, v: View, v': View, key: nat)
    requires Formed(f, v) && Idle(f, v) && Roomy(f, v) && Fades(f, v, v', [key], |v.log|)
    ensures Idle(f, v') && Roomy(f, v')
    ensures Content(f, v'.log) == Content(f, v.log) || Content(f, v'.log) == Content(f, v.log) - {key}
    ensures Faded(f, v, v', [key], |v.log|) ==> Content(f, v'.log) == Content(f, v.log) - {key}
    ensures Tight(f, v') == Tight(f, v)
  {
    hide KindOf, Contiguous, Parses, MarksOk, Roomy, SettledOk, Content, Tight, Idle, Lookup;
    FadesWeaker(f, v, v', [key], |v.log|);
    WeakerPos(f, v, v');
    IdleSettled(f, v);
    WeakerSettled(f, v, v');
    WeakerRoomy(f, v, v');
    forall k: nat | k <= MAX_KEY && k != key ensures Lookup(f, v'.log, k) == Lookup(f, v.log, k) {
      OtherKeyLookup(f, v, v', [key], k);
    }
    RemovedLookup(f, v, v', key);
    if Lookup(f, v'.log, key) == Lookup(f, v.log, key) {
      SameContent(f, v.log, v'.log);
    }
    if Lookup(f, v'.log, key) == None {
      RemovedContent(f, v.log, v'.log, key);
    }
  }

  lemma RemovedContent(f: Format, log: seq<Item>, log': seq<Item>, key: nat)
    requires f.Supported() && Lookup(f, log', key) == None
    requires forall k: nat :: k <= MAX_KEY && k != key ==> Lookup(f, log', k) == Lookup(f, log, k)
    ensures Content(f, log') == Content(f, log) - {key}
  {
    hide KindOf, ValueOf, Lookup;
  }

  lemma OtherKeyLookup(f: Format, v: View, v': View, keys: seq<nat>, key: nat)
    requires f.Supported() && Fades(f, v, v', keys, |v.log|) && key !in keys
    ensures Lookup(f, v'.log, key) == Lookup(f, v.log, key)
  {
    hide KindOf, LastFor;
    FadesPos(f, v, v', keys, |v.log|);
    var k := LastFor(f, v.log, key);
    if k < 0 {
      LookupNone(f, v'.log, key);
    } else {
      assert v'.log[k] == v.log[k];
      LookupAt(f, v'.log, key, k);
    }
  }

  lemma RemovedLookup(f: Format, v: View, v': View, key: nat)
    requires Formed(f, v) && Idle(f, v) && Fades(f, v, v', [key], |v.log|)
    ensures Lookup(f, v'.log, key) == Lookup(f, v.log, key) || Lookup(f, v'.log, key) == None
    ensures Faded(f, v, v', [key], |v.log|) ==> Lookup(f, v'.log, key) == None
  {
    hide KindOf, LastFor, Contiguous, Parses, MarksOk;
    FadesPos(f, v, v', [key], |v.log|);
    var k := LastFor(f, v.log, key);
    if k < 0 {
      LookupNone(f, v'.log, key);
    } else {
      assert IsCalm(Kinds(f, v, k));
      forall j: nat | j < |v.log| && j != k ensures !Updates(f, v'.log[j], key) {
        OnlyOne(f, v, key, k, j);
      }
      if v'.log[k] == v.log[k] {
        LookupAt(f, v'.log, key, k);
        if Faded(f, v, v', [key], |v.log|) {
          assert Targeted(f, v, [key], k);
          FadedIsPadding(f, v, v', [key], |v.log|, k);
        }
      } else {
        assert Kinds(f, v', k).Padding?;
        LookupNone(f, v'.log, key);
      }
    }
  }

  /** A store at rest has at most one entry for a key. */
  lemma OnlyOne(f: Format, v: View, key: nat, k: nat, j: nat)
    requires f.Supported() && Idle(f, v) && k < |v.log| && j < |v.log| && j != k
    requires Updates(f, v.log[k], key)
    ensures !Updates(f, v.log[j], key)
  {
    hide KindOf;
    assert IsCalm(Kinds(f, v, k)) && IsCalm(Kinds(f, v, j));
    assert Kinds(f, v, k) == User(key);
  }

  /** The keys that a clear operation deletes. */
  function KeysFrom(minKey: nat): (keys: seq<nat>)
    ensures forall k: nat :: k in keys <==> minKey <= k <= MAX_KEY
    decreases MAX_KEY + 1 - minKey
  {
    if minKey > MAX_KEY then [] else [minKey] + KeysFrom(minKey + 1)
  }

  /** Deleting entries above the threshold does not change what remains below it. */
  lemma ClearedFades(f: Format, v: View, v': View, minKey: nat, n: nat)
    requires Formed(f, v) && ClearingOk(f, v, minKey) && Roomy(f, v)
    requires n < |v.log| && Fades(f, v, v', KeysFrom(minKey), n)
    ensures ClearingOk(f, v', minKey) && Roomy(f, v')
    ensures Below(Content(f, v'.log), minKey) == Below(Content(f, v.log), minKey)
  {
    hide KindOf, Contiguous, Parses, MarksOk, Roomy, Tight, Lookup, KeysFrom, Calm, Apart;
    FadesMore(f, v, v', KeysFrom(minKey), n, |v.log|);
    FadesWeaker(f, v, v', KeysFrom(minKey), n);
    FadesPos(f, v, v', KeysFrom(minKey), n);
    WeakerRoomy(f, v, v');
    WeakerPos(f, v, v');
    WeakerShape(f, v, v', |v.log| - 1);
    forall k: nat | k < minKey ensures Lookup(f, v'.log, k) == Lookup(f, v.log, k) {
      OtherKeyLookup(f, v, v', KeysFrom(minKey), k);
    }
    BelowSame(f, v.log, v'.log, minKey);
  }

  lemma BelowSame(f: Format, log: seq<Item>, log': seq<Item>, minKey: nat)
    requires f.Supported()
    requires forall k: nat :: k < minKey ==> Lookup(f, log', k) == Lookup(f, log, k)
    ensures Below(Content(f, log'), minKey) == Below(Content(f, log), minKey)
  {
    hide KindOf, ValueOf, Lookup;
  }

  /** Once all entries above the threshold are deleted, the clear entry may be padded out. */
  lemma ClearDone(f: Format, v: View, v1: View, v': View, minKey: nat)
    requires Formed(f, v) && ClearingOk(f, v, minKey) && Roomy(f, v)
    requires Faded(f, v, v1, KeysFrom(minKey), |v.log| - 1)
    requires Weaker(f, v1, v') && v' == v1.(log := v1.log[|v.log| - 1 := v'.log[|v.log| - 1]])
             && Kinds(f, v', |v.log| - 1).Padding?
    ensures Idle(f, v') && Roomy(f, v') && Content(f, v'.log) == Below(Content(f, v.log), minKey)
    ensures Tight(f, v')
  {
    hide KindOf, Contiguous, Parses, MarksOk, Roomy, Tight, Lookup, KeysFrom, Faded, Content;
    var n := |v.log| - 1;
    WeakerPos(f, v1, v');
    FadedFades(f, v, v1, KeysFrom(minKey), n);
    ClearedFades(f, v, v1, minKey, n);
    WeakerRoomy(f, v1, v');
    ClearedLookup(f, v, v1, v', minKey);
    WeakerShape(f, v1, v', n);
    forall k: nat | k <= n ensures IsCalm(Kinds(f, v', k)) {
      if k < n { assert IsCalm(Kinds(f, v', k)); }
    }
    BelowIs(f, v1.log, v'.log, minKey);
  }

  lemma BelowIs(f: Format, log: seq<Item>, log': seq<Item>, minKey: nat)
    requires f.Supported()
    requires forall k: nat :: k <= MAX_KEY ==> Lookup(f, log', k) == if k < minKey then Lookup(f, log, k) else None
    ensures Content(f, log') == Below(Content(f, log), minKey)
  {
    hide KindOf, ValueOf, Lookup;
  }

  lemma ClearedLookup(f: Format, v: View, v1: View, v': View, minKey: nat)
    requires Formed(f, v) && ClearingOk(f, v, minKey)
    requires Faded(f, v, v1, KeysFrom(minKey), |v.log| - 1)
    requires Weaker(f, v1, v') && v' == v1.(log := v1.log[|v.log| - 1 := v'.log[|v.log| - 1]])
             && Kinds(f, v', |v.log| - 1).Padding?
    ensures forall k: nat :: k <= MAX_KEY ==> Lookup(f, v'.log, k) == if k < minKey then Lookup(f, v1.log, k) else None
  {
    hide KindOf, Contiguous, Parses, MarksOk, Tight, Lookup, KeysFrom, Faded;
    var n := |v.log| - 1;
    FadedFades(f, v, v1, KeysFrom(minKey), n);
    FadesPos(f, v, v1, KeysFrom(minKey), n);
    assert v'.log == v1.log[..n] + [v'.log[n]];
    assert v1.log == v1.log[..n] + [v1.log[n]];
    forall k: nat | k <= MAX_KEY ensures Lookup(f, v'.log, k) == if k < minKey then Lookup(f, v1.log, k) else None {
      LookupAppend(f, v1.log[..n], v'.log[n], k);
      LookupAppend(f, v1.log[..n], v1.log[n], k);
      assert Kinds(f, v1, n) == Internal(Clear(minKey));
      if k >= minKey {
        forall j: nat | j < n ensures !Updates(f, v1.log[..n][j], k) {
          assert IsCalm(Kinds(f, v, j));
          if Targeted(f, v, KeysFrom(minKey), j) {
            FadedIsPadding(f, v, v1, KeysFrom(minKey), n, j);
          }
        }
        LookupNone(f, v1.log[..n], k);
      }
    }
  }

  lemma IdleCalm(f: Format, v: View)
    requires f.Supported() && Idle(f, v)
    ensures forall k: nat :: k < |v.log| ==> Kinds(f, v, k).Padding? || Kinds(f, v, k).User?
    ensures Complete(f, v)
    ensures PosAt(v, |v.log|) == v.tail
  {
    hide KindOf;
    assert forall k: nat :: k < |v.log| ==> IsCalm(Kinds(f, v, k));
  }

  lemma ClearingTight(f: Format, v: View, minKey: nat)
    requires f.Supported() && ClearingOk(f, v, minKey)
    ensures Tight(f, v)
  {
    hide KindOf, Tight, Calm, Apart;
  }

  lemma ClearingSize(f: Format, v: View, minKey: nat)
    requires Formed(f, v) && ClearingOk(f, v, minKey)
    ensures v.log != [] && |v.log[|v.log| - 1].ws| == 1 && Kinds(f, v, |v.log| - 1).Internal?
  {
    hide ParseWord;
  }

  lemma ClearingKind(f: Format, v: View, minKey: nat, k: nat)
    requires f.Supported() && ClearingOk(f, v, minKey) && k < |v.log| - 1
    ensures IsCalm(Kinds(f, v, k))
    ensures Targeted(f, v, KeysFrom(minKey), k) <==>
            Kinds(f, v, k).User? && minKey <= Kinds(f, v, k).key <= MAX_KEY
    ensures Kinds(f, v, k).User? ==> Kinds(f, v, k).key <= MAX_KEY
  {
    hide ParseWord;
  }

  /** Replacing an entry by padding of the same extent. */
  lemma SetItemWeaker(f: Format, v: View, k: nat, ws: seq<Word>)
    requires f.Supported() && k < |v.log| && |ws| == |v.log[k].ws| && KindOf(f, ws).Padding?
    ensures Weaker(f, v, SetItem(v, k, ws)) && Kinds(f, SetItem(v, k, ws), k).Padding?
    ensures SetItem(v, k, ws) == v.(log := v.log[k := SetItem(v, k, ws).log[k]])
  {
    hide KindOf;
  }
}
