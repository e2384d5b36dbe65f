/** How the log changes while a transaction is applied or rolled back. */
module Transactions {
  import opened Words
  import opened Format
  import opened Entries
  import opened Log
  import opened States
  import opened Contents
  import opened Stages

  /** The keys of the updates of a transaction. */
  ghost predicate KeysOf(f: Format, v: View, m: nat, keys: seq<nat>)
    requires f.Supported()
  {
    && (forall k: nat :: m < k < |v.log| && IsUpdate(Kinds(f, v, k)) ==> UpdateKey(Kinds(f, v, k)) in keys)
    && (forall key: nat :: key in keys ==> exists k: nat :: m < k < |v.log| && Updates(f, v.log[k], key))
  }

  /** Only one entry differs. */
  ghost predicate OnlyAt(v: View, v': View, k: nat) {
    k < |v.log| == |v'.log| && v' == v.(log := v.log[k := v'.log[k]])
  }

  /** The entries after the marker stay what they are. */
  ghost predicate SameAfter(v: View, v': View, m: nat) {
    |v'.log| == |v.log| && forall k: nat :: m <= k < |v.log| ==> v'.log[k] == v.log[k]
  }

  lemma FadesSameAfter(f: Format, v: View, v': View, keys: seq<nat>, m: nat)
    requires f.Supported() && Fades(f, v, v', keys, m)
    ensures SameAfter(v, v', m)
  {
    hide KindOf;
  }

  lemma SameAfterKinds(f: Format, v: View, v': View, m: nat)
    requires f.Supported() && SameAfter(v, v', m)
    ensures forall k: nat :: m <= k < |v.log| ==> Kinds(f, v', k) == Kinds(f, v, k)
  {
  }

  /** Padding out entries before the marker leaves the transaction as it is. */
  lemma WeakerTransaction(f: Format, v: View, v': View, m: nat)
    requires Formed(f, v) && TransactionOk(f, v, m) && Weaker(f, v, v') && SameAfter(v, v', m)
    ensures TransactionOk(f, v', m)
    ensures Committed(f, v', m) <==> Committed(f, v, m)
  {
    hide KindOf, Contiguous, Parses, MarksOk, Tight, Calm, Apart;
    SameAfterKinds(f, v, v', m);
    WeakerPos(f, v, v');
    WeakerShape(f, v, v', m);
    if Committed(f, v, m) {
      assert forall k: nat :: m < k < |v.log| ==> IsUpdate(Kinds(f, v, k)) && IsUpdate(Kinds(f, v', k));
    }
    if Committed(f, v', m) {
      assert forall k: nat :: m < k < |v.log| ==> IsUpdate(Kinds(f, v', k)) && IsUpdate(Kinds(f, v, k));
    }
  }

  /** Deleting the entries that a complete transaction updates does not change the map. */
  lemma AppliedFades(f: Format, v: View, v': View, m: nat, keys: seq<nat>)
    requires Formed(f, v) && TransactionOk(f, v, m) && Committed(f, v, m) && Roomy(f, v)
    requires KeysOf(f, v, m, keys) && Fades(f, v, v', keys, m)
    ensures TransactionOk(f, v', m) && Committed(f, v', m) && Roomy(f, v')
    ensures Content(f, v'.log) == Content(f, v.log)
  {
    hide KindOf, Contiguous, Parses, MarksOk, Tight, Calm, Apart, Roomy, TransactionOk, Committed;
    FadesWeaker(f, v, v', keys, m);
    FadesSameAfter(f, v, v', keys, m);
    WeakerTransaction(f, v, v', m);
    WeakerRoomy(f, v, v');
    FadesPos(f, v, v', keys, m);
    forall i: nat | i < |v.log| && v'.log[i] != v.log[i]
      ensures !IsRemove(Kinds(f, v, i)) && Superseded(f, v, v', i)
    {
      assert Targeted(f, v, keys, i);
      var k: nat :| m < k < |v.log| && Updates(f, v.log[k], Kinds(f, v, i).key);
      assert v'.log[k] == v.log[k];
    }
    WeakerContent(f, v, v');
  }

  /** Padding out the marker settles a transaction whose keys have all been deleted before it. */
  lemma MarkerPadded(f: Format, v: View, v1: View, v2: View, m: nat, keys: seq<nat>)
    requires Formed(f, v) && TransactionOk(f, v, m) && Committed(f, v, m) && Roomy(f, v)
    requires KeysOf(f, v, m, keys) && Faded(f, v, v1, keys, m) && |v1.log| == |v.log|
    requires OnlyAt(v1, v2, m) && Weaker(f, v1, v2) && Kinds(f, v2, m).Padding?
    ensures SettledOk(f, v2) && Apart(f, v2, |v2.log|) && Roomy(f, v2)
    ensures Content(f, v2.log) == Content(f, v.log)
    ensures forall k: nat :: m < k < |v2.log| ==> IsUpdate(Kinds(f, v2, k))
    ensures Calm(f, v2, m + 1) && Tight(f, v2)
  {
    hide KindOf, Contiguous, Parses, MarksOk, Tight, Calm, Apart, Roomy, Content, Faded, Used;
    FadedFades(f, v, v1, keys, m);
    AppliedFades(f, v, v1, m, keys);
    WeakerRoomy(f, v1, v2);
    WeakerPos(f, v1, v2);
    FadesWeaker(f, v, v1, keys, m);
    WeakerPos(f, v, v1);
    PaddedApart(f, v, v1, v2, m, keys);
    PaddedKinds(f, v, v1, v2, m, keys);
    forall i: nat | i < |v1.log| && v2.log[i] != v1.log[i]
      ensures !IsRemove(Kinds(f, v1, i)) && Superseded(f, v1, v2, i)
    {
      assert i == m;
      FadesSameAfter(f, v, v1, keys, m);
      assert v1.log[m] == v.log[m];
    }
    WeakerContent(f, v1, v2);
  }

  lemma PaddedKinds(f: Format, v: View, v1: View, v2: View, m: nat, keys: seq<nat>)
    requires f.Supported() && TransactionOk(f, v, m) && Committed(f, v, m)
    requires Fades(f, v, v1, keys, m) && |v1.log| == |v.log|
    requires OnlyAt(v1, v2, m) && Kinds(f, v2, m).Padding?
    ensures Calm(f, v2, m + 1)
    ensures forall k: nat :: m < k < |v2.log| ==> IsUpdate(Kinds(f, v2, k))
    ensures forall k: nat :: k < |v2.log| ==> IsCalm(Kinds(f, v2, k)) || IsRemove(Kinds(f, v2, k))
  {
    hide KindOf, Tight, Apart;
    FadesPos(f, v, v1, keys, m);
    FadesWeaker(f, v, v1, keys, m);
    WeakerShape(f, v, v1, m);
    forall k: nat | m < k < |v2.log| ensures IsUpdate(Kinds(f, v2, k)) {
      assert v2.log[k] == v.log[k] && IsUpdate(Kinds(f, v, k));
    }
    forall k: nat | k < m + 1 ensures IsCalm(Kinds(f, v2, k)) {
      if k < m { assert v2.log[k] == v1.log[k] && IsCalm(Kinds(f, v1, k)); }
    }
    forall k: nat | k < |v2.log| ensures IsCalm(Kinds(f, v2, k)) || IsRemove(Kinds(f, v2, k)) {
      if k <= m { assert IsCalm(Kinds(f, v2, k)); } else { assert IsUpdate(Kinds(f, v2, k)); }
    }
  }

  lemma PaddedApart(f: Format, v: View, v1: View, v2: View, m: nat, keys: seq<nat>)
    requires Formed(f, v) && TransactionOk(f, v, m) && Committed(f, v, m)
    requires KeysOf(f, v, m, keys) && Faded(f, v, v1, keys, m) && |v1.log| == |v.log|
    requires OnlyAt(v1, v2, m) && Kinds(f, v2, m).Padding?
    ensures Apart(f, v2, |v2.log|)
  {
    hide KindOf, Contiguous, Parses, MarksOk, Tight, Faded;
    FadedFades(f, v, v1, keys, m);
    FadesPos(f, v, v1, keys, m);
    forall i: nat, j: nat | i < j < |v2.log| && Kinds(f, v2, i).User?
      ensures !Updates(f, v2.log[j], Kinds(f, v2, i).key)
    {
      assert i != m;
      assert v2.log[i] == v1.log[i] == v.log[i];
      if j < m {
        assert v2.log[j] == v1.log[j];
        assert v1.log[j] == v.log[j] || Kinds(f, v1, j).Padding?;
        assert !Updates(f, v.log[j], Kinds(f, v, i).key);
      } else if j > m {
        assert v2.log[j] == v.log[j] && IsUpdate(Kinds(f, v, j));
        if i < m {
          if Kinds(f, v, i).key == UpdateKey(Kinds(f, v, j)) {
            assert Targeted(f, v, keys, i);
            FadedIsPadding(f, v, v1, keys, m, i);
          }
        } else {
          assert IsUpdate(Kinds(f, v, i));
          assert UpdateKey(Kinds(f, v, i)) != UpdateKey(Kinds(f, v, j));
        }
      }
    }
  }

  /** Padding out a removal whose key has no entry left does not change the map. */
  lemma RemovePadded(f: Format, v: View, v': View, k: nat)
    requires f.Supported() && SettledOk(f, v) && Roomy(f, v) && k < |v.log| && IsRemove(Kinds(f, v, k))
    requires OnlyAt(v, v', k) && Weaker(f, v, v') && Kinds(f, v', k).Padding?
    ensures SettledOk(f, v') && Roomy(f, v')
    ensures Content(f, v'.log) == Content(f, v.log)
    ensures Apart(f, v', |v'.log|)
  {
    hide KindOf, Tight, Roomy, Lookup;
    WeakerSettled(f, v, v');
    WeakerRoomy(f, v, v');
    assert !IsCalm(Kinds(f, v, k));
    WeakerShape(f, v, v', |v.log|);
    forall key: nat | key <= MAX_KEY ensures Lookup(f, v'.log, key) == Lookup(f, v.log, key) {
      RemovePaddedLookup(f, v, v', k, key);
    }
    SameContent(f, v.log, v'.log);
  }

  lemma RemovePaddedLookup(f: Format, v: View, v': View, k: nat, key: nat)
    requires f.Supported() && Apart(f, v, |v.log|) && k < |v.log| && IsRemove(Kinds(f, v, k))
    requires OnlyAt(v, v', k) && Kinds(f, v', k).Padding?
    ensures Lookup(f, v'.log, key) == Lookup(f, v.log, key)
  {
    hide KindOf, LastFor;
    var j := LastFor(f, v.log, key);
    if j < 0 {
      LookupNone(f, v'.log, key);
    } else if j != k {
      LookupAt(f, v'.log, key, j);
    } else {
      var i := LastFor(f, v'.log, key);
      if i >= 0 {
        assert i != k && v'.log[i] == v.log[i];
        assert i < k;
        assert Kinds(f, v, i).User? ==> !Updates(f, v.log[k], Kinds(f, v, i).key);
      }
    }
  }

  lemma MarkerItem(f: Format, v: View, m: nat)
    requires Formed(f, v) && TransactionOk(f, v, m)
    ensures m < |v.log| && |v.log[m].ws| == 1 && PosAt(v, m) == v.log[m].pos && PosAt(v, m + 1) == v.log[m].pos + 1
    ensures Kinds(f, v, m).Internal?
    ensures forall k: nat :: k < m ==> Kinds(f, v, k).Padding? || Kinds(f, v, k).User?
  {
    hide ParseWord;
    PosBefore(v, m, m + 1);
    assert forall k: nat :: k < m ==> IsCalm(Kinds(f, v, k));
  }

  lemma RemoveSize(f: Format, v: View, k: nat)
    requires f.Supported() && k < |v.log|
    ensures IsRemove(Kinds(f, v, k)) ==> |v.log[k].ws| == 1
  {
    hide ParseWord;
  }

  /** The log of an applied transaction whose removals before an entry have been padded out. */
  ghost predicate RemovesLeft(f: Format, v: View, k: nat)
    requires f.Supported()
  {
    && k <= |v.log| && SettledOk(f, v) && Roomy(f, v) && Calm(f, v, k) && Apart(f, v, |v.log|) && Tight(f, v)
    && forall j: nat :: k <= j < |v.log| ==> IsUpdate(Kinds(f, v, j))
  }

  lemma NextIsUser(f: Format, v: View, k: nat)
    requires f.Supported() && RemovesLeft(f, v, k) && k < |v.log| && !IsRemove(Kinds(f, v, k))
    ensures RemovesLeft(f, v, k + 1)
  {
    hide KindOf, SettledOk, Roomy, Apart;
    assert IsUpdate(Kinds(f, v, k));
  }

  lemma NextIsPadded(f: Format, v: View, v': View, k: nat)
    requires f.Supported() && RemovesLeft(f, v, k) && k < |v.log| && IsRemove(Kinds(f, v, k))
    requires OnlyAt(v, v', k) && Weaker(f, v, v') && Kinds(f, v', k).Padding?
    ensures RemovesLeft(f, v', k + 1) && Content(f, v'.log) == Content(f, v.log)
  {
    hide KindOf, SettledOk, Roomy, Apart, Content, Tight;
    WeakerPos(f, v, v');
    RemovePadded(f, v, v', k);
    forall j: nat | j < k + 1 ensures IsCalm(Kinds(f, v', j)) {
      if j < k { assert IsCalm(Kinds(f, v, j)); }
    }
    forall j: nat | k + 1 <= j < |v'.log| ensures IsUpdate(Kinds(f, v', j)) {
      assert IsUpdate(Kinds(f, v, j));
    }
  }

  /** Past the virtual capacity there is no entry of a transaction. */
  lemma RemovesDone(f: Format, v: View, k: nat)
    requires Formed(f, v) && RemovesLeft(f, v, k) && (k == |v.log| || PosAt(v, k) >= HeadAt(v, 0) + f.V())
    ensures Idle(f, v)
  {
    hide KindOf, Roomy, Apart, Parses, MarksOk;
    if k < |v.log| {
      PosBefore(v, k, |v.log|);
    }
  }

  lemma OnlySet(v: View, k: nat, ws: seq<Word>)
    requires k < |v.log|
    ensures OnlyAt(v, SetItem(v, k, ws), k)
  {
  }

  lemma LeftKind(f: Format, v: View, k: nat)
    requires f.Supported() && RemovesLeft(f, v, k) && k < |v.log|
    ensures Kinds(f, v, k).User? || IsRemove(Kinds(f, v, k))
  {
    hide KindOf, SettledOk, Roomy, Apart;
    assert IsUpdate(Kinds(f, v, k));
  }

  lemma LeftSettled(f: Format, v: View, k: nat)
    requires f.Supported() && RemovesLeft(f, v, k)
    ensures SettledOk(f, v) && Roomy(f, v) && k <= |v.log| && Tight(f, v)
  {
    hide KindOf, SettledOk, Roomy, Apart;
  }
}
