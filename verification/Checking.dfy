/** Comparing a store with the model that it should agree with. */
module Checking {
  import opened Wrappers
  import opened Format
  import opened Bytes
  import opened Entries
  import opened Log
  import opened Contents
  import opened Stages
  import opened Capacity
  import opened Model
  import opened Store

  datatype StoreInvariant =
    | OnlyInStore(key: nat)
    | DifferentValue(key: nat)
    | OnlyInModel(key: nat)
    | DifferentCapacity(store: nat, model: nat)

  /** The part of the map of a store that scans see. */
  ghost function Sighted(f: Format, v: View): map<nat, seq<byte>>
    requires f.Supported()
  {
    map key | key in Content(f, v.log) && Visible(f, v, key) :: Content(f, v.log)[key]
  }

  /** It is the whole map exactly if every live entry starts within the virtual capacity. */
  lemma SightedAll(f: Format, v: View)
    requires Formed(f, v) && Idle(f, v)
    ensures Sighted(f, v) == Content(f, v.log) <==> Scannable(f, v)
  {
    hide KindOf, Content, Idle, Contiguous, MarksOk, Parses, HeadAt, Format.V;
    if Scannable(f, v) {
      forall key | key in Content(f, v.log) ensures Visible(f, v, key) {
        ContentKeys(f, v, key);
        VisibleKey(f, v, key);
      }
    } else {
      var k: nat :| k < |v.log| && Kinds(f, v, k).User? && v.log[k].pos >= HeadAt(v, 0) + f.V();
      var key := Kinds(f, v, k).key;
      RestKey(f, v, k);
      ContentAt(f, v, k, key);
      if Visible(f, v, key) {
        var j: nat :| j < |v.log| && Kinds(f, v, j) == User(key) && v.log[j].pos < HeadAt(v, 0) + f.V();
        OnlyOne(f, v, key, j, k);
      }
    }
  }

  lemma ContentKeys(f: Format, v: View, key: nat)
    requires f.Supported() && key in Content(f, v.log)
    ensures key <= MAX_KEY
  {
    hide KindOf, ValueOf, Lookup;
  }

  /** Scans see the map of the entries up to where they stop. */
  lemma SightedPrefix(f: Format, v: View, n: nat)
    requires Formed(f, v) && Idle(f, v) && n <= |v.log|
    requires n == |v.log| || PosAt(v, n) >= HeadAt(v, 0) + f.V()
    requires forall k: nat :: k < n ==> v.log[k].pos < HeadAt(v, 0) + f.V()
    ensures Content(f, v.log[..n]) == Sighted(f, v)
  {
    hide KindOf, Idle, MarksOk, Parses, HeadAt, Format.V, Lookup, ValueOf;
    forall key: nat | key <= MAX_KEY
      ensures Lookup(f, v.log[..n], key) == if Visible(f, v, key) then Lookup(f, v.log, key) else None
    {
      PrefixLookup(f, v, n, key);
    }
    forall key | key in Content(f, v.log) ensures key <= MAX_KEY {
      ContentKeys(f, v, key);
    }
  }

  lemma PrefixLookup(f: Format, v: View, n: nat, key: nat)
    requires Formed(f, v) && Idle(f, v) && n <= |v.log|
    requires n == |v.log| || PosAt(v, n) >= HeadAt(v, 0) + f.V()
    requires forall k: nat :: k < n ==> v.log[k].pos < HeadAt(v, 0) + f.V()
    ensures Lookup(f, v.log[..n], key) == if Visible(f, v, key) then Lookup(f, v.log, key) else None
  {
    hide KindOf, MarksOk, Parses, HeadAt, Format.V, LastFor;
    if Visible(f, v, key) {
      var j: nat :| j < |v.log| && Kinds(f, v, j) == User(key) && v.log[j].pos < HeadAt(v, 0) + f.V();
      if j >= n { PosBefore(v, n, j); }
      forall i: nat | i < |v.log| && i != j ensures !Updates(f, v.log[i], key) {
        OnlyOne(f, v, key, j, i);
      }
      assert v.log[..n][j] == v.log[j];
      LookupAt(f, v.log, key, j);
      LookupAt(f, v.log[..n], key, j);
    } else {
      forall j: nat | j < n ensures !Updates(f, v.log[..n][j], key) {
        assert IsCalm(Kinds(f, v, j)) && v.log[..n][j] == v.log[j];
      }
      LookupNone(f, v.log[..n], key);
    }
  }

  /** What scans see of the used words are those of the part of the map that they see. */
  lemma SightedWords(f: Format, v: View)
    requires Formed(f, v) && Idle(f, v)
    ensures MapWords(Sighted(f, v)) == Seen(f, v)
  {
    hide KindOf, Idle, MarksOk, Parses, HeadAt, Format.V, Content, MapWords, Used, UsedUntil, Sighted;
    var n := FirstFrom(v, HeadAt(v, 0) + f.V());
    SightedPrefix(f, v, n);
    PrefixWords(f, v, n);
    ScanCounts(f, v, n);
  }

  /** There is an entry for a key among the first ones of a log. */
  ghost predicate Met(f: Format, v: View, k: nat, key: nat)
    requires f.Supported()
  {
    exists j: nat :: j < k && j < |v.log| && Kinds(f, v, j) == User(key)
  }

  /** The first entries of a log, which scans see, are in the content of a model, and were removed from it. */
  ghost predicate Compared(f: Format, v: View, k: nat, content: map<nat, seq<byte>>, rest: map<nat, seq<byte>>)
    requires f.Supported()
  {
    && (forall key :: key in rest ==> key in content && rest[key] == content[key])
    && (forall key: nat :: key in content ==> key in rest || Met(f, v, k, key))
    && (forall key: nat :: Met(f, v, k, key) ==>
          && key !in rest && key in content && key in Sighted(f, v) && content[key] == Sighted(f, v)[key])
  }

  lemma ComparedStart(f: Format, v: View, content: map<nat, seq<byte>>)
    requires f.Supported()
    ensures Compared(f, v, 0, content, content)
  {
    hide KindOf, Content;
  }

  /** The next entry of the log. */
  lemma ComparedNext(f: Format, v: View, k: nat, k': nat, h: StoreHandle, content: map<nat, seq<byte>>,
                     rest: map<nat, seq<byte>>)
    requires Formed(f, v) && Idle(f, v) && Compared(f, v, k, content, rest) && Iterated(f, v, k, k', Some(h))
    ensures h.key !in rest ==> content != Sighted(f, v)
    ensures h.key in rest && rest[h.key] != ValueOf(f, v.log[k' - 1].ws) ==> content != Sighted(f, v)
    ensures h.key in rest && rest[h.key] == ValueOf(f, v.log[k' - 1].ws) ==> Compared(f, v, k', content, rest - {h.key})
  {
    hide KindOf, Content, Idle, Contiguous, MarksOk, Parses, ValueOf, HeaderOf, HeadAt, Format.V;
    RestKey(f, v, k' - 1);
    ContentAt(f, v, k' - 1, h.key);
    assert Kinds(f, v, k' - 1) == User(h.key);
    assert Visible(f, v, h.key);
    forall key: nat ensures Met(f, v, k', key) <==> Met(f, v, k, key) || key == h.key {
      if Met(f, v, k', key) {
        var j: nat :| j < k' && j < |v.log| && Kinds(f, v, j) == User(key);
        assert j < k || j == k' - 1;
      }
    }
    if Met(f, v, k, h.key) {
      var j: nat :| j < k && j < |v.log| && Kinds(f, v, j) == User(h.key);
      OnlyOne(f, v, h.key, j, k' - 1);
    }
  }

  lemma RestKey(f: Format, v: View, k: nat)
    requires Formed(f, v) && Idle(f, v) && k < |v.log| && Kinds(f, v, k).User?
    ensures Kinds(f, v, k).key <= MAX_KEY
  {
    hide ParseWord;
  }

  /** At the end of an iteration, all keys that scans see were met. */
  lemma VisibleMet(f: Format, v: View, k: nat, k': nat, key: nat)
    requires Formed(f, v) && Iterated(f, v, k, k', None) && Visible(f, v, key)
    ensures Met(f, v, k, key)
  {
    hide KindOf, MarksOk, Parses, HeadAt, Format.V;
    var j: nat :| j < |v.log| && Kinds(f, v, j) == User(key) && v.log[j].pos < HeadAt(v, 0) + f.V();
    if k' <= j { PosBefore(v, k', j); }
    assert j < k;
  }

  /** All entries that scans see were compared. */
  lemma ComparedAll(f: Format, v: View, k: nat, k': nat, content: map<nat, seq<byte>>, rest: map<nat, seq<byte>>)
    requires f.Supported() && Formed(f, v) && Idle(f, v) && Compared(f, v, k, content, rest)
    requires Iterated(f, v, k, k', None)
    ensures rest == map[] <==> content == Sighted(f, v)
  {
    hide KindOf, Content, Idle, Formed, HeadAt, Format.V, Iterated, Visible, Met;
    var m := Sighted(f, v);
    forall key: nat | key in m ensures Met(f, v, k, key) {
      VisibleMet(f, v, k, k', key);
    }
    if rest == map[] {
      assert content.Keys == m.Keys;
      assert content == m;
    }
    if content == m {
      assert rest.Keys == {};
    }
  }

  /**
   Compares a store with a model: its entries one after the other, then the capacities. There is no
   difference exactly if the model holds the part of the map that scans see.
   */
  method CheckModel(store: Store, model: StoreModel, ghost v: View) returns (r: Result<(), StoreInvariant>)
    requires store.Ready() && AtRest(store.f, store.storage.pages, v)
    requires model.Valid() && model.f == store.f
    ensures r.Ok? <==> model.content == Sighted(store.f, v)
    ensures Scannable(store.f, v) ==> (r.Ok? <==> model.content == Content(store.f, v.log))
  {
    hide AtRest, Content, KindOf, HeaderOf, ValueOf, Scannable, HeadAt, PosAt, Format.V, Format.C, Iterated, Idle,
         Compared, Used, MapWords, Sighted, Visible, Seen, StoreRatio.Remaining;
    ghost var f := store.f;
    RestFacts(f, store.storage.pages, v);
    SightedAll(f, v);
    SightedWords(f, v);
    var rest := model.content;
    var iter := new StoreIter(store, v);
    ghost var k := 0;
    ComparedStart(f, v, rest);
    while true
      invariant k <= |v.log| && fresh(iter) && iter.store == store && iter.At(v, k)
      invariant Compared(f, v, k, model.content, rest)
      decreases |v.log| - k
    {
      ghost var k0 := k;
      var next;
      next, k := iter.Next(v, k0);
      IteratedAt(f, v, k0, k, next);
      if next.None? {
        ComparedAll(f, v, k0, k, model.content, rest);
        break;
      }
      ComparedNext(f, v, k0, k, next.value, model.content, rest);
      var key := next.value.key;
      if key !in rest {
        return Err(OnlyInStore(key));
      }
      var value := store.GetValue(next.value, v, k - 1);
      if value.value != rest[key] {
        return Err(DifferentValue(key));
      }
      rest := rest - {key};
    }
    if rest != map[] {
      var key :| key in rest;
      return Err(OnlyInModel(key));
    }
    var storeCapacity := store.GetCapacity(v);
    var modelCapacity := model.GetCapacity();
    var inStore, inModel := storeCapacity.value.Remaining(), modelCapacity.Remaining();
    if inStore != inModel {
      return Err(DifferentCapacity(inStore, inModel));
    }
    return Ok(());
  }

  lemma IteratedAt(f: Format, v: View, k: nat, k': nat, r: Option<StoreHandle>)
    requires Iterated(f, v, k, k', r)
    ensures f.Supported() && k <= k' <= |v.log|
    ensures r.Some? ==> k < k' && Kinds(f, v, k' - 1).User? && r.value == HandleOf(f, v, k' - 1)
  {
    hide KindOf, HeadAt, Format.V;
  }
}
