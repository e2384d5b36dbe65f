/** The slots of the persistent store that hold the credentials of the authenticator. */
module Residents {
  import opened Wrappers
  import opened Ctap

  const CREDENTIALS_START: nat := 1700
  const MAX_SUPPORTED_RESIDENTIAL_KEYS: nat := 150
  const U64: nat := 0x1_0000_0000_0000_0000

  datatype Policy = UserVerificationOptional | UserVerificationOptionalWithList | UserVerificationRequired

  datatype Resident = Resident(
    credentialId: seq<bv8>,
    privateKey: seq<bv8>,
    rpId: seq<bv8>,
    userHandle: seq<bv8>,
    userName: Option<seq<bv8>>,
    policy: Option<Policy>,
    creationOrder: nat)
  {
    predicate SameUser(other: Resident) {
      rpId == other.rpId && userHandle == other.userHandle
    }

    predicate IsDiscoverable() {
      policy == None || policy == Some(UserVerificationOptional)
    }
  }

  /** The credentials by key of the store. */
  type Slots = map<nat, Resident>

  predicate InRange(key: nat) {
    CREDENTIALS_START <= key < CREDENTIALS_START + MAX_SUPPORTED_RESIDENTIAL_KEYS
  }

  /** Each user of a relying party has one credential at most. */
  ghost predicate UsersDiffer(slots: Slots) {
    forall j, k :: j in slots && k in slots && slots[j].SameUser(slots[k]) ==> j == k
  }

  ghost predicate OrdersDiffer(slots: Slots) {
    forall j, k :: j in slots && k in slots && slots[j].creationOrder == slots[k].creationOrder ==> j == k
  }

  ghost predicate KeysInRange(slots: Slots) {
    forall k :: k in slots ==> InRange(k)
  }

  /** The invariant of the slots. */
  ghost predicate Slotted(slots: Slots) {
    KeysInRange(slots) && UsersDiffer(slots) && OrdersDiffer(slots)
  }

  /** Some entries that the authenticator never writes. */
  ghost predicate Corrupt(slots: Slots, c: Resident) {
    || !KeysInRange(slots)
    || exists j, k :: j in slots && k in slots && j != k && slots[j].SameUser(c) && slots[k].SameUser(c)
  }

  lemma SlottedIsSound(slots: Slots, c: Resident)
    requires Slotted(slots)
    ensures !Corrupt(slots, c)
  {
  }

  // ---------------------------------------------------------------------------------------------
  // Going through the slots

  /** The slots one after the other, in some order. */
  ghost predicate Enumerates(es: seq<(nat, Resident)>, slots: Slots) {
    && (forall i :: 0 <= i < |es| ==> es[i].0 in slots && es[i].1 == slots[es[i].0])
    && (forall i, j :: 0 <= i < j < |es| ==> es[i].0 != es[j].0)
    && (forall k :: k in slots ==> Reaches(es, k))
  }

  ghost predicate Reaches(es: seq<(nat, Resident)>, k: nat) {
    exists i :: 0 <= i < |es| && es[i].0 == k
  }

  /** The number of slots in use. */
  function Count(used: seq<bool>): (n: nat)
    ensures n <= |used|
  {
    if used == [] then 0 else Count(used[..|used| - 1]) + if used[|used| - 1] then 1 else 0
  }

  lemma {:induction false} CountAll(used: seq<bool>)
    ensures Count(used) == |used| <==> forall i :: 0 <= i < |used| ==> used[i]
  {
    if used != [] {
      CountAll(used[..|used| - 1]);
      assert forall i :: 0 <= i < |used| - 1 ==> used[i] == used[..|used| - 1][i];
    }
  }

  /** The number of marks is the number of marked keys. */
  lemma {:induction false} CountIsSize(used: seq<bool>, keys: set<nat>)
    requires forall k :: k in keys <==>
               CREDENTIALS_START <= k < CREDENTIALS_START + |used| && used[k - CREDENTIALS_START]
    ensures Count(used) == |keys|
  {
    if used == [] {
      assert keys == {};
    } else {
      var n := |used| - 1;
      var last := CREDENTIALS_START + n;
      CountIsSize(used[..n], keys - {last});
      if used[n] { assert keys == (keys - {last}) + {last}; } else { assert keys - {last} == keys; }
    }
  }

  /** The greatest creation order of some credentials. */
  ghost predicate IsGreatest(slots: Slots, order: nat) {
    && (exists k :: k in slots && slots[k].creationOrder == order)
    && (forall k :: k in slots ==> slots[k].creationOrder <= order)
  }

  /** A creation order that comes after all others, unless 64 bits do not suffice. */
  ghost predicate IsNext(slots: Slots, order: nat) {
    if slots == map[] then order == 1
      else exists greatest: nat :: IsGreatest(slots, greatest) && order == (greatest + 1) % U64
  }

  ghost predicate HasOrder(slots: Slots, order: nat) {
    exists k :: k in slots && slots[k].creationOrder == order
  }

  /** When the next creation order is a new one. */
  lemma NextIsNew(slots: Slots, order: nat)
    requires IsNext(slots, order) && forall k :: k in slots ==> slots[k].creationOrder < U64
    ensures (forall k :: k in slots ==> slots[k].creationOrder != order)
            <==> !(HasOrder(slots, U64 - 1) && HasOrder(slots, 0))
  {
    if slots != map[] {
      var greatest: nat :| IsGreatest(slots, greatest) && order == (greatest + 1) % U64;
      if greatest < U64 - 1 {
        assert order == greatest + 1;
      } else {
        assert order == 0;
      }
    }
  }

  // ---------------------------------------------------------------------------------------------
  // The store

  /** The key that a credential is stored at: the one that it replaces, or the first free one. */
  ghost predicate IsKeyFor(slots: Slots, c: Resident, key: nat) {
    if exists k :: k in slots && slots[k].SameUser(c) then key in slots && slots[key].SameUser(c)
    else InRange(key) && key !in slots && forall k :: CREDENTIALS_START <= k < key ==> k in slots
  }

  /** All slots are in use, and by other users. */
  ghost predicate IsFull(slots: Slots, c: Resident) {
    |slots| >= MAX_SUPPORTED_RESIDENTIAL_KEYS && forall k :: k in slots ==> !slots[k].SameUser(c)
  }

  /** What storing a credential does. */
  ghost predicate Stored(slots: Slots, c: Resident, fault: Fault, r: Status, slots': Slots) {
    if Corrupt(slots, c) then r == Err(VendorInternalError) && slots' == slots
    else if IsFull(slots, c) then r == Err(KeyStoreFull) && slots' == slots
    else
      && r == Outcome(fault)
      && exists key: nat :: IsKeyFor(slots, c, key) && slots' == if Applied(fault) then slots[key := c] else slots
  }

  class CredentialStore {
    var slots: Slots
    var faults: seq<Fault>

    constructor (slots: Slots)
      ensures this.slots == slots && faults == []
    {
      this.slots := slots;
      this.faults := [];
    }

    /** Makes the next writes fail. */
    method Inject(faults: seq<Fault>)
      modifies this`faults
      ensures this.faults == faults
    {
      this.faults := faults;
    }

    /** Goes through the credentials, in any order. */
    method Entries() returns (es: seq<(nat, Resident)>)
      ensures Enumerates(es, slots)
    {
      es := [];
      var rest := slots.Keys;
      while rest != {}
        invariant rest <= slots.Keys
        invariant forall i :: 0 <= i < |es| ==> es[i].0 in slots && es[i].0 !in rest && es[i].1 == slots[es[i].0]
        invariant forall i, j :: 0 <= i < j < |es| ==> es[i].0 != es[j].0
        invariant forall k :: k in slots ==> k in rest || Reaches(es, k)
        decreases |rest|
      {
        var k :| k in rest;
        ghost var before := es;
        es := es + [(k, slots[k])];
        rest := rest - {k};
        assert es[|before|].0 == k;
        forall key | key in slots ensures key in rest || Reaches(es, key) {
          if key !in rest && key != k {
            var i :| 0 <= i < |before| && before[i].0 == key;
            assert es[i].0 == key;
          }
        }
      }
    }

    /** Returns the next creation order. */
    method NewCreationOrder() returns (order: nat)
      ensures IsNext(slots, order)
    {
      var es := Entries();
      var greatest: Option<nat> := None;
      for i := 0 to |es|
        invariant greatest.None? <==> i == 0
        invariant greatest.Some? ==> exists j :: 0 <= j < i && es[j].1.creationOrder == greatest.value
        invariant forall j :: 0 <= j < i ==> greatest.Some? && es[j].1.creationOrder <= greatest.value
      {
        var next := es[i].1.creationOrder;
        if greatest.None? || greatest.value <= next {
          greatest := Some(next);
        }
      }
      if greatest.Some? {
        GreatestOf(es, slots, greatest.value);
        return (greatest.value + 1) % U64;
      }
      NoEntries(es, slots);
      return 1;
    }

    /**
     Goes through the credentials, to find the keys in use and the one for the user of a credential.
     Returns nothing if there is an entry that the authenticator does not write.
     */
    method Scan(c: Resident) returns (found: Option<(seq<bool>, Option<nat>)>)
      ensures found.None? <==> Corrupt(slots, c)
      ensures found.Some? ==>
                var (keys, oldKey) := found.value;
                && |keys| == MAX_SUPPORTED_RESIDENTIAL_KEYS && Count(keys) == |slots|
                && (forall k: nat :: InRange(k) ==> (keys[k - CREDENTIALS_START] <==> k in slots))
                && if oldKey.Some? then oldKey.value in slots && slots[oldKey.value].SameUser(c)
                   else forall k :: k in slots ==> !slots[k].SameUser(c)
    {
      hide Corrupt, Enumerates;
      var oldKey: Option<nat> := None;
      var keys := seq(MAX_SUPPORTED_RESIDENTIAL_KEYS, _ => false);
      var es := Entries();
      for i := 0 to |es|
        invariant Marked(es[..i], keys, oldKey, c)
      {
        var key := es[i].0;
        if !InRange(key) || keys[key - CREDENTIALS_START] {
          MarkedTwice(es, slots, i, keys, oldKey, c);
          return None;
        }
        if es[i].1.SameUser(c) && oldKey.Some? {
          FoundTwice(es, slots, i, keys, oldKey, c);
        }
        MarkedNext(es, i, keys, oldKey, c);
        keys := keys[key - CREDENTIALS_START := true];
        if es[i].1.SameUser(c) {
          if oldKey.Some? {
            return None;
          }
          oldKey := Some(key);
        }
      }
      assert es[..|es|] == es;
      MarkedAll(es, slots, keys, oldKey, c);
      return Some((keys, oldKey));
    }

    /** Stores or updates a credential; one for the same relying party and user is replaced. */
    method StoreCredential(c: Resident) returns (r: Status)
      modifies this
      ensures Stored(old(slots), c, NextFault(old(faults)), r, slots)
    {
      hide Corrupt;
      var found := Scan(c);
      if found.None? {
        return Err(VendorInternalError);
      }
      var (keys, oldKey) := found.value;
      var count := CountMarks(keys);
      if oldKey.None? && count >= MAX_SUPPORTED_RESIDENTIAL_KEYS {
        return Err(KeyStoreFull);
      }
      var key;
      if oldKey.None? {
        var index := FirstFree(keys);
        key := CREDENTIALS_START + index;
        forall k: nat | CREDENTIALS_START <= k < key ensures k in slots {
          assert keys[k - CREDENTIALS_START] && InRange(k);
        }
      } else {
        key := oldKey.value;
      }
      assert IsKeyFor(slots, c, key);
      var fault := NextFault(faults);
      faults := LaterFaults(faults);
      if Applied(fault) {
        slots := slots[key := c];
      }
      return Outcome(fault);
    }

    /** Returns the credentials of a relying party, in any order. */
    method FilterCredential(rpId: seq<bv8>, checkCredProtect: bool) returns (cs: seq<Resident>)
      ensures forall c :: c in cs <==> Matches(slots, rpId, checkCredProtect, c)
      ensures OrdersDiffer(slots) ==> forall i, j :: 0 <= i < j < |cs| ==> cs[i].creationOrder != cs[j].creationOrder
    {
      hide OrdersDiffer;
      var es := Entries();
      cs := [];
      ghost var from: seq<nat> := [];
      for i := 0 to |es|
        invariant |from| == |cs| && forall j :: 0 <= j < |cs| ==> from[j] < i && cs[j] == es[from[j]].1
        invariant forall j, k :: 0 <= j < k < |cs| ==> from[j] < from[k]
        invariant forall j :: 0 <= j < |cs| ==> cs[j].rpId == rpId && (!checkCredProtect || cs[j].IsDiscoverable())
        invariant forall j :: 0 <= j < i && es[j].1.rpId == rpId && (!checkCredProtect || es[j].1.IsDiscoverable()) ==>
                    es[j].1 in cs
      {
        var c := es[i].1;
        if c.rpId == rpId && (!checkCredProtect || c.IsDiscoverable()) {
          cs := cs + [c];
          from := from + [i];
        }
      }
      FilteredAll(es, slots, rpId, checkCredProtect, cs);
      forall i, j | 0 <= i < j < |cs| && OrdersDiffer(slots) ensures cs[i].creationOrder != cs[j].creationOrder {
        OrdersOf(es, slots, from[i], from[j]);
      }
    }

    /** Removes all credentials. */
    method Reset() returns (r: Status)
      modifies this
      ensures r == Outcome(NextFault(old(faults)))
      ensures slots == if Applied(NextFault(old(faults))) then map[] else old(slots)
    {
      var fault := NextFault(faults);
      faults := LaterFaults(faults);
      if Applied(fault) {
        slots := map[];
      }
      return Outcome(fault);
    }

    /** Stores a credential with the next creation order. */
    method MakeCredential(c: Resident) returns (r: Status, ghost order: nat)
      modifies this
      ensures IsNext(old(slots), order)
      ensures Stored(old(slots), c.(creationOrder := order), NextFault(old(faults)), r, slots)
    {
      var newOrder := NewCreationOrder();
      order := newOrder;
      r := StoreCredential(c.(creationOrder := newOrder));
    }
  }

  method CountMarks(keys: seq<bool>) returns (count: nat)
    ensures count == Count(keys)
  {
    count := 0;
    for i := 0 to |keys|
      invariant count == Count(keys[..i])
    {
      assert keys[..i + 1][..i] == keys[..i];
      if keys[i] { count := count + 1; }
    }
    assert keys[..|keys|] == keys;
  }

  /** Returns the first key that is not in use. */
  method FirstFree(keys: seq<bool>) returns (index: nat)
    requires Count(keys) < |keys|
    ensures index < |keys| && !keys[index] && forall i :: 0 <= i < index ==> keys[i]
  {
    CountAll(keys);
    index := 0;
    while keys[index]
      invariant index < |keys| && forall i :: 0 <= i < index ==> keys[i]
      invariant exists i :: index <= i < |keys| && !keys[i]
      decreases |keys| - index
    {
      index := index + 1;
    }
  }

  /** The keys of some entries are marked, and the entry for the user of a credential is found. */
  ghost predicate Marked(es: seq<(nat, Resident)>, keys: seq<bool>, oldKey: Option<nat>, c: Resident) {
    && |keys| == MAX_SUPPORTED_RESIDENTIAL_KEYS
    && (forall i :: 0 <= i < |es| ==> InRange(es[i].0) && keys[es[i].0 - CREDENTIALS_START])
    && (forall k :: 0 <= k < |keys| && keys[k] ==> Reaches(es, CREDENTIALS_START + k))
    && (forall i :: 0 <= i < |es| && es[i].1.SameUser(c) ==> oldKey == Some(es[i].0))
    && (oldKey.Some? ==> exists i :: 0 <= i < |es| && es[i].0 == oldKey.value && es[i].1.SameUser(c))
  }

  /** A credential is stored, is for a relying party, and may be used without user verification if need be. */
  ghost predicate Matches(slots: Slots, rpId: seq<bv8>, checkCredProtect: bool, c: Resident) {
    c in slots.Values && c.rpId == rpId && (!checkCredProtect || c.IsDiscoverable())
  }

  lemma FilteredAll(es: seq<(nat, Resident)>, slots: Slots, rpId: seq<bv8>, checkCredProtect: bool, cs: seq<Resident>)
    requires Enumerates(es, slots)
    requires forall c :: c in cs ==>
               && c.rpId == rpId && (!checkCredProtect || c.IsDiscoverable())
               && exists j :: 0 <= j < |es| && es[j].1 == c
    requires forall j :: 0 <= j < |es| && es[j].1.rpId == rpId && (!checkCredProtect || es[j].1.IsDiscoverable()) ==>
               es[j].1 in cs
    ensures forall c :: c in cs <==> Matches(slots, rpId, checkCredProtect, c)
  {
    forall c ensures c in cs <==> Matches(slots, rpId, checkCredProtect, c) {
      if c in cs {
        var j :| 0 <= j < |es| && es[j].1 == c;
        assert es[j].0 in slots;
      }
      if Matches(slots, rpId, checkCredProtect, c) {
        var k :| k in slots && slots[k] == c;
        assert Reaches(es, k);
      }
    }
  }

  lemma OrdersOf(es: seq<(nat, Resident)>, slots: Slots, i: nat, j: nat)
    requires Enumerates(es, slots) && OrdersDiffer(slots) && i < j < |es|
    ensures es[i].1.creationOrder != es[j].1.creationOrder
  {
    assert es[i].0 in slots && es[j].0 in slots && es[i].0 != es[j].0;
  }

  lemma GreatestOf(es: seq<(nat, Resident)>, slots: Slots, greatest: nat)
    requires Enumerates(es, slots) && exists j :: 0 <= j < |es| && es[j].1.creationOrder == greatest
    requires forall j :: 0 <= j < |es| ==> es[j].1.creationOrder <= greatest
    ensures slots != map[] && IsGreatest(slots, greatest) && IsNext(slots, (greatest + 1) % U64)
  {
    var j :| 0 <= j < |es| && es[j].1.creationOrder == greatest;
    assert es[j].0 in slots && slots[es[j].0].creationOrder == greatest;
    forall k | k in slots ensures slots[k].creationOrder <= greatest {
      assert Reaches(es, k);
    }
    assert IsGreatest(slots, greatest);
  }

  lemma NoEntries(es: seq<(nat, Resident)>, slots: Slots)
    requires Enumerates(es, slots) && es == []
    ensures slots == map[]
  {
    assert forall k :: k in slots ==> Reaches(es, k);
    assert slots.Keys == {};
  }

  /** No key comes twice, so it is one out of range. */
  lemma MarkedTwice(es: seq<(nat, Resident)>, slots: Slots, i: nat, keys: seq<bool>, oldKey: Option<nat>, c: Resident)
    requires Enumerates(es, slots) && i < |es| && Marked(es[..i], keys, oldKey, c)
    requires !InRange(es[i].0) || keys[es[i].0 - CREDENTIALS_START]
    ensures Corrupt(slots, c)
  {
    NotReached(es, slots, i);
  }

  lemma NotReached(es: seq<(nat, Resident)>, slots: Slots, i: nat)
    requires Enumerates(es, slots) && i < |es|
    ensures !Reaches(es[..i], es[i].0) && es[i].0 in slots
  {
    forall j | 0 <= j < i ensures es[..i][j].0 != es[i].0 {
      assert es[..i][j] == es[j];
    }
  }

  /** Marking the key of the next entry. */
  lemma MarkedNext(es: seq<(nat, Resident)>, i: nat, keys: seq<bool>, oldKey: Option<nat>, c: Resident)
    requires i < |es| && Marked(es[..i], keys, oldKey, c) && InRange(es[i].0)
    ensures var keys' := keys[es[i].0 - CREDENTIALS_START := true];
            && (!es[i].1.SameUser(c) ==> Marked(es[..i + 1], keys', oldKey, c))
            && (es[i].1.SameUser(c) && oldKey.None? ==> Marked(es[..i + 1], keys', Some(es[i].0), c))
  {
    var more, keys' := es[..i + 1], keys[es[i].0 - CREDENTIALS_START := true];
    assert more[i] == es[i] && forall j :: 0 <= j < i ==> more[j] == es[..i][j];
    forall k | 0 <= k < |keys'| && keys'[k] ensures Reaches(more, CREDENTIALS_START + k) {
      if k != es[i].0 - CREDENTIALS_START {
        assert Reaches(es[..i], CREDENTIALS_START + k);
      }
    }
  }

  lemma FoundTwice(es: seq<(nat, Resident)>, slots: Slots, i: nat, keys: seq<bool>, oldKey: Option<nat>, c: Resident)
    requires Enumerates(es, slots) && i < |es| && Marked(es[..i], keys, oldKey, c)
    requires oldKey.Some? && es[i].1.SameUser(c)
    ensures Corrupt(slots, c)
  {
    var j :| 0 <= j < |es[..i]| && es[..i][j].0 == oldKey.value && es[..i][j].1.SameUser(c);
    assert es[..i][j] == es[j] && es[j].0 != es[i].0;
    assert es[j].0 in slots && es[i].0 in slots;
  }

  /** What is known once all entries were seen. */
  lemma MarkedAll(es: seq<(nat, Resident)>, slots: Slots, keys: seq<bool>, oldKey: Option<nat>, c: Resident)
    requires Enumerates(es, slots) && Marked(es, keys, oldKey, c)
    ensures !Corrupt(slots, c) && Count(keys) == |slots|
    ensures forall k: nat :: InRange(k) ==> (keys[k - CREDENTIALS_START] <==> k in slots)
    ensures if oldKey.Some? then oldKey.value in slots && slots[oldKey.value].SameUser(c)
            else forall k :: k in slots ==> !slots[k].SameUser(c)
  {
    forall k | k in slots ensures InRange(k) && keys[k - CREDENTIALS_START]
      && (slots[k].SameUser(c) ==> oldKey == Some(k)) {
      assert Reaches(es, k);
    }
    forall k: nat | InRange(k) && keys[k - CREDENTIALS_START] ensures k in slots {
      assert Reaches(es, CREDENTIALS_START + (k - CREDENTIALS_START));
    }
    CountIsSize(keys, slots.Keys);
    assert |slots.Keys| == |slots|;
  }

  // ---------------------------------------------------------------------------------------------
  // Runs

  /** A credential is made, or all are removed; some writes fail. */
  datatype Event =
    | Make(credential: Resident, faults: seq<Fault>)
    | Clear(faults: seq<Fault>)

  /** All creation orders are at most a bound. */
  ghost predicate OrdersUpTo(slots: Slots, bound: nat) {
    forall k :: k in slots ==> slots[k].creationOrder <= bound
  }

  /** Storing a credential with the next creation order keeps the invariant. */
  lemma StoredSlotted(slots: Slots, c: Resident, fault: Fault, r: Status, slots': Slots, bound: nat)
    requires Slotted(slots) && OrdersUpTo(slots, bound) && bound + 1 < U64
    requires IsNext(slots, c.creationOrder) && Stored(slots, c, fault, r, slots')
    ensures Slotted(slots') && OrdersUpTo(slots', bound + 1)
    ensures r == Outcome(fault) || (r == Err(KeyStoreFull) && IsFull(slots, c) && slots' == slots)
  {
    SlottedIsSound(slots, c);
    NextBound(slots, c.creationOrder, bound);
    if !IsFull(slots, c) && Applied(fault) {
      var key: nat :| IsKeyFor(slots, c, key) && slots' == slots[key := c];
      forall k | k in slots' ensures slots'[k] == if k == key then c else slots[k] {
      }
    }
  }

  lemma NextBound(slots: Slots, order: nat, bound: nat)
    requires IsNext(slots, order) && OrdersUpTo(slots, bound) && bound + 1 < U64
    ensures order <= bound + 1 && forall k :: k in slots ==> slots[k].creationOrder < order
  {
  }

  /** What each event of a run does. */
  ghost predicate Stepped(slots: Slots, event: Event, r: Status, slots': Slots) {
    match event
    case Make(c, faults) =>
      exists order: nat :: IsNext(slots, order)
        && Stored(slots, c.(creationOrder := order), NextFault(faults), r, slots')
    case Clear(faults) =>
      r == Outcome(NextFault(faults)) && slots' == if Applied(NextFault(faults)) then map[] else slots
  }

  /** Only a new user is turned down, and only when all slots are in use. */
  ghost predicate Admitted(slots: Slots, event: Event, r: Status, slots': Slots) {
    || r == Outcome(NextFault(event.faults))
    || (event.Make? && r == Err(KeyStoreFull) && IsFull(slots, event.credential) && slots' == slots)
  }

  /**
   In every run, the credentials are in distinct slots among the first 150, at most one for each user of a
   relying party, and have distinct creation orders. A credential is only turned down when all slots are in
   use, and none by the same user.
   */
  method Run(store: CredentialStore, events: seq<Event>) returns (results: seq<Status>, ghost states: seq<Slots>)
    requires store.slots == map[] && |events| < U64 - 1
    modifies store
    ensures |results| == |events| && |states| == |events| + 1
    ensures states[0] == map[] && states[|events|] == store.slots
    ensures forall i :: 0 <= i <= |events| ==> Slotted(states[i])
    ensures forall i :: 0 <= i < |events| ==>
              Stepped(states[i], events[i], results[i], states[i + 1])
                && Admitted(states[i], events[i], results[i], states[i + 1])
  {
    hide Stored, IsNext, Slotted, OrdersUpTo, Stepped, Admitted;
    results, states := [], [store.slots];
    EmptySlotted();
    for n := 0 to |events|
      invariant |results| == n && |states| == n + 1 && states[0] == map[] && states[n] == store.slots
      invariant OrdersUpTo(store.slots, n)
      invariant forall i :: 0 <= i <= n ==> Slotted(states[i])
      invariant forall i :: 0 <= i < n ==>
        Stepped(states[i], events[i], results[i], states[i + 1])
          && Admitted(states[i], events[i], results[i], states[i + 1])
    {
      ghost var before := store.slots;
      var r;
      store.Inject(events[n].faults);
      match events[n] {
        case Make(c, faults) =>
          ghost var order;
          r, order := store.MakeCredential(c);
          StoredSlotted(before, c.(creationOrder := order), NextFault(faults), r, store.slots, n);
          MakeStepped(before, c, order, faults, r, store.slots);
        case Clear(faults) =>
          r := store.Reset();
          EmptySlotted();
          ClearStepped(before, faults, r, store.slots, n);
      }
      results := results + [r];
      states := states + [store.slots];
    }
  }

  lemma EmptySlotted()
    ensures Slotted(map[]) && forall bound: nat :: OrdersUpTo(map[], bound)
  {
  }

  lemma MakeStepped(slots: Slots, c: Resident, order: nat, faults: seq<Fault>, r: Status, slots': Slots)
    requires IsNext(slots, order) && Stored(slots, c.(creationOrder := order), NextFault(faults), r, slots')
    requires r == Outcome(NextFault(faults))
             || (r == Err(KeyStoreFull) && IsFull(slots, c.(creationOrder := order)) && slots' == slots)
    ensures Stepped(slots, Make(c, faults), r, slots') && Admitted(slots, Make(c, faults), r, slots')
  {
    hide Stored, IsNext;
  }

  lemma ClearStepped(slots: Slots, faults: seq<Fault>, r: Status, slots': Slots, bound: nat)
    requires r == Outcome(NextFault(faults)) && slots' == if Applied(NextFault(faults)) then map[] else slots
    ensures Stepped(slots, Clear(faults), r, slots') && Admitted(slots, Clear(faults), r, slots')
    ensures OrdersUpTo(slots, bound) ==> OrdersUpTo(slots', bound + 1)
  {
  }
}
