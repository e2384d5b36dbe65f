/** Sorted sequences of distinct keys. */
module SortedKeys {
  predicate Sorted(keys: seq<nat>) {
    forall i, j :: 0 <= i < j < |keys| ==> keys[i] < keys[j]
  }

  /** Where a key is or would be inserted. */
  function Search(keys: seq<nat>, key: nat): (i: nat)
    ensures i <= |keys|
    ensures forall j :: 0 <= j < i ==> keys[j] < key
    ensures i < |keys| ==> keys[i] >= key
  {
    if keys == [] || keys[0] >= key then 0 else 1 + Search(keys[1..], key)
  }

  predicate Found(keys: seq<nat>, key: nat) {
    Search(keys, key) < |keys| && keys[Search(keys, key)] == key
  }

  function Inserted(keys: seq<nat>, key: nat): seq<nat> {
    keys[..Search(keys, key)] + [key] + keys[Search(keys, key)..]
  }

  /** Searching tells whether a key is there, and inserting a new one keeps the keys sorted. */
  lemma InsertedSorted(keys: seq<nat>, key: nat)
    requires Sorted(keys)
    ensures Found(keys, key) <==> key in keys
    ensures key !in keys ==> Sorted(Inserted(keys, key))
    ensures forall k: nat :: k in Inserted(keys, key) <==> k == key || k in keys
    ensures |Inserted(keys, key)| == |keys| + 1
  {
    var i := Search(keys, key);
    assert forall j :: i < j < |keys| ==> keys[j] > key;
    assert keys == keys[..i] + keys[i..];
  }
}
