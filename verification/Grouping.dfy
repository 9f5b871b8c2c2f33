/** Grouping ids by a key, and keeping the groups up to date one id at a time. */
module Grouping {

  function At<K, I>(groups: map<K, set<I>>, key: K): set<I> {
    if key in groups then groups[key] else {}
  }

  function Add<K, I>(groups: map<K, set<I>>, key: K, id: I): map<K, set<I>> {
    groups[key := At(groups, key) + {id}]
  }

  /** Takes an id out of a group, and the group away if it was the last one. */
  function Drop<K, I>(groups: map<K, set<I>>, key: K, id: I): map<K, set<I>> {
    if key !in groups then groups
    else if groups[key] - {id} == {} then groups - {key}
    else groups[key := groups[key] - {id}]
  }

  function Members<K(==), I>(keys: map<I, K>, key: K): set<I> {
    set id | id in keys && keys[id] == key
  }

  /** The groups of all ids: under each key the ids that have it, and no empty group. */
  function Group<K(==), I>(keys: map<I, K>): map<K, set<I>> {
    map key | key in keys.Values :: Members(keys, key)
  }

  predicate NoEmptyGroup<K, I>(groups: map<K, set<I>>) {
    forall k :: k in groups ==> groups[k] != {}
  }

  lemma SameGroups<K, I>(a: map<K, set<I>>, b: map<K, set<I>>)
    requires NoEmptyGroup(a) && NoEmptyGroup(b)
    requires forall k :: At(a, k) == At(b, k)
    ensures a == b
  {
    forall k
      ensures k in a <==> k in b
      ensures k in a ==> k in b && a[k] == b[k]
    {
      assert At(a, k) == At(b, k);
    }
  }

  lemma GroupAt<K, I>(keys: map<I, K>, key: K)
    ensures At(Group(keys), key) == Members(keys, key)
    ensures NoEmptyGroup(Group(keys))
  {
    forall k | k in keys.Values
      ensures Members(keys, k) != {}
    {
      var id :| id in keys && keys[id] == k;
      assert id in Members(keys, k);
    }
    if key !in keys.Values {
      assert Members(keys, key) == {};
    }
  }

  lemma AtAdd<K, I>(groups: map<K, set<I>>, key: K, id: I)
    ensures forall k :: At(Add(groups, key, id), k) == if k == key then At(groups, k) + {id} else At(groups, k)
    ensures NoEmptyGroup(groups) ==> NoEmptyGroup(Add(groups, key, id))
  {
  }

  lemma AtDrop<K, I>(groups: map<K, set<I>>, key: K, id: I)
    ensures forall k :: At(Drop(groups, key, id), k) == if k == key then At(groups, k) - {id} else At(groups, k)
    ensures NoEmptyGroup(groups) ==> NoEmptyGroup(Drop(groups, key, id))
  {
  }

  lemma AddKeepsGroups<K, I>(keys: map<I, K>, id: I, key: K)
    requires id !in keys
    ensures Add(Group(keys), key, id) == Group(keys[id := key])
  {
    var keys' := keys[id := key];
    var g := Add(Group(keys), key, id);
    GroupAt(keys, key);
    GroupAt(keys', key);
    forall k
      ensures At(g, k) == At(Group(keys'), k)
    {
      GroupAt(keys, k);
      GroupAt(keys', k);
      if k == key {
        assert Members(keys', k) == Members(keys, k) + {id};
      } else {
        assert Members(keys', k) == Members(keys, k);
      }
    }
    SameGroups(g, Group(keys'));
  }

  lemma DropKeepsGroups<K, I>(keys: map<I, K>, id: I)
    requires id in keys
    ensures Drop(Group(keys), keys[id], id) == Group(keys - {id})
  {
    var keys' := keys - {id};
    var g := Drop(Group(keys), keys[id], id);
    GroupAt(keys, keys[id]);
    GroupAt(keys', keys[id]);
    forall k
      ensures At(g, k) == At(Group(keys'), k)
    {
      GroupAt(keys, k);
      GroupAt(keys', k);
      assert Members(keys', k) == Members(keys, k) - {id};
    }
    SameGroups(g, Group(keys'));
  }

  // ---- listing and counting ----

  /** All ids of all groups, each as often as it is listed. */
  ghost function Bag<K, I>(groups: map<K, set<I>>): multiset<I>
    decreases |groups|
  {
    if groups == map[] then multiset{}
    else
      var k :| k in groups;
      multiset(groups[k]) + Bag(groups - {k})
  }

  /** Any group can be taken out first. */
  lemma {:induction false} BagRemove<K, I>(groups: map<K, set<I>>, key: K)
    requires key in groups
    ensures Bag(groups) == multiset(groups[key]) + Bag(groups - {key})
    decreases |groups|
  {
    var k :| k in groups && Bag(groups) == multiset(groups[k]) + Bag(groups - {k});
    if k != key {
      BagRemove(groups - {k}, key);
      BagRemove(groups - {key}, k);
      assert groups - {k} - {key} == groups - {key} - {k};
    }
  }

  lemma {:induction false} MembersPartition<K, I>(keys: map<I, K>, k: K, rest: map<I, K>)
    requires rest == map id | id in keys && keys[id] != k :: keys[id]
    ensures multiset(keys.Keys) == multiset(Members(keys, k)) + multiset(rest.Keys)
  {
    assert keys.Keys == Members(keys, k) + rest.Keys;
  }

  /** Grouping lists every id exactly once. */
  lemma {:induction false} BagOfGroup<K, I>(keys: map<I, K>)
    ensures Bag(Group(keys)) == multiset(keys.Keys)
    decreases |Group(keys)|
  {
    var g := Group(keys);
    if keys == map[] {
      assert g == map[];
    } else {
      var some :| some in keys;
      assert keys[some] in g;
      var k :| k in g && Bag(g) == multiset(g[k]) + Bag(g - {k});
      var rest := map id | id in keys && keys[id] != k :: keys[id];
      WithoutGroup(keys, k, rest);
      BagOfGroup(rest);
      MembersPartition(keys, k, rest);
    }
  }

  lemma WithoutGroup<K, I>(keys: map<I, K>, k: K, rest: map<I, K>)
    requires rest == map id | id in keys && keys[id] != k :: keys[id]
    ensures Group(keys) - {k} == Group(rest)
  {
    GroupAt(keys, k);
    GroupAt(rest, k);
    var g := Group(keys) - {k};
    forall j
      ensures At(g, j) == At(Group(rest), j)
    {
      GroupAt(keys, j);
      GroupAt(rest, j);
      if j == k {
        assert Members(rest, j) == {};
      } else {
        assert Members(rest, j) == Members(keys, j);
      }
    }
    SameGroups(g, Group(rest));
  }

  /** The groups whose key satisfies a condition. */
  function Select<K, I>(groups: map<K, set<I>>, keep: K -> bool): map<K, set<I>> {
    map k | k in groups && keep(k) :: groups[k]
  }

  function SelectKeys<K, I>(keys: map<I, K>, keep: K -> bool): map<I, K> {
    map id | id in keys && keep(keys[id]) :: keys[id]
  }

  /** Selecting groups is grouping the ids whose key is selected. */
  lemma SelectGroups<K, I>(keys: map<I, K>, keep: K -> bool)
    ensures Select(Group(keys), keep) == Group(SelectKeys(keys, keep))
  {
    var some := SelectKeys(keys, keep);
    var g := Select(Group(keys), keep);
    forall j
      ensures At(g, j) == At(Group(some), j)
    {
      GroupAt(keys, j);
      GroupAt(some, j);
      if keep(j) {
        assert Members(some, j) == Members(keys, j);
      } else {
        assert Members(some, j) == {};
      }
    }
    assert NoEmptyGroup(g) && NoEmptyGroup(Group(some)) by {
      if keys != map[] {
        var id :| id in keys;
        GroupAt(keys, keys[id]);
        GroupAt(some, keys[id]);
      }
    }
    SameGroups(g, Group(some));
  }
}
