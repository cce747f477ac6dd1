/** struct Hashmap of libcutils/hashmap.c and its operations. Bucket chains are sequences. */
module Hashmap {
  import opened Common
  import opened HashTable
  import opened HashSteps

  /** The first entry of a chain that matches, or the length of the chain. */
  function FirstMatch<K(==), V>(chain: seq<Entry<K, V>>, key: K, h: bv32, eq: (K, K) -> bool, from: nat): (j: nat)
    requires from <= |chain|
    ensures from <= j <= |chain|
    ensures j < |chain| ==> SameKey(chain[j], key, h, eq)
    ensures forall i | from <= i < j :: !SameKey(chain[i], key, h, eq)
    decreases |chain| - from
  {
    if from == |chain| || SameKey(chain[from], key, h, eq) then from else FirstMatch(chain, key, h, eq, from + 1)
  }

  // ----- The order in which entries are visited

  function ChainKeys<K, V>(chain: seq<Entry<K, V>>): (r: seq<K>)
    ensures |r| == |chain| && forall j | 0 <= j < |r| :: r[j] == chain[j].key
  {
    seq(|chain|, j requires 0 <= j < |chain| => chain[j].key)
  }

  /** The keys of the first `n` buckets, bucket by bucket. */
  function KeyList<K, V>(buckets: seq<seq<Entry<K, V>>>, n: nat): seq<K>
    requires n <= |buckets|
  {
    if n == 0 then [] else KeyList(buckets, n - 1) + ChainKeys(buckets[n - 1])
  }

  lemma {:induction false} KeyListHas<K(!new), V(!new)>(buckets: seq<seq<Entry<K, V>>>, n: nat, m: map<K, Option<V>>,
                                                        hash: K -> bv32, k: K)
    requires Represents(buckets, m, hash) && n <= |buckets|
    ensures k in KeyList(buckets, n) <==> k in m && BucketOf(buckets, Spread(hash(k))) < n
  {
    hide Spread, Index;
    if n > 0 {
      KeyListHas(buckets, n - 1, m, hash, k);
      var chain := buckets[n - 1];
      if k in ChainKeys(chain) {
        var j :| 0 <= j < |chain| && chain[j].key == k;
        assert chain[j] in buckets[n - 1];
      }
      if k in m && BucketOf(buckets, Spread(hash(k))) == n - 1 {
        var e := Entry(k, Spread(hash(k)), m[k]);
        assert Wants(m, hash, e);
        var j :| 0 <= j < |chain| && chain[j] == e;
        assert ChainKeys(chain)[j] == k;
      }
    }
  }

  /** Every key of the map occurs in the list exactly once. */
  lemma {:induction false} KeyListOnce<K(!new), V(!new)>(buckets: seq<seq<Entry<K, V>>>, n: nat, m: map<K, Option<V>>,
                                                         hash: K -> bv32)
    requires Represents(buckets, m, hash) && n <= |buckets|
    ensures forall i, j | 0 <= i < j < |KeyList(buckets, n)| :: KeyList(buckets, n)[i] != KeyList(buckets, n)[j]
  {
    hide Spread, Index;
    if n > 0 {
      KeyListOnce(buckets, n - 1, m, hash);
      var before, chain, all := KeyList(buckets, n - 1), buckets[n - 1], KeyList(buckets, n);
      forall i, j | 0 <= i < j < |all| ensures all[i] != all[j] {
        if i < |before| <= j {
          KeyListHas(buckets, n - 1, m, hash, before[i]);
          assert chain[j - |before|] in buckets[n - 1];
        } else if i >= |before| {
          assert chain[i - |before|].key != chain[j - |before|].key;
        }
      }
    }
  }

  /** What a callback of hashmapForEach does with the entry it is given. */
  datatype Answer = Answer(more: bool, drop: bool)

  ghost function Dropped<K>(visited: seq<K>, answer: (nat, K) -> Answer): set<K> {
    set t: nat | 0 <= t < |visited| && answer(t, visited[t]).drop :: visited[t]
  }

  /** The callback asked for more every time. */
  ghost predicate Going<K>(visited: seq<K>, answer: (nat, K) -> Answer) {
    forall t: nat | t < |visited| :: answer(t, visited[t]).more
  }

  /** It asked for more every time but the last. */
  ghost predicate StoppedAtLast<K>(visited: seq<K>, answer: (nat, K) -> Answer) {
    visited != [] && Going(visited[..|visited| - 1], answer) && !answer(|visited| - 1, visited[|visited| - 1]).more
  }

  lemma GoingPlus<K>(visited: seq<K>, k: K, answer: (nat, K) -> Answer)
    requires Going(visited, answer)
    ensures if answer(|visited|, k).more then Going(visited + [k], answer) else StoppedAtLast(visited + [k], answer)
  {
    assert (visited + [k])[..|visited|] == visited;
  }

  lemma DroppedPlus<K>(visited: seq<K>, k: K, answer: (nat, K) -> Answer)
    ensures Dropped(visited + [k], answer) ==
            Dropped(visited, answer) + if answer(|visited|, k).drop then {k} else {}
  {
    var all := visited + [k];
    forall x ensures x in Dropped(all, answer) <==>
                     x in Dropped(visited, answer) + if answer(|visited|, k).drop then {k} else {}
    {
      if x in Dropped(visited, answer) {
        var t: nat :| t < |visited| && answer(t, visited[t]).drop && visited[t] == x;
        assert all[t] == x;
      }
      if x == k && answer(|visited|, k).drop {
        assert all[|visited|] == x;
      }
    }
  }

  /** The next entry in the order of visiting has not come up before. */
  lemma NextIsNew<K(!new), V(!new)>(buckets: seq<seq<Entry<K, V>>>, m: map<K, Option<V>>, hash: K -> bv32, i: nat, j: nat)
    requires Represents(buckets, m, hash) && i < |buckets| && j < |buckets[i]|
    ensures Wants(m, hash, buckets[i][j])
    ensures buckets[i][j].key !in KeyList(buckets, i) + ChainKeys(buckets[i])[..j]
    ensures KeyList(buckets, i) + ChainKeys(buckets[i])[..j] + [buckets[i][j].key] ==
            KeyList(buckets, i) + ChainKeys(buckets[i])[..j + 1]
  {
    hide Spread, Index;
    var keys := ChainKeys(buckets[i]);
    assert buckets[i][j] in buckets[i];
    KeyListHas(buckets, i, m, hash, keys[j]);
    assert keys[..j] + [keys[j]] == keys[..j + 1];
  }

  lemma ChainDone<K, V>(buckets: seq<seq<Entry<K, V>>>, i: nat)
    requires i < |buckets|
    ensures KeyList(buckets, i) + ChainKeys(buckets[i])[..|buckets[i]|] == KeyList(buckets, i + 1)
    ensures KeyList(buckets, i) + ChainKeys(buckets[i])[..0] == KeyList(buckets, i)
  {
    var keys := ChainKeys(buckets[i]);
    assert keys[..|keys|] == keys;
  }

  /** The part of the map that has been moved. */
  ghost predicate Moved<K(!new), V>(done: map<K, Option<V>>, m: map<K, Option<V>>, keys: seq<K>) {
    (forall k :: k in done <==> k in keys) && forall k | k in done :: k in m && done[k] == m[k]
  }

  lemma MovedPlus<K(!new), V>(done: map<K, Option<V>>, m: map<K, Option<V>>, keys: seq<K>, k: K)
    requires Moved(done, m, keys) && k in m
    ensures Moved(done[k := m[k]], m, keys + [k])
  {
  }

  lemma NotMoved<K(!new), V>(done: map<K, Option<V>>, m: map<K, Option<V>>, keys: seq<K>, k: K)
    requires Moved(done, m, keys) && k !in keys
    ensures k !in done
  {
  }

  lemma NothingMoved<K(!new), V>(m: map<K, Option<V>>)
    ensures Moved(map[], m, [])
  {
  }

  lemma AllMoved<K(!new), V(!new)>(buckets: seq<seq<Entry<K, V>>>, m: map<K, Option<V>>, hash: K -> bv32, done: map<K, Option<V>>)
    requires Represents(buckets, m, hash) && Moved(done, m, KeyList(buckets, |buckets|))
    ensures done == m
  {
    hide Spread, Index;
    forall k ensures k in done <==> k in m {
      KeyListHas(buckets, |buckets|, m, hash, k);
    }
  }

  lemma DoubledPower(n: nat)
    requires PowerOfTwo(n)
    ensures PowerOfTwo(2 * n)
  {
    assert 2 * n / 2 == n;
  }

  /** The loops of expandIfNecessary: the new table stands for the same map. */
  method Rehash<K(!new), V(!new)>(buckets: seq<seq<Entry<K, V>>>, ghost m: map<K, Option<V>>, ghost hash: K -> bv32)
    returns (now: seq<seq<Entry<K, V>>>)
    requires Represents(buckets, m, hash)
    ensures Represents(now, m, hash) && |now| == 2 * |buckets|
  {
    DoubledPower(|buckets|);
    now := seq(2 * |buckets|, _ => []);
    ghost var done: map<K, Option<V>> := map[];
    EmptyRepresents(now, hash);
    hide Represents, Spread, Index, KeyList, ChainKeys, Moved, BucketOf;
    EmptyKeyList(buckets);
    NothingMoved(m);
    for i := 0 to |buckets|
      invariant Represents(now, done, hash) && |now| == 2 * |buckets| && Moved(done, m, KeyList(buckets, i))
    {
      ChainDone(buckets, i);
      for j := 0 to |buckets[i]|
        invariant Represents(now, done, hash) && |now| == 2 * |buckets|
        invariant Moved(done, m, KeyList(buckets, i) + ChainKeys(buckets[i])[..j])
      {
        var e := buckets[i][j];
        NextIsNew(buckets, m, hash, i, j);
        assert e.key !in done by {
          NotMoved(done, m, KeyList(buckets, i) + ChainKeys(buckets[i])[..j], e.key);
        }
        AddKeeps(now, done, hash, e, true);
        MovedPlus(done, m, KeyList(buckets, i) + ChainKeys(buckets[i])[..j], e.key);
        var k := BucketOf(now, e.hash);
        now := now[k := [e] + now[k]];
        done := done[e.key := e.value];
      }
    }
    AllMoved(buckets, m, hash, done);
  }

  lemma EmptyKeyList<K, V>(buckets: seq<seq<Entry<K, V>>>)
    ensures KeyList(buckets, 0) == []
  {
  }

  lemma FreshKey<K(!new), V>(m: map<K, Option<V>>, hash: K -> bv32, eq: (K, K) -> bool, key: K, value: Option<V>)
    requires Lawful(hash, eq) && OnePerClass(m, eq) && !Has(m, eq, key)
    ensures key !in m && OnePerClass(m[key := value], eq) && Put(m, eq, key, value) == m[key := value]
  {
    PutThenGet(m, hash, eq, key, value, key);
    assert eq(key, key);
  }

  /** A stored key is found at its own place. */
  lemma OwnPlace<K(!new), V(!new)>(buckets: seq<seq<Entry<K, V>>>, m: map<K, Option<V>>, hash: K -> bv32,
                                   eq: (K, K) -> bool, i: nat, j: nat)
    requires Represents(buckets, m, hash) && Lawful(hash, eq) && OnePerClass(m, eq)
    requires i < |buckets| && j < |buckets[i]|
    ensures var key := buckets[i][j].key;
            && BucketOf(buckets, Spread(hash(key))) == i
            && FirstMatch(buckets[i], key, Spread(hash(key)), eq, 0) == j
            && Removed(m, eq, key) == m - {key}
  {
    hide Spread, Index;
    var e := buckets[i][j];
    assert e in buckets[i];
    assert Wants(m, hash, e);
    ChainHit(buckets, m, hash, eq, e.key, e);
    var f := FirstMatch(buckets[i], e.key, e.hash, eq, 0);
    assert SameKey(buckets[i][j], e.key, e.hash, eq);
    assert f <= j;
    assert buckets[i][f] in buckets[i];
    ChainHit(buckets, m, hash, eq, e.key, buckets[i][f]);
  }

  lemma LeftPlus<K(!new), V>(m: map<K, Option<V>>, visited: seq<K>, k: K, answer: (nat, K) -> Answer)
    ensures m - Dropped(visited + [k], answer) ==
            if answer(|visited|, k).drop then m - Dropped(visited, answer) - {k} else m - Dropped(visited, answer)
  {
    hide Dropped;
    DroppedPlus(visited, k, answer);
  }

  class Map<K(==, !new), V(==, !new)> {
    const hash: K -> bv32
    const equals: (K, K) -> bool
    var buckets: seq<seq<Entry<K, V>>>
    var size: nat
    ghost var contents: map<K, Option<V>>

    ghost predicate Sound()
      reads this
    {
      && Represents(buckets, contents, hash) && Lawful(hash, equals) && OnePerClass(contents, equals)
      && size == |contents|
    }

    /** The load factor stays at or below three quarters. */
    ghost predicate Valid()
      reads this
    {
      Sound() && size <= |buckets| * 3 / 4
    }

    /** hashmapCreate: the smallest power of two above four thirds of the capacity. */
    constructor (capacity: nat, hash0: K -> bv32, equals0: (K, K) -> bool)
      requires Lawful(hash0, equals0)
      ensures Valid() && contents == map[] && hash == hash0 && equals == equals0
      ensures |buckets| > capacity * 4 / 3 && (|buckets| == 1 || |buckets| / 2 <= capacity * 4 / 3)
    {
      var least := capacity * 4 / 3;
      var count := 1;
      while count <= least
        invariant PowerOfTwo(count) && (count == 1 || count / 2 <= least)
        decreases least - count
      {
        assert 2 * count / 2 == count;
        count := 2 * count;
      }
      hash, equals, size, contents := hash0, equals0, 0, map[];
      buckets := seq(count, _ => []);
      new;
      EmptyRepresents(buckets, hash);
    }

    /** The search that every operation starts with. */
    method Search(key: K) returns (i: nat, j: nat)
      requires Valid()
      ensures i == BucketOf(buckets, Spread(hash(key)))
      ensures j == FirstMatch(buckets[i], key, Spread(hash(key)), equals, 0)
      ensures j < |buckets[i]| ==> Has(contents, equals, key) && buckets[i][j].key == KeyOf(contents, equals, key)
                                   && buckets[i][j].value == Got(contents, equals, key)
      ensures j == |buckets[i]| ==> !Has(contents, equals, key)
    {
      hide Spread, Index, OnePerClass;
      var h := Spread(hash(key));
      i, j := BucketOf(buckets, h), 0;
      while j < |buckets[i]| && !SameKey(buckets[i][j], key, h, equals)
        invariant j <= |buckets[i]|
        invariant FirstMatch(buckets[i], key, h, equals, 0) == FirstMatch(buckets[i], key, h, equals, j)
      {
        j := j + 1;
      }
      if j < |buckets[i]| {
        ChainHit(buckets, contents, hash, equals, key, buckets[i][j]);
      } else {
        ChainMiss(buckets, contents, hash, equals, key);
      }
    }

    /** hashmapGet. */
    method Get(key: K) returns (r: Option<V>)
      requires Valid()
      ensures r == Got(contents, equals, key)
    {
      var i, j := Search(key);
      r := if j < |buckets[i]| then buckets[i][j].value else None;
    }

    /** hashmapContainsKey. */
    method ContainsKey(key: K) returns (r: bool)
      requires Valid()
      ensures r <==> Has(contents, equals, key)
    {
      var i, j := Search(key);
      r := j < |buckets[i]|;
    }

    /** expandIfNecessary: twice the buckets, every entry relinked at the front of its new chain. */
    method ExpandIfNecessary()
      requires Sound() && size <= |buckets| * 3 / 4 + 1
      modifies this`buckets
      ensures Valid()
    {
      if size > |buckets| * 3 / 4 {
        buckets := Rehash(buckets, contents, hash);
      }
    }

    /** createEntry at the end of a chain. */
    method AddEntry(key: K, value: Option<V>, i: nat)
      requires Valid() && i == BucketOf(buckets, Spread(hash(key))) && !Has(contents, equals, key)
      modifies this
      ensures Valid() && contents == old(contents)[key := value]
    {
      hide Spread, Index, OnePerClass, Represents;
      ghost var m := contents;
      FreshKey(contents, hash, equals, key, value);
      var h := Spread(hash(key));
      AddKeeps(buckets, contents, hash, Entry(key, h, value), false);
      SizeOfAdded(contents, key, value);
      buckets := buckets[i := buckets[i] + [Entry(key, h, value)]];
      contents := contents[key := value];
      size := size + 1;
      ExpandIfNecessary();
    }

    /** hashmapPut. */
    method Put(key: K, value: Option<V>) returns (r: Option<V>)
      requires Valid()
      modifies this
      ensures Valid() && contents == HashTable.Put(old(contents), equals, key, value)
      ensures r == Got(old(contents), equals, key)
    {
      hide Spread, Index, OnePerClass, Represents;
      var i, j := Search(key);
      if j == |buckets[i]| {
        AddEntry(key, value, i);
        return None;
      }
      var e := buckets[i][j];
      PutThenGet(contents, hash, equals, key, value, key);
      ReplaceKeeps(buckets, contents, hash, i, j, value);
      SizeOfReplaced(contents, e.key, value);
      buckets := buckets[i := buckets[i][j := e.(value := value)]];
      contents := contents[e.key := value];
      r := e.value;
    }

    /** hashmapMemoize: `initial` is what the callback would make of the key. */
    method Memoize(key: K, initial: K -> Option<V>) returns (r: Option<V>)
      requires Valid()
      modifies this
      ensures Valid()
      ensures if Has(old(contents), equals, key)
              then contents == old(contents) && r == Got(old(contents), equals, key)
              else contents == HashTable.Put(old(contents), equals, key, initial(key)) && r == initial(key)
    {
      var i, j := Search(key);
      if j == |buckets[i]| {
        r := initial(key);
        AddEntry(key, r, i);
      } else {
        r := buckets[i][j].value;
      }
    }

    /** hashmapRemove. */
    method Remove(key: K) returns (r: Option<V>)
      requires Valid()
      modifies this
      ensures Valid() && contents == Removed(old(contents), equals, key) && r == Got(old(contents), equals, key)
      ensures var i := BucketOf(old(buckets), Spread(hash(key)));
              var chain := old(buckets)[i];
              var j := FirstMatch(chain, key, Spread(hash(key)), equals, 0);
              buckets == if j < |chain| then old(buckets)[i := chain[..j] + chain[j + 1..]] else old(buckets)
    {
      hide Spread, Index, OnePerClass, Represents;
      var i, j := Search(key);
      if j == |buckets[i]| {
        return None;
      }
      var e := buckets[i][j];
      RemoveThenGet(contents, hash, equals, key, key);
      DeleteKeeps(buckets, contents, hash, i, j);
      SizeOfRemoved(contents, e.key);
      buckets := buckets[i := buckets[i][..j] + buckets[i][j + 1..]];
      contents := contents - {e.key};
      size := size - 1;
      r := e.value;
    }

    /** hashmapForEach with a callback that may remove the entry it is given: the entries of the old
        table are visited in order, each at most once, and all of them unless the callback stops. */
    method ForEach(answer: (nat, K) -> Answer) returns (visited: seq<K>, stopped: bool)
      requires Valid()
      modifies this
      ensures Valid() && contents == old(contents) - Dropped(visited, answer)
      ensures visited <= KeyList(old(buckets), |old(buckets)|)
      ensures if stopped then StoppedAtLast(visited, answer)
              else Going(visited, answer) && visited == KeyList(old(buckets), |old(buckets)|)
    {
      hide Spread, Index, OnePerClass, Represents, Lawful, KeyList, Dropped, Going, StoppedAtLast;
      ghost var was := buckets;
      NothingVisited(contents, was, answer);
      visited, stopped := [], false;
      var i := 0;
      while i < |buckets|
        invariant i <= |buckets| == |was| && Valid() && contents == old(contents) - Dropped(visited, answer)
        invariant buckets[i..] == was[i..] && visited == KeyList(was, i) && !stopped
        invariant Going(visited, answer)
      {
        KeyListGrows(was, i + 1);
        stopped, visited := ForChain(i, answer, visited, old(contents), was);
        if stopped {
          return;
        }
        i := i + 1;
      }
    }

    /** hashmapRemove of a stored key takes out its own entry. */
    method RemoveStored(i: nat, j: nat)
      requires Valid() && i < |buckets| && j < |buckets[i]|
      modifies this
      ensures Valid() && contents == old(contents) - {old(buckets[i][j].key)}
      ensures buckets == old(buckets)[i := old(buckets[i])[..j] + old(buckets[i])[j + 1..]]
    {
      OwnPlace(buckets, contents, hash, equals, i, j);
      hide Spread, Index, OnePerClass, Represents, Lawful, Removed;
      var _ := Remove(buckets[i][j].key);
    }

    /** One chain of hashmapForEach. The entry after the current one is remembered before the callback
        runs, and is still next in the chain afterwards. */
    method ForChain(i: nat, answer: (nat, K) -> Answer, sofar: seq<K>, ghost m: map<K, Option<V>>,
                    ghost was: seq<seq<Entry<K, V>>>) returns (stopped: bool, visited: seq<K>)
      requires Valid() && Represents(was, m, hash) && i < |buckets| == |was| && buckets[i..] == was[i..]
      requires sofar == KeyList(was, i) && contents == m - Dropped(sofar, answer)
      requires Going(sofar, answer)
      modifies this
      ensures Valid() && |buckets| == |was| && buckets[i + 1..] == was[i + 1..]
      ensures contents == m - Dropped(visited, answer) && visited <= KeyList(was, i + 1)
      ensures if stopped then StoppedAtLast(visited, answer) else Going(visited, answer) && visited == KeyList(was, i + 1)
    {
      hide Spread, Index, OnePerClass, Represents, Lawful, KeyList, ChainKeys, Dropped, Wants, Going, StoppedAtLast,
        Removed, FirstMatch, Got, Has, BucketOf;
      ghost var chain, p := was[i], 0;
      ChainDone(was, i);
      stopped, visited := false, sofar;
      var j := 0;
      assert buckets[i] == buckets[i..][0] && buckets[i + 1..] == buckets[i..][1..];
      while j < |buckets[i]|
        invariant Valid() && |buckets| == |was| && buckets[i + 1..] == was[i + 1..]
        invariant j <= |buckets[i]| && p <= |chain| && buckets[i][j..] == chain[p..]
        invariant visited == KeyList(was, i) + ChainKeys(chain)[..p] && contents == m - Dropped(visited, answer)
        invariant Going(visited, answer)
        decreases |buckets[i]| - j
      {
        var e := buckets[i][j];
        var next := if j + 1 < |buckets[i]| then Some(buckets[i][j + 1]) else None;
        ghost var rest := buckets[i][j + 1..];
        assert e == buckets[i][j..][0] == chain[p];
        assert rest == buckets[i][j..][1..] == chain[p + 1..];
        NextIsNew(was, m, hash, i, p);
        LeftPlus(m, visited, e.key, answer);
        GoingPlus(visited, e.key, answer);
        var a := answer(|visited|, e.key);
        visited := visited + [e.key];
        if a.drop {
          RemoveStored(i, j);
        } else {
          j := j + 1;
        }
        assert buckets[i][j..] == rest;
        assert next == if j < |buckets[i]| then Some(buckets[i][j]) else None;
        p := p + 1;
        if !a.more {
          stopped := true;
          Prefixes(KeyList(was, i), ChainKeys(chain), p);
          return;
        }
      }
    }
  }

  lemma NothingVisited<K(!new), V>(m: map<K, Option<V>>, buckets: seq<seq<Entry<K, V>>>, answer: (nat, K) -> Answer)
    ensures m - Dropped([], answer) == m && KeyList(buckets, 0) == [] && Going([], answer)
  {
    assert Dropped([], answer) == {};
  }

  lemma {:induction false} KeyListGrows<K, V>(buckets: seq<seq<Entry<K, V>>>, n: nat)
    requires n <= |buckets|
    ensures KeyList(buckets, n) <= KeyList(buckets, |buckets|)
    decreases |buckets| - n
  {
    if n < |buckets| {
      KeyListGrows(buckets, n + 1);
    }
  }

  lemma Prefixes<K>(a: seq<K>, b: seq<K>, p: nat)
    requires p <= |b|
    ensures a + b[..p] <= a + b[..|b|]
  {
    assert b[..p] <= b;
  }
}
