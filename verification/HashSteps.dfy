/** What the single steps of libcutils/hashmap.c do to a table and to the map it stands for. */
module HashSteps {
  import opened Common
  import opened HashTable

  /** equalKeys, for an entry and a key with its hash. */
  predicate SameKey<K(==), V>(e: Entry<K, V>, key: K, h: bv32, eq: (K, K) -> bool) {
    e.key == key || (e.hash == h && eq(e.key, key))
  }

  /** The first entry of a chain that matches stands for the class of the key. */
  lemma ChainHit<K(!new), V(!new)>(buckets: seq<seq<Entry<K, V>>>, m: map<K, Option<V>>, hash: K -> bv32,
                                   eq: (K, K) -> bool, key: K, e: Entry<K, V>)
    requires Represents(buckets, m, hash) && Lawful(hash, eq) && OnePerClass(m, eq)
    requires e in buckets[BucketOf(buckets, Spread(hash(key)))] && SameKey(e, key, Spread(hash(key)), eq)
    ensures Has(m, eq, key) && KeyOf(m, eq, key) == e.key && Got(m, eq, key) == e.value
  {
    hide Spread, Index;
    assert Wants(m, hash, e);
    assert e.key in m && eq(e.key, key);
    assert eq(KeyOf(m, eq, key), e.key);
  }

  /** When nothing in the one chain matches, the key is absent from the whole table. */
  lemma ChainMiss<K(!new), V(!new)>(buckets: seq<seq<Entry<K, V>>>, m: map<K, Option<V>>, hash: K -> bv32,
                                    eq: (K, K) -> bool, key: K)
    requires Represents(buckets, m, hash) && Lawful(hash, eq)
    requires forall e | e in buckets[BucketOf(buckets, Spread(hash(key)))] :: !SameKey(e, key, Spread(hash(key)), eq)
    ensures !Has(m, eq, key)
  {
    hide Spread, Index;
    if Has(m, eq, key) {
      KeySits(buckets, m, hash, eq, key);
    }
  }

  lemma KeySits<K(!new), V(!new)>(buckets: seq<seq<Entry<K, V>>>, m: map<K, Option<V>>, hash: K -> bv32,
                                  eq: (K, K) -> bool, key: K)
    requires Represents(buckets, m, hash) && Lawful(hash, eq) && Has(m, eq, key)
    ensures exists e :: e in buckets[BucketOf(buckets, Spread(hash(key)))] && SameKey(e, key, Spread(hash(key)), eq)
  {
    hide Spread, Index;
    var j := KeyOf(m, eq, key);
    var e := Entry(j, Spread(hash(j)), m[j]);
    assert Wants(m, hash, e) && SameKey(e, key, Spread(hash(key)), eq);
  }

  /** A new value for entry `j` of a chain. */
  lemma ReplaceKeeps<K(!new), V(!new)>(buckets: seq<seq<Entry<K, V>>>, m: map<K, Option<V>>, hash: K -> bv32,
                                       i: nat, j: nat, value: Option<V>)
    requires Represents(buckets, m, hash) && i < |buckets| && j < |buckets[i]|
    ensures Represents(buckets[i := buckets[i][j := buckets[i][j].(value := value)]], m[buckets[i][j].key := value], hash)
  {
    hide Spread, Index;
    var chain, e := buckets[i], buckets[i][j];
    var chain' := chain[j := e.(value := value)];
    var now, m' := buckets[i := chain'], m[e.key := value];
    assert Wants(m, hash, e) && BucketOf(buckets, e.hash) == i;
    forall k, f | 0 <= k < |now| && f in now[k] ensures Wants(m', hash, f) && BucketOf(now, f.hash) == k {
      if k == i && f in chain' {
        var p :| 0 <= p < |chain'| && chain'[p] == f;
        assert chain[p] in buckets[i];
        assert p == j || chain[p].key != e.key;
      } else {
        assert f in buckets[k];
        assert f.key != e.key;
      }
    }
    forall f | Wants(m', hash, f) ensures f in now[BucketOf(now, f.hash)] {
      if f.key == e.key {
        assert chain'[j] == f;
      } else {
        assert Wants(m, hash, f);
        if BucketOf(now, f.hash) == i {
          StillThere(chain, j, e.(value := value), f);
        }
      }
    }
  }

  lemma StillThere<T>(s: seq<T>, j: nat, x: T, f: T)
    requires j < |s| && f in s && f != s[j]
    ensures f in s[j := x]
  {
    var p :| 0 <= p < |s| && s[p] == f;
    assert s[j := x][p] == f;
  }

  /** A new entry, at either end of its chain. */
  lemma AddKeeps<K(!new), V(!new)>(buckets: seq<seq<Entry<K, V>>>, m: map<K, Option<V>>, hash: K -> bv32,
                                   e: Entry<K, V>, front: bool)
    requires Represents(buckets, m, hash) && e.key !in m && e.hash == Spread(hash(e.key))
    ensures var i := BucketOf(buckets, e.hash);
            Represents(buckets[i := if front then [e] + buckets[i] else buckets[i] + [e]], m[e.key := e.value], hash)
  {
    hide Spread, Index;
    var i := BucketOf(buckets, e.hash);
    var chain := buckets[i];
    var chain' := if front then [e] + chain else chain + [e];
    var now, m' := buckets[i := chain'], m[e.key := e.value];
    assert forall f | f in chain :: Wants(m, hash, f);
    assert forall f :: f in chain' <==> f == e || f in chain;
    forall k, f | 0 <= k < |now| && f in now[k] ensures Wants(m', hash, f) && BucketOf(now, f.hash) == k {
      if !(k == i && f == e) {
        assert f in buckets[k];
      }
    }
    forall f | Wants(m', hash, f) ensures f in now[BucketOf(now, f.hash)] {
      if f.key != e.key {
        assert Wants(m, hash, f);
      }
    }
    NoneTwicePlus(chain, e, front);
  }

  lemma NoneTwicePlus<K, V>(chain: seq<Entry<K, V>>, e: Entry<K, V>, front: bool)
    requires NoneTwice(chain) && forall f | f in chain :: f.key != e.key
    ensures NoneTwice(if front then [e] + chain else chain + [e])
  {
    var now := if front then [e] + chain else chain + [e];
    forall i, j | 0 <= i < j < |now| ensures now[i].key != now[j].key {
      if front {
        assert now[j] == chain[j - 1] && (i > 0 ==> now[i] == chain[i - 1]);
      } else {
        assert now[i] == chain[i];
      }
    }
  }

  /** Entry `j` of a chain is unlinked. */
  lemma DeleteKeeps<K(!new), V(!new)>(buckets: seq<seq<Entry<K, V>>>, m: map<K, Option<V>>, hash: K -> bv32, i: nat, j: nat)
    requires Represents(buckets, m, hash) && i < |buckets| && j < |buckets[i]|
    ensures Represents(buckets[i := buckets[i][..j] + buckets[i][j + 1..]], m - {buckets[i][j].key}, hash)
  {
    hide Spread, Index;
    var chain, e := buckets[i], buckets[i][j];
    var chain' := chain[..j] + chain[j + 1..];
    var now, m' := buckets[i := chain'], m - {e.key};
    assert Wants(m, hash, e) && BucketOf(buckets, e.hash) == i;
    Unlinked(chain, j);
    forall k, f | 0 <= k < |now| && f in now[k] ensures Wants(m', hash, f) && BucketOf(now, f.hash) == k {
      assert f in buckets[k];
      assert f.key != e.key;
    }
    forall f | Wants(m', hash, f) ensures f in now[BucketOf(now, f.hash)] {
      assert Wants(m, hash, f);
    }
  }

  lemma Unlinked<K, V>(chain: seq<Entry<K, V>>, j: nat)
    requires NoneTwice(chain) && j < |chain|
    ensures var now := chain[..j] + chain[j + 1..];
            NoneTwice(now) && forall f :: f in now <==> f in chain && f.key != chain[j].key
  {
    var now := chain[..j] + chain[j + 1..];
    forall f ensures f in now <==> f in chain && f.key != chain[j].key {
      if f in now {
        var p :| 0 <= p < |now| && now[p] == f;
        assert f == if p < j then chain[p] else chain[p + 1];
      }
      if f in chain && f.key != chain[j].key {
        var p :| 0 <= p < |chain| && chain[p] == f;
        assert f == if p < j then now[p] else now[p - 1];
      }
    }
  }

  /** An empty table. */
  lemma EmptyRepresents<K(!new), V(!new)>(buckets: seq<seq<Entry<K, V>>>, hash: K -> bv32)
    requires PowerOfTwo(|buckets|) && forall i | 0 <= i < |buckets| :: buckets[i] == []
    ensures Represents(buckets, map[], hash)
  {
  }

  lemma SizeOfAdded<K, V>(m: map<K, V>, key: K, value: V)
    requires key !in m
    ensures |m[key := value]| == |m| + 1
  {
    assert m[key := value].Keys == m.Keys + {key};
  }

  lemma SizeOfReplaced<K, V>(m: map<K, V>, key: K, value: V)
    requires key in m
    ensures |m[key := value]| == |m|
  {
    assert m[key := value].Keys == m.Keys;
  }

  lemma SizeOfRemoved<K, V>(m: map<K, V>, key: K)
    requires key in m
    ensures |m - {key}| == |m| - 1
  {
    assert (m - {key}).Keys == m.Keys - {key};
  }
}
