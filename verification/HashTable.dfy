/** The chained hash table of libcutils/hashmap.c as a value: where entries sit, and which finite map
    they stand for. */
module HashTable {
  import opened Common

  // ----- Hashes and buckets

  /** The secondary hash of hashKey. */
  function Spread(h: bv32): bv32 {
    var h1 := h + !(h << 9);
    var h2 := h1 ^ (h1 >> 14);
    var h3 := h2 + (h2 << 4);
    h3 ^ (h3 >> 10)
  }

  /** Some values of it. */
  lemma SpreadExample()
    ensures Spread(0) == 0xff83_ef00 && Spread(1) == 0xff83_cee7 && Spread(0x1234_5678) == 0x41f1_bf7b
  {
  }

  /** An int converted to size_t: the sign is extended. */
  function Extended(h: bv32): nat {
    var u := h as nat;
    if u < TWO_31 then u else u + (TWO_64 - TWO_32)
  }

  /** The high half is the top bit of the hash 32 times. */
  lemma ExtendedIs(h: bv32)
    ensures Extended(h) % TWO_32 == h as nat
    ensures Extended(h) / TWO_32 == h as nat / 0x8000_0000 * 0xffff_ffff
  {
    var u := h as nat;
    ExtendedHalves(u, Extended(h));
  }

  lemma ExtendedHalves(u: nat, e: nat)
    requires u < TWO_32 && e == if u < TWO_31 then u else u + (TWO_64 - TWO_32)
    ensures e % TWO_32 == u && e / TWO_32 == u / 0x8000_0000 * 0xffff_ffff
  {
    DivModUnique(if u < TWO_31 then 0 else 0xffff_ffff, u, TWO_32);
  }

  function BitAnd(x: nat, y: nat): nat
    decreases y
  {
    if y == 0 then 0 else (if x % 2 == 1 && y % 2 == 1 then 1 else 0) + 2 * BitAnd(x / 2, y / 2)
  }

  predicate PowerOfTwo(n: nat) { n == 1 || (n > 1 && n % 2 == 0 && PowerOfTwo(n / 2)) }

  /** calculateIndex. */
  function Index(count: nat, hash: bv32): nat
    requires count > 0
  {
    BitAnd(Extended(hash), count - 1)
  }

  lemma TwiceTheProduct(a: nat, m: nat)
    ensures a * (2 * m) == 2 * (a * m)
  {
  }

  lemma HalfRemainder(a: nat, b: nat, r: nat, m: nat)
    requires b < m && r < 2
    ensures (2 * (a * m + b) + r) % (2 * m) == 2 * b + r
  {
    TwiceTheProduct(a, m);
    DivModUnique(a, 2 * b + r, 2 * m);
  }

  lemma Halved(x: nat, m: nat)
    requires m > 0
    ensures x % (2 * m) == 2 * (x / 2 % m) + x % 2
  {
    var q := x / 2;
    var a, b := q / m, q % m;
    assert q == a * m + b;
    assert x == 2 * (a * m + b) + x % 2;
    HalfRemainder(a, b, x % 2, m);
  }

  /** Masking with a power of two less one is the remainder. */
  lemma {:induction false} MaskIsRemainder(x: nat, n: nat)
    requires PowerOfTwo(n)
    ensures BitAnd(x, n - 1) == x % n
    decreases n
  {
    if n > 1 {
      var m := n / 2;
      MaskIsRemainder(x / 2, m);
      Halved(x, m);
      assert (n - 1) / 2 == m - 1 && (n - 1) % 2 == 1;
    }
  }

  /** Every hash has a bucket. */
  lemma IndexInRange(count: nat, hash: bv32)
    requires PowerOfTwo(count)
    ensures Index(count, hash) == Extended(hash) % count < count
  {
    MaskIsRemainder(Extended(hash), count);
  }

  // ----- The map that a table stands for

  /** At most one key of every class. */
  ghost predicate OnePerClass<K(!new), V>(m: map<K, V>, eq: (K, K) -> bool) {
    forall a, b | a in m && b in m && eq(a, b) :: a == b
  }

  /** An equivalence that respects the hash. */
  ghost predicate Lawful<K(!new)>(hash: K -> bv32, eq: (K, K) -> bool) {
    && (forall a :: eq(a, a))
    && (forall a, b | eq(a, b) :: eq(b, a) && hash(a) == hash(b))
    && (forall a, b, c | eq(a, b) && eq(b, c) :: eq(a, c))
  }

  ghost predicate Has<K(!new), V>(m: map<K, V>, eq: (K, K) -> bool, key: K) { exists j :: j in m && eq(j, key) }

  /** The stored key of the class of `key`. */
  ghost function KeyOf<K(!new), V>(m: map<K, V>, eq: (K, K) -> bool, key: K): (j: K)
    requires Has(m, eq, key)
    ensures j in m && eq(j, key)
  {
    var j :| j in m && eq(j, key);
    j
  }

  /** Values are pointers: None is NULL, which also stands for an absent key. */
  ghost function Got<K(!new), V>(m: map<K, Option<V>>, eq: (K, K) -> bool, key: K): Option<V> {
    if Has(m, eq, key) then m[KeyOf(m, eq, key)] else None
  }

  ghost function Put<K(!new), V>(m: map<K, Option<V>>, eq: (K, K) -> bool, key: K, value: Option<V>)
    : map<K, Option<V>>
  {
    if Has(m, eq, key) then m[KeyOf(m, eq, key) := value] else m[key := value]
  }

  ghost function Removed<K(!new), V>(m: map<K, Option<V>>, eq: (K, K) -> bool, key: K): map<K, Option<V>> {
    if Has(m, eq, key) then m - {KeyOf(m, eq, key)} else m
  }

  /** The laws of a finite map, up to the equivalence: a put is seen by every equal key and by no other. */
  lemma PutThenGet<K(!new), V>(m: map<K, Option<V>>, hash: K -> bv32, eq: (K, K) -> bool, key: K, value: Option<V>, j: K)
    requires Lawful(hash, eq) && OnePerClass(m, eq)
    ensures OnePerClass(Put(m, eq, key, value), eq)
    ensures Got(Put(m, eq, key, value), eq, j) == if eq(key, j) then value else Got(m, eq, j)
    ensures Has(Put(m, eq, key, value), eq, j) <==> eq(key, j) || Has(m, eq, j)
  {
    var now := Put(m, eq, key, value);
    var own := if Has(m, eq, key) then KeyOf(m, eq, key) else key;
    assert own in now && eq(own, key) && now == m[own := value];
    if eq(key, j) {
      assert eq(own, j);
    } else if Has(m, eq, j) {
      assert KeyOf(m, eq, j) in now;
    }
    assert !Has(now, eq, j) || KeyOf(now, eq, j) == own || KeyOf(now, eq, j) in m;
  }

  /** A removal is seen by every equal key and by no other. */
  lemma RemoveThenGet<K(!new), V>(m: map<K, Option<V>>, hash: K -> bv32, eq: (K, K) -> bool, key: K, j: K)
    requires Lawful(hash, eq) && OnePerClass(m, eq)
    ensures OnePerClass(Removed(m, eq, key), eq)
    ensures Got(Removed(m, eq, key), eq, j) == if eq(key, j) then None else Got(m, eq, j)
    ensures Has(Removed(m, eq, key), eq, j) <==> !eq(key, j) && Has(m, eq, j)
  {
    var now := Removed(m, eq, key);
    if Has(m, eq, j) && !eq(key, j) {
      assert KeyOf(m, eq, j) in now;
    }
    if Has(now, eq, j) {
      var k := KeyOf(now, eq, j);
      assert k in m && (eq(key, j) ==> eq(k, key));
    }
  }

  // ----- Buckets

  datatype Entry<K, V> = Entry(key: K, hash: bv32, value: Option<V>)

  /** The entries that a map calls for. */
  ghost predicate Wants<K, V>(m: map<K, Option<V>>, hash: K -> bv32, e: Entry<K, V>) {
    e.key in m && e.value == m[e.key] && e.hash == Spread(hash(e.key))
  }

  ghost predicate NoneTwice<K, V>(chain: seq<Entry<K, V>>) {
    forall i, j | 0 <= i < j < |chain| :: chain[i].key != chain[j].key
  }

  function BucketOf<K, V>(buckets: seq<seq<Entry<K, V>>>, hash: bv32): (i: nat)
    requires PowerOfTwo(|buckets|)
    ensures i < |buckets|
  {
    IndexInRange(|buckets|, hash);
    Index(|buckets|, hash)
  }

  /** Every entry of the map sits in the bucket of its hash, once, and nothing else does. */
  ghost predicate Represents<K(!new), V(!new)>(buckets: seq<seq<Entry<K, V>>>, m: map<K, Option<V>>, hash: K -> bv32) {
    && PowerOfTwo(|buckets|)
    && (forall i, e | 0 <= i < |buckets| && e in buckets[i] :: Wants(m, hash, e) && BucketOf(buckets, e.hash) == i)
    && (forall e | Wants(m, hash, e) :: e in buckets[BucketOf(buckets, e.hash)])
    && (forall i | 0 <= i < |buckets| :: NoneTwice(buckets[i]))
  }
}
