/** The table cache: an ordered run of data points, one per key, grown on demand. */
module Storage {
  import opened Entities
  import opened Tables

  /** Two data points are the same cache entry when their keys agree: the same projectile
      apart from its energy, the same material and an equal configuration. The tables they
      carry are not compared. */
  function SameEntry(a: DataPoint, b: DataPoint): (r: bool)
    ensures r <==> && a.key.A == b.key.A && a.key.Z == b.key.Z && a.key.Q == b.key.Q
                   && a.key.material == b.key.material
                   && SameConfig(a.key.config, b.key.config)
  {
    a.key == b.key
  }

  /** A data point created for a projectile and material before any table is filled in. */
  function Fresh(p: Projectile, m: Material, c: Config): (d: DataPoint)
    ensures d.key == KeyOf(p, m, c)
    ensures d.range == [] && d.rangeStraggling == [] && d.angularVariance == []
  {
    DataPoint(KeyOf(p, m, c), [], [], [])
  }

  /** How the cache fills in a missing entry: `calculate_DataPoint` for a key. */
  type Maker = Key -> DataPoint

  /** A maker labels every entry with the key it was made for. */
  ghost predicate Keyed(make: Maker) {
    forall k :: make(k).key == k
  }

  /** The cache's maker: the tables `Build` produces, which carry their key. */
  function Builds(b: Builder): (make: Maker)
    ensures Keyed(make)
  {
    k => Build(b, k)
  }

  /** The cache, passed in and returned explicitly instead of living in a global. */
  datatype Storage = Storage(entries: seq<DataPoint>)

  /** `get_index`: the number of entries held; it is 0 exactly when no key is held. */
  function Count(s: Storage): (n: nat)
    ensures n == 0 <==> forall key :: !Contains(s, key)
  {
    assert |s.entries| > 0 ==> Contains(s, s.entries[0].key);
    |s.entries|
  }

  predicate Contains(s: Storage, key: Key) {
    exists i :: 0 <= i < |s.entries| && s.entries[i].key == key
  }

  /** Position of the first entry with the given key, or -1 when there is none. */
  function Find(entries: seq<DataPoint>, key: Key): (i: int)
    ensures -1 <= i < |entries|
    ensures 0 <= i ==> entries[i].key == key
    ensures forall j :: 0 <= j < |entries| && (i < 0 || j < i) ==> entries[j].key != key
    decreases |entries|
  {
    if |entries| == 0 then -1
    else
      var i := Find(entries[..|entries| - 1], key);
      if 0 <= i then i
      else if entries[|entries| - 1].key == key then |entries| - 1
      else -1
  }

  /** `Reset`: drop every entry. */
  function Reset(s: Storage): (r: Storage)
    ensures Count(r) == 0
    ensures forall key :: !Contains(r, key)
  {
    Storage([])
  }

  /** `Add`: build and append the entry for `key` unless an entry with that key is already
      held, in which case the cache is unchanged. */
  function Add(s: Storage, make: Maker, key: Key): (r: Storage)
    requires Keyed(make)
    ensures Contains(s, key) ==> r == s
    ensures !Contains(s, key) ==> r.entries == s.entries + [make(key)]
    ensures Contains(r, key)
    ensures Count(r) == Count(s) + (if Contains(s, key) then 0 else 1)
  {
    if 0 <= Find(s.entries, key) then s
    else
      var r := Storage(s.entries + [make(key)]);
      assert r.entries[|s.entries|].key == key;
      r
  }

  /** Every entry holds the tables its key builds to. */
  ghost predicate Coherent(s: Storage, make: Maker) {
    forall i :: 0 <= i < |s.entries| ==> s.entries[i] == make(s.entries[i].key)
  }

  /** No two entries share a key. */
  ghost predicate UniqueKeys(s: Storage) {
    forall i, j :: 0 <= i < j < |s.entries| ==> s.entries[i].key != s.entries[j].key
  }

  /** `Get`: the cached entry for `key`, building and adding it first when it is missing.
      On a coherent cache the answer is exactly what building the tables afresh gives, so
      the cache is invisible to its callers. */
  function Get(s: Storage, make: Maker, key: Key): (res: (DataPoint, Storage))
    requires Keyed(make)
    ensures res.0.key == key
    ensures res.1 == Add(s, make, key)
    ensures Coherent(s, make) ==> res.0 == make(key) && Coherent(res.1, make)
  {
    var i := Find(s.entries, key);
    if 0 <= i then (s.entries[i], s)
    else (make(key), Add(s, make, key))
  }

  /** Adding keeps the cache coherent and free of duplicate keys. */
  lemma AddPreserves(s: Storage, make: Maker, key: Key)
    requires Keyed(make)
    ensures Coherent(s, make) ==> Coherent(Add(s, make, key), make)
    ensures UniqueKeys(s) ==> UniqueKeys(Add(s, make, key))
  {
    var r := Add(s, make, key);
    if !Contains(s, key) {
      var n := |s.entries|;
      var dp := make(key);
      assert r.entries[n] == dp && dp.key == key;
      forall i | 0 <= i < n ensures r.entries[i] == s.entries[i] && r.entries[i].key != key {
      }
    }
  }

  /** With the maker `calculate_DataPoint` provides, a coherent cache answers every lookup
      with exactly the tables built for the key, and stays coherent. */
  lemma CacheIsTransparent(s: Storage, b: Builder, key: Key)
    requires Coherent(s, Builds(b))
    ensures Get(s, Builds(b), key).0 == Build(b, key)
    ensures Coherent(Get(s, Builds(b), key).1, Builds(b))
  {
    var make := Builds(b);
    assert make(key) == Build(b, key);
  }

  /** Adding the same key twice is the same as adding it once, and an entry already held
      keeps its position and contents. */
  lemma AddIdempotent(s: Storage, make: Maker, key: Key)
    requires Keyed(make)
    ensures Add(Add(s, make, key), make, key) == Add(s, make, key)
    ensures forall i :: 0 <= i < Count(s) ==> Add(s, make, key).entries[i] == s.entries[i]
  {
  }

  /** The count grows by one exactly when the key is new. */
  lemma AddGrowsIffNew(s: Storage, make: Maker, key: Key)
    requires Keyed(make)
    ensures Count(Add(s, make, key)) == Count(s) + 1 <==> !Contains(s, key)
    ensures Count(Add(s, make, key)) == Count(s) <==> Contains(s, key)
  {
  }

  /** A projectile's energy is not part of what the cache is keyed on: re-adding after a
      change of energy does not grow the cache. */
  lemma EnergyDoesNotSplitEntries(s: Storage, make: Maker, p: Projectile, t: real, m: Material, c: Config)
    requires Keyed(make)
    ensures Add(Add(s, make, KeyOf(p, m, c)), make, KeyOf(p.(T := t), m, c)) == Add(s, make, KeyOf(p, m, c))
  {
    KeyIgnoresEnergy(p, t, m, c);
    AddIdempotent(s, make, KeyOf(p, m, c));
  }

  /** The configuration the two-argument constructors use. */
  const DefaultConfig := Config(0, [])

  /** Carbon-12, fully stripped, at 1000 MeV per nucleon. */
  const Carbon := Projectile(12.0, 6.0, 6.0, 1000.0)

  /** Water: two hydrogen and one oxygen. */
  const Water := Material([Component(1.0, 1.0, 2.0), Component(16.0, 8.0, 1.0)], 0.0, 0.0)

  /** Graphite: carbon alone. */
  const Graphite := Material([Component(12.0, 6.0, 1.0)], 0.0, 0.0)

  /** Data points built from the same projectile and material are the same entry, a
      different material makes a different one, and assignment copies the identity. */
  lemma DataPointIdentity()
    ensures var a := Fresh(Carbon, Water, DefaultConfig);
            var b := Fresh(Carbon, Water, DefaultConfig);
            var c := Fresh(Carbon, Graphite, DefaultConfig);
            var d := c;
            var d' := a;
            && SameEntry(a, b) && !SameEntry(a, c)
            && SameEntry(d, c) && !SameEntry(d, b)
            && !SameEntry(d', c) && SameEntry(d', b)
  {
    assert |Water.components| != |Graphite.components|;
  }

  /** Reset, then add water, water, graphite, graphite for the same projectile: the count
      goes 0, 1, 1, 2, 2. */
  lemma AddScenario(s: Storage, make: Maker)
    requires Keyed(make)
    ensures var s0 := Reset(s);
            var s1 := Add(s0, make, KeyOf(Carbon, Water, DefaultConfig));
            var s2 := Add(s1, make, KeyOf(Carbon, Water, DefaultConfig));
            var s3 := Add(s2, make, KeyOf(Carbon, Graphite, DefaultConfig));
            var s4 := Add(s3, make, KeyOf(Carbon, Graphite, DefaultConfig));
            Count(s0) == 0 && Count(s1) == 1 && Count(s2) == 1 && Count(s3) == 2 && Count(s4) == 2
  {
    var water := KeyOf(Carbon, Water, DefaultConfig);
    var graphite := KeyOf(Carbon, Graphite, DefaultConfig);
    assert water != graphite by {
      assert |water.material.components| != |graphite.material.components|;
    }
    var s0 := Reset(s);
    var s1 := Add(s0, make, water);
    assert s1.entries == [make(water)];
    var s2 := Add(s1, make, water);
    assert s2 == s1;
    assert !Contains(s2, graphite) by {
      assert s2.entries[0].key == water;
    }
  }
}
