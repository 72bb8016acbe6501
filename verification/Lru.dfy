/** The least-recently-used cache: a doubly linked list with sentinels beside a map. */
module Lru {
  import opened WalletTypes

  // ---------- the recency sequence it refines ----------

  /** Keys from most to least recently used. */
  datatype Cache<K(==), V> = Cache(order: seq<K>, values: map<K, V>, capacity: nat, tick: bv64, mask: bv64)

  function Without<K(==)>(s: seq<K>, k: K): seq<K> {
    if s == [] then [] else if s[0] == k then Without(s[1..], k) else [s[0]] + Without(s[1..], k)
  }

  function ToFront<K(==)>(s: seq<K>, k: K): seq<K> { [k] + Without(s, k) }

  function Insert<K(==), V>(c: Cache<K, V>, k: K, v: V): Cache<K, V>
    requires c.capacity <= |c.values| ==> c.order != []
  {
    if k in c.values then c.(order := ToFront(c.order, k), values := c.values[k := v])
    else if c.capacity <= |c.values| then
      var last := c.order[|c.order| - 1];
      c.(order := [k] + c.order[..|c.order| - 1], values := c.values[k := v] - {last})
    else c.(order := [k] + c.order, values := c.values[k := v])
  }

  function NextTick(tick: bv64): bv64 { tick + 1 }

  predicate Sampled(tick: bv64, mask: bv64) { tick & mask == 0 }

  /** A read counts, and promotes its key when the sampled bits of the counter are zero. */
  function Get<K(==), V>(c: Cache<K, V>, k: K): Cache<K, V> {
    if k !in c.values then c
    else
      var tick := NextTick(c.tick);
      c.(tick := tick, order := if Sampled(tick, c.mask) then ToFront(c.order, k) else c.order)
  }

  function Remove<K(==), V>(c: Cache<K, V>, k: K): Cache<K, V> {
    if k in c.values then c.(order := Without(c.order, k), values := c.values - {k}) else c
  }

  function AtLeastOne(n: nat): nat { if n == 0 then 1 else n }

  function Resize<K(==), V>(c: Cache<K, V>, n: nat): Cache<K, V> {
    var cap := AtLeastOne(n);
    if cap < c.capacity && cap < |c.order| then
      c.(capacity := cap, order := c.order[..cap], values := Only(c.values, c.order[..cap]))
    else c.(capacity := cap)
  }

  function Only<K(==), V>(values: map<K, V>, keys: seq<K>): map<K, V> { map k <- values | k in keys :: values[k] }

  ghost predicate Distinct<K>(s: seq<K>) { forall i, j | 0 <= i < j < |s| :: s[i] != s[j] }

  /** The order lists exactly the cached keys, once each, and no more than the capacity. */
  ghost predicate Good<K, V>(c: Cache<K, V>) {
    && Distinct(c.order) && (forall k <- c.order :: k in c.values) && (forall k <- c.values :: k in c.order)
    && |c.order| == |c.values| <= c.capacity && 0 < c.capacity
  }

  lemma {:induction false} WithoutAt<K>(s: seq<K>, i: nat)
    requires Distinct(s) && i < |s|
    ensures Without(s, s[i]) == s[..i] + s[i + 1..]
  {
    if i == 0 {
      WithoutAbsent(s[1..], s[0]);
    } else {
      WithoutAt(s[1..], i - 1);
      assert s[..i] + s[i + 1..] == [s[0]] + (s[1..][..i - 1] + s[1..][i..]);
    }
  }

  lemma {:induction false} WithoutAbsent<K>(s: seq<K>, k: K)
    requires k !in s
    ensures Without(s, k) == s
  {
    if s != [] { WithoutAbsent(s[1..], k); }
  }

  lemma {:induction false} WithoutKeys<K>(s: seq<K>, k: K)
    ensures forall x :: x in Without(s, k) <==> x in s && x != k
    ensures Distinct(s) ==> Distinct(Without(s, k))
    ensures |Without(s, k)| <= |s|
  {
    if s != [] {
      WithoutKeys(s[1..], k);
      assert s == [s[0]] + s[1..];
      if Distinct(s) && s[0] != k { DistinctCons(s[0], Without(s[1..], k)); }
    }
  }

  lemma DistinctCons<K>(k: K, s: seq<K>)
    requires Distinct(s) && k !in s
    ensures Distinct([k] + s)
  {
  }

  // ---------- what the cache holds: the most recently used keys ----------

  datatype Op<K, V> = Put(key: K, value: V) | Read(key: K)

  function Apply<K(==), V>(c: Cache<K, V>, op: Op<K, V>): Cache<K, V>
    requires c.capacity <= |c.values| ==> c.order != []
  {
    match op
    case Put(k, v) => Insert(c, k, v)
    case Read(k) => Get(c, k)
  }

  /** Distinct keys of a use history, latest use first. */
  function Recent<K(==)>(uses: seq<K>): seq<K> {
    if uses == [] then [] else ToFront(Recent(uses[..|uses| - 1]), uses[|uses| - 1])
  }

  function Take<K>(s: seq<K>, n: nat): seq<K> { if n < |s| then s[..n] else s }

  lemma {:induction false} RecentIsDistinct<K>(uses: seq<K>)
    ensures Distinct(Recent(uses))
  {
    if uses != [] {
      RecentIsDistinct(uses[..|uses| - 1]);
      var before, k := Recent(uses[..|uses| - 1]), uses[|uses| - 1];
      WithoutKeys(before, k);
      DistinctCons(k, Without(before, k));
    }
  }

  lemma TakeHit<K>(s: seq<K>, n: nat, i: nat)
    requires Distinct(s) && i < n && i < |s|
    ensures ToFront(Take(s, n), s[i]) == Take(ToFront(s, s[i]), n)
  {
    hide Without;
    WithoutAt(s, i);
    DistinctPrefix(s, if n < |s| then n else |s|);
    if n < |s| {
      WithoutAt(s[..n], i);
      assert (s[..i] + s[i + 1..])[..n - 1] == s[..i] + s[i + 1..n];
    }
  }

  lemma TakenAt<K>(s: seq<K>, n: nat, i: nat)
    requires i < |s|
    ensures i < n ==> s[i] in Take(s, n)
  {
    if i < n { assert Take(s, n)[i] == s[i]; }
  }

  lemma TakeMiss<K>(s: seq<K>, n: nat, k: K)
    requires Distinct(s) && 0 < n && k !in Take(s, n)
    ensures [k] + (if n <= |s| then s[..n - 1] else s) == Take(ToFront(s, k), n)
  {
    if k in s {
      var i :| 0 <= i < |s| && s[i] == k;
      TakenAt(s, n, i);
      WithoutAt(s, i);
      assert (s[..i] + s[i + 1..])[..n - 1] == s[..n - 1];
    } else {
      WithoutAbsent(s, k);
    }
  }

  /** Moving a key to the front commutes with keeping the first `n`, whether the key is among them or
      takes the place of the last. */
  lemma TakeToFront<K>(s: seq<K>, n: nat, k: K)
    requires Distinct(s) && 0 < n
    ensures k in Take(s, n) ==> ToFront(Take(s, n), k) == Take(ToFront(s, k), n)
    ensures k !in Take(s, n) && n <= |s| ==> [k] + Take(s, n)[..n - 1] == Take(ToFront(s, k), n)
    ensures k !in Take(s, n) && |s| < n ==> [k] + s == Take(ToFront(s, k), n)
  {
    hide Distinct, ToFront;
    if k in Take(s, n) {
      var i :| 0 <= i < |Take(s, n)| && Take(s, n)[i] == k;
      TakeHit(s, n, i);
    } else {
      TakeMiss(s, n, k);
      assert n <= |s| ==> Take(s, n)[..n - 1] == s[..n - 1];
    }
  }

  /** A use is an insert, or a read of a cached key that the counter samples. */
  predicate IsUse<K(==), V>(c: Cache<K, V>, op: Op<K, V>) {
    op.Put? || (op.key in c.values && Sampled(NextTick(c.tick), c.mask))
  }

  /** Inserts and reads keep exactly the `capacity` most recently used keys, most recent first. */
  lemma RecencyStep<K, V>(c: Cache<K, V>, uses: seq<K>, op: Op<K, V>)
    requires Good(c) && c.order == Take(Recent(uses), c.capacity)
    ensures Apply(c, op).order == Take(Recent(if IsUse(c, op) then uses + [op.key] else uses), c.capacity)
  {
    hide Good, Apply, IsUse, Recent, Distinct, Take;
    GoodFacts(c);
    OrderStep(c, op);
    RecentSnoc(uses, op.key);
    RecentIsDistinct(uses);
    TakeToFront(Recent(uses), c.capacity, op.key);
    TakeSize(Recent(uses), c.capacity);
  }

  lemma RecentSnoc<K>(uses: seq<K>, k: K)
    ensures Recent(uses + [k]) == ToFront(Recent(uses), k)
  {
    assert (uses + [k])[..|uses|] == uses;
  }

  lemma TakeSize<K>(s: seq<K>, n: nat)
    ensures |Take(s, n)| == if n < |s| then n else |s|
    ensures |s| < n ==> Take(s, n) == s
  {
  }

  /** What an operation does to the order. */
  lemma OrderStep<K, V>(c: Cache<K, V>, op: Op<K, V>)
    requires c.capacity <= |c.values| ==> c.order != []
    ensures Apply(c, op).order ==
      if !IsUse(c, op) then c.order
      else if op.key in c.values then ToFront(c.order, op.key)
      else if c.capacity <= |c.values| then [op.key] + c.order[..|c.order| - 1]
      else [op.key] + c.order
  {
    hide Sampled, NextTick, ToFront, Insert, Get;
    match op
    case Put(k, v) => InsertOrder(c, k, v);
    case Read(k) => GetOrder(c, k);
  }

  lemma InsertOrder<K, V>(c: Cache<K, V>, k: K, v: V)
    requires c.capacity <= |c.values| ==> c.order != []
    ensures Insert(c, k, v).order ==
      if k in c.values then ToFront(c.order, k)
      else if c.capacity <= |c.values| then [k] + c.order[..|c.order| - 1]
      else [k] + c.order
  {
    hide ToFront;
    if k in c.values {
      assert Insert(c, k, v) == c.(order := ToFront(c.order, k), values := c.values[k := v]);
    } else if c.capacity <= |c.values| {
      var last := c.order[|c.order| - 1];
      assert Insert(c, k, v) == c.(order := [k] + c.order[..|c.order| - 1], values := c.values[k := v] - {last});
    } else {
      assert Insert(c, k, v) == c.(order := [k] + c.order, values := c.values[k := v]);
    }
  }

  lemma GetOrder<K, V>(c: Cache<K, V>, k: K)
    ensures Get(c, k).order ==
      if k in c.values && Sampled(NextTick(c.tick), c.mask) then ToFront(c.order, k) else c.order
  {
    hide Sampled, NextTick, ToFront;
  }

  lemma GoodFacts<K, V>(c: Cache<K, V>)
    requires Good(c)
    ensures |c.order| == |c.values| <= c.capacity && 0 < c.capacity
    ensures (forall k <- c.order :: k in c.values) && (forall k <- c.values :: k in c.order)
  {
  }

  lemma InsertKeepsGood<K, V>(c: Cache<K, V>, op: Op<K, V>)
    requires Good(c)
    ensures Good(Apply(c, op))
  {
    hide Distinct;
    var c', k := Apply(c, op), op.key;
    if k in c.values {
      assert c'.values.Keys == c.values.Keys;
      HitKeepsGood(c, k, c'.values);
    } else if op.Put? && c.capacity <= |c.values| {
      EvictKeepsGood(c, k, op.value);
    } else if op.Put? {
      AddKeepsGood(c, k, op.value);
    }
  }

  lemma HitKeepsGood<K, V>(c: Cache<K, V>, k: K, values: map<K, V>)
    requires Good(c) && k in c.values && values.Keys == c.values.Keys
    ensures Good(c.(order := ToFront(c.order, k), values := values))
  {
    hide Distinct, ToFront;
    ToFrontKeeps(c.order, k);
    assert |values| == |values.Keys| == |c.values.Keys| == |c.values|;
    forall x <- ToFront(c.order, k) ensures x in values { assert x in c.order; }
    forall x <- values ensures x in ToFront(c.order, k) { assert x in c.values; }
  }

  lemma AddKeepsGood<K, V>(c: Cache<K, V>, k: K, v: V)
    requires Good(c) && k !in c.values && |c.values| < c.capacity
    ensures Good(c.(order := [k] + c.order, values := c.values[k := v]))
  {
    hide Distinct;
    DistinctCons(k, c.order);
    assert c.values[k := v].Keys == c.values.Keys + {k};
  }

  lemma EvictKeepsGood<K, V>(c: Cache<K, V>, k: K, v: V)
    requires Good(c) && k !in c.values && c.order != []
    ensures var n := |c.order| - 1;
            Good(c.(order := [k] + c.order[..n], values := c.values[k := v] - {c.order[n]}))
  {
    var n := |c.order| - 1;
    var init, last := c.order[..n], c.order[n];
    var values' := c.values[k := v] - {last};
    assert last in c.values && last !in init && c.order == init + [last];
    hide Distinct;
    DistinctPrefix(c.order, n);
    DistinctCons(k, init);
    SwapSize(c.values, k, v, last);
    SwapKeys(init, last, c.values, k, v);
  }

  lemma SwapKeys<K, V>(init: seq<K>, last: K, m: map<K, V>, k: K, v: V)
    requires (forall x <- init + [last] :: x in m) && (forall x <- m :: x in init + [last])
    requires last !in init && k !in m
    ensures forall x <- [k] + init :: x in m[k := v] - {last}
    ensures forall x <- m[k := v] - {last} :: x in [k] + init
  {
    var m' := m[k := v] - {last};
    forall x <- [k] + init ensures x in m' { if x != k { assert x in init; assert x in init + [last]; } }
    forall x <- m' ensures x in [k] + init { if x != k { assert x in init + [last]; } }
  }

  lemma SwapSize<K, V>(m: map<K, V>, k: K, v: V, last: K)
    requires k !in m && last in m
    ensures |m[k := v] - {last}| == |m|
  {
    assert (m[k := v] - {last}).Keys == m.Keys + {k} - {last};
  }

  lemma DistinctPrefix<K>(s: seq<K>, n: nat)
    requires Distinct(s) && n <= |s|
    ensures Distinct(s[..n])
  {
  }

  lemma ToFrontKeeps<K>(s: seq<K>, k: K)
    requires Distinct(s) && k in s
    ensures Distinct(ToFront(s, k)) && |ToFront(s, k)| == |s|
    ensures (forall x <- ToFront(s, k) :: x in s) && (forall x <- s :: x in ToFront(s, k))
  {
    var i :| 0 <= i < |s| && s[i] == k;
    WithoutAt(s, i);
    WithoutKeys(s, k);
  }

  lemma WithoutOne<K>(s: seq<K>, k: K)
    requires Distinct(s) && k in s
    ensures Distinct(Without(s, k)) && |Without(s, k)| == |s| - 1 && k !in Without(s, k)
    ensures (forall x <- Without(s, k) :: x in s) && (forall x <- s :: x == k || x in Without(s, k))
  {
    var i :| 0 <= i < |s| && s[i] == k;
    WithoutAt(s, i);
    WithoutKeys(s, k);
  }

  lemma RemoveKeepsGood<K, V>(c: Cache<K, V>, k: K)
    requires Good(c)
    ensures Good(Remove(c, k)) && k !in Remove(c, k).values && k !in Remove(c, k).order
    ensures Remove(c, k).values == c.values - {k} && (k !in c.values ==> Remove(c, k) == c)
    ensures forall i | 0 <= i < |c.order| && c.order[i] == k :: Remove(c, k).order == c.order[..i] + c.order[i + 1..]
  {
    hide Distinct, Without;
    forall i | 0 <= i < |c.order| && c.order[i] == k ensures Remove(c, k).order == c.order[..i] + c.order[i + 1..] {
      assert k in c.order;
      WithoutAt(c.order, i);
    }
    if k in c.values {
      WithoutOne(c.order, k);
      assert (c.values - {k}).Keys == c.values.Keys - {k};
    }
  }

  /** Shrinking drops exactly the least recently used keys; every other binding stays. */
  lemma ResizeKeepsGood<K, V>(c: Cache<K, V>, n: nat)
    requires Good(c)
    ensures Good(Resize(c, n))
    ensures Resize(c, n).order == Take(c.order, AtLeastOne(n))
    ensures forall k <- Resize(c, n).values :: k in c.values && Resize(c, n).values[k] == c.values[k]
  {
    var cap := AtLeastOne(n);
    if cap < c.capacity && cap < |c.order| {
      DistinctPrefix(c.order, cap);
      var kept := c.order[..cap];
      assert Only(c.values, kept).Keys == KeySet(kept);
      SizeOfKeys(kept);
    }
  }

  ghost function KeySet<K>(s: seq<K>): set<K> { set k <- s }

  lemma {:induction false} SizeOfKeys<K>(s: seq<K>)
    requires Distinct(s)
    ensures |KeySet(s)| == |s|
  {
    if s != [] {
      var n := |s| - 1;
      SizeOfKeys(s[..n]);
      assert KeySet(s) == KeySet(s[..n]) + {s[n]};
    }
  }

  ghost function Run<K, V>(c: Cache<K, V>, ops: seq<Op<K, V>>): (r: Cache<K, V>)
    requires Good(c)
    ensures Good(r)
  {
    if ops == [] then c
    else
      var before := Run(c, ops[..|ops| - 1]);
      InsertKeepsGood(before, ops[|ops| - 1]);
      Apply(before, ops[|ops| - 1])
  }

  ghost function Uses<K, V>(c: Cache<K, V>, ops: seq<Op<K, V>>): seq<K>
    requires Good(c)
  {
    if ops == [] then []
    else
      var init, op := ops[..|ops| - 1], ops[|ops| - 1];
      Uses(c, init) + (if IsUse(Run(c, init), op) then [op.key] else [])
  }

  /** For every sample mask and every value of the counter, the cache holds the `capacity` keys whose
      last use is latest, in that order. */
  lemma {:induction false} HoldsTheMostRecent<K, V>(capacity: nat, tick: bv64, mask: bv64, ops: seq<Op<K, V>>)
    requires 0 < capacity
    ensures var c: Cache<K, V> := Cache([], map[], capacity, tick, mask);
            Good(c) && Run(c, ops).order == Take(Recent(Uses(c, ops)), capacity)
            && Run(c, ops).mask == mask && Run(c, ops).capacity == capacity
  {
    var c: Cache<K, V> := Cache([], map[], capacity, tick, mask);
    assert Good(c);
    if ops != [] {
      hide Good, IsUse, Apply, Take, Recent;
      var init, op := ops[..|ops| - 1], ops[|ops| - 1];
      HoldsTheMostRecent<K, V>(capacity, tick, mask, init);
      GoodFacts(Run(c, init));
      RecencyStep(Run(c, init), Uses(c, init), op);
      SameSettings(Run(c, init), op);
      assert Uses(c, init) + [] == Uses(c, init);
    }
  }

  /** The value last put under a key. */
  ghost function LastPut<K, V>(ops: seq<Op<K, V>>, k: K): Option<V> {
    if ops == [] then None
    else
      var op := ops[|ops| - 1];
      if op.Put? && op.key == k then Some(op.value) else LastPut(ops[..|ops| - 1], k)
  }

  /** What an operation does to the bindings: a put binds its key, and every other key is bound as
      before or, if a put needed its place, not at all. */
  lemma BindingStep<K, V>(c: Cache<K, V>, op: Op<K, V>, k: K)
    requires Good(c)
    ensures var c' := Apply(c, op);
            && (op.Put? && op.key == k ==> k in c'.values && c'.values[k] == op.value)
            && (!(op.Put? && op.key == k) && k in c'.values ==> k in c.values && c'.values[k] == c.values[k])
  {
    hide NextTick, Sampled, ToFront, Distinct;
  }

  /** Whatever is evicted and read meanwhile, a cached key is bound to the value last put under it. */
  lemma {:induction false} HoldsTheLastPut<K, V>(capacity: nat, tick: bv64, mask: bv64, ops: seq<Op<K, V>>, k: K)
    requires 0 < capacity
    ensures var c: Cache<K, V> := Cache([], map[], capacity, tick, mask);
            Good(c) && (k in Run(c, ops).values ==> LastPut(ops, k) == Some(Run(c, ops).values[k]))
  {
    var c: Cache<K, V> := Cache([], map[], capacity, tick, mask);
    assert Good(c);
    if ops != [] {
      hide Good, Apply;
      HoldsTheLastPut<K, V>(capacity, tick, mask, ops[..|ops| - 1], k);
      BindingStep(Run(c, ops[..|ops| - 1]), ops[|ops| - 1], k);
    }
  }

  lemma SameSettings<K, V>(c: Cache<K, V>, op: Op<K, V>)
    requires c.capacity <= |c.values| ==> c.order != []
    ensures Apply(c, op).mask == c.mask && Apply(c, op).capacity == c.capacity
  {
    hide NextTick, Sampled, ToFront;
  }
}
