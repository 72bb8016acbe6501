/** The cache as objects: records linked through two sentinels, and the map that points at them. */
module LruObjects {
  import opened WalletTypes
  import opened Lru

  /** A list node; the sentinels carry no key. */
  class Record<K> {
    var prev: Record?<K>
    var next: Record?<K>
    var key: Option<K>

    constructor (k: Option<K>)
      ensures key == k && prev == null && next == null
    {
      key, prev, next := k, null, null;
    }
  }

  ghost predicate Linked<K>(all: seq<Record<K>>)
    reads all
  {
    forall i | 0 < i < |all| :: all[i - 1].next == all[i] && all[i].prev == all[i - 1]
  }

  /** Everything between the sentinels has a key. */
  ghost predicate Keyed<K>(all: seq<Record<K>>)
    reads all
  {
    forall i | 0 < i < |all| - 1 :: all[i].key.Some?
  }

  /** The keys between the sentinels. */
  ghost function KeysOf<K>(all: seq<Record<K>>): (r: seq<K>)
    requires 2 <= |all| && Keyed(all)
    reads all
    ensures |r| == |all| - 2 && forall i | 0 <= i < |r| :: r[i] == all[i + 1].key.value
  {
    seq(|all| - 2, i requires 0 <= i < |all| - 2 && Keyed(all) reads all => all[i + 1].key.value)
  }

  /** `all` is the list from head to tail sentinel. */
  class Trace<K> {
    const head: Record<K>
    const tail: Record<K>
    ghost var all: seq<Record<K>>
    var tick: bv64
    const sampleMask: bv64

    ghost predicate Valid()
      reads this, all
    {
      && 2 <= |all| && all[0] == head && all[|all| - 1] == tail
      && Distinct(all) && Linked(all) && Keyed(all)
    }

    lemma Ends()
      requires Valid()
      ensures 2 <= |all| && all[0] == head && all[|all| - 1] == tail
    {
    }

    lemma Apart()
      requires Valid()
      ensures Distinct(all)
    {
    }

    /** The keys from most to least recent. */
    ghost function Order(): seq<K>
      requires Valid()
      reads this, all
    {
      KeysOf(all)
    }

    constructor (mask: bv64)
      ensures Valid() && fresh(all) && all == [head, tail] && tick == 0 && sampleMask == mask
    {
      var h := new Record<K>(None);
      var t := new Record<K>(None);
      head, tail, tick, sampleMask := h, t, 0, mask;
      all := [h, t];
      new;
      h.next := t;
      t.prev := h;
    }

    /** Take a record out of the list: its neighbours are linked to each other. */
    method CutOut(record: Record<K>, ghost i: nat)
      requires Valid() && 0 < i < |all| - 1 && all[i] == record
      modifies this`all, all
      ensures Valid() && all == old(all[..i] + all[i + 1..])
      ensures record.key == Some(old(Order())[i - 1]) && record !in all
      ensures Order() == old(Order())[..i - 1] + old(Order())[i..]
    {
      assert all[i - 1].next == record && all[i].prev == all[i - 1];
      assert all[i + 1 - 1].next == all[i + 1] && all[i + 1].prev == all[i];
      var before, after := record.prev, record.next;
      ghost var was, keys := all, Order();
      hide KeysOf;
      before.next := after;
      after.prev := before;
      all := all[..i] + all[i + 1..];
      CutLinked(was, all, i);
      CutKeys(was, all, keys, i);
    }

    /** Link a record in right after the head. */
    method PushFront(record: Record<K>)
      requires Valid() && record !in all && record.key.Some?
      modifies this`all, all, record
      ensures Valid() && all == [head, record] + old(all[1..])
      ensures record.key == old(record.key) && Order() == [record.key.value] + old(Order())
    {
      ghost var was, keys := all, Order();
      hide KeysOf;
      assert all[1 - 1].next == all[1] && all[1].prev == all[0];
      var first := head.next;
      record.next := first;
      first.prev := record;
      head.next := record;
      record.prev := head;
      all := [head, record] + all[1..];
      FrontLinked(was, all, record);
      FrontKeys(was, all, keys, record);
    }

    method Promote(record: Record<K>, ghost i: nat)
      requires Valid() && 0 < i < |all| - 1 && all[i] == record
      modifies this`all, all
      ensures Valid() && all == [head, record] + old(all[1..i] + all[i + 1..])
      ensures Order() == [old(Order())[i - 1]] + (old(Order())[..i - 1] + old(Order())[i..])
    {
      hide KeysOf, Linked, Distinct;
      ghost var was := all;
      CutOut(record, i);
      assert all[1..] == was[1..i] + was[i + 1..];
      PushFront(record);
    }

    /** Promote the record of every read whose count has the sampled bits clear. */
    method MaybePromote(record: Record<K>, ghost i: nat)
      requires Valid() && 0 < i < |all| - 1 && all[i] == record
      modifies this`all, this`tick, all
      ensures Valid() && tick == NextTick(old(tick))
      ensures all == if Sampled(tick, sampleMask) then [head, record] + old(all[1..i] + all[i + 1..]) else old(all)
      ensures Order() == if Sampled(tick, sampleMask)
                         then [old(Order())[i - 1]] + (old(Order())[..i - 1] + old(Order())[i..]) else old(Order())
    {
      hide NextTick, Sampled, KeysOf, Linked, Distinct, Keyed;
      tick := NextTick(tick);
      if Sampled(tick, sampleMask) { Promote(record, i); }
    }

    method Delete(record: Record<K>, ghost i: nat)
      requires Valid() && 0 < i < |all| - 1 && all[i] == record
      modifies this`all, all
      ensures Valid() && all == old(all[..i] + all[i + 1..])
      ensures Order() == old(Order())[..i - 1] + old(Order())[i..]
    {
      CutOut(record, i);
    }

    method Create(key: K) returns (record: Record<K>)
      requires Valid()
      modifies this`all, all
      ensures Valid() && fresh(record) && all == [head, record] + old(all[1..])
      ensures Order() == [key] + old(Order())
    {
      record := new Record<K>(Some(key));
      PushFront(record);
    }

    /** Recycle the least recent record for a new key. */
    method ReuseTail(key: K) returns (oldKey: K, record: Record<K>)
      requires Valid() && 2 < |all|
      modifies this`all, all
      ensures Valid() && record == old(all[|all| - 2])
      ensures all == [head, record] + old(all[1..|all| - 2] + [tail])
      ensures var last := |old(Order())| - 1;
              oldKey == old(Order())[last] && Order() == [key] + old(Order())[..last]
    {
      ghost var was, i, order := all, |all| - 2, Order();
      assert was[i + 1].prev == was[i];
      record := tail.prev;
      CutOut(record, i);
      hide Linked;
      assert all[1..] == was[1..i] + [tail];
      assert order[i..] == [] && order[..i - 1] + [] == order[..i - 1];
      PushFront(record);
      oldKey := record.key.value;
      Rename(record, key);
    }

    method Rename(record: Record<K>, key: K)
      requires Valid() && 2 < |all| && all[1] == record
      modifies record`key
      ensures Valid() && Order() == [key] + old(Order())[1..]
    {
      record.key := Some(key);
      assert forall j | 1 < j < |all| :: all[j] != all[1];
    }

    /** Walk the list to its tail, letting go of every record, and join the sentinels. */
    method Clear()
      requires Valid()
      modifies this`all, all
      ensures Valid() && all == [head, tail] && Order() == []
    {
      ghost var i := 1;
      assert all[i - 1].next == all[i];
      var cur := head.next;
      while cur != tail
        modifies {}
        invariant 0 < i < |all| && cur == all[i]
        decreases |all| - i
      {
        assert all[i + 1 - 1].next == all[i + 1];
        cur := cur.next;
        i := i + 1;
      }
      head.next := tail;
      tail.prev := head;
      all := [head, tail];
    }

    method RemoveTail() returns (key: K)
      requires Valid() && 2 < |all|
      modifies this`all, all
      ensures Valid() && all == old(all[..|all| - 2] + [tail])
      ensures var last := |old(Order())| - 1;
              key == old(Order())[last] && Order() == old(Order())[..last]
    {
      ghost var was, i := all, |all| - 2;
      assert was[i + 1].prev == was[i];
      var record := tail.prev;
      CutOut(record, i);
      assert all == was[..i] + [tail];
      key := record.key.value;
    }
  }

  lemma CutLinked<K>(was: seq<Record<K>>, all: seq<Record<K>>, i: nat)
    requires 0 < i < |was| - 1 && all == was[..i] + was[i + 1..] && Distinct(was)
    requires forall j | 0 < j < |was| && j != i && j != i + 1 :: was[j - 1].next == was[j] && was[j].prev == was[j - 1]
    requires was[i - 1].next == was[i + 1] && was[i + 1].prev == was[i - 1]
    ensures Linked(all) && Distinct(all)
  {
    forall j | 0 < j < |all| ensures all[j - 1].next == all[j] && all[j].prev == all[j - 1] {
      if j < i {
        assert all[j - 1] == was[j - 1] && all[j] == was[j];
      } else if j == i {
        assert all[j - 1] == was[i - 1] && all[j] == was[i + 1];
      } else {
        var k := j + 1;
        assert all[j - 1] == was[k - 1] && all[j] == was[k];
      }
    }
  }

  lemma CutKeys<K>(was: seq<Record<K>>, all: seq<Record<K>>, keys: seq<K>, i: nat)
    requires 0 < i < |was| - 1 && all == was[..i] + was[i + 1..] && |keys| == |was| - 2
    requires forall j | 0 < j < |was| - 1 :: was[j].key == Some(keys[j - 1])
    ensures Keyed(all) && KeysOf(all) == keys[..i - 1] + keys[i..]
  {
    forall j | 0 < j < |all| - 1 ensures all[j].key == Some((keys[..i - 1] + keys[i..])[j - 1]) {
      assert all[j] == was[if j < i then j else j + 1];
    }
  }

  lemma FrontKeys<K>(was: seq<Record<K>>, all: seq<Record<K>>, keys: seq<K>, record: Record<K>)
    requires 2 <= |was| && all == [was[0], record] + was[1..] && |keys| == |was| - 2 && record.key.Some?
    requires forall j | 0 < j < |was| - 1 :: was[j].key == Some(keys[j - 1])
    ensures Keyed(all) && KeysOf(all) == [record.key.value] + keys
  {
    forall j | 1 < j < |all| - 1 ensures all[j].key == Some(keys[j - 2]) { assert all[j] == was[j - 1]; }
  }

  lemma FrontLinked<K>(was: seq<Record<K>>, all: seq<Record<K>>, record: Record<K>)
    requires 2 <= |was| && all == [was[0], record] + was[1..] && Distinct(was) && record !in was
    requires forall j | 1 < j < |was| :: was[j - 1].next == was[j] && was[j].prev == was[j - 1]
    requires was[0].next == record && record.prev == was[0] && record.next == was[1] && was[1].prev == record
    ensures Linked(all) && Distinct(all)
  {
    forall j | 0 < j < |all| ensures all[j - 1].next == all[j] && all[j].prev == all[j - 1] {
      if j > 2 {
        var k := j - 1;
        assert all[j - 1] == was[k - 1] && all[j] == was[k];
      }
    }
  }

  datatype ValueEntry<V, K> = ValueEntry(value: V, record: Record<K>)

  /** The list and the map hold the same keys, and the map points at the key's own record. */
  ghost predicate Points<K, V>(all: seq<Record<K>>, keys: seq<K>, m: map<K, ValueEntry<V, K>>) {
    && |all| == |keys| + 2 && Distinct(all)
    && (forall i | 0 <= i < |keys| :: keys[i] in m && m[keys[i]].record == all[i + 1])
    && (forall k <- m :: k in keys)
  }

  function Values<K, V>(m: map<K, ValueEntry<V, K>>): map<K, V> { map k <- m :: m[k].value }

  lemma PointsDistinct<K, V>(all: seq<Record<K>>, keys: seq<K>, m: map<K, ValueEntry<V, K>>)
    requires Points(all, keys, m)
    ensures Distinct(keys) && |m| == |keys|
    ensures (forall k <- keys :: k in m) && (forall k <- m :: k in keys)
  {
    forall i, j | 0 <= i < j < |keys| ensures keys[i] != keys[j] {
      assert all[i + 1] != all[j + 1];
    }
    assert m.Keys == KeySet(keys);
    SizeOfKeys(keys);
  }

  /** Record `i` to the front, with its key. */
  function RecordFirst<T>(all: seq<T>, i: nat): seq<T>
    requires 0 < i < |all| - 1
  {
    [all[0], all[i]] + (all[1..i] + all[i + 1..])
  }

  function KeyFirst<K>(keys: seq<K>, i: nat): seq<K>
    requires 0 < i <= |keys|
  {
    [keys[i - 1]] + (keys[..i - 1] + keys[i..])
  }

  /** Each key of the new order stands with its record. */
  lemma MovedTogether<T, K>(all: seq<T>, keys: seq<K>, i: nat, j: nat)
    requires |all| == |keys| + 2 && 0 < i <= |keys| && j < |keys|
    ensures |RecordFirst(all, i)| == |all| && |KeyFirst(keys, i)| == |keys|
    ensures exists s :: 0 <= s < |keys| && KeyFirst(keys, i)[j] == keys[s] && RecordFirst(all, i)[j + 1] == all[s + 1]
  {
    var s := if j == 0 then i - 1 else if j < i then j - 1 else j;
    assert KeyFirst(keys, i)[j] == keys[s] && RecordFirst(all, i)[j + 1] == all[s + 1];
  }

  lemma StillDistinct<T>(all: seq<T>, i: nat)
    requires Distinct(all) && 0 < i < |all| - 1
    ensures Distinct(RecordFirst(all, i)) && Distinct(all[..i] + all[i + 1..])
  {
    var all' := RecordFirst(all, i);
    forall j | 0 <= j < |all'|
      ensures all'[j] == all[if j == 0 then 0 else if j == 1 then i else if j <= i then j - 1 else j]
    {
    }
  }

  lemma PromotedAt<K, V>(was: seq<Record<K>>, keys: seq<K>, m: map<K, ValueEntry<V, K>>, i: nat, j: nat)
    requires Points(was, keys, m) && 0 < i <= |keys| && j < |keys|
    ensures |RecordFirst(was, i)| == |was| && |KeyFirst(keys, i)| == |keys|
    ensures var k := KeyFirst(keys, i)[j]; k in m && m[k].record == RecordFirst(was, i)[j + 1]
  {
    hide Distinct, RecordFirst, KeyFirst;
    MovedTogether(was, keys, i, j);
  }

  lemma KeysStay<K>(keys: seq<K>, i: nat, k: K)
    requires 0 < i <= |keys| && k in keys
    ensures k in KeyFirst(keys, i)
  {
    assert keys == keys[..i - 1] + [keys[i - 1]] + keys[i..];
  }

  /** Record `i` moved to the front, its value unchanged or replaced. */
  lemma PromotedPoints<K, V>(was: seq<Record<K>>, keys: seq<K>, m: map<K, ValueEntry<V, K>>, m': map<K, ValueEntry<V,
                             K>>, i: nat)
    requires Points(was, keys, m) && 0 < i <= |keys|
    requires m'.Keys == m.Keys && forall k <- m :: m'[k].record == m[k].record
    ensures Points(RecordFirst(was, i), KeyFirst(keys, i), m')
  {
    StillDistinct(was, i);
    hide Distinct, RecordFirst, KeyFirst;
    var all', keys' := RecordFirst(was, i), KeyFirst(keys, i);
    PromotedAt(was, keys, m, i, 0);
    forall j | 0 <= j < |keys'| ensures keys'[j] in m' && m'[keys'[j]].record == all'[j + 1] {
      PromotedAt(was, keys, m, i, j);
    }
    forall k <- m' ensures k in keys' {
      KeysStay(keys, i, k);
    }
  }

  lemma ReplacedPoints<K, V>(was: seq<Record<K>>, keys: seq<K>, m: map<K, ValueEntry<V, K>>, i: nat, k: K, v: V)
    requires Points(was, keys, m) && 0 < i <= |keys| && k in m
    ensures Points(RecordFirst(was, i), KeyFirst(keys, i), m[k := m[k].(value := v)])
  {
    hide Points;
    var m' := m[k := m[k].(value := v)];
    assert m'.Keys == m.Keys;
    PromotedPoints(was, keys, m, m', i);
  }

  lemma KeyFirstIsToFront<K>(keys: seq<K>, i: nat)
    requires Distinct(keys) && 0 < i <= |keys|
    ensures KeyFirst(keys, i) == ToFront(keys, keys[i - 1])
  {
    WithoutAt(keys, i - 1);
  }

  lemma RemovedPoints<K, V>(was: seq<Record<K>>, keys: seq<K>, m: map<K, ValueEntry<V, K>>, i: nat)
    requires Points(was, keys, m) && 0 < i <= |keys|
    ensures Points(was[..i] + was[i + 1..], keys[..i - 1] + keys[i..], m - {keys[i - 1]})
  {
    PointsDistinct(was, keys, m);
    StillDistinct(was, i);
    var all', keys' := was[..i] + was[i + 1..], keys[..i - 1] + keys[i..];
    forall j | 0 <= j < |keys'|
      ensures keys'[j] in m - {keys[i - 1]} && (m - {keys[i - 1]})[keys'[j]].record == all'[j + 1]
    {
      var s := if j < i - 1 then j else j + 1;
      assert keys'[j] == keys[s] && all'[j + 1] == was[s + 1] && keys[s] != keys[i - 1];
    }
    forall k <- m - {keys[i - 1]} ensures k in keys' {
      var j :| 0 <= j < |keys| && keys[j] == k;
      assert keys'[if j < i - 1 then j else j - 1] == k;
    }
  }

  lemma AddedPoints<K, V>(was: seq<Record<K>>, keys: seq<K>, m: map<K, ValueEntry<V, K>>, k: K, r: Record<K>, v: V)
    requires Points(was, keys, m) && k !in m && r !in was
    ensures Points([was[0], r] + was[1..], [k] + keys, m[k := ValueEntry(v, r)])
  {
    var keys' := [k] + keys;
    forall x <- m[k := ValueEntry(v, r)] ensures x in keys' { assert x != k ==> x in keys; }
  }

  lemma RecycledPoints<K, V>(was: seq<Record<K>>, keys: seq<K>, m: map<K, ValueEntry<V, K>>, k: K, v: V)
    requires Points(was, keys, m) && keys != [] && k !in m
    ensures var n := |keys|;
            n + 2 == |was| && Points([was[0], was[n]] + (was[1..n] + [was[n + 1]]), [k] + keys[..n - 1],
                   m[k := ValueEntry(v, was[n])] - {keys[n - 1]})
  {
    var n := |keys|;
    assert was[n] !in was[..n] + was[n + 1..] && keys[n - 1] in m;
    hide Points;
    RemovedPoints(was, keys, m, n);
    AddedPoints(was[..n] + was[n + 1..], keys[..n - 1] + keys[n..], m - {keys[n - 1]}, k, was[n], v);
    assert keys[..n - 1] + keys[n..] == keys[..n - 1];
    assert (was[..n] + was[n + 1..])[1..] == was[1..n] + [was[n + 1]];
    assert (m - {keys[n - 1]})[k := ValueEntry(v, was[n])] == m[k := ValueEntry(v, was[n])] - {keys[n - 1]};
  }

  lemma PointsAt<K, V>(was: seq<Record<K>>, keys: seq<K>, m: map<K, ValueEntry<V, K>>, k: K) returns (i: nat)
    requires Points(was, keys, m) && k in m
    ensures 0 < i <= |keys| && |was| == |keys| + 2 && keys[i - 1] == k && was[i] == m[k].record
  {
    var j :| 0 <= j < |keys| && keys[j] == k;
    i := j + 1;
  }

  lemma PointsSize<K, V>(all: seq<Record<K>>, keys: seq<K>, m: map<K, ValueEntry<V, K>>)
    requires Points(all, keys, m)
    ensures Distinct(keys) && |m| == |keys| && (keys != [] ==> keys[|keys| - 1] in m)
  {
    PointsDistinct(all, keys, m);
  }

  lemma AllKept<K, V>(all: seq<Record<K>>, keys: seq<K>, m: map<K, ValueEntry<V, K>>)
    requires Points(all, keys, m)
    ensures |m| == |keys| && Distinct(keys) && Only(m, keys[..|keys|]) == m
  {
    PointsDistinct(all, keys, m);
    EverythingKept(keys, m);
  }

  lemma RecycledValues<K, V>(m: map<K, ValueEntry<V, K>>, k: K, e: ValueEntry<V, K>, last: K)
    requires k !in m && last in m
    ensures Values(m[k := e] - {last}) == Values(m)[k := e.value] - {last} && |m[k := e] - {last}| == |m|
  {
    hide Values;
    Updated(m, k, e);
    Dropped(m[k := e], last);
  }

  lemma NoNewRecords<K>(was: seq<Record<K>>, all: seq<Record<K>>)
    requires 2 < |was| && all == [was[0], was[|was| - 2]] + (was[1..|was| - 2] + [was[|was| - 1]])
    ensures forall r <- all :: r in was
  {
  }

  lemma NoPoints<K, V>(all: seq<Record<K>>)
    requires |all| == 2 && Distinct(all)
    ensures Points<K, V>(all, [], map[]) && Values<K, V>(map[]) == map[]
  {
  }

  lemma Updated<K, V>(m: map<K, ValueEntry<V, K>>, k: K, e: ValueEntry<V, K>)
    ensures Values(m[k := e]) == Values(m)[k := e.value]
    ensures |m[k := e]| == if k in m then |m| else |m| + 1
  {
    assert m[k := e].Keys == m.Keys + {k};
    if k in m { assert m[k := e].Keys == m.Keys; }
  }

  lemma ValueAt<K, V>(m: map<K, ValueEntry<V, K>>, k: K)
    ensures k in Values(m) <==> k in m
    ensures k in m ==> Values(m)[k] == m[k].value
  {
  }

  lemma ValuesSize<K, V>(m: map<K, ValueEntry<V, K>>)
    ensures |Values(m)| == |m|
  {
    assert Values(m).Keys == m.Keys;
  }

  lemma Dropped<K, V>(m: map<K, ValueEntry<V, K>>, k: K)
    requires k in m
    ensures Values(m - {k}) == Values(m) - {k} && |m - {k}| == |m| - 1
  {
    assert (m - {k}).Keys == m.Keys - {k};
  }

  lemma LastRemoved<K, V>(was: seq<Record<K>>, keys: seq<K>, m: map<K, ValueEntry<V, K>>)
    requires Points(was, keys, m) && keys != []
    ensures 2 < |was|
    ensures Points(was[..|was| - 2] + [was[|was| - 1]], keys[..|keys| - 1], m - {keys[|keys| - 1]})
  {
    var n := |keys|;
    RemovedPoints(was, keys, m, n);
    assert keys[..n - 1] + keys[n..] == keys[..n - 1];
    assert was[..n] + was[n + 1..] == was[..|was| - 2] + [was[|was| - 1]];
  }

  lemma EverythingKept<K, V>(keys: seq<K>, m: map<K, V>)
    requires forall k <- m :: k in keys
    ensures Only(m, keys[..|keys|]) == m
  {
    assert keys[..|keys|] == keys;
  }

  lemma OnlyShrinks<K, V>(m: map<K, V>, keys: seq<K>, n: nat)
    requires n < |keys| && Distinct(keys)
    ensures Only(m, keys[..n + 1]) - {keys[n]} == Only(m, keys[..n])
  {
    assert keys[..n + 1] == keys[..n] + [keys[n]];
  }

  lemma OnlyValues<K, V>(m: map<K, ValueEntry<V, K>>, keys: seq<K>)
    ensures Values(Only(m, keys)) == Only(Values(m), keys)
  {
  }

  class LruCache<K(==), V> {
    var m: map<K, ValueEntry<V, K>>
    const trace: Trace<K>
    var capacity: nat
    var size: nat

    ghost predicate Valid()
      reads this, trace, trace.all
    {
      && trace.Valid() && Points(trace.all, trace.Order(), m)
      && size == |m| <= capacity && 0 < capacity
    }

    /** The recency sequence this cache stands for. */
    ghost function Abs(): Cache<K, V>
      requires Valid()
      reads this, trace, trace.all
    {
      Cache(trace.Order(), Values(m), capacity, trace.tick, trace.sampleMask)
    }

    lemma ValidIsGood()
      requires Valid()
      ensures Good(Abs())
    {
      PointsDistinct(trace.all, trace.Order(), m);
      assert Values(m).Keys == m.Keys;
    }

    constructor (cap: nat, mask: bv64)
      ensures Valid() && fresh(trace) && fresh(trace.all)
      ensures Abs() == Cache([], map[], AtLeastOne(cap), 0, mask)
    {
      var t := new Trace<K>(mask);
      m, trace, capacity, size := map[], t, if cap == 0 then 1 else cap, 0;
    }

    method Get(k: K) returns (r: Option<V>)
      requires Valid()
      modifies trace, trace.all
      ensures Valid() && Abs() == Lru.Get(old(Abs()), k)
      ensures r == if k in old(Abs()).values then Some(old(Abs()).values[k]) else None
    {
      hide Linked, Keyed, KeysOf, Distinct, Points, NextTick, Sampled, ToFront, trace.Valid, trace.Order;
      if k !in m { return None; }
      trace.Ends();
      ghost var keys, was := trace.Order(), trace.all;
      ghost var i := PointsAt(was, keys, m, k);
      PointsDistinct(was, keys, m);
      PromotedPoints(was, keys, m, m, i);
      KeyFirstIsToFront(keys, i);
      trace.MaybePromote(m[k].record, i);
      r := Some(m[k].value);
    }

    method Remove(k: K) returns (r: Option<V>)
      requires Valid()
      modifies this, trace, trace.all
      ensures Valid() && Abs() == Lru.Remove(old(Abs()), k)
      ensures r == if k in old(Abs()).values then Some(old(Abs()).values[k]) else None
    {
      hide Linked, Keyed, KeysOf, Distinct, Points, Without, Values, trace.Valid, trace.Order;
      ValueAt(m, k);
      if k !in m { return None; }
      r := Some(m[k].value);
      Unhook(k);
    }

    method Unhook(k: K)
      requires Valid() && k in m
      modifies this, trace, trace.all
      ensures Valid() && Abs() == old(Abs()).(order := Without(old(Abs()).order, k), values := old(Abs()).values - {k})
    {
      hide Linked, Keyed, KeysOf, Distinct, Points, Without, Values, trace.Valid, trace.Order;
      trace.Ends();
      ghost var keys, was := trace.Order(), trace.all;
      ghost var i := PointsAt(was, keys, m, k);
      PointsSize(was, keys, m);
      RemovedPoints(was, keys, m, i);
      WithoutAt(keys, i - 1);
      Dropped(m, k);
      trace.Delete(m[k].record, i);
      m := m - {k};
      size := size - 1;
    }

    /** An existing key is replaced and promoted; a new one takes the least recent record when the
        cache is full, a fresh one otherwise. */
    method Insert(k: K, v: V)
      requires Valid()
      modifies this, trace, trace.all
      ensures Valid() && forall r <- trace.all :: r in old(trace.all) || fresh(r)
      ensures old(capacity <= |Abs().values| ==> Abs().order != []) && Abs() == Lru.Insert(old(Abs()), k, v)
    {
      hide Linked, Keyed, KeysOf, ToFront, Without, Distinct, Points, Values, trace.Valid, trace.Order;
      ValuesSize(m);
      ValueAt(m, k);
      PointsDistinct(trace.all, trace.Order(), m);
      if k in m {
        Replace(k, v);
      } else if capacity <= size {
        Recycle(k, v);
      } else {
        Add(k, v);
      }
    }

    method Replace(k: K, v: V)
      requires Valid() && k in m
      modifies this, trace, trace.all
      ensures Valid()
      ensures Abs() == old(Abs()).(order := ToFront(old(Abs()).order, k), values := old(Abs()).values[k := v])
      ensures forall r <- trace.all :: r in old(trace.all)
    {
      hide Linked, Keyed, KeysOf, ToFront, Distinct, Points, Values, trace.Valid, trace.Order;
      trace.Ends();
      ghost var keys, was, before := trace.Order(), trace.all, m;
      ghost var i := PointsAt(was, keys, m, k);
      PointsSize(was, keys, m);
      size := size - 1;
      size := size + 1;
      var entry := m[k];
      Updated(m, k, entry.(value := v));
      ReplacedPoints(was, keys, before, i, k, v);
      KeyFirstIsToFront(keys, i);
      m := m[k := entry.(value := v)];
      trace.Promote(entry.record, i);
    }

    method Add(k: K, v: V)
      requires Valid() && k !in m && size < capacity
      modifies this, trace, trace.all
      ensures Valid() && Abs() == old(Abs()).(order := [k] + old(Abs()).order, values := old(Abs()).values[k := v])
      ensures forall r <- trace.all :: r in old(trace.all) || fresh(r)
    {
      hide Linked, Keyed, KeysOf, Distinct, Points, Values, trace.Valid, trace.Order;
      trace.Ends();
      ghost var keys, was, before := trace.Order(), trace.all, m;
      var record := trace.Create(k);
      AddedPoints(was, keys, before, k, record, v);
      size := size + 1;
      m := m[k := ValueEntry(v, record)];
      Updated(before, k, ValueEntry(v, record));
    }

    /** At capacity: the least recent record takes the new key, and only its old key leaves the map. */
    method Recycle(k: K, v: V)
      requires Valid() && k !in m && capacity <= size
      modifies this, trace, trace.all
      ensures Valid() && old(Abs()).order != []
      ensures var order, last := old(Abs()).order, |old(Abs()).order| - 1;
              Abs() == old(Abs()).(order := [k] + order[..last], values := old(Abs()).values[k := v] - {order[last]})
      ensures forall r <- trace.all :: r in old(trace.all)
    {
      hide Linked, Keyed, KeysOf, Distinct, Points, Values, trace.Valid, trace.Order;
      trace.Ends();
      ghost var keys, was, before := trace.Order(), trace.all, m;
      PointsSize(was, keys, m);
      RecycledPoints(was, keys, before, k, v);
      var oldKey, record := trace.ReuseTail(k);
      assert trace.all == [was[0], record] + (was[1..|keys|] + [was[|keys| + 1]]);
      size := size + 1;
      m := m[k := ValueEntry(v, record)];
      m := m - {oldKey};
      size := size - 1;
      RecycledValues(before, k, ValueEntry(v, record), oldKey);
      assert Points(trace.all, trace.Order(), m);
      NoNewRecords(was, trace.all);
    }

    method DropLast()
      requires Valid() && m != map[]
      modifies this, trace, trace.all
      ensures Valid() && capacity == old(capacity) && trace.tick == old(trace.tick)
      ensures var last := |old(trace.Order())| - 1;
              && 0 <= last && |m| == last && trace.Order() == old(trace.Order())[..last]
              && m == old(m) - {old(trace.Order())[last]}
      ensures forall i | 0 <= i < |trace.all| :: trace.all[i] in old(trace.all)
    {
      hide Linked, Keyed, KeysOf, Distinct, Points, Values, trace.Valid, trace.Order;
      trace.Ends();
      ghost var keys, was, before := trace.Order(), trace.all, m;
      PointsSize(was, keys, m);
      LastRemoved(was, keys, m);
      var key := trace.RemoveTail();
      Dropped(m, key);
      m := m - {key};
      size := size - 1;
    }

    method Clear()
      requires Valid()
      modifies this, trace, trace.all
      ensures Valid() && Abs() == old(Abs()).(order := [], values := map[])
    {
      hide Linked, Keyed, KeysOf, Distinct, Points, Values, trace.Valid, trace.Order;
      m := map[];
      trace.Clear();
      size := 0;
      trace.Apart();
      NoPoints<K, V>(trace.all);
    }

    /** Drop records from the tail, one by one, until `cap` are left. */
    method ShrinkTo(cap: nat)
      requires Valid() && cap <= |m|
      modifies this, trace, trace.all
      ensures Valid() && capacity == old(capacity) && trace.tick == old(trace.tick)
      ensures |m| == cap <= |old(trace.Order())| && trace.Order() == old(trace.Order())[..cap]
      ensures Values(m) == Only(Values(old(m)), old(trace.Order())[..cap])
    {
      hide Linked, Keyed, KeysOf, Distinct, Points, Values, Only, trace.Valid, trace.Order;
      ghost var keys, before := trace.Order(), m;
      AllKept(trace.all, keys, m);
      assert keys[..|m|] == keys;
      while |m| > cap
        invariant Valid() && capacity == old(capacity) && trace.tick == old(trace.tick)
        invariant cap <= |m| <= |keys| && trace.Order() == keys[..|m|] && m == Only(before, keys[..|m|])
        invariant forall i | 0 <= i < |trace.all| :: trace.all[i] in old(trace.all)
        decreases |m|
      {
        ghost var n := |m|;
        DropLast();
        OnlyShrinks(before, keys, n - 1);
        assert keys[..n][..n - 1] == keys[..n - 1];
      }
      OnlyValues(before, keys[..cap]);
    }

    method Resize(n: nat)
      requires Valid()
      modifies this, trace, trace.all
      ensures Valid() && Abs() == Lru.Resize(old(Abs()), n)
    {
      hide Linked, Keyed, KeysOf, Distinct, Points, Values, Only, trace.Valid, trace.Order;
      var cap := if n == 0 then 1 else n;
      PointsDistinct(trace.all, trace.Order(), m);
      if cap < capacity && |m| > cap { ShrinkTo(cap); }
      capacity := cap;
    }
  }
}
