/** Byte keys of the two databases: prefixes that never collide and big-endian numbers whose byte
    order is their numeric order, so that the flat key space behaves as separate tables. */
module Keys {
  import opened WalletTypes
  import opened Ledger
  import opened WalletStore

  type Bytes = seq<uint8>

  // ---------- byte order ----------

  /** The order of keys in the database. */
  predicate Below(a: Bytes, b: Bytes) {
    b != [] && (a == [] || a[0] < b[0] || (a[0] == b[0] && Below(a[1..], b[1..])))
  }

  predicate InRange(k: Bytes, lo: Bytes, hi: Bytes) { !Below(k, lo) && Below(k, hi) }

  lemma {:induction false} BelowPrefix(p: Bytes, a: Bytes, b: Bytes)
    ensures Below(p + a, p + b) <==> Below(a, b)
  {
    if p == [] {
      assert p + a == a && p + b == b;
    } else {
      BelowPrefix(p[1..], a, b);
      assert (p + a)[1..] == p[1..] + a && (p + b)[1..] == p[1..] + b;
    }
  }

  lemma {:induction false} BelowSnoc(a: Bytes, b: Bytes, x: uint8, y: uint8)
    requires |a| == |b|
    ensures Below(a + [x], b + [y]) <==> Below(a, b) || (a == b && x < y)
  {
    if a != [] {
      BelowSnoc(a[1..], b[1..], x, y);
      assert (a + [x])[1..] == a[1..] + [x] && (b + [y])[1..] == b[1..] + [y];
      assert a == b <==> a[0] == b[0] && a[1..] == b[1..] by {
        assert a == [a[0]] + a[1..] && b == [b[0]] + b[1..];
      }
    }
  }

  // ---------- big-endian numbers ----------

  function Power(k: nat): nat { if k == 0 then 1 else 256 * Power(k - 1) }

  function BigEndian(n: nat, k: nat): (r: Bytes)
    ensures |r| == k
  {
    if k == 0 then [] else BigEndian(n / 256, k - 1) + [(n % 256) as uint8]
  }

  function ReadBigEndian(b: Bytes): nat {
    if b == [] then 0 else 256 * ReadBigEndian(b[..|b| - 1]) + b[|b| - 1] as int
  }

  lemma {:induction false} BigEndianRoundTrip(n: nat, k: nat)
    requires n < Power(k)
    ensures ReadBigEndian(BigEndian(n, k)) == n
  {
    if k > 0 {
      BigEndianRoundTrip(n / 256, k - 1);
      assert BigEndian(n, k)[..k - 1] == BigEndian(n / 256, k - 1);
    }
  }

  lemma {:induction false} ReadRoundTrip(b: Bytes)
    ensures ReadBigEndian(b) < Power(|b|) && BigEndian(ReadBigEndian(b), |b|) == b
  {
    if b != [] { ReadRoundTrip(b[..|b| - 1]); }
  }

  /** Byte order is numeric order. */
  lemma {:induction false} BigEndianOrder(m: nat, n: nat, k: nat)
    requires m < Power(k) && n < Power(k)
    ensures Below(BigEndian(m, k), BigEndian(n, k)) <==> m < n
  {
    if k > 0 {
      BigEndianOrder(m / 256, n / 256, k - 1);
      BelowSnoc(BigEndian(m / 256, k - 1), BigEndian(n / 256, k - 1), (m % 256) as uint8, (n % 256) as uint8);
      BigEndianRoundTrip(m / 256, k - 1);
      BigEndianRoundTrip(n / 256, k - 1);
    }
  }

  ghost predicate U64(n: nat) { n < Power(8) }

  // ---------- wallet keys ----------

  const EVENT_PREFIX: uint8 := 120
  const DEDUP_PREFIX: uint8 := 121
  const DATA_PREFIX: uint8 := 122

  /** "applied_index", "last_seq_num" and "first_seq_num". */
  const APPLIED_KEY: Bytes := [97, 112, 112, 108, 105, 101, 100, 95, 105, 110, 100, 101, 120]
  const LAST_KEY: Bytes := [108, 97, 115, 116, 95, 115, 101, 113, 95, 110, 117, 109]
  const FIRST_KEY: Bytes := [102, 105, 114, 115, 116, 95, 115, 101, 113, 95, 110, 117, 109]

  datatype Key = DataKey(id: Id) | DedupKey(id: Id) | EventKey(n: nat) | AppliedKey | LastKey | FirstKey

  /** Sequence numbers are 64-bit. */
  ghost predicate Valid(key: Key) { key.EventKey? ==> U64(key.n) }

  function Encode(key: Key): Bytes {
    match key
    case DataKey(id) => [DATA_PREFIX] + id
    case DedupKey(id) => [DEDUP_PREFIX] + id
    case EventKey(n) => [EVENT_PREFIX] + BigEndian(n, 8)
    case AppliedKey => APPLIED_KEY
    case LastKey => LAST_KEY
    case FirstKey => FIRST_KEY
  }

  lemma PrefixedKeysDiffer(p: uint8, q: uint8, a: Bytes, b: Bytes)
    ensures [p] + a == [q] + b <==> p == q && a == b
  {
    assert ([p] + a)[0] == p && ([q] + b)[0] == q;
    assert ([p] + a)[1..] == a && ([q] + b)[1..] == b;
  }

  /** No two keys of the wallet collide. */
  lemma EncodeInjective(x: Key, y: Key)
    requires Valid(x) && Valid(y) && Encode(x) == Encode(y)
    ensures x == y
  {
    hide BigEndian;
    assert Encode(x)[0] == Encode(y)[0];
    match x
    case DataKey(id) => PrefixedKeysDiffer(DATA_PREFIX, DATA_PREFIX, id, y.id);
    case DedupKey(id) => PrefixedKeysDiffer(DEDUP_PREFIX, DEDUP_PREFIX, id, y.id);
    case EventKey(n) =>
      PrefixedKeysDiffer(EVENT_PREFIX, EVENT_PREFIX, BigEndian(n, 8), BigEndian(y.n, 8));
      BigEndianRoundTrip(n, 8);
      BigEndianRoundTrip(y.n, 8);
    case _ =>
  }

  datatype Val = AccountVal(account: Account) | NumberVal(number: nat) | EventVal(event: Event)

  function Read(d: Db, key: Key): Option<Val> {
    match key
    case DataKey(id) => if id in d.data then Some(AccountVal(d.data[id])) else None
    case DedupKey(id) => if id in d.dedup then Some(NumberVal(d.dedup[id])) else None
    case EventKey(n) => if n in d.events then Some(EventVal(d.events[n])) else None
    case AppliedKey => if d.applied.Some? then Some(NumberVal(d.applied.value)) else None
    case LastKey => if d.last.Some? then Some(NumberVal(d.last.value)) else None
    case FirstKey => if d.first.Some? then Some(NumberVal(d.first.value)) else None
  }

  /** The one key an operation writes or deletes. */
  function KeyOf(op: Op): Key {
    match op
    case PutData(a) => DataKey(a.id)
    case DeleteData(id) => DataKey(id)
    case PutDedup(id, _) => DedupKey(id)
    case DeleteDedup(id) => DedupKey(id)
    case PutEvent(n, _) => EventKey(n)
    case DeleteEvent(n) => EventKey(n)
    case PutApplied(_) => AppliedKey
    case PutLast(_) => LastKey
    case PutFirst(_) => FirstKey
  }

  function ValOf(op: Op): Option<Val> {
    match op
    case PutData(a) => Some(AccountVal(a))
    case PutDedup(_, n) => Some(NumberVal(n))
    case PutEvent(_, e) => Some(EventVal(e))
    case PutApplied(n) => Some(NumberVal(n))
    case PutLast(n) => Some(NumberVal(n))
    case PutFirst(n) => Some(NumberVal(n))
    case _ => None
  }

  type Flat = map<Bytes, Val>

  function ReadFlat(f: Flat, k: Bytes): Option<Val> { if k in f then Some(f[k]) else None }

  /** The operation as the key-value store sees it. */
  function FlatApply(f: Flat, op: Op): Flat {
    match ValOf(op)
    case Some(v) => f[Encode(KeyOf(op)) := v]
    case None => f - {Encode(KeyOf(op))}
  }

  /** The flat store `f` holds the tables of `d`, and no other key. */
  ghost predicate Represents(f: Flat, d: Db) {
    && (forall key | Valid(key) :: ReadFlat(f, Encode(key)) == Read(d, key))
    && (forall k <- f :: exists key :: Valid(key) && Encode(key) == k)
  }

  /** An operation changes its own key and nothing else. */
  lemma ReadAfter(d: Db, op: Op, key: Key)
    ensures Read(ApplyOp(d, op), key) == if key == KeyOf(op) then ValOf(op) else Read(d, key)
  {
  }

  /** Every operation on the flat store is the operation on the tables. */
  lemma FlatRefinesTables(f: Flat, d: Db, op: Op)
    requires Represents(f, d) && Valid(KeyOf(op))
    ensures Represents(FlatApply(f, op), ApplyOp(d, op))
  {
    hide Encode, Read, ApplyOp, Valid, KeyOf, ValOf;
    var f', d' := FlatApply(f, op), ApplyOp(d, op);
    forall key | Valid(key) ensures ReadFlat(f', Encode(key)) == Read(d', key) {
      ReadAfter(d, op, key);
      if key != KeyOf(op) && Encode(key) == Encode(KeyOf(op)) { EncodeInjective(key, KeyOf(op)); }
    }
    forall k | k in f' ensures exists key :: Valid(key) && Encode(key) == k {
      if k == Encode(KeyOf(op)) { assert Valid(KeyOf(op)); } else { assert k in f; }
    }
  }

  // ---------- scans ----------

  lemma BelowByte(k: Bytes, p: uint8)
    ensures Below(k, [p]) <==> k == [] || k[0] < p
  {
    assert [p][1..] == [];
  }

  lemma BelowFirst(k: Bytes, l: Bytes)
    requires k != [] && l != [] && k[0] != l[0]
    ensures Below(k, l) <==> k[0] < l[0]
  {
  }

  /** The scan of the account range finds exactly the account records. */
  lemma ScanAccounts(f: Flat, d: Db, k: Bytes)
    requires Represents(f, d)
    ensures k in f && InRange(k, [DATA_PREFIX], [DATA_PREFIX + 1])
            <==> exists id <- d.data :: k == Encode(DataKey(id))
  {
    BelowByte(k, DATA_PREFIX);
    BelowByte(k, DATA_PREFIX + 1);
    if k in f && InRange(k, [DATA_PREFIX], [DATA_PREFIX + 1]) {
      var key :| Valid(key) && Encode(key) == k;
      assert key.DataKey? && Read(d, key).Some?;
    }
    if id :| id in d.data && k == Encode(DataKey(id)) {
      assert Valid(DataKey(id)) && ReadFlat(f, k) == Read(d, DataKey(id));
    }
  }

  /** The scan of an event range finds exactly the events with those sequence numbers. */
  lemma ScanEventRange(f: Flat, d: Db, from: nat, to: nat, k: Bytes)
    requires Represents(f, d) && U64(from) && U64(to)
    ensures k in f && InRange(k, Encode(EventKey(from)), Encode(EventKey(to)))
            <==> exists n <- d.events :: U64(n) && k == Encode(EventKey(n)) && from <= n < to
  {
    if k in f && InRange(k, Encode(EventKey(from)), Encode(EventKey(to))) {
      var key :| Valid(key) && Encode(key) == k;
      KeyNotEmpty(key);
      hide BigEndian;
      if k[0] != EVENT_PREFIX {
        BelowFirst(k, Encode(EventKey(from)));
        BelowFirst(k, Encode(EventKey(to)));
      }
      assert key.EventKey?;
      EventRangeOrder(key.n, from, to);
      assert ReadFlat(f, k) == Read(d, key);
    }
    if n :| n in d.events && U64(n) && k == Encode(EventKey(n)) && from <= n < to {
      EventRangeOrder(n, from, to);
      assert ReadFlat(f, k) == Read(d, EventKey(n));
    }
  }

  lemma KeyNotEmpty(key: Key)
    ensures Encode(key) != [] && (Encode(key)[0] == EVENT_PREFIX <==> key.EventKey?)
  {
  }

  lemma EventRangeOrder(n: nat, from: nat, to: nat)
    requires U64(n) && U64(from) && U64(to)
    ensures InRange(Encode(EventKey(n)), Encode(EventKey(from)), Encode(EventKey(to))) <==> from <= n < to
  {
    BelowPrefix([EVENT_PREFIX], BigEndian(n, 8), BigEndian(from, 8));
    BelowPrefix([EVENT_PREFIX], BigEndian(n, 8), BigEndian(to, 8));
    BigEndianOrder(n, from, 8);
    BigEndianOrder(n, to, 8);
  }

  // ---------- raft log keys ----------

  function RaftLogKey(region: nat, index: nat): Bytes {
    [1, 2] + BigEndian(region, 8) + [1] + BigEndian(index, 8)
  }

  function DecodeRaftLogKey(k: Bytes): Option<(nat, nat)> {
    if |k| != 19 || k[..2] != [1, 2] || k[10] != 1 then None
    else Some((ReadBigEndian(k[2..10]), ReadBigEndian(k[11..])))
  }

  lemma RaftLogKeyRoundTrip(region: nat, index: nat)
    requires U64(region) && U64(index)
    ensures DecodeRaftLogKey(RaftLogKey(region, index)) == Some((region, index))
  {
    var r, i := BigEndian(region, 8), BigEndian(index, 8);
    var k := RaftLogKey(region, index);
    assert k[..2] == [1, 2] && k[2..10] == r && k[11..] == i && k[10] == 1;
    BigEndianRoundTrip(region, 8);
    BigEndianRoundTrip(index, 8);
  }

  /** Within a region the log is stored in index order. */
  lemma RaftLogKeyOrder(region: nat, m: nat, n: nat)
    requires U64(m) && U64(n)
    ensures Below(RaftLogKey(region, m), RaftLogKey(region, n)) <==> m < n
  {
    BelowPrefix([1, 2] + BigEndian(region, 8) + [1], BigEndian(m, 8), BigEndian(n, 8));
    BigEndianOrder(m, n, 8);
  }
}
