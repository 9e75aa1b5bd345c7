/**
 The cache of `arborpress/core/cache.py`: an in-process store in front of a shared one, and
 namespaces inside a store. Each operation is taken to be atomic.
 */
module TwoLevelCache {
  import opened Common

  type Key = string
  type Value = nat

  const MAX_L1_TTL_SECONDS: int := 5

  /** `expires` is zero for an entry that stays; the value `None` reads like a miss. */
  datatype Entry = Entry(value: Option<Value>, expires: real)

  type Entries = map<Key, Entry>
  type Rows = map<Key, Option<Value>>

  predicate Expired(e: Entry, now: real) { e.expires != 0.0 && now > e.expires }

  // ---------------------------------------------------------------- the in-process store

  function Served(store: Entries, key: Key, now: real): Option<Value> {
    if key in store && !Expired(store[key], now) then store[key].value else None
  }

  function AfterRead(store: Entries, key: Key, now: real): Entries {
    if key in store && Expired(store[key], now) then store - {key} else store
  }

  function Put(store: Entries, key: Key, value: Option<Value>, ttl: int, now: real): Entries {
    store[key := Entry(value, if ttl > 0 then now + ttl as real else 0.0)]
  }

  function WithoutPrefix(store: Entries, prefix: string): Entries {
    map key | key in store && !(prefix <= key) :: store[key]
  }

  class MemoryBackend {
    var store: Entries

    constructor ()
      ensures store == map[]
    {
      store := map[];
    }

    method Get(key: Key, now: real) returns (value: Option<Value>)
      modifies this
      ensures value == Served(old(store), key, now) && store == AfterRead(old(store), key, now)
      ensures key in old(store) && (old(store)[key].expires == 0.0 || now <= old(store)[key].expires) ==>
                value == old(store)[key].value && store == old(store)
      ensures !(key in old(store) && (old(store)[key].expires == 0.0 || now <= old(store)[key].expires)) ==>
                value == None && store == old(store) - {key}
    {
      if key !in store { return None; }
      var entry := store[key];
      if entry.expires != 0.0 && now > entry.expires {
        store := store - {key};
        return None;
      }
      return entry.value;
    }

    method Set(key: Key, value: Option<Value>, ttl: int, now: real)
      modifies this
      ensures store == Put(old(store), key, value, ttl, now)
      ensures key in store && store - {key} == old(store) - {key} && store[key].value == value
      ensures if ttl > 0 then store[key].expires == now + ttl as real else store[key].expires == 0.0
    {
      var expires := if ttl > 0 then now + ttl as real else 0.0;
      store := store[key := Entry(value, expires)];
    }

    method Delete(key: Key)
      modifies this
      ensures store == old(store) - {key}
    {
      store := store - {key};
    }

    method Flush()
      modifies this
      ensures store == map[]
    {
      store := map[];
    }

    method DeletePrefix(prefix: string)
      modifies this
      ensures store == WithoutPrefix(old(store), prefix)
      ensures forall key :: key in store <==> key in old(store) && !(prefix <= key)
      ensures forall key :: key in store ==> store[key] == old(store)[key]
    {
      var keys := store.Keys;
      while keys != {}
        invariant keys <= old(store).Keys
        invariant store == map key | key in old(store) && !(key !in keys && prefix <= key) :: old(store)[key]
        decreases |keys|
      {
        var key :| key in keys;
        keys := keys - {key};
        if prefix <= key { store := store - {key}; }
      }
    }
  }

  /** An outside store, which other workers change as well. */
  class SharedStore {
    var rows: Rows

    method Get(key: Key) returns (value: Option<Value>)
      ensures value == RowOf(rows, key)
    {
      if key !in rows { return None; }
      return rows[key];
    }

    method Set(key: Key, value: Option<Value>)
      modifies this
      ensures rows == old(rows)[key := value]
    {
      rows := rows[key := value];
    }

    method Delete(key: Key)
      modifies this
      ensures rows == old(rows) - {key}
    {
      rows := rows - {key};
    }

    method Flush()
      modifies this
      ensures rows == map[]
    {
      rows := map[];
    }
  }

  function RowOf(rows: Rows, key: Key): Option<Value> { if key in rows then rows[key] else None }

  // ---------------------------------------------------------------- two levels, step by step

  datatype Op =
    | Get(key: Key)
    | Set(key: Key, value: Option<Value>)
    | Delete(key: Key)
    | Flush
    /** Time passes. */
    | Wait(seconds: real)
    /** Another worker writes to the shared store, or it drops rows that are too old. */
    | Others(rows: Rows)

  datatype State = State(l1: Entries, l2: Rows, now: real)

  function Answer(s: State, key: Key): Option<Value> {
    var first := Served(s.l1, key, s.now);
    if first.Some? then first else RowOf(s.l2, key)
  }

  /** The first level has a value that has not expired. */
  predicate FirstHolds(store: Entries, key: Key, now: real) {
    key in store && (store[key].expires == 0.0 || now <= store[key].expires) && store[key].value.Some?
  }

  /**
   A read answers exactly what an entry of the first level has that has not expired, and without one
   exactly what the shared store has.
   */
  lemma AnswersIff(s: State, key: Key, v: Value)
    ensures Answer(s, key) == Some(v) <==>
              || (FirstHolds(s.l1, key, s.now) && s.l1[key].value == Some(v))
              || (!FirstHolds(s.l1, key, s.now) && key in s.l2 && s.l2[key] == Some(v))
  {
  }

  function Next(s: State, op: Op, ttl: int): State {
    match op
    case Get(key) =>
      var read := AfterRead(s.l1, key, s.now);
      if Served(s.l1, key, s.now).None? && RowOf(s.l2, key).Some?
      then s.(l1 := Put(read, key, RowOf(s.l2, key), ttl, s.now)) else s.(l1 := read)
    case Set(key, value) => s.(l1 := Put(s.l1, key, value, ttl, s.now), l2 := s.l2[key := value])
    case Delete(key) => s.(l1 := s.l1 - {key}, l2 := s.l2 - {key})
    case Flush => s.(l1 := map[], l2 := map[])
    case Wait(seconds) => if seconds >= 0.0 then s.(now := s.now + seconds) else s
    case Others(rows) => s.(l2 := rows)
  }

  class TwoLevelBackend {
    const l1: MemoryBackend
    const l2: SharedStore
    const l1Ttl: int

    constructor (l1: MemoryBackend, l2: SharedStore, l1Ttl: int)
      ensures this.l1 == l1 && this.l2 == l2 && 1 <= this.l1Ttl <= 5
      ensures this.l1Ttl == if l1Ttl < 1 then 1 else if l1Ttl > 5 then 5 else l1Ttl
    {
      this.l1, this.l2 := l1, l2;
      var atLeast := if l1Ttl > 1 then l1Ttl else 1;
      this.l1Ttl := if atLeast < MAX_L1_TTL_SECONDS then atLeast else MAX_L1_TTL_SECONDS;
    }

    ghost function At(now: real): State
      reads l1, l2
    {
      State(l1.store, l2.rows, now)
    }

    method Get(key: Key, now: real) returns (value: Option<Value>)
      modifies l1
      ensures value == Answer(old(At(now)), key) && At(now) == Next(old(At(now)), Op.Get(key), l1Ttl)
      ensures FirstHolds(old(l1.store), key, now) ==> value == old(l1.store)[key].value && l1.store == old(l1.store)
      ensures !FirstHolds(old(l1.store), key, now) ==>
                value == (if key in l2.rows then l2.rows[key] else None) && l1.store - {key} == old(l1.store) - {key}
      ensures value.Some? && !FirstHolds(old(l1.store), key, now) ==>
                key in l1.store && l1.store[key] == Entry(value, if l1Ttl > 0 then now + l1Ttl as real else 0.0)
    {
      value := l1.Get(key, now);
      if value.Some? { return; }
      value := l2.Get(key);
      if value.Some? {
        l1.Set(key, value, l1Ttl, now);
      }
    }

    method Set(key: Key, value: Option<Value>, now: real)
      modifies l1, l2
      ensures At(now) == Next(old(At(now)), Op.Set(key, value), l1Ttl)
    {
      l1.Set(key, value, l1Ttl, now);
      l2.Set(key, value);
    }

    method Delete(key: Key, now: real)
      modifies l1, l2
      ensures At(now) == Next(old(At(now)), Op.Delete(key), l1Ttl)
    {
      l1.Delete(key);
      l2.Delete(key);
    }

    method Flush(now: real)
      modifies l1, l2
      ensures At(now) == Next(old(At(now)), Op.Flush, l1Ttl)
    {
      l1.Flush();
      l2.Flush();
    }
  }

  // ---------------------------------------------------------------- how old an answer can be

  const EMPTY: State := State(map[], map[], 0.0)

  /** `states[k]` is the state after `k` operations, on a worker that starts with an empty first level. */
  ghost predicate IsRun(states: seq<State>, ops: seq<Op>, ttl: int) {
    && |states| == |ops| + 1
    && states[0].l1 == map[] && states[0].now >= 0.0
    && forall k :: 0 <= k < |ops| ==> states[k + 1] == Next(states[k], ops[k], ttl)
  }

  /** The shared store held `value` in one of the states `0..n`, at most `age` seconds before `now`. */
  ghost predicate HeldLately(states: seq<State>, n: nat, key: Key, value: Value, now: real, age: real)
    requires n < |states|
  {
    exists i :: 0 <= i <= n && RowOf(states[i].l2, key) == Some(value) && now - age <= states[i].now <= now
  }

  /** Every entry of the first level copies what the shared store held `ttl` seconds before it expires. */
  ghost predicate EntryOk(states: seq<State>, n: nat, key: Key, ttl: int)
    requires n < |states| && key in states[n].l1
  {
    var e := states[n].l1[key];
    e.value.Some? ==>
      e.expires > 0.0 && exists i :: 0 <= i <= n && RowOf(states[i].l2, key) == e.value && states[i].now == e.expires - ttl as real
                                     && states[i].now <= states[n].now
  }

  lemma EntryStays(states: seq<State>, n: nat, key: Key, ttl: int)
    requires n + 1 < |states| && key in states[n].l1 && key in states[n + 1].l1
    requires states[n].l1[key] == states[n + 1].l1[key] && states[n].now <= states[n + 1].now
    requires EntryOk(states, n, key, ttl)
    ensures EntryOk(states, n + 1, key, ttl)
  {
    var e := states[n].l1[key];
    if e.value.Some? {
      var i :| 0 <= i <= n && RowOf(states[i].l2, key) == e.value && states[i].now == e.expires - ttl as real
               && states[i].now <= states[n].now;
    }
  }

  lemma {:induction false} EntriesOk(states: seq<State>, ops: seq<Op>, ttl: int, n: nat, key: Key)
    requires IsRun(states, ops, ttl) && ttl >= 1 && n < |states|
    ensures states[n].now >= 0.0 && (key in states[n].l1 ==> EntryOk(states, n, key, ttl))
    decreases n
  {
    if n > 0 {
      EntriesOk(states, ops, ttl, n - 1, key);
      var s, s' := states[n - 1], states[n];
      assert s' == Next(s, ops[n - 1], ttl);
      if key in s'.l1 {
        if key in s.l1 && s'.l1[key] == s.l1[key] {
          EntryStays(states, n - 1, key, ttl);
        } else {
          assert RowOf(s'.l2, key) == s'.l1[key].value && s'.now == s'.l1[key].expires - ttl as real;
        }
      }
    }
  }

  /** What is answered at a time `u` was in the shared store at some moment between `u - 5` and `u`. */
  lemma AnswersAreRecent(states: seq<State>, ops: seq<Op>, ttl: int, n: nat, key: Key)
    requires IsRun(states, ops, ttl) && 1 <= ttl <= 5 && n < |states|
    requires Answer(states[n], key).Some?
    ensures HeldLately(states, n, key, Answer(states[n], key).value, states[n].now, 5.0)
  {
    EntriesOk(states, ops, ttl, n, key);
    var s := states[n];
    if Served(s.l1, key, s.now).Some? {
      var e := s.l1[key];
      var i :| 0 <= i <= n && RowOf(states[i].l2, key) == e.value && states[i].now == e.expires - ttl as real
               && states[i].now <= s.now;
      assert s.now - 5.0 <= states[i].now;
    }
  }

  // ---------------------------------------------------------------- a single writer

  /** The value last written under `key`, if it was not deleted since; `start` is what the worker found there. */
  function LastWritten(start: Option<Value>, ops: seq<Op>, key: Key): Option<Value> {
    if ops == [] then start
    else
      var before := LastWritten(start, ops[..|ops| - 1], key);
      match ops[|ops| - 1]
      case Set(k, value) => if k == key then value else before
      case Delete(k) => if k == key then None else before
      case Flush => None
      case _ => before
  }

  /** The shared store only changes by itself in that it loses rows. */
  ghost predicate SingleWriter(states: seq<State>, ops: seq<Op>) {
    |states| == |ops| + 1 && forall k :: 0 <= k < |ops| && ops[k].Others? ==> OnlyDrops(states[k].l2, ops[k].rows)
  }

  predicate OnlyDrops(before: Rows, after: Rows) {
    forall key :: key in after ==> key in before && after[key] == before[key]
  }

  lemma {:induction false} LevelsAgree(states: seq<State>, ops: seq<Op>, ttl: int, n: nat, key: Key)
    requires IsRun(states, ops, ttl) && SingleWriter(states, ops) && n < |states|
    ensures key in states[n].l1 && states[n].l1[key].value.Some? ==>
              states[n].l1[key].value == LastWritten(RowOf(states[0].l2, key), ops[..n], key)
    ensures RowOf(states[n].l2, key).Some? ==>
              RowOf(states[n].l2, key) == LastWritten(RowOf(states[0].l2, key), ops[..n], key)
    decreases n
  {
    if n > 0 {
      LevelsAgree(states, ops, ttl, n - 1, key);
      assert ops[..n][..n - 1] == ops[..n - 1] && states[n] == Next(states[n - 1], ops[n - 1], ttl);
    }
  }

  /** With a single writer no answer is older than the last write, delete or flush, or than the shared rows at the start. */
  lemma SingleWriterReadsItsWrites(states: seq<State>, ops: seq<Op>, ttl: int, n: nat, key: Key)
    requires IsRun(states, ops, ttl) && SingleWriter(states, ops) && n < |states|
    ensures Answer(states[n], key).None?
            || Answer(states[n], key) == LastWritten(RowOf(states[0].l2, key), ops[..n], key)
  {
    LevelsAgree(states, ops, ttl, n, key);
  }

  /** The shared store changes only through this worker. */
  ghost predicate Undisturbed(states: seq<State>, ops: seq<Op>) {
    |states| == |ops| + 1 && forall k :: 0 <= k < |ops| && ops[k].Others? ==> ops[k].rows == states[k].l2
  }

  lemma {:induction false} SharedIsLastWritten(states: seq<State>, ops: seq<Op>, ttl: int, n: nat, key: Key)
    requires IsRun(states, ops, ttl) && Undisturbed(states, ops) && n < |states|
    ensures RowOf(states[n].l2, key) == LastWritten(RowOf(states[0].l2, key), ops[..n], key)
    decreases n
  {
    if n > 0 {
      SharedIsLastWritten(states, ops, ttl, n - 1, key);
      assert ops[..n][..n - 1] == ops[..n - 1] && states[n] == Next(states[n - 1], ops[n - 1], ttl);
    }
  }

  /** If besides no row is dropped, every answer is the last write, and a miss means a delete, a flush or nothing ever. */
  lemma UndisturbedReadsAreExact(states: seq<State>, ops: seq<Op>, ttl: int, n: nat, key: Key)
    requires IsRun(states, ops, ttl) && Undisturbed(states, ops) && n < |states|
    ensures Answer(states[n], key) == LastWritten(RowOf(states[0].l2, key), ops[..n], key)
  {
    SharedIsLastWritten(states, ops, ttl, n, key);
    assert SingleWriter(states, ops);
    LevelsAgree(states, ops, ttl, n, key);
  }

  // ---------------------------------------------------------------- namespaces

  datatype Backend =
    | Memory(memory: MemoryBackend)
    | Levels(first: Backend, second: Backend)
    | Shared(shared: SharedStore)
    | Disabled

  ghost function Memories(b: Backend): set<MemoryBackend> {
    match b
    case Memory(m) => {m}
    case Levels(first, second) => Memories(first) + Memories(second)
    case Shared(_) => {}
    case Disabled => {}
  }

  ghost function SharedStores(b: Backend): set<SharedStore> {
    match b
    case Memory(_) => {}
    case Levels(first, second) => SharedStores(first) + SharedStores(second)
    case Shared(s) => {s}
    case Disabled => {}
  }

  /** Memory stores lose the keys of the namespace only; outside stores, which have a prefix of their own, everything. */
  method FlushNamespace(backend: Backend, namespace: string)
    modifies Memories(backend), SharedStores(backend)
    ensures forall m :: m in Memories(backend) && old(allocated(m)) ==> m.store == WithoutPrefix(old(m.store), namespace)
    ensures forall s :: s in SharedStores(backend) && old(allocated(s)) ==> s.rows == map[]
    decreases backend
  {
    match backend
    case Memory(m) => m.DeletePrefix(namespace);
    case Levels(first, second) =>
      FlushNamespace(first, namespace);
      FlushNamespace(second, namespace);
    case Shared(s) => s.Flush();
    case Disabled =>
  }

  /** `_instance_prefix`: the digests of the instance and of its configured prefix, each of fixed length. */
  function InstancePrefix(namespace: string, instance: string, configured: string): string {
    namespace + ":" + instance + ":" + configured + ":"
  }

  lemma PrefixesDiffer(namespace: string, a: string, b: string, a': string, b': string)
    requires |a| == |a'| && |b| == |b'| && (a != a' || b != b')
    ensures |InstancePrefix(namespace, a, b)| == |InstancePrefix(namespace, a', b')|
    ensures InstancePrefix(namespace, a, b) != InstancePrefix(namespace, a', b')
  {
    var p, q := InstancePrefix(namespace, a, b), InstancePrefix(namespace, a', b');
    var n := |namespace| + 1;
    assert p[n..n + |a|] == a && q[n..n + |a|] == a';
    assert p[n + |a| + 1..n + |a| + 1 + |b|] == b && q[n + |a| + 1..n + |a| + 1 + |b|] == b';
  }

  /** Flushing one instance of a shared memory store leaves every entry of every other instance as it was. */
  lemma OtherInstancesKeepTheirKeys(store: Entries, namespace: string, a: string, b: string, a': string, b': string,
      key: Key, now: real)
    requires |a| == |a'| && |b| == |b'|
    ensures Served(WithoutPrefix(store, InstancePrefix(namespace, a, b)), InstancePrefix(namespace, a', b') + key, now)
         == if a == a' && b == b' then None else Served(store, InstancePrefix(namespace, a', b') + key, now)
  {
    var p, q := InstancePrefix(namespace, a, b), InstancePrefix(namespace, a', b');
    if a == a' && b == b' {
      assert q <= q + key;
    } else {
      PrefixesDiffer(namespace, a, b, a', b');
      assert (q + key)[..|q|] == q;
    }
  }
}
