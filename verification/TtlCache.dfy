/** The memory cache with expiration: a refinement of a map that is never cleaned up. */
module TtlCache {
  import opened Options

  datatype Item<V> = Item(data: V, expires: int)

  datatype Op<K, V> =
    | Set(key: K, value: V, duration: int, at: int)
    | Get(key: K, at: int)
    | Cleanup(at: int)
    | Stop

  // ----- nanoseconds in 64 bits -----

  const TWO_63 := 0x8000_0000_0000_0000
  const TWO_64 := 0x1_0000_0000_0000_0000

  predicate Int64(x: int) {
    -TWO_63 <= x < TWO_63
  }

  /** What 64 bits keep of a sum. */
  function Wrapped(x: int): (r: int)
    ensures Int64(r) && (Int64(x) ==> r == x)
  {
    (x + TWO_63) % TWO_64 - TWO_63
  }

  /** The expiry stored for a duration; zero stands for none. */
  function Expires(duration: int, now: int): int {
    if duration > 0 then Wrapped(now + duration) else 0
  }

  predicate Expired<V>(item: Item<V>, now: int) {
    item.expires > 0 && now > item.expires
  }

  /** An item counts as expired exactly once its duration has passed, even where the stored expiry wraps around: a sum
      past the largest time is stored as a negative one, which stands for none, and no clock reaches it. */
  lemma ExpiredMeans<V>(value: V, duration: int, setAt: int, now: int)
    requires 0 <= setAt < TWO_63 && Int64(duration) && Int64(now)
    ensures Expired(Item(value, Expires(duration, setAt)), now) <==> duration > 0 && now > setAt + duration
  {
    var sum := setAt + duration;
    if duration > 0 && sum >= TWO_63 {
      assert sum + TWO_63 == (sum + TWO_63 - TWO_64) + TWO_64;
      assert Wrapped(sum) == sum - TWO_64;
    }
  }

  // ----- runs -----

  function Unexpired<K, V>(items: map<K, Item<V>>, now: int): map<K, Item<V>> {
    map k | k in items && !Expired(items[k], now) :: items[k]
  }

  function Lookup<K, V>(items: map<K, Item<V>>, key: K, now: int): Option<V> {
    if key !in items || Expired(items[key], now) then None else Some(items[key].data)
  }

  /** The items, and whether Stop has been called: only its first call does anything. */
  datatype State<K, V> = State(items: map<K, Item<V>>, stopped: bool)

  function After<K, V>(s: State<K, V>, op: Op<K, V>): State<K, V> {
    match op
    case Set(key, value, duration, at) => s.(items := s.items[key := Item(value, Expires(duration, at))])
    case Get(_, _) => s
    case Cleanup(at) => s.(items := Unexpired(s.items, at))
    case Stop => if s.stopped then s else State(map[], true)
  }

  function Final<K, V>(ops: seq<Op<K, V>>): State<K, V> {
    if ops == [] then State(map[], false) else After(Final(ops[..|ops| - 1]), ops[|ops| - 1])
  }

  function Items<K, V>(ops: seq<Op<K, V>>): map<K, Item<V>> {
    Final(ops).items
  }

  /** What the reads of a run answer, in order. */
  function Answers<K(==), V>(ops: seq<Op<K, V>>): seq<Option<V>> {
    if ops == [] then []
    else
      var before, op := ops[..|ops| - 1], ops[|ops| - 1];
      if op.Get? then Answers(before) + [Lookup(Items(before), op.key, op.at)] else Answers(before)
  }

  /** The same run without its cleanups. */
  function Uncleaned<K, V>(ops: seq<Op<K, V>>): seq<Op<K, V>> {
    if ops == [] then []
    else
      var before, op := ops[..|ops| - 1], ops[|ops| - 1];
      if op.Cleanup? then Uncleaned(before) else Uncleaned(before) + [op]
  }

  predicate NotBefore<K, V>(op: Op<K, V>, time: int) {
    op.Stop? || op.at >= time
  }

  /** A clock that never goes back. */
  predicate Monotone<K, V>(ops: seq<Op<K, V>>) {
    forall i, j | 0 <= i < j < |ops| && !ops[i].Stop? :: NotBefore(ops[j], ops[i].at)
  }

  // ----- refinement -----

  /** The cleaned items are the others without some that have expired by now. */
  ghost predicate Refines<K, V>(items: map<K, Item<V>>, all: map<K, Item<V>>, now: int) {
    && (forall k | k in items :: k in all && items[k] == all[k])
    && (forall k | k in all && k !in items :: Expired(all[k], now))
  }

  lemma RefinesStep<K, V>(s: State<K, V>, all: State<K, V>, op: Op<K, V>, now: int)
    requires Refines(s.items, all.items, now) && s.stopped == all.stopped && NotBefore(op, now)
    ensures var all' := if op.Cleanup? then all else After(all, op);
            && Refines(After(s, op).items, all'.items, if op.Stop? then now else op.at)
            && After(s, op).stopped == all'.stopped
    ensures op.Get? ==> Lookup(s.items, op.key, op.at) == Lookup(all.items, op.key, op.at)
  {
  }

  /** The latest time of a run. */
  function Clock<K, V>(ops: seq<Op<K, V>>): int {
    if ops == [] then 0
    else if ops[|ops| - 1].Stop? then Clock(ops[..|ops| - 1]) else ops[|ops| - 1].at
  }

  lemma {:induction false} ClockIsOfAnOp<K, V>(ops: seq<Op<K, V>>)
    ensures Clock(ops) == 0 || exists i :: 0 <= i < |ops| && !ops[i].Stop? && ops[i].at == Clock(ops)
  {
    if ops == [] {
    } else {
      var before := ops[..|ops| - 1];
      ClockIsOfAnOp(before);
      if ops[|ops| - 1].Stop? && Clock(before) != 0 {
        var i :| 0 <= i < |before| && !before[i].Stop? && before[i].at == Clock(before);
        assert ops[i] == before[i];
      }
    }
  }

  /** Under a clock that never goes back, cleanups inserted anywhere change no answer. */
  lemma {:induction false} CleanupsAreInvisible<K, V>(ops: seq<Op<K, V>>)
    requires Monotone(ops) && forall op | op in ops :: NotBefore(op, 0)
    ensures Answers(ops) == Answers(Uncleaned(ops))
    ensures Refines(Items(ops), Items(Uncleaned(ops)), Clock(ops))
    ensures Final(ops).stopped == Final(Uncleaned(ops)).stopped
  {
    if ops == [] {
    } else {
      var before, op := ops[..|ops| - 1], ops[|ops| - 1];
      assert forall i | 0 <= i < |before| :: before[i] == ops[i];
      CleanupsAreInvisible(before);
      ClockIsOfAnOp(before);
      RefinesStep(Final(before), Final(Uncleaned(before)), op, Clock(before));
      if !op.Cleanup? {
        assert Uncleaned(ops)[..|Uncleaned(ops)| - 1] == Uncleaned(before);
      }
    }
  }

  /** A cleanup changes what a later read answers exactly when the item has expired for the cleanup but not for the
      read, for which the clock must have gone back. */
  lemma CleanupVisibleExactly<K, V>(items: map<K, Item<V>>, key: K, cleanAt: int, readAt: int)
    ensures Lookup(Unexpired(items, cleanAt), key, readAt) != Lookup(items, key, readAt) <==>
            key in items && Expired(items[key], cleanAt) && !Expired(items[key], readAt)
    ensures Lookup(Unexpired(items, cleanAt), key, readAt) != Lookup(items, key, readAt) ==> readAt < cleanAt
  {
  }

  // ----- what a read answers -----

  /** The last operation that writes or drops the key. */
  ghost predicate LastWrite<K(!new), V(!new)>(ops: seq<Op<K, V>>, key: K, i: int) {
    && 0 <= i < |ops| && Touches(ops, key, i)
    && forall j | i < j < |ops| :: !Touches(ops, key, j)
  }

  /** The operation sets the key, or is the first stop of the run. */
  predicate Touches<K(==), V>(ops: seq<Op<K, V>>, key: K, i: int)
    requires 0 <= i < |ops|
  {
    if ops[i].Stop? then forall j | 0 <= j < i :: !ops[j].Stop? else ops[i].Set? && ops[i].key == key
  }

  lemma {:induction false} StoppedByStop<K, V>(ops: seq<Op<K, V>>)
    ensures Final(Uncleaned(ops)).stopped <==> exists j :: 0 <= j < |ops| && ops[j].Stop?
  {
    if ops == [] {
    } else {
      var before, last := ops[..|ops| - 1], |ops| - 1;
      StoppedByStop(before);
      UncleanedStep(ops);
      if j :| 0 <= j < |ops| && ops[j].Stop? && j < last {
        assert before[j].Stop?;
      }
      if j :| 0 <= j < |before| && before[j].Stop? {
        assert ops[j].Stop?;
      }
    }
  }

  /** Over every run a read answers the value last set, exactly while it has no expiry or the expiry has not passed; a
      stop forgets everything. */
  lemma ReadsLastValue<K(!new), V(!new)>(ops: seq<Op<K, V>>, key: K, now: int)
    requires Monotone(ops) && (forall op | op in ops :: TimesOk(op)) && Int64(now) && now >= Clock(ops)
    ensures forall i | LastWrite(ops, key, i) :: Lookup(Items(ops), key, now) ==
              if ops[i].Set? && (ops[i].duration <= 0 || now <= ops[i].at + ops[i].duration)
              then Some(ops[i].value) else None
    ensures (forall i | 0 <= i < |ops| :: !Touches(ops, key, i)) ==> Lookup(Items(ops), key, now) == None
  {
    CleanupsAreInvisible(ops);
    var all := Items(Uncleaned(ops));
    assert Lookup(Items(ops), key, now) == Lookup(all, key, now);
    if forall i | 0 <= i < |ops| :: !Touches(ops, key, i) {
      UnwrittenItem(ops, key);
    }
    forall i | LastWrite(ops, key, i)
      ensures Lookup(all, key, now) ==
              if ops[i].Set? && (ops[i].duration <= 0 || now <= ops[i].at + ops[i].duration)
              then Some(ops[i].value) else None
    {
      WrittenItem(ops, key, i);
      assert ops[i] in ops;
      if ops[i].Set? {
        ExpiredMeans(ops[i].value, ops[i].duration, ops[i].at, now);
      }
    }
  }

  predicate TimesOk<K, V>(op: Op<K, V>) {
    && (op.Stop? || 0 <= op.at < TWO_63)
    && (op.Set? ==> Int64(op.duration))
  }

  /** The item a write leaves: the one set, or none. */
  ghost predicate Leaves<K, V>(op: Op<K, V>, items: map<K, Item<V>>, key: K) {
    if op.Set? then key in items && items[key] == Item(op.value, Expires(op.duration, op.at)) else key !in items
  }

  lemma UncleanedStep<K, V>(ops: seq<Op<K, V>>)
    requires ops != []
    ensures var all := Final(Uncleaned(ops[..|ops| - 1]));
            Final(Uncleaned(ops)) == if ops[|ops| - 1].Cleanup? then all else After(all, ops[|ops| - 1])
  {
    var before, op := ops[..|ops| - 1], ops[|ops| - 1];
    if !op.Cleanup? {
      assert Uncleaned(ops) == Uncleaned(before) + [op];
      assert Uncleaned(ops)[..|Uncleaned(ops)| - 1] == Uncleaned(before);
    }
  }

  /** An operation that does not touch the key leaves its item alone. */
  lemma UntouchedItem<K, V>(ops: seq<Op<K, V>>, key: K)
    requires ops != [] && !Touches(ops, key, |ops| - 1)
    ensures var before := Items(Uncleaned(ops[..|ops| - 1]));
            var after := Items(Uncleaned(ops));
            (key in after <==> key in before) && (key in after ==> after[key] == before[key])
  {
    var before, last := ops[..|ops| - 1], |ops| - 1;
    UncleanedStep(ops);
    if ops[last].Stop? {
      StoppedByStop(before);
      var j :| 0 <= j < last && ops[j].Stop?;
      assert before[j].Stop?;
    }
  }

  /** Without cleanups the item of a key is that of its last write. */
  lemma {:induction false} WrittenItem<K(!new), V(!new)>(ops: seq<Op<K, V>>, key: K, i: int)
    requires LastWrite(ops, key, i)
    ensures Leaves(ops[i], Items(Uncleaned(ops)), key)
    decreases |ops|
  {
    var before := ops[..|ops| - 1];
    if i < |before| {
      assert forall j | 0 <= j < |before| :: Touches(before, key, j) <==> Touches(ops, key, j);
      WrittenItem(before, key, i);
      UntouchedItem(ops, key);
    } else {
      UncleanedStep(ops);
      if ops[i].Stop? {
        StoppedByStop(before);
      }
    }
  }

  lemma {:induction false} UnwrittenItem<K(!new), V(!new)>(ops: seq<Op<K, V>>, key: K)
    requires forall i | 0 <= i < |ops| :: !Touches(ops, key, i)
    ensures key !in Items(Uncleaned(ops))
    decreases |ops|
  {
    if ops == [] {
    } else {
      var before := ops[..|ops| - 1];
      assert forall j | 0 <= j < |before| :: Touches(before, key, j) <==> Touches(ops, key, j);
      UnwrittenItem(before, key);
      UntouchedItem(ops, key);
    }
  }

  // ----- counting -----

  /** The keys a read finds. */
  function Readable<K, V>(items: map<K, Item<V>>, now: int): set<K> {
    set k | k in items && Lookup(items, k, now).Some?
  }

  /** The keys whose item has expired but has not been cleaned up. */
  function Stale<K, V>(items: map<K, Item<V>>, now: int): set<K> {
    set k | k in items && Expired(items[k], now)
  }

  lemma ReadableOrStale<K, V>(items: map<K, Item<V>>, now: int)
    ensures |items| == |Readable(items, now)| + |Stale(items, now)|
    ensures |Stale(items, now)| == 0 <==> Stale(items, now) == {}
  {
    assert items.Keys == Readable(items, now) + Stale(items, now);
    assert Readable(items, now) !! Stale(items, now);
    assert |items| == |items.Keys|;
  }

  // ----- the cache -----

  class Cache<K(==), V> {
    var items: map<K, Item<V>>
    var stopped: bool

    constructor ()
      ensures Value() == Final([])
    {
      items, stopped := map[], false;
    }

    function Value(): State<K, V>
      reads this
    {
      State(items, stopped)
    }

    /** Every expired item goes, and no other: afterwards exactly the items that can be read count. */
    method Cleanup(now: int)
      modifies this`items
      ensures Value() == After(old(Value()), Op<K, V>.Cleanup(now))
      ensures forall k :: k in items <==> k in old(items) && !Expired(old(items)[k], now)
      ensures Readable(items, now) == Readable(old(items), now) && Stale(items, now) == {}
    {
      var keys := items.Keys;
      while keys != {}
        invariant keys <= old(items).Keys
        invariant items == map k | k in old(items) && (k in keys || !Expired(old(items)[k], now)) :: old(items)[k]
        decreases |keys|
      {
        var key :| key in keys;
        if items[key].expires > 0 && now > items[key].expires {
          items := items - {key};
        }
        keys := keys - {key};
      }
    }

    method Get(key: K, now: int) returns (found: Option<V>)
      ensures found == Lookup(items, key, now)
    {
      if key !in items { return None; }
      var item := items[key];
      if item.expires > 0 && now > item.expires { return None; }
      found := Some(item.data);
    }

    method Set(key: K, value: V, duration: int, now: int)
      modifies this`items
      ensures Value() == After(old(Value()), Op.Set(key, value, duration, now))
      ensures forall k | k != key :: k in items <==> k in old(items)
    {
      var expires := 0;
      if duration > 0 {
        expires := Wrapped(now + duration);
      }
      items := items[key := Item(value, expires)];
    }

    /** Items that have expired count until they are cleaned up: at any moment the answer is the number of keys that
        can be read plus the number of expired ones still there, so it is exact if and only if none of these is. */
    method Count(ghost now: int) returns (n: nat)
      ensures n == |Readable(items, now)| + |Stale(items, now)|
      ensures n == |Readable(items, now)| <==> Stale(items, now) == {}
    {
      n := |items|;
      ReadableOrStale(items, now);
    }

    /** Once only. */
    method Stop()
      modifies this
      ensures Value() == After(old(Value()), Op<K, V>.Stop)
    {
      if !stopped {
        items, stopped := map[], true;
      }
    }
  }
}
