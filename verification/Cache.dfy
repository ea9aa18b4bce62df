/** The in-memory cache with expiry: what its map holds, what a history of operations says a look-up
    should find, and the object that keeps both. */
module Cache {

  datatype Option<V> = None | Some(value: V)

  datatype Entry<V> = Entry(value: V, expiresAt: int)

  type Store<V> = map<string, Entry<V>>

  function Expired<V>(e: Entry<V>, now: int): bool {
    now > e.expiresAt
  }

  function Find<V>(data: Store<V>, key: string, now: int): Option<V> {
    if key in data && !Expired(data[key], now) then Some(data[key].value) else None
  }

  /** What changes the cache, each at its moment. */
  datatype Op<V> =
    | Set(key: string, value: V, ttl: int, now: int)
    | Delete(key: string, now: int)
    | Cleanup(now: int)

  function Apply<V>(data: Store<V>, op: Op<V>): Store<V> {
    match op
    case Set(key, value, ttl, now) => if ttl <= 0 then data else data[key := Entry(value, now + ttl)]
    case Delete(key, _) => data - {key}
    case Cleanup(now) => map key | key in data && !Expired(data[key], now) :: data[key]
  }

  function ApplyAll<V>(ops: seq<Op<V>>): Store<V> {
    if ops == [] then map[] else Apply(ApplyAll(ops[..|ops| - 1]), ops[|ops| - 1])
  }

  /** What a look-up should find, told by the history alone: the value last set successfully and not
      deleted since, while its time to live lasts. Cleaning up plays no part. */
  function Recall<V>(ops: seq<Op<V>>, key: string, now: int): Option<V> {
    if ops == [] then None
    else
      var op := ops[|ops| - 1];
      if op.Set? && op.key == key && op.ttl > 0 then (if now <= op.now + op.ttl then Some(op.value) else None)
      else if op.Delete? && op.key == key then None
      else Recall(ops[..|ops| - 1], key, now)
  }

  /** An operation that settles what `key` holds: a set that succeeds, or a delete. */
  predicate Settles<V>(op: Op<V>, key: string) {
    (op.Set? && op.key == key && op.ttl > 0) || (op.Delete? && op.key == key)
  }

  /** Operation `i` is the last to settle `key`, and sets it. */
  ghost predicate LastSet<V>(ops: seq<Op<V>>, key: string, i: nat) {
    && i < |ops| && ops[i].Set? && Settles(ops[i], key)
    && forall k :: i < k < |ops| ==> !Settles(ops[k], key)
  }

  /** Operation `i` set what `key` holds, and clean-up `j` after it read a clock past the expiry, which at
      `now` is still to come. */
  ghost predicate CleanedBy<V>(ops: seq<Op<V>>, key: string, now: int, i: nat, j: nat) {
    && LastSet(ops, key, i) && i < j < |ops| && ops[j].Cleanup?
    && now <= ops[i].now + ops[i].ttl < ops[j].now
  }

  ghost predicate CleanedTooEarly<V>(ops: seq<Op<V>>, key: string, now: int) {
    exists i: nat, j: nat :: CleanedBy(ops, key, now, i, j)
  }

  /** What is left of the value last set: it is still there unless some clean-up since was past its expiry. */
  ghost predicate Left<V>(ops: seq<Op<V>>, key: string, i: nat) {
    && LastSet(ops, key, i)
    && forall j :: i < j < |ops| && ops[j].Cleanup? ==> ops[j].now <= ops[i].now + ops[i].ttl
  }

  lemma LastSetUnique<V>(ops: seq<Op<V>>, key: string, i: nat, j: nat)
    requires LastSet(ops, key, i) && LastSet(ops, key, j)
    ensures i == j
  {
  }

  lemma LastSetSnoc<V>(ops: seq<Op<V>>, key: string, i: nat)
    requires ops != []
    ensures var n := |ops| - 1;
      LastSet(ops, key, i) <==>
        if Settles(ops[n], key) then i == n && ops[n].Set? else LastSet(ops[..n], key, i)
  {
  }

  lemma LeftSnoc<V>(ops: seq<Op<V>>, key: string, i: nat)
    requires ops != []
    ensures var n := |ops| - 1;
      Left(ops, key, i) <==>
        if Settles(ops[n], key) then i == n && ops[n].Set?
        else Left(ops[..n], key, i) && (ops[n].Cleanup? ==> ops[n].now <= ops[i].now + ops[i].ttl)
  {
    LastSetSnoc(ops, key, i);
  }

  /** The map holds exactly what is left. */
  lemma {:induction false} HoldsWhatIsLeft<V>(ops: seq<Op<V>>, key: string)
    ensures forall i: nat :: Left(ops, key, i) ==>
      key in ApplyAll(ops) && ApplyAll(ops)[key] == Entry(ops[i].value, ops[i].now + ops[i].ttl)
    ensures key in ApplyAll(ops) ==> exists i: nat :: Left(ops, key, i)
  {
    if ops != [] {
      var n := |ops| - 1;
      HoldsWhatIsLeft(ops[..n], key);
      forall i: nat
        ensures Left(ops, key, i) ==>
          key in ApplyAll(ops) && ApplyAll(ops)[key] == Entry(ops[i].value, ops[i].now + ops[i].ttl)
      {
        LeftSnoc(ops, key, i);
      }
      if key in ApplyAll(ops) {
        if Settles(ops[n], key) {
          LeftSnoc(ops, key, n);
        } else {
          var i: nat :| Left(ops[..n], key, i);
          LeftSnoc(ops, key, i);
        }
      }
    }
  }

  /** The history recalls the value last set, while it is alive. */
  lemma {:induction false} RecallsLastSet<V>(ops: seq<Op<V>>, key: string, now: int)
    ensures forall i: nat :: LastSet(ops, key, i) ==>
      Recall(ops, key, now) == if now <= ops[i].now + ops[i].ttl then Some(ops[i].value) else None
    ensures Recall(ops, key, now).Some? ==> exists i: nat :: LastSet(ops, key, i)
  {
    if ops != [] {
      var n := |ops| - 1;
      RecallsLastSet(ops[..n], key, now);
      forall i: nat
        ensures LastSet(ops, key, i) ==>
          Recall(ops, key, now) == if now <= ops[i].now + ops[i].ttl then Some(ops[i].value) else None
      {
        LastSetSnoc(ops, key, i);
      }
      if Recall(ops, key, now).Some? {
        if Settles(ops[n], key) {
          LastSetSnoc(ops, key, n);
        } else {
          var i: nat :| LastSet(ops[..n], key, i);
          LastSetSnoc(ops, key, i);
        }
      }
    }
  }

  /** The cache refines its history: after any operations, with whatever clock readings, a look-up finds what
      the history says, except exactly when a clean-up has read a clock past an expiry still to come. */
  lemma CacheRefinesHistoryIff<V>(ops: seq<Op<V>>, key: string, now: int)
    ensures Find(ApplyAll(ops), key, now) == Recall(ops, key, now) <==> !CleanedTooEarly(ops, key, now)
    ensures Find(ApplyAll(ops), key, now) == if CleanedTooEarly(ops, key, now) then None else Recall(ops, key, now)
  {
    HoldsWhatIsLeft(ops, key);
    RecallsLastSet(ops, key, now);
    if CleanedTooEarly(ops, key, now) {
      var i: nat, j: nat :| CleanedBy(ops, key, now, i, j);
      if key in ApplyAll(ops) {
        var k: nat :| Left(ops, key, k);
        LastSetUnique(ops, key, i, k);
      }
    } else if Recall(ops, key, now).Some? {
      var i: nat :| LastSet(ops, key, i);
      forall j | i < j < |ops| && ops[j].Cleanup?
        ensures ops[j].now <= ops[i].now + ops[i].ttl
      {
        assert !CleanedBy(ops, key, now, i, j);
      }
      assert Left(ops, key, i);
    } else if key in ApplyAll(ops) {
      var i: nat :| Left(ops, key, i);
    }
  }

  /** No clean-up has read a later time than `now`. */
  predicate CleanedBefore<V>(ops: seq<Op<V>>, now: int) {
    forall i :: 0 <= i < |ops| && ops[i].Cleanup? ==> ops[i].now <= now
  }

  /** That cannot happen to a look-up that reads the clock after every clean-up before it has done so. A
      clean-up may still read the clock, wait for the lock, and find later sets made in the meantime. */
  lemma CacheRefinesHistory<V>(ops: seq<Op<V>>, key: string, now: int)
    requires CleanedBefore(ops, now)
    ensures Find(ApplyAll(ops), key, now) == Recall(ops, key, now)
  {
    CacheRefinesHistoryIff(ops, key, now);
  }

  function WithoutCleanups<V>(ops: seq<Op<V>>): seq<Op<V>> {
    if ops == [] then []
    else
      var n := |ops| - 1;
      WithoutCleanups(ops[..n]) + if ops[n].Cleanup? then [] else [ops[n]]
  }

  lemma {:induction false} NoCleanupsLeft<V>(ops: seq<Op<V>>)
    ensures forall i :: 0 <= i < |WithoutCleanups(ops)| ==> !WithoutCleanups(ops)[i].Cleanup?
  {
    if ops != [] {
      NoCleanupsLeft(ops[..|ops| - 1]);
    }
  }

  lemma RecallSnoc<V>(ops: seq<Op<V>>, op: Op<V>, key: string, now: int)
    ensures Recall(ops + [op], key, now) ==
      if !Settles(op, key) then Recall(ops, key, now)
      else if op.Set? && now <= op.now + op.ttl then Some(op.value)
      else None
  {
    assert (ops + [op])[..|ops|] == ops;
  }

  lemma {:induction false} WithoutCleanupsSame<V>(ops: seq<Op<V>>, key: string, now: int)
    ensures Recall(WithoutCleanups(ops), key, now) == Recall(ops, key, now)
  {
    if ops != [] {
      var n := |ops| - 1;
      var rest, kept := ops[..n], WithoutCleanups(ops[..n]);
      WithoutCleanupsSame(rest, key, now);
      RecallSnoc(rest, ops[n], key, now);
      assert rest + [ops[n]] == ops;
      if ops[n].Cleanup? {
        assert kept + [] == kept;
      } else {
        RecallSnoc(kept, ops[n], key, now);
      }
    }
  }

  /** Clean-up passes are unobservable, with or without them a look-up finds the same, except exactly when one
      has read a clock past an expiry still to come; so not at all to look-ups that read the clock later. */
  lemma CleanupIsInvisibleIff<V>(ops: seq<Op<V>>, key: string, now: int)
    ensures Find(ApplyAll(ops), key, now) == Find(ApplyAll(WithoutCleanups(ops)), key, now)
       <==> !CleanedTooEarly(ops, key, now)
    ensures CleanedBefore(ops, now) ==>
      Find(ApplyAll(ops), key, now) == Find(ApplyAll(WithoutCleanups(ops)), key, now)
  {
    WithoutCleanupsSame(ops, key, now);
    NoCleanupsLeft(ops);
    CacheRefinesHistoryIff(ops, key, now);
    CacheRefinesHistory(WithoutCleanups(ops), key, now);
  }

  /** The exception is real where the clock runs back: a clean-up at a later reading loses a value still
      alive at an earlier one. */
  lemma CleanupShowsIfTimeRunsBack<V>(value: V)
    ensures var ops := [Set("k", value, 10, 0), Cleanup(11)];
      Find(ApplyAll(ops), "k", 5) == None && Recall(ops, "k", 5) == Some(value)
  {
    var ops := [Set("k", value, 10, 0), Cleanup(11)];
    assert ops[..1] == [Set("k", value, 10, 0)] && ops[..1][..0] == [];
    assert ApplyAll(ops[..1]) == Apply(map[], ops[0]);
    assert Recall(ops[..1], "k", 5) == Some(value);
  }

  // ---- The object ----

  /** The keys a look-up at `now` finds. */
  function Alive<V>(data: Store<V>, now: int): set<string> {
    set key | key in data && Find(data, key, now).Some?
  }

  lemma AliveCounts<V>(data: Store<V>, now: int)
    ensures |Alive(data, now)| <= |data|
    ensures |Alive(data, now)| == |data| <==> forall key :: key in data ==> !Expired(data[key], now)
  {
    assert |data| == |data.Keys|;
    SubsetSize(Alive(data, now), data.Keys);
    if forall key :: key in data ==> !Expired(data[key], now) {
      assert Alive(data, now) == data.Keys;
    } else {
      var key :| key in data && Expired(data[key], now);
      assert key !in Alive(data, now) && key in data.Keys;
    }
  }

  lemma SubsetSize(a: set<string>, b: set<string>)
    requires a <= b
    ensures |a| <= |b| && (|a| == |b| ==> a == b)
  {
    assert b == a + (b - a);
  }

  class MemoryCache<V> {
    var data: Store<V>
    ghost var history: seq<Op<V>>

    ghost predicate Valid()
      reads this
    {
      data == ApplyAll(history)
    }

    constructor ()
      ensures Valid() && history == []
    {
      data, history := map[], [];
    }

    method Get(key: string, now: int) returns (found: Option<V>)
      requires Valid()
      ensures found == Find(data, key, now)
      ensures found == Recall(history, key, now) <==> !CleanedTooEarly(history, key, now)
      ensures CleanedBefore(history, now) ==> found == Recall(history, key, now)
    {
      CacheRefinesHistoryIff(history, key, now);
      if CleanedBefore(history, now) {
        CacheRefinesHistory(history, key, now);
      }
      if key !in data {
        return None;
      }
      if now > data[key].expiresAt {
        return None;
      }
      return Some(data[key].value);
    }

    method Set(key: string, value: V, ttl: int, now: int) returns (ok: bool)
      requires Valid()
      modifies this
      ensures Valid() && history == old(history) + [Op.Set(key, value, ttl, now)]
      ensures ok <==> ttl > 0
      ensures data == Apply(old(data), Op.Set(key, value, ttl, now))
    {
      history := history + [Op.Set(key, value, ttl, now)];
      assert history[..|history| - 1] == old(history);
      if ttl <= 0 {
        return false;
      }
      data := data[key := Entry(value, now + ttl)];
      return true;
    }

    method Delete(key: string, ghost now: int)
      requires Valid()
      modifies this
      ensures Valid() && history == old(history) + [Op.Delete(key, now)]
      ensures data == old(data) - {key}
    {
      history := history + [Op.Delete(key, now)];
      assert history[..|history| - 1] == old(history);
      data := data - {key};
    }

    /** One pass of the cleanup routine. */
    method CleanupExpired(now: int)
      requires Valid()
      modifies this
      ensures Valid() && history == old(history) + [Cleanup(now)]
      ensures data == Apply(old(data), Cleanup(now))
      ensures forall key, later :: now <= later ==> Find(data, key, later) == Find(old(data), key, later)
      ensures forall key :: key in data ==> !Expired(data[key], now)
    {
      var keys := data.Keys;
      while keys != {}
        invariant keys <= old(data).Keys && history == old(history)
        invariant forall key :: key in data ==> key in old(data) && data[key] == old(data)[key]
        invariant forall key :: key in old(data) ==>
          (key in data <==> key in keys || !Expired(old(data)[key], now))
        decreases keys
      {
        var key :| key in keys;
        keys := keys - {key};
        if now > data[key].expiresAt {
          data := data - {key};
        }
      }
      history := history + [Cleanup(now)];
      assert history[..|history| - 1] == old(history);
      assert data == Apply(old(data), Cleanup(now));
    }

    /** At least as many keys as look-ups find, and exactly as many when nothing has expired, as right after a
        clean-up. */
    method Size() returns (n: nat)
      ensures forall now :: |Alive(data, now)| <= n
      ensures forall now :: n == |Alive(data, now)| <==> forall key :: key in data ==> !Expired(data[key], now)
    {
      forall now
        ensures |Alive(data, now)| <= |data|
        ensures |data| == |Alive(data, now)| <==> forall key :: key in data ==> !Expired(data[key], now)
      {
        AliveCounts(data, now);
      }
      return |data|;
    }
  }
}
