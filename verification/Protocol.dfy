/** Any number of limiter calls in progress at once. Each bucket has its own lock, so a call is a
    sequence of small steps, and the steps of different calls interleave freely. */
module Protocol {
  import opened Credits
  import opened Buckets

  /** Where a call stands. `bucket` and `candidate` are indices into the heap of client buckets. */
  datatype Call =
    | Arrived(ip: string)                     // about to ask the global bucket
    | Charged(ip: string)                     // holds a global token; about to look up its bucket
    | Missed(ip: string)                      // found none; about to create a candidate
    | Candidate(ip: string, candidate: nat)   // about to publish it, unless somebody else has
    | Looking(ip: string, bucket: nat)        // about to ask its client bucket
    | Refused(ip: string)                     // about to hand the global token back
    | Answered(ip: string, allowed: bool)

  /** A client bucket, with the clock reading it was created with, the call that created it and the
      client it was created for. */
  datatype Slot = Slot(born: int, maker: nat, ip: string, bucket: Bucket)

  datatype State = State(
    clock: int,
    global: Bucket,
    heap: seq<Slot>,
    table: map<string, nat>,
    calls: map<nat, Call>,
    ipCapacity: int,
    ipRate: int)

  datatype Action =
    | Tick(now: int)
    | Arrive(call: nat, ip: string)
    | TakeGlobal(call: nat)
    | Load(call: nat)
    | Create(call: nat)
    | LoadOrStore(call: nat)
    | TakeClient(call: nat)
    | GiveBack(call: nat)

  function Start(globalCapacity: int, globalRate: int, ipCapacity: int, ipRate: int, now: int): State {
    State(now, NewBucket(globalCapacity, globalRate, now), [], map[], map[], ipCapacity, ipRate)
  }

  predicate Enabled(s: State, a: Action) {
    match a
    case Tick(now) => s.clock <= now
    case Arrive(c, _) => c !in s.calls
    case TakeGlobal(c) => c in s.calls && s.calls[c].Arrived?
    case Load(c) => c in s.calls && s.calls[c].Charged?
    case Create(c) => c in s.calls && s.calls[c].Missed?
    case LoadOrStore(c) => c in s.calls && s.calls[c].Candidate?
    case TakeClient(c) => c in s.calls && s.calls[c].Looking? && s.calls[c].bucket < |s.heap|
    case GiveBack(c) => c in s.calls && s.calls[c].Refused?
  }

  function Next(s: State, a: Action): State
    requires Enabled(s, a)
  {
    match a
    case Tick(now) => s.(clock := now)
    case Arrive(c, ip) => s.(calls := s.calls[c := Arrived(ip)])
    case TakeGlobal(c) =>
      var t := Take(s.global, s.clock);
      var ip := s.calls[c].ip;
      s.(global := t.bucket, calls := s.calls[c := if t.granted then Charged(ip) else Answered(ip, false)])
    case Load(c) =>
      var ip := s.calls[c].ip;
      s.(calls := s.calls[c := if ip in s.table then Looking(ip, s.table[ip]) else Missed(ip)])
    case Create(c) =>
      var ip := s.calls[c].ip;
      var slot := Slot(s.clock, c, ip, NewBucket(s.ipCapacity, s.ipRate, s.clock));
      s.(heap := s.heap + [slot], calls := s.calls[c := Candidate(ip, |s.heap|)])
    case LoadOrStore(c) =>
      var ip := s.calls[c].ip;
      if ip in s.table then s.(calls := s.calls[c := Looking(ip, s.table[ip])])
      else
        var id := s.calls[c].candidate;
        s.(table := s.table[ip := id], calls := s.calls[c := Looking(ip, id)])
    case TakeClient(c) =>
      var ip, id := s.calls[c].ip, s.calls[c].bucket;
      var t := Take(s.heap[id].bucket, s.clock);
      s.(heap := s.heap[id := s.heap[id].(bucket := t.bucket)],
         calls := s.calls[c := if t.granted then Answered(ip, true) else Refused(ip)])
    case GiveBack(c) =>
      s.(global := Returned(s.global), calls := s.calls[c := Answered(s.calls[c].ip, false)])
  }

  predicate Runs(s: State, run: seq<Action>)
    decreases |run|
  {
    run == [] || (Enabled(s, run[0]) && Runs(Next(s, run[0]), run[1..]))
  }

  function End(s: State, run: seq<Action>): State
    requires Runs(s, run)
    decreases |run|
  {
    if run == [] then s else End(Next(s, run[0]), run[1..])
  }

  // ---- Counting calls ----

  function Where(calls: map<nat, Call>, p: Call -> bool): set<nat> {
    set c | c in calls && p(calls[c])
  }

  /** Calls holding a global token whose fate is open. */
  predicate Holding(call: Call) {
    call.Charged? || call.Missed? || call.Candidate? || call.Looking? || call.Refused?
  }

  predicate Admitted(call: Call) {
    call.Answered? && call.allowed
  }

  function AdmittedFor(ip: string): Call -> bool {
    (call: Call) => call.Answered? && call.allowed && call.ip == ip
  }

  function HeldTokens(s: State): nat { |Where(s.calls, Holding)| }
  function Admissions(s: State): nat { |Where(s.calls, Admitted)| }
  function AdmissionsFor(s: State, ip: string): nat { |Where(s.calls, AdmittedFor(ip))| }

  function One(b: bool): nat {
    if b then 1 else 0
  }

  lemma SizeWithout(all: set<nat>, c: nat)
    ensures |all| == |all - {c}| + One(c in all)
  {
    if c in all {
      assert all == (all - {c}) + {c};
    } else {
      assert all == all - {c};
    }
  }

  lemma CountUpdate(calls: map<nat, Call>, c: nat, to: Call, p: Call -> bool)
    ensures |Where(calls[c := to], p)| == |Where(calls, p)| - One(c in calls && p(calls[c])) + One(p(to))
  {
    var before, after := Where(calls, p), Where(calls[c := to], p);
    forall d
      ensures d in after - {c} <==> d in before - {c}
    {
    }
    assert after - {c} == before - {c};
    SizeWithout(before, c);
    SizeWithout(after, c);
  }

  lemma CountStep(s: State, a: Action, ip: string)
    requires Enabled(s, a) && !a.Tick?
    ensures var was := if a.call in s.calls then s.calls[a.call] else Arrived("");
      var became := Next(s, a).calls[a.call];
      && HeldTokens(Next(s, a)) == HeldTokens(s) - One(Holding(was)) + One(Holding(became))
      && Admissions(Next(s, a)) == Admissions(s) - One(Admitted(was)) + One(Admitted(became))
      && AdmissionsFor(Next(s, a), ip) == AdmissionsFor(s, ip) - One(AdmittedFor(ip)(was)) + One(AdmittedFor(ip)(became))
  {
    var became := Next(s, a).calls[a.call];
    CountUpdate(s.calls, a.call, became, Holding);
    CountUpdate(s.calls, a.call, became, Admitted);
    CountUpdate(s.calls, a.call, became, AdmittedFor(ip));
  }

  // ---- What every step keeps ----

  predicate Published(s: State, id: nat)
    requires id < |s.heap|
  {
    s.heap[id].ip in s.table && s.table[s.heap[id].ip] == id
  }

  predicate Pristine(s: State, slot: Slot) {
    slot.bucket == NewBucket(s.ipCapacity, s.ipRate, slot.born)
  }

  /** A bucket is in range, its clock lies between its creation and now, and nobody has asked it before
      it was published. */
  predicate SlotOk(s: State, id: nat)
    requires id < |s.heap|
  {
    var slot := s.heap[id];
    && InRange(slot.bucket) && slot.bucket.capacity == s.ipCapacity && slot.bucket.rate == s.ipRate
    && slot.born <= slot.bucket.last <= s.clock
    && (Published(s, id) || Pristine(s, slot))
  }

  /** A published bucket was made for its client, by a call that has moved on since. */
  predicate EntryOk(s: State, ip: string, id: nat) {
    && id < |s.heap| && s.heap[id].ip == ip && s.heap[id].maker in s.calls
    && var maker := s.calls[s.heap[id].maker]; maker.Looking? || maker.Refused? || maker.Answered?
  }

  /** A candidate is its maker's own and nobody else's; a bucket being asked is its client's published one. */
  predicate CallOk(s: State, c: nat, call: Call) {
    && (call.Candidate? ==>
      && call.candidate < |s.heap|
      && var slot := s.heap[call.candidate];
        slot.maker == c && slot.ip == call.ip && Pristine(s, slot))
    && (call.Looking? ==> call.ip in s.table && call.bucket == s.table[call.ip])
  }

  ghost predicate Sound(s: State) {
    && InRange(s.global) && s.global.last <= s.clock
    && (forall id :: 0 <= id < |s.heap| ==> SlotOk(s, id))
    && (forall ip :: ip in s.table ==> EntryOk(s, ip, s.table[ip]))
    && (forall c :: c in s.calls ==> CallOk(s, c, s.calls[c]))
  }

  lemma StartSound(globalCapacity: int, globalRate: int, ipCapacity: int, ipRate: int, now: int)
    ensures Sound(Start(globalCapacity, globalRate, ipCapacity, ipRate, now))
  {
  }

  lemma StepKeepsBuckets(s: State, a: Action)
    requires Sound(s) && Enabled(s, a)
    ensures var n := Next(s, a);
      && InRange(n.global) && n.global.last <= n.clock
      && (forall id :: 0 <= id < |n.heap| ==> SlotOk(n, id))
  {
    RangeKept(s.global, s.clock);
    TakeMovesClock(s.global, s.clock);
    if a.TakeClient? {
      var actor := s.calls[a.call];
      assert CallOk(s, a.call, actor) && EntryOk(s, actor.ip, actor.bucket) && SlotOk(s, actor.bucket);
      RangeKept(s.heap[actor.bucket].bucket, s.clock);
      TakeMovesClock(s.heap[actor.bucket].bucket, s.clock);
    }
    forall id | 0 <= id < |Next(s, a).heap|
      ensures SlotOk(Next(s, a), id)
    {
      if id < |s.heap| {
        assert SlotOk(s, id);
      }
    }
  }

  lemma StepKeepsTable(s: State, a: Action)
    requires Sound(s) && Enabled(s, a)
    ensures var n := Next(s, a); forall ip :: ip in n.table ==> EntryOk(n, ip, n.table[ip])
  {
    forall ip | ip in Next(s, a).table
      ensures EntryOk(Next(s, a), ip, Next(s, a).table[ip])
    {
      if ip in s.table {
        assert EntryOk(s, ip, s.table[ip]);
      }
    }
  }

  lemma StepKeepsCalls(s: State, a: Action)
    requires Sound(s) && Enabled(s, a)
    ensures var n := Next(s, a); forall c :: c in n.calls ==> CallOk(n, c, n.calls[c])
  {
    var n := Next(s, a);
    forall c | c in n.calls
      ensures CallOk(n, c, n.calls[c])
    {
      if c in s.calls {
        assert CallOk(s, c, s.calls[c]);
      }
      if a.TakeClient? {
        var actor := s.calls[a.call];
        assert CallOk(s, a.call, actor) && EntryOk(s, actor.ip, actor.bucket);
      }
    }
  }

  lemma StepSound(s: State, a: Action)
    requires Sound(s) && Enabled(s, a)
    ensures Sound(Next(s, a))
  {
    StepKeepsBuckets(s, a);
    StepKeepsTable(s, a);
    StepKeepsCalls(s, a);
  }

  // ---- Whole runs and windows of runs ----

  /** What a later state `s` of a run has in common with an earlier one `w`: published buckets stay
      published, and buckets created since are no older than `w`. */
  ghost predicate Follows(w: State, s: State) {
    && w.clock <= s.clock && w.ipCapacity == s.ipCapacity && w.ipRate == s.ipRate
    && |w.heap| <= |s.heap|
    && (forall id :: 0 <= id < |w.heap| ==> SameSlot(w.heap[id], s.heap[id]))
    && (forall id :: |w.heap| <= id < |s.heap| ==> w.clock <= s.heap[id].born)
    && (forall ip :: ip in w.table ==> ip in s.table && s.table[ip] == w.table[ip])
  }

  predicate SameSlot(a: Slot, b: Slot) {
    a.born == b.born && a.maker == b.maker && a.ip == b.ip
  }

  lemma StepFollows(w: State, s: State, a: Action)
    requires Sound(s) && Enabled(s, a) && Follows(w, s)
    ensures Follows(w, Next(s, a))
  {
    if a.TakeClient? {
      assert forall id :: 0 <= id < |s.heap| ==> SameSlot(s.heap[id], Next(s, a).heap[id]);
    }
  }

  /** The global bucket's account since `w`: tokens out are those held by calls and those spent. */
  ghost predicate GlobalAccount(w: State, s: State) {
    Account(w.global, w.clock, HeldTokens(w), s.global, HeldTokens(s) + Admissions(s) - Admissions(w))
  }

  lemma StepGlobalAccount(w: State, s: State, a: Action)
    requires Sound(s) && Enabled(s, a) && Follows(w, s) && GlobalAccount(w, s)
    ensures GlobalAccount(w, Next(s, a))
  {
    var net := HeldTokens(s) + Admissions(s) - Admissions(w);
    if !a.Tick? {
      CountStep(s, a, "");
    }
    if a.TakeGlobal? {
      AccountTake(w.global, w.clock, HeldTokens(w), s.global, net, s.clock);
    } else if a.GiveBack? {
      AccountReturn(w.global, w.clock, HeldTokens(w), s.global, net);
    }
  }

  /** How a client's bucket stood when the window opened at `w`, or when it was created if that was later. */
  function Opening(w: State, s: State, id: nat): (Bucket, int)
    requires id < |s.heap|
  {
    if id < |w.heap| then (w.heap[id].bucket, w.clock)
    else (NewBucket(s.ipCapacity, s.ipRate, s.heap[id].born), s.heap[id].born)
  }

  /** A client's account since `w`. Nobody is admitted for a client before a bucket is published for it. */
  ghost predicate ClientAccount(w: State, s: State, ip: string) {
    var net := AdmissionsFor(s, ip) - AdmissionsFor(w, ip);
    if ip in s.table then
      && s.table[ip] < |s.heap|
      && var (b0, open) := Opening(w, s, s.table[ip]); Account(b0, open, 0, s.heap[s.table[ip]].bucket, net)
    else net == 0
  }

  lemma PublishOpensAccount(w: State, s: State, a: Action)
    requires Sound(w) && Sound(s) && Enabled(s, a) && Follows(w, s)
    requires s.ipCapacity >= 0 && s.ipRate >= 0
    requires a.LoadOrStore? && s.calls[a.call].ip !in s.table
    requires ClientAccount(w, s, s.calls[a.call].ip)
    ensures ClientAccount(w, Next(s, a), s.calls[a.call].ip)
  {
    var call := s.calls[a.call];
    var id := call.candidate;
    assert CallOk(s, a.call, call) && SlotOk(s, id);
    CountStep(s, a, call.ip);
    var (b0, open) := Opening(w, s, id);
    if id < |w.heap| {
      assert SlotOk(w, id) && SameSlot(w.heap[id], s.heap[id]);
    }
    AccountOpens(b0, open, 0);
  }

  lemma TakeClientAccount(w: State, s: State, a: Action)
    requires Enabled(s, a) && a.TakeClient? && w.clock <= s.clock && ClientAccount(w, s, s.calls[a.call].ip)
    requires CallOk(s, a.call, s.calls[a.call]) && SlotOk(s, s.calls[a.call].bucket)
    ensures ClientAccount(w, Next(s, a), s.calls[a.call].ip)
  {
    var call := s.calls[a.call];
    CountStep(s, a, call.ip);
    var (b0, open) := Opening(w, s, call.bucket);
    AccountTake(b0, open, 0, s.heap[call.bucket].bucket, AdmissionsFor(s, call.ip) - AdmissionsFor(w, call.ip), s.clock);
  }

  /** A step that is not about `ip` leaves its bucket and its admissions alone. */
  lemma OtherClientsUntouched(s: State, a: Action, ip: string)
    requires Sound(s) && Enabled(s, a) && !a.Tick?
    requires a.TakeClient? || (a.LoadOrStore? && s.calls[a.call].ip !in s.table) ==> s.calls[a.call].ip != ip
    ensures var n := Next(s, a);
      && AdmissionsFor(n, ip) == AdmissionsFor(s, ip)
      && (ip in n.table <==> ip in s.table)
      && (ip in s.table ==> n.table[ip] == s.table[ip] < |s.heap| && n.heap[s.table[ip]] == s.heap[s.table[ip]])
  {
    CountStep(s, a, ip);
    if ip in s.table {
      assert EntryOk(s, ip, s.table[ip]);
    }
    if a.TakeClient? {
      var call := s.calls[a.call];
      assert CallOk(s, a.call, call) && EntryOk(s, call.ip, call.bucket);
    }
  }

  lemma AccountCarriesOver(w: State, s: State, n: State, ip: string)
    requires ClientAccount(w, s, ip) && AdmissionsFor(n, ip) == AdmissionsFor(s, ip)
    requires n.ipCapacity == s.ipCapacity && n.ipRate == s.ipRate
    requires ip in n.table <==> ip in s.table
    requires ip in s.table ==>
      n.table[ip] == s.table[ip] < |s.heap| <= |n.heap| && n.heap[s.table[ip]] == s.heap[s.table[ip]]
    ensures ClientAccount(w, n, ip)
  {
  }

  lemma StepClientAccount(w: State, s: State, a: Action, ip: string)
    requires Sound(w) && Sound(s) && Enabled(s, a) && Follows(w, s) && ClientAccount(w, s, ip)
    requires s.ipCapacity >= 0 && s.ipRate >= 0
    ensures ClientAccount(w, Next(s, a), ip)
  {
    if a.TakeClient? && s.calls[a.call].ip == ip {
      assert CallOk(s, a.call, s.calls[a.call]) && SlotOk(s, s.calls[a.call].bucket);
      TakeClientAccount(w, s, a);
    } else if a.LoadOrStore? && s.calls[a.call].ip == ip && ip !in s.table {
      PublishOpensAccount(w, s, a);
    } else {
      if !a.Tick? {
        OtherClientsUntouched(s, a, ip);
      }
      AccountCarriesOver(w, s, Next(s, a), ip);
    }
  }

  lemma AccountsOpen(w: State, ip: string)
    requires Sound(w) && w.global.capacity >= 0 && w.global.rate >= 0 && w.ipCapacity >= 0 && w.ipRate >= 0
    ensures Follows(w, w) && GlobalAccount(w, w) && ClientAccount(w, w, ip)
  {
    AccountOpens(w.global, w.clock, HeldTokens(w));
    if ip in w.table {
      assert EntryOk(w, ip, w.table[ip]) && SlotOk(w, w.table[ip]);
      AccountOpens(w.heap[w.table[ip]].bucket, w.clock, 0);
    }
  }

  lemma {:induction false} RunKeeps(w: State, s: State, run: seq<Action>, ip: string)
    requires Sound(w) && Sound(s) && Runs(s, run) && s.ipCapacity >= 0 && s.ipRate >= 0
    requires Follows(w, s) && GlobalAccount(w, s) && ClientAccount(w, s, ip)
    ensures var e := End(s, run); Sound(e) && Follows(w, e) && GlobalAccount(w, e) && ClientAccount(w, e, ip)
    decreases |run|
  {
    if run != [] {
      StepSound(s, run[0]);
      StepFollows(w, s, run[0]);
      StepGlobalAccount(w, s, run[0]);
      StepClientAccount(w, s, run[0], ip);
      RunKeeps(w, Next(s, run[0]), run[1..], ip);
    }
  }

  /** A limiter with sensible parameters, freshly started. */
  predicate Fresh(s: State) {
    && s == Start(s.global.capacity, s.global.rate, s.ipCapacity, s.ipRate, s.clock)
    && s.global.capacity >= 0 && s.global.rate >= 0 && s.ipCapacity >= 0 && s.ipRate >= 0
  }

  /** The accounts of the window from `before` to the end of `window`. */
  lemma WindowAccounts(start: State, before: seq<Action>, window: seq<Action>, ip: string)
    requires Fresh(start) && Runs(start, before) && Runs(End(start, before), window)
    ensures var w, e := End(start, before), End(End(start, before), window);
      && Sound(w) && Sound(e) && Follows(w, e) && GlobalAccount(w, e) && ClientAccount(w, e, ip)
      && w.global.capacity == start.global.capacity && w.global.rate == start.global.rate
      && e.ipCapacity == start.ipCapacity && e.ipRate == start.ipRate
  {
    AccountsOpen(start, ip);
    RunKeeps(start, start, before, ip);
    AccountsOpen(End(start, before), ip);
    RunKeeps(End(start, before), End(start, before), window, ip);
  }

  /** Conservation, in every state of every interleaving: tokens in the global bucket, tokens in the hands
      of unfinished calls and tokens spent on admissions never exceed the capacity plus what the time up to
      the last refill was worth; although refunds race with refills, and may be cut off at the capacity. */
  lemma Conservation(start: State, run: seq<Action>)
    requires Fresh(start) && Runs(start, run)
    ensures var e := End(start, run);
      && 0 <= e.global.tokens <= e.global.capacity == start.global.capacity
      && e.global.tokens + HeldTokens(e) + Admissions(e)
           <= start.global.capacity + Credit(start.global.rate, e.global.last - start.clock)
      && Admissions(e) <= start.global.capacity + Credit(start.global.rate, e.clock - start.clock)
  {
    AccountsOpen(start, "");
    RunKeeps(start, start, run, "");
    var e := End(start, run);
    assert Where(start.calls, Holding) == {} && Where(start.calls, Admitted) == {};
    assert (start.clock - start.global.last) * start.global.rate == 0;
    AccountBounds(start.global, start.clock, 0, e.global, HeldTokens(e) + Admissions(e), e.clock);
  }

  /** Sliding window over interleaved runs: from any reachable state on, admissions number at most what the
      global bucket holds once refilled, the window's worth of tokens rounded up, and the calls already
      holding a token. Those calls need no counting if the bucket has room for their tokens. */
  lemma AdmissionWindow(start: State, before: seq<Action>, window: seq<Action>)
    requires Fresh(start) && Runs(start, before) && Runs(End(start, before), window)
    ensures var w, e := End(start, before), End(End(start, before), window);
      var stock, worth := Refilled(w.global, w.clock).tokens, CeilingCredit(start.global.rate, e.clock - w.clock);
      && stock <= start.global.capacity
      && Admissions(e) - Admissions(w) + HeldTokens(e) <= stock + worth + HeldTokens(w)
      && (stock + HeldTokens(w) <= start.global.capacity ==>
        Admissions(e) - Admissions(w) <= start.global.capacity + worth)
  {
    WindowAccounts(start, before, window, "");
    var w, e := End(start, before), End(End(start, before), window);
    AccountBounds(w.global, w.clock, HeldTokens(w), e.global, HeldTokens(e) + Admissions(e) - Admissions(w), e.clock);
  }

  lemma ClientAccountBounds(w: State, e: State, ip: string)
    requires Sound(e) && Follows(w, e) && ClientAccount(w, e, ip) && e.ipCapacity >= 0 && e.ipRate >= 0
    ensures AdmissionsFor(e, ip) - AdmissionsFor(w, ip) <= e.ipCapacity + CeilingCredit(e.ipRate, e.clock - w.clock)
    ensures ip in e.table && |w.heap| <= e.table[ip] < |e.heap| ==>
      AdmissionsFor(e, ip) - AdmissionsFor(w, ip)
        <= e.ipCapacity + Credit(e.ipRate, e.clock - e.heap[e.table[ip]].born)
  {
    CeilingMonotone(e.ipRate, 0, e.clock - w.clock);
    if ip in e.table {
      var id := e.table[ip];
      assert SlotOk(e, id);
      var (b0, open) := Opening(w, e, id);
      AccountBounds(b0, open, 0, e.heap[id].bucket, AdmissionsFor(e, ip) - AdmissionsFor(w, ip), e.clock);
      CeilingMonotone(e.ipRate, e.clock - open, e.clock - w.clock);
    }
  }

  /** Racing first requests share one bucket: however many calls created one for `ip`, all that ever ask one
      ask the one in the table, and it is never replaced. */
  lemma OneBucketPerClient(start: State, before: seq<Action>, after: seq<Action>, c: nat)
    requires Fresh(start) && Runs(start, before) && Runs(End(start, before), after)
    requires c in End(start, before).calls && End(start, before).calls[c].Looking?
    ensures var w, e := End(start, before), End(End(start, before), after);
      w.calls[c].ip in e.table && w.calls[c].bucket == e.table[w.calls[c].ip]
  {
    WindowAccounts(start, before, after, "");
    var w := End(start, before);
    assert CallOk(w, c, w.calls[c]);
  }

  predicate ClientCovered(s: State, ip: string, since: int) {
    if ip in s.table then
      && s.table[ip] < |s.heap|
      && var born := s.heap[s.table[ip]].born;
        since <= born <= s.clock && AdmissionsFor(s, ip) <= s.ipCapacity + Credit(s.ipRate, s.clock - born)
    else AdmissionsFor(s, ip) == 0
  }

  lemma AccountCovers(start: State, e: State, ip: string)
    requires Sound(e) && Follows(start, e) && ClientAccount(start, e, ip) && e.ipCapacity >= 0 && e.ipRate >= 0
    requires start.heap == [] && AdmissionsFor(start, ip) == 0
    ensures ClientCovered(e, ip, start.clock)
  {
    if ip in e.table {
      assert EntryOk(e, ip, e.table[ip]) && SlotOk(e, e.table[ip]);
      ClientAccountBounds(start, e, ip);
    }
  }

  /** So the client's admissions since its bucket's creation are covered by its own capacity and rate alone,
      and it has none before. */
  lemma ClientConservation(start: State, run: seq<Action>, ip: string)
    requires Fresh(start) && Runs(start, run)
    ensures ClientCovered(End(start, run), ip, start.clock)
    ensures End(start, run).ipCapacity == start.ipCapacity && End(start, run).ipRate == start.ipRate
  {
    AccountsOpen(start, ip);
    RunKeeps(start, start, run, ip);
    assert Where(start.calls, AdmittedFor(ip)) == {};
    AccountCovers(start, End(start, run), ip);
  }

  /** And in any window of a run each client gets at most its capacity and the window's worth. */
  lemma ClientWindow(start: State, before: seq<Action>, window: seq<Action>, ip: string)
    requires Fresh(start) && Runs(start, before) && Runs(End(start, before), window)
    ensures var w, e := End(start, before), End(End(start, before), window);
      && AdmissionsFor(e, ip) - AdmissionsFor(w, ip) <= start.ipCapacity + CeilingCredit(start.ipRate, e.clock - w.clock)
      && (ip in w.table ==> ip in e.table && e.table[ip] == w.table[ip])
  {
    WindowAccounts(start, before, window, ip);
    ClientAccountBounds(End(start, before), End(End(start, before), window), ip);
  }
}
