/** When the tokens held as a window opens can be left out of the bound on its admissions. From every
    state the bound that counts them is attained, without letting any time pass: newcomers are admitted
    while the global bucket has tokens, and when it has none some call holding one takes a step, and
    is admitted or hands its token back for the next newcomer. */
module Windows {
  import opened Credits
  import opened Buckets
  import opened Protocol
  import opened Schedules

  ghost predicate Reaches(s: State, e: State) {
    exists run :: Runs(s, run) && End(s, run) == e
  }

  lemma ReachesItself(s: State)
    ensures Reaches(s, s)
  {
    assert Runs(s, []) && End(s, []) == s;
  }

  lemma StepThenReaches(s: State, a: Action, e: State)
    requires Enabled(s, a) && Reaches(Next(s, a), e)
    ensures Reaches(s, e)
  {
    var rest :| Runs(Next(s, a), rest) && End(Next(s, a), rest) == e;
    var run := [a] + rest;
    assert run[0] == a && run[1..] == rest;
    assert Runs(s, run) && End(s, run) == e;
  }

  lemma {:induction false} ReachesOn(s: State, run: seq<Action>, e: State)
    requires Runs(s, run) && Reaches(End(s, run), e)
    ensures Reaches(s, e)
    decreases |run|
  {
    if run != [] {
      ReachesOn(Next(s, run[0]), run[1..], e);
      StepThenReaches(s, run[0], e);
    }
  }

  lemma LeadsThenReaches(s: State, m: State, e: State, who: set<nat>)
    requires Leads(s, m, who) && Reaches(m, e)
    ensures Reaches(s, e)
  {
    var run :| Runs(s, run) && OnlyBy(run, who) && End(s, run) == m;
    ReachesOn(s, run, e);
  }

  // ---- What is there to be handed out ----

  /** What the global bucket holds once refilled. */
  function Stock(s: State): int {
    Refilled(s.global, s.clock).tokens
  }

  /** Calls still to take at least `k` steps before they can be sure to hold no token. */
  function StepsAway(k: nat): Call -> bool {
    (call: Call) => StepsOf(call) >= k
  }

  function StepsOf(call: Call): nat {
    match call
    case Charged(_) => 5
    case Missed(_) => 4
    case Candidate(_, _) => 3
    case Looking(_, _) => 2
    case Refused(_) => 1
    case _ => 0
  }

  /** The steps of all holding calls together. */
  function StepsLeft(s: State): nat {
    |Where(s.calls, StepsAway(1))| + |Where(s.calls, StepsAway(2))| + |Where(s.calls, StepsAway(3))|
    + |Where(s.calls, StepsAway(4))| + |Where(s.calls, StepsAway(5))|
  }

  lemma StepsUpdate(s: State, n: State, c: nat, to: Call)
    requires c in s.calls && n.calls == s.calls[c := to]
    ensures StepsLeft(n) == StepsLeft(s) - StepsOf(s.calls[c]) + StepsOf(to)
  {
    CountUpdate(s.calls, c, to, StepsAway(1));
    CountUpdate(s.calls, c, to, StepsAway(2));
    CountUpdate(s.calls, c, to, StepsAway(3));
    CountUpdate(s.calls, c, to, StepsAway(4));
    CountUpdate(s.calls, c, to, StepsAway(5));
  }

  /** A state from which tokens can reach clients. */
  ghost predicate Open(s: State) {
    Sound(s) && s.ipCapacity >= 1 && s.global.capacity >= 1
  }

  lemma StockNonNegative(s: State)
    requires Open(s)
    ensures 0 <= Stock(s) <= s.global.capacity
    ensures Stock(s) == 0 ==> Refilled(s.global, s.clock) == s.global
  {
    RangeKept(s.global, s.clock);
  }

  // ---- Admitting a newcomer ----

  lemma {:induction false} FreshCall(used: set<nat>) returns (c: nat)
    ensures c !in used && forall d :: d in used ==> d < c
    decreases used
  {
    if used == {} {
      c := 0;
    } else {
      var d :| d in used;
      c := FreshCall(used - {d});
      if c <= d {
        c := d + 1;
      }
      assert forall e :: e in used ==> e == d || e in used - {d};
    }
  }

  function Name(n: nat): string {
    seq(n, _ => 'x')
  }

  lemma FreshClient(used: set<string>) returns (ip: string)
    ensures ip !in used
  {
    var n := FreshCall(set other | other in used :: |other|);
    ip := Name(n);
    assert forall name :: name in used ==> |name| in set other | other in used :: |other|;
  }

  /** Refilling once more at the same time changes nothing. */
  lemma TakeLowersStock(b: Bucket, now: int)
    requires InRange(b) && Refilled(b, now).tokens >= 1
    ensures Take(b, now).granted
    ensures Refilled(Take(b, now).bucket, now).tokens == Refilled(b, now).tokens - 1
  {
    assert Credit(b.rate, 0) == 0;
  }

  predicate CanAdmit(s: State, c: nat, ip: string) {
    c !in s.calls && ip !in s.table && Take(s.global, s.clock).granted && s.ipCapacity >= 1
  }

  /** A newcomer of a client not seen before, once it is charged, once it has made its bucket, and in the end. */
  function Newcomer(s: State, c: nat, ip: string): State {
    s.(global := Take(s.global, s.clock).bucket, calls := s.calls[c := Charged(ip)])
  }

  function Equipped(s: State, c: nat, ip: string): State {
    s.(global := Take(s.global, s.clock).bucket,
       heap := s.heap + [Slot(s.clock, c, ip, NewBucket(s.ipCapacity, s.ipRate, s.clock))],
       table := s.table[ip := |s.heap|],
       calls := s.calls[c := Looking(ip, |s.heap|)])
  }

  lemma NewcomerEnters(s: State, c: nat, ip: string)
    requires CanAdmit(s, c, ip)
    ensures Entered(s, c, ip, s.clock) == Newcomer(s, c, ip)
  {
  }

  lemma NewcomerIsEquipped(s: State, c: nat, ip: string)
    requires CanAdmit(s, c, ip)
    ensures Resolved(Newcomer(s, c, ip), c, s.clock) == Equipped(s, c, ip)
  {
  }

  function Admitting(s: State, c: nat, ip: string): State
    requires CanAdmit(s, c, ip)
  {
    Asked(Equipped(s, c, ip), c, s.clock)
  }

  lemma AdmittingMeans(s: State, c: nat, ip: string)
    requires CanAdmit(s, c, ip)
    ensures var e := Admitting(s, c, ip);
      && e.clock == s.clock && e.ipCapacity == s.ipCapacity && e.global == Take(s.global, s.clock).bucket
      && e.calls == s.calls[c := Answered(ip, true)]
  {
    assert Credit(s.ipRate, 0) == 0;
    var q := Equipped(s, c, ip);
    assert q.heap[|s.heap|].bucket == NewBucket(s.ipCapacity, s.ipRate, s.clock);
    assert Take(NewBucket(s.ipCapacity, s.ipRate, s.clock), s.clock).granted;
  }

  lemma AskedSound(s: State, c: nat, now: int)
    requires Sound(s) && CanAsk(s, c, now)
    ensures Sound(Asked(s, c, now))
  {
    var ticked := Next(s, Tick(now));
    var asked := Next(ticked, TakeClient(c));
    StepSound(s, Tick(now));
    StepSound(ticked, TakeClient(c));
    if asked.calls[c].Refused? {
      StepSound(asked, GiveBack(c));
    }
  }

  lemma AdmittingSound(s: State, c: nat, ip: string)
    requires Sound(s) && CanAdmit(s, c, ip)
    ensures Sound(Admitting(s, c, ip))
  {
    EnteredSound(s, c, ip, s.clock);
    NewcomerEnters(s, c, ip);
    ResolvedSound(Newcomer(s, c, ip), c, s.clock);
    NewcomerIsEquipped(s, c, ip);
    AskedSound(Equipped(s, c, ip), c, s.clock);
  }

  lemma AdmittingReaches(s: State, c: nat, ip: string, e: State)
    requires CanAdmit(s, c, ip) && Reaches(Admitting(s, c, ip), e)
    ensures Reaches(s, e)
  {
    var m := Admitting(s, c, ip);
    Stays(m, {c});
    AskedLeads(Equipped(s, c, ip), c, s.clock, m, {c});
    NewcomerIsEquipped(s, c, ip);
    ResolvedLeads(Newcomer(s, c, ip), c, s.clock, m, {c});
    NewcomerEnters(s, c, ip);
    EnteredLeads(s, c, ip, s.clock, m, {c});
    LeadsThenReaches(s, m, e, {c});
  }

  /** One more newcomer admitted, one token fewer in stock. */
  lemma AdmittingCounts(s: State, c: nat, ip: string)
    requires Open(s) && Stock(s) >= 1 && c !in s.calls && ip !in s.table
    ensures CanAdmit(s, c, ip)
    ensures var e := Admitting(s, c, ip);
      && Open(e) && e.clock == s.clock && Stock(e) == Stock(s) - 1
      && HeldTokens(e) == HeldTokens(s) && Admissions(e) == Admissions(s) + 1
  {
    TakeLowersStock(s.global, s.clock);
    AdmittingMeans(s, c, ip);
    AdmittingSound(s, c, ip);
    CountUpdate(s.calls, c, Answered(ip, true), Holding);
    CountUpdate(s.calls, c, Answered(ip, true), Admitted);
  }

  // ---- Moving a holder on ----

  /** The next step of a call that holds a token. */
  function Onward(s: State, c: nat): Action
    requires c in s.calls && Holding(s.calls[c])
  {
    match s.calls[c]
    case Charged(_) => Load(c)
    case Missed(_) => Create(c)
    case Candidate(_, _) => LoadOrStore(c)
    case Looking(_, _) => TakeClient(c)
    case Refused(_) => GiveBack(c)
  }

  lemma OnwardEnabled(s: State, c: nat)
    requires Sound(s) && c in s.calls && Holding(s.calls[c])
    ensures Enabled(s, Onward(s, c))
  {
    if s.calls[c].Looking? {
      assert CallOk(s, c, s.calls[c]) && EntryOk(s, s.calls[c].ip, s.calls[c].bucket);
    }
  }

  /** The step of a holder: it goes on holding its token, is admitted with it, or hands it back. */
  lemma OnwardMeans(s: State, c: nat)
    requires c in s.calls && Holding(s.calls[c]) && Enabled(s, Onward(s, c))
    ensures var n := Next(s, Onward(s, c));
      && c in n.calls && n.calls == s.calls[c := n.calls[c]]
      && n.clock == s.clock && n.ipCapacity == s.ipCapacity
      && StepsOf(n.calls[c]) < StepsOf(s.calls[c])
      && n.global == (if s.calls[c].Refused? then Returned(s.global) else s.global)
      && One(Holding(n.calls[c])) + One(Admitted(n.calls[c])) == One(!s.calls[c].Refused?)
  {
  }

  /** What a bucket found empty holds once it has got a token back. */
  lemma ReturnToEmpty(b: Bucket, now: int)
    requires InRange(b) && b.capacity >= 1 && Refilled(b, now).tokens == 0
    ensures Refilled(Returned(b), now).tokens == 1
  {
  }

  /** With nothing in stock, the step of a holder keeps what is to be handed out in all. */
  lemma OnwardCounts(s: State, c: nat)
    requires Open(s) && Stock(s) == 0 && c in s.calls && Holding(s.calls[c])
    ensures Enabled(s, Onward(s, c))
    ensures var n := Next(s, Onward(s, c));
      && Open(n) && n.clock == s.clock
      && Stock(n) + HeldTokens(n) + Admissions(n) == HeldTokens(s) + Admissions(s)
      && Stock(n) + HeldTokens(n) <= HeldTokens(s)
      && StepsLeft(n) < StepsLeft(s)
  {
    OnwardEnabled(s, c);
    OnwardMeans(s, c);
    var n := Next(s, Onward(s, c));
    StepSound(s, Onward(s, c));
    CountUpdate(s.calls, c, n.calls[c], Holding);
    CountUpdate(s.calls, c, n.calls[c], Admitted);
    StepsUpdate(s, n, c, n.calls[c]);
    ReturnToEmpty(s.global, s.clock);
  }

  lemma SomeHolder(s: State) returns (c: nat)
    requires HeldTokens(s) > 0
    ensures c in s.calls && Holding(s.calls[c])
  {
    c :| c in Where(s.calls, Holding);
  }

  /** The bound on the admissions of a window is attained from every state, in no time: everything in stock
      and everything held can be admitted. */
  lemma {:induction false} EverythingCanBeAdmitted(s: State) returns (e: State)
    requires Open(s)
    ensures Reaches(s, e) && e.clock == s.clock
    ensures Admissions(e) == Admissions(s) + Stock(s) + HeldTokens(s)
    decreases if Stock(s) + HeldTokens(s) >= 0 then Stock(s) + HeldTokens(s) else 0, StepsLeft(s)
  {
    StockNonNegative(s);
    if Stock(s) >= 1 {
      var c := FreshCall(s.calls.Keys);
      var ip := FreshClient(s.table.Keys);
      AdmittingCounts(s, c, ip);
      e := EverythingCanBeAdmitted(Admitting(s, c, ip));
      AdmittingReaches(s, c, ip, e);
    } else if HeldTokens(s) > 0 {
      var c := SomeHolder(s);
      OnwardCounts(s, c);
      e := EverythingCanBeAdmitted(Next(s, Onward(s, c)));
      StepThenReaches(s, Onward(s, c), e);
    } else {
      e := s;
      ReachesItself(s);
    }
  }

  // ---- When the plain bound holds ----

  /** No window that opens at `w` admits more than the capacity and the window's worth, rounded up. */
  ghost predicate PlainBound(w: State) {
    forall window :: Runs(w, window) ==>
      Admissions(End(w, window)) - Admissions(w)
        <= w.global.capacity + CeilingCredit(w.global.rate, End(w, window).clock - w.clock)
  }

  /** A bucket without room for a token gives none out. */
  ghost predicate Closed(s: State) {
    Sound(s) && (s.global.capacity == 0 || s.ipCapacity == 0)
  }

  lemma ClosedGrantsNothing(s: State, a: Action)
    requires Closed(s) && Enabled(s, a)
    ensures a.TakeGlobal? && s.global.capacity == 0 ==> !Take(s.global, s.clock).granted
    ensures a.TakeClient? && s.ipCapacity == 0 ==> !Take(s.heap[s.calls[a.call].bucket].bucket, s.clock).granted
  {
    if a.TakeClient? {
      var call := s.calls[a.call];
      assert CallOk(s, a.call, call) && EntryOk(s, call.ip, call.bucket) && SlotOk(s, call.bucket);
    }
  }

  lemma NoneHeld(s: State, c: nat)
    requires HeldTokens(s) == 0 && c in s.calls
    ensures !Holding(s.calls[c])
  {
    assert c !in Where(s.calls, Holding);
  }

  lemma ClosedStep(s: State, a: Action)
    requires Closed(s) && Enabled(s, a)
    ensures var n := Next(s, a);
      && n.global.capacity == s.global.capacity && n.ipCapacity == s.ipCapacity && s.clock <= n.clock
      && (s.ipCapacity == 0 ==> Admissions(n) == Admissions(s))
      && (s.global.capacity == 0 && HeldTokens(s) == 0 ==> HeldTokens(n) == 0)
  {
    ClosedGrantsNothing(s, a);
    if !a.Tick? {
      CountStep(s, a, "");
      if HeldTokens(s) == 0 && a.call in s.calls {
        NoneHeld(s, a.call);
      }
    }
  }

  lemma {:induction false} ClosedRun(s: State, run: seq<Action>)
    requires Closed(s) && Runs(s, run)
    ensures var e := End(s, run);
      && Sound(e) && s.clock <= e.clock
      && (s.ipCapacity == 0 ==> Admissions(e) == Admissions(s))
      && (s.global.capacity == 0 && HeldTokens(s) == 0 ==> HeldTokens(e) == 0)
    decreases |run|
  {
    if run != [] {
      StepSound(s, run[0]);
      ClosedStep(s, run[0]);
      ClosedRun(Next(s, run[0]), run[1..]);
    }
  }

  /** For every state a run of the limiter can reach, and so for every window of every run: the bound of
      AdmissionWindow is attained at once, unless a tier has no room for a token at all. */
  lemma AdmissionWindowIsAttained(start: State, before: seq<Action>)
    requires Fresh(start) && Runs(start, before) && start.global.capacity >= 1 && start.ipCapacity >= 1
    ensures var w := End(start, before);
      exists window :: Runs(w, window) && End(w, window).clock == w.clock
        && Admissions(End(w, window)) - Admissions(w) == Stock(w) + HeldTokens(w)
  {
    var w := End(start, before);
    WindowAccounts(start, before, [], "");
    var e := EverythingCanBeAdmitted(w);
    var window :| Runs(w, window) && End(w, window) == e;
  }

  lemma PlainBoundHolds(start: State, before: seq<Action>)
    requires Fresh(start) && Runs(start, before)
    requires start.ipCapacity == 0 || Stock(End(start, before)) + HeldTokens(End(start, before)) <= start.global.capacity
    ensures PlainBound(End(start, before))
  {
    var w := End(start, before);
    WindowAccounts(start, before, [], "");
    forall window | Runs(w, window)
      ensures Admissions(End(w, window)) - Admissions(w)
           <= w.global.capacity + CeilingCredit(w.global.rate, End(w, window).clock - w.clock)
    {
      if start.ipCapacity == 0 {
        ClosedRun(w, window);
        CeilingMonotone(w.global.rate, 0, End(w, window).clock - w.clock);
      } else {
        AdmissionWindow(start, before, window);
      }
    }
  }

  lemma PlainBoundFails(start: State, before: seq<Action>)
    requires Fresh(start) && Runs(start, before) && start.ipCapacity >= 1
    requires Stock(End(start, before)) + HeldTokens(End(start, before)) > start.global.capacity
    ensures !PlainBound(End(start, before))
  {
    var w := End(start, before);
    WindowAccounts(start, before, [], "");
    if start.global.capacity == 0 {
      assert Where(start.calls, Holding) == {};
      ClosedRun(start, before);
      RangeKept(w.global, w.clock);
      assert false;
    }
    AdmissionWindowIsAttained(start, before);
    var window :| Runs(w, window) && End(w, window).clock == w.clock
      && Admissions(End(w, window)) - Admissions(w) == Stock(w) + HeldTokens(w);
    assert CeilingCredit(w.global.rate, 0) == 0;
  }

  /** Exactly when a window's opening lets its admissions be bounded by the capacity and the window's worth:
      when the refilled bucket would have room for the tokens held, or clients never get any. */
  lemma PlainBoundIff(start: State, before: seq<Action>)
    requires Fresh(start) && Runs(start, before)
    ensures var w := End(start, before);
      PlainBound(w) <==> start.ipCapacity <= 0 || Stock(w) + HeldTokens(w) <= start.global.capacity
  {
    var w := End(start, before);
    if start.ipCapacity <= 0 || Stock(w) + HeldTokens(w) <= start.global.capacity {
      PlainBoundHolds(start, before);
    } else {
      PlainBoundFails(start, before);
    }
  }
}
