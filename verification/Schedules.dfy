/** How the interleaved protocol relates to calls made one at a time: a call that nobody disturbs is the
    sequential call. And why a window of a run has to count the tokens already held when it opens. */
module Schedules {
  import opened Credits
  import opened Buckets
  import opened Protocol
  import Limiters

  /** The limiter a state stands for: candidates that were never published are not part of it. */
  function Abstract(s: State): Limiters.Limiter
    requires forall ip :: ip in s.table ==> s.table[ip] < |s.heap|
  {
    Limiters.Limiter(s.global, map ip | ip in s.table :: s.heap[s.table[ip]].bucket, s.ipCapacity, s.ipRate)
  }

  /** Only the calls `who` take steps; time passes. */
  predicate OnlyBy(run: seq<Action>, who: set<nat>) {
    forall i :: 0 <= i < |run| ==> run[i].Tick? || run[i].call in who
  }

  ghost predicate Leads(s: State, e: State, who: set<nat>) {
    exists run :: Runs(s, run) && OnlyBy(run, who) && End(s, run) == e
  }

  lemma Stays(s: State, who: set<nat>)
    ensures Leads(s, s, who)
  {
    assert Runs(s, []) && OnlyBy([], who) && End(s, []) == s;
  }

  lemma First(s: State, a: Action, e: State, who: set<nat>)
    requires Enabled(s, a) && (a.Tick? || a.call in who) && Leads(Next(s, a), e, who)
    ensures Leads(s, e, who)
  {
    var run :| Runs(Next(s, a), run) && OnlyBy(run, who) && End(Next(s, a), run) == e;
    assert ([a] + run)[0] == a && ([a] + run)[1..] == run;
    assert Runs(s, [a] + run) && OnlyBy([a] + run, who) && End(s, [a] + run) == e;
  }

  // ---- The stages of an undisturbed call ----

  predicate CanAsk(s: State, c: nat, now: int) {
    s.clock <= now && c in s.calls && s.calls[c].Looking? && s.calls[c].bucket < |s.heap|
  }

  /** The client bucket is asked, and the global token handed back if it refuses. */
  function Asked(s: State, c: nat, now: int): State
    requires CanAsk(s, c, now)
  {
    var asked := Next(Next(s, Tick(now)), TakeClient(c));
    if asked.calls[c].Refused? then Next(asked, GiveBack(c)) else asked
  }

  lemma AskedLeads(s: State, c: nat, now: int, e: State, who: set<nat>)
    requires CanAsk(s, c, now) && Leads(Asked(s, c, now), e, who) && c in who
    ensures Leads(s, e, who)
  {
    var ticked := Next(s, Tick(now));
    var asked := Next(ticked, TakeClient(c));
    if asked.calls[c].Refused? {
      First(asked, GiveBack(c), e, who);
    }
    First(ticked, TakeClient(c), e, who);
    First(s, Tick(now), e, who);
  }

  lemma AskedMeans(s: State, c: nat, now: int)
    requires CanAsk(s, c, now) && CallOk(s, c, s.calls[c])
    requires forall ip :: ip in s.table ==> EntryOk(s, ip, s.table[ip]) && s.table[ip] < |s.heap|
    ensures var ip, l, e := s.calls[c].ip, Abstract(s), Asked(s, c, now);
      && ip in l.ips
      && (forall other :: other in e.table ==> e.table[other] < |e.heap|)
      && c in e.calls
      && var t := Take(l.ips[ip], now);
        && e.calls[c] == Answered(ip, t.granted)
        && Abstract(e) == l.(global := if t.granted then l.global else Returned(l.global), ips := l.ips[ip := t.bucket])
  {
    var ip, id, e := s.calls[c].ip, s.calls[c].bucket, Asked(s, c, now);
    assert EntryOk(s, ip, id);
    assert e.table == s.table;
    assert forall other :: other in s.table && other != ip ==> EntryOk(s, other, s.table[other]) && s.table[other] != id;
    assert Abstract(e).ips == Abstract(s).ips[ip := Take(s.heap[id].bucket, now).bucket];
  }

  /** The bucket is looked up, and made and published if there is none. */
  function Resolved(s: State, c: nat, now: int): State
    requires c in s.calls && s.calls[c].Charged? && s.clock <= now
  {
    var loaded := Next(s, Load(c));
    if loaded.calls[c].Looking? then loaded
    else Next(Next(Next(loaded, Tick(now)), Create(c)), LoadOrStore(c))
  }

  lemma ResolvedLeads(s: State, c: nat, now: int, e: State, who: set<nat>)
    requires c in s.calls && s.calls[c].Charged? && s.clock <= now
    requires Leads(Resolved(s, c, now), e, who) && c in who
    ensures Leads(s, e, who)
  {
    var loaded := Next(s, Load(c));
    if !loaded.calls[c].Looking? {
      var ticked := Next(loaded, Tick(now));
      First(Next(ticked, Create(c)), LoadOrStore(c), e, who);
      First(ticked, Create(c), e, who);
      First(loaded, Tick(now), e, who);
    }
    First(s, Load(c), e, who);
  }

  lemma ResolvedSound(s: State, c: nat, now: int)
    requires Sound(s) && c in s.calls && s.calls[c].Charged? && s.clock <= now
    ensures Sound(Resolved(s, c, now))
  {
    var loaded := Next(s, Load(c));
    StepSound(s, Load(c));
    if !loaded.calls[c].Looking? {
      var ticked := Next(loaded, Tick(now));
      StepSound(loaded, Tick(now));
      StepSound(ticked, Create(c));
      StepSound(Next(ticked, Create(c)), LoadOrStore(c));
    }
  }

  lemma ResolvedMeans(s: State, c: nat, now: int)
    requires c in s.calls && s.calls[c].Charged? && s.clock <= now
    requires forall ip :: ip in s.table ==> s.table[ip] < |s.heap|
    ensures var ip, r := s.calls[c].ip, Resolved(s, c, now);
      && r.clock <= now && c in r.calls && ip in r.table && r.calls[c] == Looking(ip, r.table[ip])
      && (forall other :: other in r.table ==> r.table[other] < |r.heap|)
      && Abstract(r) == Abstract(s).(ips := Abstract(s).ips[ip := Limiters.ClientBucket(Abstract(s), ip, now)])
  {
    var ip, r := s.calls[c].ip, Resolved(s, c, now);
    assert Abstract(r).ips == Abstract(s).ips[ip := Limiters.ClientBucket(Abstract(s), ip, now)];
  }

  function Entered(s: State, c: nat, ip: string, now: int): State
    requires c !in s.calls && s.clock <= now
  {
    Next(Next(Next(s, Arrive(c, ip)), Tick(now)), TakeGlobal(c))
  }

  lemma EnteredLeads(s: State, c: nat, ip: string, now: int, e: State, who: set<nat>)
    requires c !in s.calls && s.clock <= now && Leads(Entered(s, c, ip, now), e, who) && c in who
    ensures Leads(s, e, who)
  {
    var arrived := Next(s, Arrive(c, ip));
    First(Next(arrived, Tick(now)), TakeGlobal(c), e, who);
    First(arrived, Tick(now), e, who);
    First(s, Arrive(c, ip), e, who);
  }

  lemma EnteredSound(s: State, c: nat, ip: string, now: int)
    requires Sound(s) && c !in s.calls && s.clock <= now
    ensures Sound(Entered(s, c, ip, now))
  {
    var arrived := Next(s, Arrive(c, ip));
    StepSound(s, Arrive(c, ip));
    StepSound(arrived, Tick(now));
    StepSound(Next(arrived, Tick(now)), TakeGlobal(c));
  }

  lemma SoundTable(s: State)
    requires Sound(s)
    ensures forall ip :: ip in s.table ==> EntryOk(s, ip, s.table[ip]) && s.table[ip] < |s.heap|
  {
  }

  /** The outcome `a` of call `c` is what state `e` shows. */
  ghost predicate Shows(e: State, c: nat, ip: string, a: Limiters.Answer) {
    && (forall other :: other in e.table ==> e.table[other] < |e.heap|)
    && Abstract(e) == a.limiter && c in e.calls && e.calls[c] == Answered(ip, a.allowed)
  }

  /** What is left of a sequential call once it holds a global token. */
  function Concluded(l: Limiters.Limiter, ip: string, at: Limiters.Readings): Limiters.Answer {
    var t := Take(Limiters.ClientBucket(l, ip, at.create), at.client);
    Limiters.Answer(l.(global := if t.granted then l.global else Returned(l.global), ips := l.ips[ip := t.bucket]), t.granted)
  }

  lemma AskedShows(r: State, c: nat, l: Limiters.Limiter, ip: string, at: Limiters.Readings)
    requires CanAsk(r, c, at.client) && r.calls[c].ip == ip && CallOk(r, c, r.calls[c])
    requires forall other :: other in r.table ==> EntryOk(r, other, r.table[other]) && r.table[other] < |r.heap|
    requires Abstract(r) == l.(ips := l.ips[ip := Limiters.ClientBucket(l, ip, at.create)])
    ensures Shows(Asked(r, c, at.client), c, ip, Concluded(l, ip, at))
  {
    AskedMeans(r, c, at.client);
    var b := Limiters.ClientBucket(l, ip, at.create);
    assert l.ips[ip := b][ip := Take(b, at.client).bucket] == l.ips[ip := Take(b, at.client).bucket];
  }

  lemma ChargedCallFinishes(s: State, c: nat, at: Limiters.Readings)
    requires Sound(s) && c in s.calls && s.calls[c].Charged? && s.clock <= at.create <= at.client
    ensures exists e :: Leads(s, e, {c}) && Shows(e, c, s.calls[c].ip, Concluded(Abstract(s), s.calls[c].ip, at))
  {
    SoundTable(s);
    var r := Resolved(s, c, at.create);
    ResolvedMeans(s, c, at.create);
    var e := Asked(r, c, at.client);
    Stays(e, {c});
    AskedLeads(r, c, at.client, e, {c});
    ResolvedLeads(s, c, at.create, e, {c});
    assert Shows(e, c, s.calls[c].ip, Concluded(Abstract(s), s.calls[c].ip, at)) by {
      ResolvedSound(s, c, at.create);
      SoundTable(r);
      AskedShows(r, c, Abstract(s), s.calls[c].ip, at);
    }
  }

  // ---- Every undisturbed run ----

  /** How far call `c` of `ip` has got, alone, in the sequential call on `l`: readings it has not taken yet
      stand at the latest one it has. */
  ghost predicate Stage(l: Limiters.Limiter, began: int, s: State, c: nat, ip: string, at: Limiters.Readings) {
    && (forall other :: other in s.table ==> s.table[other] < |s.heap|)
    && began <= at.global <= at.create <= at.client <= s.clock
    && c in s.calls && s.calls[c].ip == ip
    && (s.calls[c].Arrived? || s.calls[c].Answered? || Take(l.global, at.global).granted)
    && var charged := l.(global := Take(l.global, at.global).bucket);
      var mine := Limiters.ClientBucket(l, ip, at.create);
      match s.calls[c]
      case Arrived(_) => Abstract(s) == l
      case Charged(_) => Abstract(s) == charged
      case Missed(_) => Abstract(s) == charged && ip !in l.ips
      case Candidate(_, id) => Abstract(s) == charged && ip !in l.ips && id < |s.heap| && s.heap[id].bucket == mine
      case Looking(_, id) => ip in s.table && id == s.table[ip] && Abstract(s) == charged.(ips := l.ips[ip := mine])
      case Refused(_) =>
        !Take(mine, at.client).granted && Abstract(s) == charged.(ips := l.ips[ip := Take(mine, at.client).bucket])
      case Answered(_, _) => Shows(s, c, ip, Limiters.Allow(l, ip, at))
  }

  lemma StageTick(l: Limiters.Limiter, began: int, s: State, c: nat, ip: string, at: Limiters.Readings, now: int)
    requires Stage(l, began, s, c, ip, at) && s.clock <= now
    ensures Stage(l, began, Next(s, Tick(now)), c, ip, at)
  {
    assert Abstract(Next(s, Tick(now))) == Abstract(s);
  }

  lemma StageLookUp(l: Limiters.Limiter, began: int, s: State, c: nat, ip: string, at: Limiters.Readings, a: Action)
    requires Stage(l, began, s, c, ip, at) && Enabled(s, a) && (a == Load(c) || a == Create(c))
    ensures Stage(l, began, Next(s, a), c, ip, Limiters.Readings(at.global, s.clock, s.clock))
  {
    assert Abstract(Next(s, a)) == Abstract(s);
    assert ip in l.ips ==> l.ips[ip := l.ips[ip]] == l.ips;
    assert l.(ips := l.ips) == l;
  }

  lemma StagePublish(l: Limiters.Limiter, began: int, s: State, c: nat, ip: string, at: Limiters.Readings)
    requires Stage(l, began, s, c, ip, at) && Enabled(s, LoadOrStore(c))
    ensures Stage(l, began, Next(s, LoadOrStore(c)), c, ip, at)
  {
    assert ip !in Abstract(s).ips;
    var n := Next(s, LoadOrStore(c));
    assert Abstract(n).ips == Abstract(s).ips[ip := s.heap[s.calls[c].candidate].bucket];
  }

  /** Asking a published bucket changes that bucket, and what it stands for, only. */
  lemma AskAbstract(s: State, c: nat)
    requires Sound(s) && Enabled(s, TakeClient(c))
    requires s.calls[c].ip in s.table && s.table[s.calls[c].ip] == s.calls[c].bucket
    requires forall ip :: ip in s.table ==> s.table[ip] < |s.heap|
    ensures var n, ip, l := Next(s, TakeClient(c)), s.calls[c].ip, Abstract(s);
      var t := Take(l.ips[ip], s.clock);
      && n.table == s.table && |n.heap| == |s.heap| && n.clock == s.clock
      && n.calls[c] == (if t.granted then Answered(ip, true) else Refused(ip))
      && Abstract(n) == l.(ips := l.ips[ip := t.bucket])
  {
    var n, ip := Next(s, TakeClient(c)), s.calls[c].ip;
    assert forall other :: other in s.table && other != ip ==> EntryOk(s, other, s.table[other]);
    assert EntryOk(s, ip, s.table[ip]);
    assert Abstract(n).ips == Abstract(s).ips[ip := Take(Abstract(s).ips[ip], s.clock).bucket];
  }

  lemma UpdateTwice(m: map<string, Bucket>, ip: string, first: Bucket, second: Bucket)
    ensures m[ip := first][ip] == first && m[ip := first][ip := second] == m[ip := second]
  {
  }

  lemma StageAsk(l: Limiters.Limiter, began: int, s: State, c: nat, ip: string, at: Limiters.Readings)
    requires Sound(s) && Stage(l, began, s, c, ip, at) && Enabled(s, TakeClient(c))
    ensures Stage(l, began, Next(s, TakeClient(c)), c, ip, at.(client := s.clock))
  {
    var mine := Limiters.ClientBucket(l, ip, at.create);
    AskAbstract(s, c);
    UpdateTwice(l.ips, ip, mine, Take(mine, s.clock).bucket);
  }

  lemma StageCharge(l: Limiters.Limiter, began: int, s: State, c: nat, ip: string, at: Limiters.Readings)
    requires Stage(l, began, s, c, ip, at) && Enabled(s, TakeGlobal(c))
    ensures Stage(l, began, Next(s, TakeGlobal(c)), c, ip, Limiters.AllAt(s.clock))
  {
    assert Abstract(Next(s, TakeGlobal(c))) == Abstract(s).(global := Take(s.global, s.clock).bucket);
  }

  lemma StageGiveBack(l: Limiters.Limiter, began: int, s: State, c: nat, ip: string, at: Limiters.Readings)
    requires Stage(l, began, s, c, ip, at) && Enabled(s, GiveBack(c))
    ensures Stage(l, began, Next(s, GiveBack(c)), c, ip, at)
  {
    assert Abstract(Next(s, GiveBack(c))) == Abstract(s).(global := Returned(s.global));
  }

  lemma StageStep(l: Limiters.Limiter, began: int, s: State, c: nat, ip: string, at: Limiters.Readings, a: Action)
    returns (later: Limiters.Readings)
    requires Sound(s) && Stage(l, began, s, c, ip, at) && Enabled(s, a) && (a.Tick? || a.call == c)
    ensures Stage(l, began, Next(s, a), c, ip, later)
  {
    match a
    case Tick(now) =>
      StageTick(l, began, s, c, ip, at, now);
      later := at;
    case TakeGlobal(_) =>
      StageCharge(l, began, s, c, ip, at);
      later := Limiters.AllAt(s.clock);
    case LoadOrStore(_) =>
      StagePublish(l, began, s, c, ip, at);
      later := at;
    case TakeClient(_) =>
      StageAsk(l, began, s, c, ip, at);
      later := at.(client := s.clock);
    case GiveBack(_) =>
      StageGiveBack(l, began, s, c, ip, at);
      later := at;
    case _ =>
      StageLookUp(l, began, s, c, ip, at, a);
      later := Limiters.Readings(at.global, s.clock, s.clock);
  }

  lemma {:induction false} StageRun(l: Limiters.Limiter, began: int, s: State, c: nat, ip: string,
                                    at: Limiters.Readings, run: seq<Action>)
    returns (later: Limiters.Readings)
    requires Sound(s) && Stage(l, began, s, c, ip, at) && Runs(s, run) && OnlyBy(run, {c})
    ensures Stage(l, began, End(s, run), c, ip, later)
    decreases |run|
  {
    later := at;
    if run != [] {
      StepSound(s, run[0]);
      later := StageStep(l, began, s, c, ip, at, run[0]);
      later := StageRun(l, began, Next(s, run[0]), c, ip, later, run[1..]);
    }
  }

  lemma {:induction false} AloneFromArrival(l: Limiters.Limiter, began: int, s: State, c: nat, run: seq<Action>)
    returns (later: Limiters.Readings)
    requires Sound(s) && c !in s.calls && began <= s.clock && Runs(s, run) && OnlyBy(run, {c})
    requires (forall ip :: ip in s.table ==> s.table[ip] < |s.heap|) && Abstract(s) == l
    requires c in End(s, run).calls
    ensures Stage(l, began, End(s, run), c, End(s, run).calls[c].ip, later)
    decreases |run|
  {
    var a, n := run[0], Next(s, run[0]);
    StepSound(s, a);
    SoundTable(n);
    assert Abstract(n) == l;
    if a.Tick? {
      later := AloneFromArrival(l, began, n, c, run[1..]);
    } else {
      assert a == Arrive(c, a.ip);
      later := StageRun(l, began, n, c, a.ip, Limiters.AllAt(s.clock), run[1..]);
    }
  }

  /** What a finished call `c` shows in `e` is the outcome of the sequential call with readings `at`. */
  ghost predicate Sequentially(s: State, e: State, c: nat, at: Limiters.Readings)
    requires forall ip :: ip in s.table ==> s.table[ip] < |s.heap|
    requires c in e.calls
  {
    && s.clock <= at.global <= at.create <= at.client <= e.clock
    && Shows(e, c, e.calls[c].ip, Limiters.Allow(Abstract(s), e.calls[c].ip, at))
  }

  /** From any sound state, every run in which a new call takes all its steps and no other call takes any
      leaves exactly the limiter and the answer of a sequential call, with clock readings taken in order
      during the run. */
  lemma UndisturbedCallIsSequential(s: State, c: nat, run: seq<Action>)
    requires Sound(s) && c !in s.calls && Runs(s, run) && OnlyBy(run, {c})
    requires c in End(s, run).calls && End(s, run).calls[c].Answered?
    ensures forall ip :: ip in s.table ==> s.table[ip] < |s.heap|
    ensures exists at :: Sequentially(s, End(s, run), c, at)
  {
    SoundTable(s);
    var at := AloneFromArrival(Abstract(s), s.clock, s, c, run);
    assert Sequentially(s, End(s, run), c, at);
  }

  /** Conversely, from any sound state every sequential call is what some undisturbed run of a new call
      amounts to. */
  lemma SequentialCallIsRealised(s: State, c: nat, ip: string, at: Limiters.Readings)
    requires Sound(s) && c !in s.calls && s.clock <= at.global <= at.create <= at.client
    ensures exists e :: Leads(s, e, {c}) && Shows(e, c, ip, Limiters.Allow(Abstract(s), ip, at))
  {
    SoundTable(s);
    var entered := Entered(s, c, ip, at.global);
    EnteredSound(s, c, ip, at.global);
    assert Abstract(entered) == Abstract(s).(global := entered.global);
    if entered.calls[c].Charged? {
      ChargedCallFinishes(entered, c, at);
      var e :| Leads(entered, e, {c}) && Shows(e, c, ip, Limiters.Allow(Abstract(s), ip, at));
      EnteredLeads(s, c, ip, at.global, e, {c});
    } else {
      Stays(entered, {c});
      EnteredLeads(s, c, ip, at.global, entered, {c});
      assert Shows(entered, c, ip, Limiters.Allow(Abstract(s), ip, at));
    }
  }

  // ---- Why held tokens are counted ----

  const TWO: set<nat> := {0, 1}

  /** A call of client "a" has held the only token since the start; a token has been earned since. */
  const HELD := State(NANOS, Bucket(1, 0, 1, 0), [], map[], map[0 := Charged("a")], 1, 1)

  const ONE_ADMITTED := State(NANOS, Bucket(1, 0, 1, 0), [Slot(NANOS, 0, "a", Bucket(1, 0, 1, NANOS))],
                              map["a" := 0], map[0 := Answered("a", true)], 1, 1)

  const TWO_ADMITTED := State(NANOS, Bucket(1, 0, 1, NANOS),
                              [Slot(NANOS, 0, "a", Bucket(1, 0, 1, NANOS)), Slot(NANOS, 1, "b", Bucket(1, 0, 1, NANOS))],
                              map["a" := 0, "b" := 1], map[0 := Answered("a", true), 1 := Answered("b", true)], 1, 1)

  lemma HeldIsReachable()
    ensures Leads(Start(1, 1, 1, 1, 0), HELD, TWO)
  {
    assert Credit(1, 0) == 0;
    var holding := Entered(Start(1, 1, 1, 1, 0), 0, "a", 0);
    assert Next(holding, Tick(NANOS)) == HELD;
    Stays(HELD, TWO);
    First(holding, Tick(NANOS), HELD, TWO);
    EnteredLeads(Start(1, 1, 1, 1, 0), 0, "a", 0, HELD, TWO);
  }

  lemma HolderIsAdmitted(e: State)
    requires Leads(ONE_ADMITTED, e, TWO)
    ensures Leads(HELD, e, TWO)
  {
    assert Credit(1, 0) == 0;
    var r := Resolved(HELD, 0, NANOS);
    assert r == ONE_ADMITTED.(heap := [Slot(NANOS, 0, "a", Bucket(1, 1, 1, NANOS))], calls := map[0 := Looking("a", 0)]);
    assert Asked(r, 0, NANOS) == ONE_ADMITTED;
    AskedLeads(r, 0, NANOS, e, TWO);
    ResolvedLeads(HELD, 0, NANOS, e, TWO);
  }

  const NEWCOMER := State(NANOS, Bucket(1, 0, 1, NANOS),
                          [Slot(NANOS, 0, "a", Bucket(1, 0, 1, NANOS)), Slot(NANOS, 1, "b", Bucket(1, 1, 1, NANOS))],
                          map["a" := 0, "b" := 1], map[0 := Answered("a", true), 1 := Looking("b", 1)], 1, 1)

  const CHARGED_NEWCOMER := ONE_ADMITTED.(
    global := Bucket(1, 0, 1, NANOS), calls := map[0 := Answered("a", true), 1 := Charged("b")])

  lemma NewcomerIsCharged()
    ensures Entered(ONE_ADMITTED, 1, "b", NANOS) == CHARGED_NEWCOMER
  {
    assert Credit(1, NANOS) == 1;
  }

  lemma NewcomerIsResolved()
    ensures Resolved(CHARGED_NEWCOMER, 1, NANOS) == NEWCOMER
  {
  }

  lemma NewcomerGetsBucket()
    ensures Leads(ONE_ADMITTED, NEWCOMER, TWO)
  {
    NewcomerIsCharged();
    NewcomerIsResolved();
    Stays(NEWCOMER, TWO);
    ResolvedLeads(CHARGED_NEWCOMER, 1, NANOS, NEWCOMER, TWO);
    EnteredLeads(ONE_ADMITTED, 1, "b", NANOS, NEWCOMER, TWO);
  }

  lemma NewcomerIsAdmitted()
    ensures Leads(NEWCOMER, TWO_ADMITTED, TWO)
  {
    assert Credit(1, 0) == 0;
    assert Asked(NEWCOMER, 1, NANOS) == TWO_ADMITTED;
    Stays(TWO_ADMITTED, TWO);
    AskedLeads(NEWCOMER, 1, NANOS, TWO_ADMITTED, TWO);
  }

  lemma {:induction false} LeadsOn(s: State, run: seq<Action>, e: State)
    requires Runs(s, run) && OnlyBy(run, TWO) && Leads(End(s, run), e, TWO)
    ensures Leads(s, e, TWO)
    decreases |run|
  {
    if run != [] {
      LeadsOn(Next(s, run[0]), run[1..], e);
      First(s, run[0], e, TWO);
    }
  }

  /** The tokens held when a window opens do count: with room for one token, a call that took it long ago
      and one that takes the token earned since are both admitted at the same instant. */
  lemma HeldTokensCount()
    ensures Leads(Start(1, 1, 1, 1, 0), HELD, TWO) && Leads(HELD, TWO_ADMITTED, TWO)
    ensures HELD.clock == TWO_ADMITTED.clock && HeldTokens(HELD) == 1
    ensures Admissions(TWO_ADMITTED) - Admissions(HELD) == 2 == 1 + CeilingCredit(1, 0) + HeldTokens(HELD)
  {
    HeldIsReachable();
    NewcomerIsAdmitted();
    NewcomerGetsBucket();
    var run :| Runs(ONE_ADMITTED, run) && OnlyBy(run, TWO) && End(ONE_ADMITTED, run) == NEWCOMER;
    LeadsOn(ONE_ADMITTED, run, TWO_ADMITTED);
    HolderIsAdmitted(TWO_ADMITTED);
    assert Where(HELD.calls, Holding) == {0} && Where(HELD.calls, Admitted) == {};
    assert Where(TWO_ADMITTED.calls, Admitted) == {0, 1};
  }
}
