/** Why a call in an interleaved run is refused: it asked the global bucket, or its client's published
    bucket, and found it without a token. In particular nobody is turned away for losing a race. */
module Refusals {
  import opened Buckets
  import opened Protocol

  /** Looking a bucket up finds the published one if there is one. */
  lemma LoadLooks(s: State, c: nat)
    requires Enabled(s, Load(c))
    ensures var ip, n := s.calls[c].ip, Next(s, Load(c));
      && n.calls == s.calls[c := if ip in s.table then Looking(ip, s.table[ip]) else Missed(ip)]
      && n.table == s.table && n.heap == s.heap && n.global == s.global
  {
  }

  /** Publishing leaves every caller with its client's published bucket: its own candidate if it was first,
      the one already there if not. */
  lemma LoadOrStoreLooks(s: State, c: nat)
    requires Sound(s) && Enabled(s, LoadOrStore(c))
    ensures var ip, n := s.calls[c].ip, Next(s, LoadOrStore(c));
      && ip in n.table && n.calls == s.calls[c := Looking(ip, n.table[ip])]
      && n.table[ip] < |n.heap| && n.heap[n.table[ip]].ip == ip
      && n.table[ip] == (if ip in s.table then s.table[ip] else s.calls[c].candidate)
      && (forall other :: other != ip ==> (other in n.table <==> other in s.table))
      && (forall other :: other in s.table ==> n.table[other] == s.table[other])
      && n.heap == s.heap && n.global == s.global
  {
    var ip := s.calls[c].ip;
    assert CallOk(s, c, s.calls[c]);
    if ip in s.table {
      assert EntryOk(s, ip, s.table[ip]);
    }
  }

  /** The published bucket of a client. */
  predicate HasBucket(s: State, ip: string) {
    ip in s.table && s.table[ip] < |s.heap|
  }

  /** In this step call `c` of `ip` asks a bucket that, refilled, has no token. */
  predicate MeetsEmpty(s: State, a: Action, c: nat, ip: string) {
    && c in s.calls && s.calls[c].ip == ip
    && ((a == TakeGlobal(c) && Refilled(s.global, s.clock).tokens <= 0)
        || (a == TakeClient(c) && HasBucket(s, ip) && Refilled(s.heap[s.table[ip]].bucket, s.clock).tokens <= 0))
  }

  predicate TurnedAway(call: Call) {
    call.Refused? || (call.Answered? && !call.allowed)
  }

  predicate Away(s: State, c: nat) {
    c in s.calls && TurnedAway(s.calls[c])
  }

  /** A step turns a call away exactly if in it the call asks an empty bucket; and once turned away it stays so. */
  lemma StepTurnsAwayIff(s: State, a: Action, c: nat)
    requires Sound(s) && Enabled(s, a) && !Away(s, c) && c in Next(s, a).calls
    ensures Away(Next(s, a), c) <==> MeetsEmpty(s, a, c, Next(s, a).calls[c].ip)
  {
    if a.TakeClient? {
      var call := s.calls[a.call];
      assert CallOk(s, a.call, call) && EntryOk(s, call.ip, call.bucket);
    }
  }

  lemma StepStaysAway(s: State, a: Action, c: nat)
    requires Enabled(s, a) && c in s.calls
    ensures c in Next(s, a).calls && Next(s, a).calls[c].ip == s.calls[c].ip
    ensures Away(s, c) ==> Away(Next(s, a), c)
  {
  }

  /** In some step of the run `c` asks an empty bucket. */
  predicate MetEmpty(s: State, run: seq<Action>, c: nat, ip: string)
    requires Runs(s, run)
    decreases |run|
  {
    run != [] && (MeetsEmpty(s, run[0], c, ip) || MetEmpty(Next(s, run[0]), run[1..], c, ip))
  }

  lemma {:induction false} StaysAway(s: State, run: seq<Action>, c: nat)
    requires Runs(s, run) && Away(s, c)
    ensures Away(End(s, run), c)
    decreases |run|
  {
    if run != [] {
      StepStaysAway(s, run[0], c);
      StaysAway(Next(s, run[0]), run[1..], c);
    }
  }

  lemma {:induction false} CallKept(s: State, run: seq<Action>, c: nat)
    requires Runs(s, run) && c in s.calls
    ensures c in End(s, run).calls && End(s, run).calls[c].ip == s.calls[c].ip
    decreases |run|
  {
    if run != [] {
      StepStaysAway(s, run[0], c);
      CallKept(Next(s, run[0]), run[1..], c);
    }
  }

  lemma MetEmptyStep(s: State, run: seq<Action>, c: nat, ip: string)
    requires Sound(s) && Runs(s, run) && run != [] && !Away(s, c)
    requires c in End(s, run).calls && End(s, run).calls[c].ip == ip
    ensures Away(Next(s, run[0]), c) <==> MeetsEmpty(s, run[0], c, ip)
  {
    var n := Next(s, run[0]);
    if c in n.calls {
      StepTurnsAwayIff(s, run[0], c);
      CallKept(n, run[1..], c);
    }
  }

  lemma {:induction false} AwayIffMet(s: State, run: seq<Action>, c: nat)
    requires Sound(s) && Runs(s, run) && !Away(s, c) && c in End(s, run).calls
    ensures Away(End(s, run), c) <==> MetEmpty(s, run, c, End(s, run).calls[c].ip)
    decreases |run|
  {
    if run != [] {
      var ip := End(s, run).calls[c].ip;
      var n := Next(s, run[0]);
      MetEmptyStep(s, run, c, ip);
      StepSound(s, run[0]);
      if Away(n, c) {
        StaysAway(n, run[1..], c);
      } else {
        AwayIffMet(n, run[1..], c);
      }
    }
  }

  /** In every run of any number of interleaved calls: a call is answered with a refusal exactly if it asked
      the global bucket, or the published bucket of its client, when that had no token even refilled. */
  lemma RefusedIffMetEmpty(start: State, run: seq<Action>, c: nat)
    requires Fresh(start) && Runs(start, run)
    requires c in End(start, run).calls && End(start, run).calls[c].Answered?
    ensures !End(start, run).calls[c].allowed <==> MetEmpty(start, run, c, End(start, run).calls[c].ip)
  {
    StartSound(start.global.capacity, start.global.rate, start.ipCapacity, start.ipRate, start.clock);
    AwayIffMet(start, run, c);
  }
}
