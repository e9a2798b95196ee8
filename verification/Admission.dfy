/** Admission of connections (src/server/server.cpp): how many may wait, be served, and come from one host,
    and which are flagged for coming too often.  Each method runs under the queue's lock, so a run is a
    sequence of calls. */
module Admission {
  import opened Wrappers

  /** The clock counts nanoseconds and never goes back. */
  const SECOND := 1_000_000_000

  datatype Limits = Limits(maxPending: nat, maxActive: nat, maxPerHost: nat, maxAttempts: nat)

  datatype Queued = Queued(descriptor: int, host: string, rateLimited: bool)

  datatype Attempt = Attempt(host: string, at: int)

  // ---------------------------------------------------------------------------------------
  // Counting connections
  // ---------------------------------------------------------------------------------------

  /** The hosts of the queued connections, with repetitions. */
  ghost function Hosts(pending: seq<Queued>): multiset<string> {
    if pending == [] then multiset{} else multiset{pending[0].host} + Hosts(pending[1..])
  }

  lemma {:induction false} HostsAppend(pending: seq<Queued>, c: Queued)
    ensures Hosts(pending + [c]) == Hosts(pending) + multiset{c.host}
  {
    if pending == [] {
      assert (pending + [c])[1..] == [];
    } else {
      HostsAppend(pending[1..], c);
      assert (pending + [c])[1..] == pending[1..] + [c];
    }
  }

  /** The counts are those of `all`, and no host is stored with none. */
  ghost predicate Counts(byHost: map<string, nat>, all: multiset<string>) {
    && (forall h :: h in byHost <==> h in all)
    && forall h :: h in byHost ==> byHost[h] == all[h]
  }

  /** Looks a host's count up, which stores a zero for a host without one. */
  method Touch(byHost: map<string, nat>, host: string, ghost all: multiset<string>)
    returns (touched: map<string, nat>, n: nat)
    requires Counts(byHost, all)
    ensures n == all[host] && touched == byHost[host := n]
  {
    n := if host in byHost then byHost[host] else 0;
    touched := byHost[host := n];
  }

  /** Erases a stored zero again. */
  method Untouch(touched: map<string, nat>, host: string, n: nat, ghost byHost: map<string, nat>,
                 ghost all: multiset<string>)
    returns (next: map<string, nat>)
    requires Counts(byHost, all) && n == all[host] && touched == byHost[host := n]
    ensures next == byHost
  {
    next := touched;
    if n == 0 {
      next := next - {host};
    }
  }

  method CountUp(touched: map<string, nat>, host: string, ghost byHost: map<string, nat>, ghost all: multiset<string>)
    returns (next: map<string, nat>)
    requires Counts(byHost, all) && touched == byHost[host := all[host]]
    ensures Counts(next, all + multiset{host})
  {
    next := touched[host := touched[host] + 1];
  }

  method CountDown(byHost: map<string, nat>, host: string, ghost all: multiset<string>) returns (next: map<string, nat>)
    requires Counts(byHost, all) && host in all
    ensures Counts(next, all - multiset{host})
  {
    next := byHost;
    if host in next {
      next := next[host := next[host] - 1];
      if next[host] == 0 {
        next := next - {host};
      }
    }
  }

  ghost predicate AtMost(all: multiset<string>, limit: nat) {
    forall h :: all[h] <= limit
  }

  /** One more connection waits. */
  lemma AllAdd(pending: seq<Queued>, inService: multiset<string>, c: Queued, limit: nat)
    requires AtMost(Hosts(pending) + inService, limit) && (Hosts(pending) + inService)[c.host] < limit
    ensures Hosts(pending + [c]) + inService == Hosts(pending) + inService + multiset{c.host}
    ensures AtMost(Hosts(pending + [c]) + inService, limit)
  {
    HostsAppend(pending, c);
  }

  /** One connection is done. */
  lemma AllRemove(waiting: multiset<string>, inService: multiset<string>, host: string, limit: nat)
    requires AtMost(waiting + inService, limit) && host in inService
    ensures waiting + (inService - multiset{host}) == waiting + inService - multiset{host}
    ensures AtMost(waiting + inService - multiset{host}, limit)
    ensures |inService - multiset{host}| == |inService| - 1
  {
    assert inService == (inService - multiset{host}) + multiset{host};
  }

  /** The counters are right and within the limits. */
  ghost predicate Tallied(pending: seq<Queued>, inService: multiset<string>, active: nat, byHost: map<string, nat>,
                          limits: Limits) {
    && active == |pending| + |inService| && Counts(byHost, Hosts(pending) + inService)
    && |pending| <= limits.maxPending && active <= limits.maxActive
    && AtMost(Hosts(pending) + inService, limits.maxPerHost)
  }

  /** Admits a connection or closes it. */
  method Admit(pending: seq<Queued>, active: nat, byHost: map<string, nat>, limits: Limits, c: Queued,
               ghost inService: multiset<string>)
    returns (accepted: bool, nextPending: seq<Queued>, nextActive: nat, nextByHost: map<string, nat>)
    requires Tallied(pending, inService, active, byHost, limits)
    ensures Tallied(nextPending, inService, nextActive, nextByHost, limits)
    ensures accepted <==> |pending| < limits.maxPending && active < limits.maxActive &&
                          (Hosts(pending) + inService)[c.host] < limits.maxPerHost
    ensures accepted ==> nextPending == pending + [c]
    ensures !accepted ==> nextPending == pending && nextActive == active && nextByHost == byHost
  {
    ghost var all := Hosts(pending) + inService;
    var touched, hostCount := Touch(byHost, c.host, all);
    if |pending| >= limits.maxPending || active >= limits.maxActive || hostCount >= limits.maxPerHost {
      nextByHost := Untouch(touched, c.host, hostCount, byHost, all);
      return false, pending, active, nextByHost;
    }
    AllAdd(pending, inService, c, limits.maxPerHost);
    nextByHost := CountUp(touched, c.host, byHost, all);
    return true, pending + [c], active + 1, nextByHost;
  }

  /** Gives back the place of a connection in service. */
  method GiveBack(active: nat, byHost: map<string, nat>, host: string,
                  ghost pending: seq<Queued>, ghost inService: multiset<string>, ghost limits: Limits)
    returns (nextActive: nat, nextByHost: map<string, nat>)
    requires Tallied(pending, inService, active, byHost, limits) && host in inService
    ensures Tallied(pending, inService - multiset{host}, nextActive, nextByHost, limits)
    ensures nextActive == active - 1
  {
    AllRemove(Hosts(pending), inService, host, limits.maxPerHost);
    nextActive := active;
    if nextActive > 0 {
      nextActive := nextActive - 1;
    }
    nextByHost := CountDown(byHost, host, Hosts(pending) + inService);
  }

  // ---------------------------------------------------------------------------------------
  // Counting attempts
  // ---------------------------------------------------------------------------------------

  /** When a host tried to connect. */
  ghost function Times(history: seq<Attempt>, host: string): seq<int> {
    if history == [] then []
    else
      var last := history[|history| - 1];
      Times(history[..|history| - 1], host) + if last.host == host then [last.at] else []
  }

  /** How many of the times are less than a second before `now`. */
  ghost function CountRecent(times: seq<int>, now: int): nat {
    if times == [] then 0 else CountRecent(times[1..], now) + if now - times[0] < SECOND then 1 else 0
  }

  ghost predicate Ascending(times: seq<int>, now: int) {
    && (forall i, j :: 0 <= i < j < |times| ==> times[i] <= times[j])
    && forall i :: 0 <= i < |times| ==> times[i] <= now
  }

  /** What pruning from the front leaves. */
  function Pruned(times: seq<int>, now: int): seq<int> {
    if times == [] || now - times[0] < SECOND then times else Pruned(times[1..], now)
  }

  lemma {:induction false} PrunedCounts(times: seq<int>, now: int)
    requires Ascending(times, now)
    ensures |Pruned(times, now)| == CountRecent(times, now)
  {
    if times != [] {
      PrunedCounts(times[1..], now);
      if now - times[0] < SECOND {
        assert Pruned(times[1..], now) == times[1..];
      }
    }
  }

  /** Pruning now after having pruned earlier leaves what pruning now would. */
  lemma {:induction false} PrunedTwice(times: seq<int>, earlier: int, now: int)
    requires earlier <= now
    ensures Pruned(Pruned(times, earlier), now) == Pruned(times, now)
  {
    if times != [] && earlier - times[0] >= SECOND {
      PrunedTwice(times[1..], earlier, now);
    }
  }

  lemma {:induction false} PrunedAppend(times: seq<int>, now: int)
    ensures Pruned(times + [now], now) == Pruned(times, now) + [now]
  {
    if times != [] && now - times[0] >= SECOND {
      PrunedAppend(times[1..], now);
      assert (times + [now])[1..] == times[1..] + [now];
    }
  }

  lemma {:induction false} TimesAscending(history: seq<Attempt>, host: string, now: int)
    requires forall i, j :: 0 <= i < j < |history| ==> history[i].at <= history[j].at
    requires forall i :: 0 <= i < |history| ==> history[i].at <= now
    ensures Ascending(Times(history, host), now)
  {
    if history != [] {
      var last := history[|history| - 1];
      TimesAscending(history[..|history| - 1], host, last.at);
    }
  }

  lemma TimesAppend(history: seq<Attempt>, a: Attempt, host: string)
    ensures Times(history + [a], host) == if a.host == host then Times(history, host) + [a.at] else Times(history, host)
  {
    assert (history + [a])[..|history|] == history;
    assert Times(history, host) + [] == Times(history, host);
  }

  /** The deque of a host holds its attempts of the second before its last one. */
  ghost predicate Remembers(attempts: map<string, seq<int>>, history: seq<Attempt>, host: string) {
    var times := Times(history, host);
    if host in attempts then times != [] && attempts[host] == Pruned(times, times[|times| - 1]) else times == []
  }

  ghost predicate AllRemembered(attempts: map<string, seq<int>>, history: seq<Attempt>) {
    forall h :: Remembers(attempts, history, h)
  }

  lemma RememberNext(attempts: map<string, seq<int>>, history: seq<Attempt>, host: string, now: int, kept: seq<int>)
    requires AllRemembered(attempts, history) && kept == Pruned(Times(history, host), now)
    ensures AllRemembered(attempts[host := kept + [now]], history + [Attempt(host, now)])
  {
    PrunedAppend(Times(history, host), now);
    var next, after := attempts[host := kept + [now]], history + [Attempt(host, now)];
    forall h ensures Remembers(next, after, h) {
      TimesAppend(history, Attempt(host, now), h);
      assert Remembers(attempts, history, h);
    }
  }

  /** The deque of a host, pruned now, holds just its attempts of the last second. */
  lemma RecentAttempts(attempts: map<string, seq<int>>, history: seq<Attempt>, host: string, now: int)
    requires AllRemembered(attempts, history) && InOrder(history) && NotBefore(history, now)
    ensures
      var pruned := Pruned(if host in attempts then attempts[host] else [], now);
      pruned == Pruned(Times(history, host), now) && |pruned| == CountRecent(Times(history, host), now)
  {
    var times := Times(history, host);
    assert Remembers(attempts, history, host);
    TimesAscending(history, host, now);
    PrunedCounts(times, now);
    if times != [] {
      PrunedTwice(times, times[|times| - 1], now);
    }
  }

  ghost predicate InOrder(history: seq<Attempt>) {
    forall i, j :: 0 <= i < j < |history| ==> history[i].at <= history[j].at
  }

  /** `now` is a time the clock may show next. */
  ghost predicate NotBefore(history: seq<Attempt>, now: int) {
    forall i :: 0 <= i < |history| ==> history[i].at <= now
  }

  lemma InOrderNext(history: seq<Attempt>, a: Attempt)
    requires InOrder(history) && NotBefore(history, a.at)
    ensures InOrder(history + [a])
  {
  }

  /** Prunes a host's deque, compares its length with the limit and adds this attempt. */
  method Note(attemptsByHost: map<string, seq<int>>, host: string, now: int, limits: Limits,
              ghost history: seq<Attempt>)
    returns (next: map<string, seq<int>>, rateLimited: bool)
    requires AllRemembered(attemptsByHost, history) && InOrder(history) && NotBefore(history, now)
    ensures AllRemembered(next, history + [Attempt(host, now)])
    ensures rateLimited <==> CountRecent(Times(history, host), now) >= limits.maxAttempts
  {
    RecentAttempts(attemptsByHost, history, host, now);
    ghost var kept := Pruned(Times(history, host), now);
    var attempts := if host in attemptsByHost then attemptsByHost[host] else [];
    while attempts != [] && now - attempts[0] >= SECOND
      invariant Pruned(attempts, now) == kept
      decreases |attempts|
    {
      attempts := attempts[1..];
    }
    rateLimited := |attempts| >= limits.maxAttempts;
    RememberNext(attemptsByHost, history, host, now, attempts);
    next := attemptsByHost[host := attempts + [now]];
  }

  class Admission {
    const limits: Limits
    var pending: seq<Queued>
    var active: nat
    var activeByHost: map<string, nat>
    var attemptsByHost: map<string, seq<int>>
    /** The hosts of the connections that workers hold, and every attempt so far. */
    ghost var inService: multiset<string>
    ghost var history: seq<Attempt>

    ghost function All(): multiset<string>
      reads this
    {
      Hosts(pending) + inService
    }

    ghost predicate Valid()
      reads this
    {
      && Tallied(pending, inService, active, activeByHost, limits)
      && InOrder(history) && AllRemembered(attemptsByHost, history)
    }

    constructor (limits: Limits)
      ensures Valid() && this.limits == limits && pending == [] && inService == multiset{} && history == []
    {
      this.limits := limits;
      pending, active, activeByHost, attemptsByHost := [], 0, map[], map[];
      inService, history := multiset{}, [];
    }

    method NoteAttempt(host: string, now: int) returns (rateLimited: bool)
      requires Valid() && NotBefore(history, now)
      modifies this`attemptsByHost, this`history
      ensures Valid() && history == old(history) + [Attempt(host, now)]
      ensures rateLimited <==> CountRecent(Times(old(history), host), now) >= limits.maxAttempts
    {
      var next;
      next, rateLimited := Note(attemptsByHost, host, now, limits, history);
      InOrderNext(history, Attempt(host, now));
      attemptsByHost, history := next, history + [Attempt(host, now)];
    }

    /** A connection arrives: it is queued, or closed at once when a limit is reached. */
    method Enqueue(descriptor: int, host: string, now: int) returns (accepted: bool)
      requires Valid() && NotBefore(history, now)
      modifies this
      ensures Valid() && history == old(history) + [Attempt(host, now)] && inService == old(inService)
      ensures accepted <==> |old(pending)| < limits.maxPending && old(active) < limits.maxActive &&
                            old(All())[host] < limits.maxPerHost
      ensures accepted ==>
        var rateLimited := CountRecent(Times(old(history), host), now) >= limits.maxAttempts;
        pending == old(pending) + [Queued(descriptor, host, rateLimited)]
      ensures !accepted ==> pending == old(pending) && active == old(active) && activeByHost == old(activeByHost)
    {
      var rateLimited := NoteAttempt(host, now);
      accepted, pending, active, activeByHost :=
        Admit(pending, active, activeByHost, limits, Queued(descriptor, host, rateLimited), inService);
    }

    /** A worker takes the connection that has waited longest. */
    method PickUp() returns (c: Option<Queued>)
      requires Valid()
      modifies this`pending, this`inService
      ensures Valid() && (c.None? <==> old(pending) == [])
      ensures c.None? ==> pending == [] && inService == old(inService)
      ensures c.Some? ==>
        && old(pending) == [c.value] + pending && inService == old(inService) + multiset{c.value.host}
        && All() == old(All())
    {
      if pending == [] {
        return None;
      }
      c := Some(pending[0]);
      assert pending == [pending[0]] + pending[1..];
      inService := inService + multiset{pending[0].host};
      pending := pending[1..];
      assert All() == old(All());
    }

    /** A worker is done with a connection it took. */
    method Release(host: string)
      requires Valid() && host in inService
      modifies this`active, this`activeByHost, this`inService
      ensures Valid() && inService == old(inService) - multiset{host}
      ensures active == old(active) - 1
    {
      var a, counts := GiveBack(active, activeByHost, host, pending, inService, limits);
      active, activeByHost, inService := a, counts, inService - multiset{host};
    }
  }

  /** What may happen next: a connection arrives some time later, an idle worker takes one, or the worker
      that holds the `n`th connection in service is done with it. */
  datatype Event = Arrive(descriptor: int, host: string, later: nat) | TakeNext | Finish(n: nat)

  lemma UnionAssociative(a: multiset<string>, b: multiset<string>, c: multiset<string>)
    ensures (a + b) + c == a + (b + c) && multiset{} + c == c
  {
  }

  lemma ConcatFirst(p: seq<Queued>, q: seq<Queued>)
    requires p != []
    ensures Hosts(p + q) == multiset{p[0].host} + Hosts(p[1..] + q)
  {
    assert (p + q)[1..] == p[1..] + q;
  }

  lemma {:induction false} HostsConcat(p: seq<Queued>, q: seq<Queued>)
    ensures Hosts(p + q) == Hosts(p) + Hosts(q)
  {
    if p == [] {
      assert p + q == q;
      UnionAssociative(multiset{}, multiset{}, Hosts(q));
    } else {
      ConcatFirst(p, q);
      HostsConcat(p[1..], q);
      UnionAssociative(multiset{p[0].host}, Hosts(p[1..]), Hosts(q));
    }
  }

  lemma HostsSplit(working: seq<Queued>, n: nat)
    requires n < |working|
    ensures Hosts(working) == Hosts(working[..n]) + (multiset{working[n].host} + Hosts(working[n + 1..]))
  {
    assert working[n..][1..] == working[n + 1..];
    assert working[..n] + working[n..] == working;
    HostsConcat(working[..n], working[n..]);
  }

  lemma HostsRemove(working: seq<Queued>, n: nat)
    requires n < |working|
    ensures working[n].host in Hosts(working)
    ensures Hosts(working) - multiset{working[n].host} == Hosts(working[..n] + working[n + 1..])
  {
    HostsSplit(working, n);
    HostsConcat(working[..n], working[n + 1..]);
    TakeOut(Hosts(working[..n]), Hosts(working[n + 1..]), working[n].host);
  }

  lemma TakeOut(a: multiset<string>, b: multiset<string>, host: string)
    ensures a + (multiset{host} + b) - multiset{host} == a + b && host in a + (multiset{host} + b)
  {
  }

  lemma LaterStill(history: seq<Attempt>, now: int, next: Attempt)
    requires NotBefore(history, now) && now <= next.at
    ensures NotBefore(history, next.at) && NotBefore(history + [next], next.at)
  {
  }

  method Step(a: Admission, event: Event, now: int, working: seq<Queued>)
    returns (after: int, stillWorking: seq<Queued>)
    requires a.Valid() && a.inService == Hosts(working) && NotBefore(a.history, now)
    modifies a
    ensures a.Valid() && a.inService == Hosts(stillWorking) && NotBefore(a.history, after)
  {
    after, stillWorking := now, working;
    match event
    case Arrive(descriptor, host, later) =>
      after := now + later;
      ghost var was := a.history;
      LaterStill(was, now, Attempt(host, after));
      var accepted := a.Enqueue(descriptor, host, after);
    case TakeNext =>
      var c := a.PickUp();
      if c.Some? {
        HostsAppend(working, c.value);
        stillWorking := working + [c.value];
      }
    case Finish(n) =>
      if n < |working| {
        stillWorking := FinishOne(a, n, working);
      }
  }

  method FinishOne(a: Admission, n: nat, working: seq<Queued>) returns (stillWorking: seq<Queued>)
    requires a.Valid() && a.inService == Hosts(working) && n < |working|
    modifies a
    ensures a.Valid() && a.inService == Hosts(stillWorking) && a.history == old(a.history)
  {
    HostsRemove(working, n);
    a.Release(working[n].host);
    return working[..n] + working[n + 1..];
  }

  lemma {:induction false} HostsSize(p: seq<Queued>)
    ensures |Hosts(p)| == |p|
  {
    if p != [] {
      HostsSize(p[1..]);
    }
  }

  /** Over every run the limits hold, and the counters are those of the connections that wait and that the
      workers hold. */
  method Run(limits: Limits, events: seq<Event>, start: int) returns (a: Admission, working: seq<Queued>)
    ensures fresh(a) && a.Valid() && a.limits == limits
    ensures a.active == |a.pending| + |working| && Counts(a.activeByHost, Hosts(a.pending + working))
  {
    a := new Admission(limits);
    working := [];
    var now := start;
    var e := 0;
    while e < |events|
      invariant e <= |events| && fresh(a) && a.Valid() && a.limits == limits
      invariant a.inService == Hosts(working) && NotBefore(a.history, now)
      modifies a
    {
      now, working := Step(a, events[e], now, working);
      e := e + 1;
    }
    HostsConcat(a.pending, working);
    HostsSize(working);
  }
}
