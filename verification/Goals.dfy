/** Goal arbitration: `GoalSelector`, a preemptive arbiter over control bit masks.

    The virtual callbacks of a goal run code this model does not see.  Their effect on the arbiter
    is what they answer, so a `Callbacks` value fixes the answer of every poll as an arbitrary
    function of the goal polled and of all calls made before, and `log` records the calls. */
module Goals {

  class Goal {
    const priority: nat
    const controls: bv8
    var running: bool

    constructor (priority: nat, controls: bv8)
      ensures this.priority == priority && this.controls == controls && !running
    {
      this.priority := priority;
      this.controls := controls;
      running := false;
    }
  }

  datatype Event =
    | PollContinue(goal: Goal, answer: bool)
    | PollStart(goal: Goal, answer: bool)
    | Started(goal: Goal)
    | Stopped(goal: Goal)
    | Ticked(goal: Goal)

  datatype Callbacks = Callbacks(
    canContinue: (Goal, seq<Event>) -> bool,
    canStart: (Goal, seq<Event>) -> bool)

  /** `controls_overlap`. */
  predicate Overlap(left: bv8, right: bv8) {
    left & right != 0
  }

  // ---------------------------------------------------------------------------------------
  // The record of calls
  // ---------------------------------------------------------------------------------------

  /** Is the goal on after these calls, going by its last start or stop? */
  ghost predicate IsOn(log: seq<Event>, g: Goal) {
    if log == [] then false
    else
      var last := log[|log| - 1];
      if last == Started(g) then true
      else if last == Stopped(g) then false
      else IsOn(log[..|log| - 1], g)
  }

  /** Starts and stops of the goal alternate, beginning with a start. */
  ghost predicate Alternates(log: seq<Event>, g: Goal) {
    log == [] ||
    (var last, before := log[|log| - 1], log[..|log| - 1];
     && Alternates(before, g)
     && (last == Started(g) ==> !IsOn(before, g))
     && (last == Stopped(g) ==> IsOn(before, g)))
  }

  /** The calls made after the log was `before` long. */
  ghost function Since(log: seq<Event>, before: nat): seq<Event> {
    if before <= |log| then log[before..] else []
  }

  /** A goal started since `before` has not been stopped since. */
  ghost predicate StartsStand(log: seq<Event>, before: nat) {
    forall k, m :: before <= k < m < |log| && log[k].Started? ==> log[m] != Stopped(log[k].goal)
  }

  /** Every poll got the answer the callbacks give to the calls made until then. */
  ghost predicate Honest(c: Callbacks, log: seq<Event>, before: nat) {
    forall k {:trigger log[..k]} :: before <= k < |log| ==> Truthful(c, log[..k], log[k])
  }

  ghost predicate Truthful(c: Callbacks, log: seq<Event>, e: Event) {
    && (e.PollStart? ==> e.answer == c.canStart(e.goal, log))
    && (e.PollContinue? ==> e.answer == c.canContinue(e.goal, log))
  }

  lemma LogStep(log: seq<Event>, e: Event, g: Goal)
    ensures Alternates(log + [e], g) ==
            (Alternates(log, g) && (e == Started(g) ==> !IsOn(log, g)) && (e == Stopped(g) ==> IsOn(log, g)))
    ensures IsOn(log + [e], g) == (e == Started(g) || (e != Stopped(g) && IsOn(log, g)))
  {
    assert (log + [e])[..|log|] == log;
  }

  lemma {:induction false} NeverCalled(log: seq<Event>, g: Goal)
    requires forall e :: e in log ==> e.goal != g
    ensures Alternates(log, g) && !IsOn(log, g)
  {
    if log != [] {
      assert log[|log| - 1] in log;
      NeverCalled(log[..|log| - 1], g);
    }
  }

  lemma SinceStep(log: seq<Event>, before: nat, e: Event)
    requires before <= |log|
    ensures forall o :: o in Since(log + [e], before) <==> o == e || o in Since(log, before)
  {
    assert (log + [e])[before..] == log[before..] + [e];
  }

  /** The answers the goal has given, since `before`, to whether it continues. */
  ghost function Answers(log: seq<Event>, before: nat, g: Goal): seq<bool> {
    if |log| <= before then []
    else
      var last := log[|log| - 1];
      Answers(log[..|log| - 1], before, g) + if last.PollContinue? && last.goal == g then [last.answer] else []
  }

  lemma AnswersStep(log: seq<Event>, before: nat, e: Event, g: Goal)
    requires before <= |log|
    ensures Answers(log + [e], before, g) ==
            if e.PollContinue? && e.goal == g then Answers(log, before, g) + [e.answer] else Answers(log, before, g)
  {
    assert (log + [e])[..|log|] == log;
    assert Answers(log, before, g) + [] == Answers(log, before, g);
  }

  /** Nobody has been asked to continue since the log was `from` long. */
  ghost predicate NoneAsked(log: seq<Event>, from: nat) {
    forall m :: from <= m < |log| ==> !log[m].PollContinue?
  }

  lemma {:induction false} AnswersStay(log: seq<Event>, log': seq<Event>, before: nat, g: Goal)
    requires before <= |log| && log <= log' && NoneAsked(log', |log|)
    ensures Answers(log', before, g) == Answers(log, before, g)
    decreases |log'|
  {
    if |log'| > |log| {
      var less := log'[..|log'| - 1];
      AnswersStay(log, less, before, g);
      assert log' == less + [log'[|log'| - 1]];
      AnswersStep(less, before, log'[|log'| - 1], g);
    } else {
      assert log' == log;
    }
  }

  /** A goal that was running has been asked once whether it continues, and was stopped if it declined;
      a goal that was not has not been asked. */
  ghost predicate AskedOnce(log: seq<Event>, before: nat, g: Goal, wasRunning: bool) {
    var answers := Answers(log, before, g);
    if wasRunning then |answers| == 1 && (answers == [false] ==> Stopped(g) in Since(log, before)) else answers == []
  }

  lemma AskedStay(log: seq<Event>, log': seq<Event>, before: nat, goals: seq<Goal>, run0: set<Goal>)
    requires before <= |log| && log <= log' && NoneAsked(log', |log|)
    requires forall g :: g in goals ==> AskedOnce(log, before, g, g in run0)
    ensures forall g :: g in goals ==> AskedOnce(log', before, g, g in run0)
  {
    SinceOfPrefix(log, log', before);
    forall g | g in goals ensures AskedOnce(log', before, g, g in run0) {
      AnswersStay(log, log', before, g);
      assert AskedOnce(log, before, g, g in run0);
    }
  }

  /** A goal the first pass has passed, and one still ahead of it. */
  ghost predicate Done(g: Goal, run0: set<Goal>, run: set<Goal>, log: seq<Event>, before: nat) {
    AskedOnce(log, before, g, g in run0) && (g in run0 ==> (g in run <==> Answers(log, before, g) == [true]))
  }

  ghost predicate Ahead(g: Goal, run0: set<Goal>, run: set<Goal>, log: seq<Event>, before: nat) {
    Answers(log, before, g) == [] && (g in run <==> g in run0)
  }

  /** The first pass has come to goal `i`. */
  ghost predicate FirstPass(goals: seq<Goal>, i: nat, run0: set<Goal>, run: set<Goal>, log: seq<Event>, before: nat) {
    forall k :: 0 <= k < |goals| ==>
      if k < i then Done(goals[k], run0, run, log, before) else Ahead(goals[k], run0, run, log, before)
  }

  /** A goal that does not run is passed by. */
  lemma FirstPassSkips(goals: seq<Goal>, i: nat, run0: set<Goal>, run: set<Goal>, log: seq<Event>, before: nat)
    requires i < |goals| && goals[i] !in run && FirstPass(goals, i, run0, run, log, before)
    ensures FirstPass(goals, i + 1, run0, run, log, before)
  {
  }

  /** A goal that runs is asked, and stopped when it declines; `next` are the calls made. */
  ghost predicate AskedAt(g: Goal, answer: bool, log: seq<Event>, next: seq<Event>) {
    next == log + if answer then [PollContinue(g, true)] else [PollContinue(g, false), Stopped(g)]
  }

  lemma AskedAnswers(g: Goal, answer: bool, log: seq<Event>, next: seq<Event>, before: nat, o: Goal)
    requires before <= |log| && AskedAt(g, answer, log, next)
    ensures Answers(next, before, o) == if o == g then Answers(log, before, o) + [answer] else Answers(log, before, o)
    ensures forall e :: e in Since(log, before) ==> e in Since(next, before)
    ensures !answer ==> Stopped(g) in Since(next, before)
  {
    var asked := log + [PollContinue(g, answer)];
    AnswersStep(log, before, PollContinue(g, answer), o);
    SinceStep(log, before, PollContinue(g, answer));
    if !answer {
      assert next == asked + [Stopped(g)];
      AnswersStep(asked, before, Stopped(g), o);
      SinceStep(asked, before, Stopped(g));
    }
  }

  lemma FirstPassAsks(goals: seq<Goal>, i: nat, run0: set<Goal>, run: set<Goal>, log: seq<Event>, before: nat,
                      answer: bool, next: seq<Event>)
    requires i < |goals| && Distinct(goals) && before <= |log| && goals[i] in run
    requires FirstPass(goals, i, run0, run, log, before) && AskedAt(goals[i], answer, log, next)
    ensures FirstPass(goals, i + 1, run0, if answer then run else run - {goals[i]}, next, before)
  {
    var run' := if answer then run else run - {goals[i]};
    forall k | 0 <= k < |goals|
      ensures if k < i + 1 then Done(goals[k], run0, run', next, before) else Ahead(goals[k], run0, run', next, before)
    {
      AskedAnswers(goals[i], answer, log, next, before, goals[k]);
      assert k == i ==> Answers(next, before, goals[k]) == [answer];
    }
  }

  /** No start, refusal or stop asks a goal whether it continues. */
  lemma NoneAskedLater(log: seq<Event>, g: Goal, answer: bool, cleared: seq<Event>)
    requires log + [PollStart(g, answer)] <= cleared
    requires forall m :: |log| + 1 <= m < |cleared| ==> cleared[m].Stopped?
    ensures NoneAsked(log, |log|) && NoneAsked(log + [PollStart(g, answer)], |log|)
    ensures NoneAsked(cleared + [Started(g)], |log|)
  {
    assert cleared[|log|] == PollStart(g, answer);
  }

  lemma HonestStep(c: Callbacks, log: seq<Event>, before: nat, e: Event)
    requires before <= |log| && Honest(c, log, before) && Truthful(c, log, e)
    ensures Honest(c, log + [e], before)
  {
    forall k | before <= k < |log| + 1
      ensures Truthful(c, (log + [e])[..k], (log + [e])[k])
    {
      if k < |log| {
        assert (log + [e])[..k] == log[..k];
      } else {
        assert (log + [e])[..k] == log;
      }
    }
  }

  // ---------------------------------------------------------------------------------------
  // What the arbiter keeps, over the set `run` of running goals
  // ---------------------------------------------------------------------------------------

  ghost predicate Sorted(goals: seq<Goal>) {
    forall i, j :: 0 <= i < j < |goals| ==> goals[i].priority <= goals[j].priority
  }

  ghost predicate Distinct(goals: seq<Goal>) {
    forall i, j :: 0 <= i < j < |goals| ==> goals[i] != goals[j]
  }

  /** No two running goals share a control. */
  ghost predicate Exclusive(run: set<Goal>) {
    forall a, b :: a in run && b in run && a != b ==> !Overlap(a.controls, b.controls)
  }

  ghost predicate LogAgrees(goals: seq<Goal>, run: set<Goal>, log: seq<Event>) {
    forall g :: g in goals ==> Alternates(log, g) && (IsOn(log, g) <==> g in run)
  }

  /** A running goal at least as urgent holds one of the controls of `g`. */
  ghost predicate Blocked(run: set<Goal>, g: Goal) {
    exists a :: a in run && Overlap(a.controls, g.controls) && a.priority <= g.priority
  }

  /** A running goal that is strictly more urgent holds one of the controls of `g`. */
  ghost predicate Preempted(run: set<Goal>, g: Goal) {
    exists a :: a in run && Overlap(a.controls, g.controls) && a.priority < g.priority
  }

  /** A goal runs, has refused to start, or wanted to start and is kept out. */
  ghost predicate Decided(run: set<Goal>, log: seq<Event>, before: nat, g: Goal) {
    || g in run
    || PollStart(g, false) in Since(log, before)
    || (PollStart(g, true) in Since(log, before) && Blocked(run, g))
  }

  /** The second pass, begun with the goals `run0` running, has considered `goals[..i]`. */
  ghost predicate Passing(goals: seq<Goal>, run0: set<Goal>, run: set<Goal>, log: seq<Event>, before: nat, i: nat)
    requires i <= |goals|
  {
    && Exclusive(run)
    && LogPassing(goals[..i], run, log, before)
    && (forall g :: g in goals[..i] ==> Decided(run, log, before, g))
    && (forall g :: g in run && g !in run0 ==> g in goals[..i])
    && (forall g :: g in run0 && g !in run ==> Preempted(Among(run, goals[..i]), g))
  }

  /** Goals started in this pass were considered, run, and were not stopped. */
  ghost predicate LogPassing(considered: seq<Goal>, run: set<Goal>, log: seq<Event>, before: nat) {
    && StartsStand(log, before)
    && (forall e :: e in Since(log, before) ==> !e.Ticked?)
    && (forall e :: e in Since(log, before) && e.Started? ==> e.goal in considered && e.goal in run)
  }

  ghost function Among(run: set<Goal>, goals: seq<Goal>): set<Goal> {
    set a | a in run && a in goals
  }

  /** The running goals in the candidate's way. */
  ghost function InTheWay(run: set<Goal>, candidate: Goal): set<Goal> {
    set a | a in run && Overlap(a.controls, candidate.controls)
  }

  lemma PassingBegins(goals: seq<Goal>, run: set<Goal>, log: seq<Event>, before: nat)
    requires before <= |log| && Exclusive(run)
    requires forall e :: e in Since(log, before) ==> e.PollContinue? || e.Stopped?
    ensures Passing(goals, run, run, log, before, 0)
  {
    assert forall k :: before <= k < |log| ==> log[k] in Since(log, before);
  }

  lemma PassingEnds(goals: seq<Goal>, run0: set<Goal>, run: set<Goal>, log: seq<Event>, before: nat)
    requires Passing(goals, run0, run, log, before, |goals|)
    requires forall g :: g in run ==> g in goals
    ensures forall g :: g in goals ==> Decided(run, log, before, g)
    ensures forall g :: g in run0 - run ==> Preempted(run, g)
  {
    assert goals[..|goals|] == goals;
    assert Among(run, goals) == run;
  }

  /** The calls since `before` end with exactly these ticks. */
  ghost predicate EndsWith(log: seq<Event>, before: nat, ticks: seq<Event>) {
    && before + |ticks| <= |log|
    && log[|log| - |ticks|..] == ticks
    && forall k :: before <= k < |log| - |ticks| ==> !log[k].Ticked?
  }

  /** A candidate that runs already is passed over. */
  lemma RunningKeepsPassing(goals: seq<Goal>, run0: set<Goal>, run: set<Goal>, log: seq<Event>, before: nat, i: nat)
    requires i < |goals| && goals[i] in run && Passing(goals, run0, run, log, before, i)
    ensures Passing(goals, run0, run, log, before, i + 1)
  {
    assert goals[..i + 1] == goals[..i] + [goals[i]];
  }

  lemma RefusalKeepsPassing(goals: seq<Goal>, run0: set<Goal>, run: set<Goal>, log: seq<Event>, before: nat, i: nat,
                            answer: bool)
    requires i < |goals| && before <= |log| && Passing(goals, run0, run, log, before, i)
    requires answer ==> Blocked(run, goals[i])
    ensures Passing(goals, run0, run, log + [PollStart(goals[i], answer)], before, i + 1)
  {
    SinceStep(log, before, PollStart(goals[i], answer));
    assert goals[..i + 1] == goals[..i] + [goals[i]];
  }

  /** Starting an unblocked candidate displaces only less urgent goals, so none considered before it. */
  lemma WayIsLater(goals: seq<Goal>, run: set<Goal>, i: nat)
    requires i < |goals| && Sorted(goals) && !Blocked(run, goals[i])
    ensures forall a :: a in InTheWay(run, goals[i]) ==> goals[i].priority < a.priority && a !in goals[..i]
  {
  }

  ghost function AfterStart(run: set<Goal>, candidate: Goal): set<Goal> {
    run - InTheWay(run, candidate) + {candidate}
  }

  lemma StartKeepsExclusive(run: set<Goal>, candidate: Goal)
    requires Exclusive(run)
    ensures Exclusive(AfterStart(run, candidate))
  {
    forall a | a in run
      ensures Overlap(a.controls, candidate.controls) == Overlap(candidate.controls, a.controls)
    {
      Symmetric(a.controls, candidate.controls);
    }
  }

  lemma StartKeepsDecided(goals: seq<Goal>, run: set<Goal>, log: seq<Event>, log': seq<Event>, before: nat, i: nat,
                          g: Goal)
    requires i < |goals| && Sorted(goals) && !Blocked(run, goals[i])
    requires g in goals[..i] && Decided(run, log, before, g)
    requires forall e :: e in Since(log, before) ==> e in Since(log', before)
    ensures Decided(AfterStart(run, goals[i]), log', before, g)
  {
    WayIsLater(goals, run, i);
    if Blocked(run, g) {
      var a :| a in run && Overlap(a.controls, g.controls) && a.priority <= g.priority;
      assert a in AfterStart(run, goals[i]);
    }
  }

  lemma StartKeepsPreempted(goals: seq<Goal>, run: set<Goal>, i: nat, g: Goal)
    requires i < |goals| && Sorted(goals) && !Blocked(run, goals[i])
    requires g in run || Preempted(Among(run, goals[..i]), g)
    requires g !in AfterStart(run, goals[i])
    ensures Preempted(Among(AfterStart(run, goals[i]), goals[..i + 1]), g)
  {
    var candidate := goals[i];
    WayIsLater(goals, run, i);
    assert goals[..i + 1] == goals[..i] + [candidate];
    if g in run {
      Symmetric(g.controls, candidate.controls);
      assert candidate in Among(AfterStart(run, candidate), goals[..i + 1]);
    } else {
      assert Among(run, goals[..i]) <= Among(AfterStart(run, candidate), goals[..i + 1]);
    }
  }

  lemma StartKeepsPassing(goals: seq<Goal>, run0: set<Goal>, run: set<Goal>, log: seq<Event>, log': seq<Event>,
                          before: nat, i: nat)
    requires i < |goals| && before <= |log| && Sorted(goals) && Passing(goals, run0, run, log, before, i)
    requires goals[i] !in run && !Blocked(run, goals[i])
    requires log + [PollStart(goals[i], true)] <= log'
    requires forall m :: |log| < m < |log'| ==> log'[m].Stopped? && log'[m].goal in InTheWay(run, goals[i])
    ensures Passing(goals, run0, AfterStart(run, goals[i]), log' + [Started(goals[i])], before, i + 1)
  {
    var candidate := goals[i];
    assert goals[..i + 1] == goals[..i] + [candidate];
    WayIsLater(goals, run, i);
    StartKeepsExclusive(run, candidate);
    StartKeepsLog(log, log', before, goals[..i], run, candidate);
    forall g | g in goals[..i] {
      StartKeepsDecided(goals, run, log, log' + [Started(candidate)], before, i, g);
    }
    forall g | g in run0 && g !in AfterStart(run, candidate) {
      StartKeepsPreempted(goals, run, i, g);
    }
  }

  /** The calls of one start: a poll, the stops of the goals in the way. */
  lemma SinceGrows(log: seq<Event>, log': seq<Event>, before: nat, candidate: Goal, out: set<Goal>)
    requires before <= |log| && log + [PollStart(candidate, true)] <= log'
    requires forall m :: |log| < m < |log'| ==> log'[m].Stopped? && log'[m].goal in out
    ensures forall e :: e in Since(log', before) ==>
      e in Since(log, before) || e == PollStart(candidate, true) || (e.Stopped? && e.goal in out)
    ensures forall e :: e in Since(log, before) ==> e in Since(log', before)
    ensures PollStart(candidate, true) in Since(log', before)
  {
    var tail := log'[|log| + 1..];
    assert log' == log + [PollStart(candidate, true)] + tail;
    assert log'[before..] == log[before..] + [PollStart(candidate, true)] + tail;
    assert forall e :: e in tail ==> e.Stopped? && e.goal in out;
  }

  lemma StartKeepsLog(log: seq<Event>, log': seq<Event>, before: nat, considered: seq<Goal>, run: set<Goal>,
                      candidate: Goal)
    requires before <= |log| && log + [PollStart(candidate, true)] <= log' && LogPassing(considered, run, log, before)
    requires forall m :: |log| < m < |log'| ==> log'[m].Stopped? && log'[m].goal in InTheWay(run, candidate)
    requires forall a :: a in InTheWay(run, candidate) ==> a !in considered
    ensures LogPassing(considered + [candidate], AfterStart(run, candidate), log' + [Started(candidate)], before)
    ensures forall e :: e in Since(log, before) ==> e in Since(log' + [Started(candidate)], before)
  {
    StartsStandGrows(log, log', before, considered, candidate, InTheWay(run, candidate));
    SinceGrows(log, log', before, candidate, InTheWay(run, candidate));
    SinceStep(log', before, Started(candidate));
  }

  lemma StartsStandGrows(log: seq<Event>, log': seq<Event>, before: nat, considered: seq<Goal>, candidate: Goal,
                         out: set<Goal>)
    requires before <= |log| && log + [PollStart(candidate, true)] <= log' && StartsStand(log, before)
    requires forall m :: |log| < m < |log'| ==> log'[m].Stopped? && log'[m].goal in out
    requires forall e :: e in Since(log, before) && e.Started? ==> e.goal in considered
    requires forall a :: a in out ==> a !in considered
    ensures StartsStand(log' + [Started(candidate)], before)
  {
    var log'' := log' + [Started(candidate)];
    forall k, m | before <= k < m < |log''| && log''[k].Started?
      ensures log''[m] != Stopped(log''[k].goal)
    {
      assert k < |log|;
      assert log''[k] == log[k] == log[before..][k - before];
      assert log[k] in Since(log, before);
      if m < |log| {
        assert log''[m] == log[m];
      }
    }
  }

  // ---------------------------------------------------------------------------------------
  // Who is asked to start, and who starts
  // ---------------------------------------------------------------------------------------

  /** The answers the goal has given, since `before`, to whether it starts. */
  ghost function StartAnswers(log: seq<Event>, before: nat, g: Goal): seq<bool> {
    if |log| <= before then []
    else
      var last := log[|log| - 1];
      StartAnswers(log[..|log| - 1], before, g) + if last.PollStart? && last.goal == g then [last.answer] else []
  }

  /** The goals that are on after these calls. */
  ghost function OnAmong(goals: seq<Goal>, log: seq<Event>): set<Goal> {
    set g | g in goals && IsOn(log, g)
  }

  /** A goal whose turn in the second pass is over.  It was asked to start once, but for one that has run
      all the time, which was not asked; and it started just when it agreed and no goal that was running at
      that moment and is as urgent held one of its controls. */
  ghost predicate Considered(goals: seq<Goal>, g: Goal, wasRunning: bool, log: seq<Event>, before: nat) {
    && |StartAnswers(log, before, g)| == (if wasRunning && Stopped(g) !in Since(log, before) then 0 else 1)
    && (StartAnswers(log, before, g) == [] ==> Started(g) !in Since(log, before))
    && forall m :: before <= m < |log| && log[m].PollStart? && log[m].goal == g ==>
         (Started(g) in Since(log, before) <==> log[m].answer && !Blocked(OnAmong(goals, log[..m]), g))
  }

  /** A goal whose turn is still to come has neither been asked to start nor started. */
  ghost predicate Awaited(g: Goal, log: seq<Event>, before: nat) {
    forall e :: e in Since(log, before) && (e.PollStart? || e.Started?) ==> e.goal != g
  }

  /** The second pass has come to goal `i`. */
  ghost predicate SecondPass(goals: seq<Goal>, i: nat, run0: set<Goal>, log: seq<Event>, before: nat) {
    forall k :: 0 <= k < |goals| ==>
      if k < i then Considered(goals, goals[k], goals[k] in run0, log, before) else Awaited(goals[k], log, before)
  }

  /** What the turn of a goal adds to the calls. */
  ghost predicate Turn(run: set<Goal>, g: Goal, log: seq<Event>, log': seq<Event>) {
    if g in run then log' == log
    else
      && |log| < |log'| && log <= log' && log'[|log|].PollStart? && log'[|log|].goal == g
      && if !log'[|log|].answer || Blocked(run, g) then |log'| == |log| + 1
         else
           && |log| + 2 <= |log'| && log'[|log'| - 1] == Started(g)
           && forall m :: |log| < m < |log'| - 1 ==> log'[m].Stopped? && log'[m].goal in InTheWay(run, g)
  }

  lemma TurnIsRefusal(run: set<Goal>, g: Goal, log: seq<Event>, answer: bool)
    requires g !in run && (!answer || Blocked(run, g))
    ensures Turn(run, g, log, log + [PollStart(g, answer)])
  {
  }

  lemma TurnIsStart(run: set<Goal>, g: Goal, log: seq<Event>, cleared: seq<Event>)
    requires g !in run && !Blocked(run, g) && log + [PollStart(g, true)] <= cleared
    requires forall m :: |log| < m < |cleared| ==> cleared[m].Stopped? && cleared[m].goal in InTheWay(run, g)
    ensures Turn(run, g, log, cleared + [Started(g)])
  {
    assert cleared[|log|] == PollStart(g, true);
    assert log <= cleared;
  }

  lemma StartAnswersStep(log: seq<Event>, before: nat, e: Event, g: Goal)
    requires before <= |log|
    ensures StartAnswers(log + [e], before, g) ==
            if e.PollStart? && e.goal == g then StartAnswers(log, before, g) + [e.answer]
            else StartAnswers(log, before, g)
  {
    assert (log + [e])[..|log|] == log;
    assert StartAnswers(log, before, g) + [] == StartAnswers(log, before, g);
  }

  /** Calls that do not concern whether the goal runs. */
  ghost predicate NotAbout(e: Event, g: Goal) {
    e.goal != g || e.PollContinue? || e.Ticked?
  }

  lemma {:induction false} StartAnswersStay(log: seq<Event>, log': seq<Event>, before: nat, g: Goal)
    requires before <= |log| && log <= log'
    requires forall m :: |log| <= m < |log'| ==> log'[m].goal != g || !log'[m].PollStart?
    ensures StartAnswers(log', before, g) == StartAnswers(log, before, g)
    decreases |log'|
  {
    if |log'| > |log| {
      var less := log'[..|log'| - 1];
      StartAnswersStay(log, less, before, g);
      assert log' == less + [log'[|log'| - 1]];
      StartAnswersStep(less, before, log'[|log'| - 1], g);
    } else {
      assert log' == log;
    }
  }

  lemma SinceBy(log: seq<Event>, before: nat, e: Event)
    requires before <= |log|
    ensures e in Since(log, before) <==> exists m :: before <= m < |log| && log[m] == e
  {
    if e in Since(log, before) {
      var k :| 0 <= k < |log[before..]| && log[before..][k] == e;
      assert log[before + k] == e;
    }
    if m :| before <= m < |log| && log[m] == e {
      assert log[before..][m - before] == e;
    }
  }

  /** Calls about other goals leave a turn that is over as it was. */
  lemma ConsideredStays(goals: seq<Goal>, g: Goal, wasRunning: bool, log: seq<Event>, log': seq<Event>, before: nat)
    requires before <= |log| && log <= log' && Considered(goals, g, wasRunning, log, before)
    requires forall m :: |log| <= m < |log'| ==> NotAbout(log'[m], g)
    ensures Considered(goals, g, wasRunning, log', before)
  {
    StartAnswersStay(log, log', before, g);
    SinceBy(log, before, Stopped(g));
    SinceBy(log', before, Stopped(g));
    SinceBy(log, before, Started(g));
    SinceBy(log', before, Started(g));
    forall m | before <= m < |log'| && log'[m].PollStart? && log'[m].goal == g
      ensures Started(g) in Since(log', before) <==> log'[m].answer && !Blocked(OnAmong(goals, log'[..m]), g)
    {
      assert m < |log| && log'[m] == log[m] && log'[..m] == log[..m];
    }
  }

  lemma {:induction false} NeverAskedToStart(log: seq<Event>, before: nat, g: Goal)
    requires forall m :: before <= m < |log| ==> log[m].goal != g || !log[m].PollStart?
    ensures StartAnswers(log, before, g) == []
  {
    if |log| > before {
      NeverAskedToStart(log[..|log| - 1], before, g);
    }
  }

  /** A goal that has not been started since runs just when it did and has not been stopped. */
  lemma {:induction false} OnSince(log: seq<Event>, before: nat, g: Goal)
    requires before <= |log| && forall m :: before <= m < |log| ==> log[m] != Started(g)
    ensures IsOn(log, g) <==> IsOn(log[..before], g) && forall m :: before <= m < |log| ==> log[m] != Stopped(g)
    decreases |log|
  {
    if |log| == before {
      assert log[..before] == log;
    } else {
      var less := log[..|log| - 1];
      OnSince(less, before, g);
      assert less[..before] == log[..before];
      assert forall m :: before <= m < |less| ==> less[m] == log[m];
    }
  }

  /** Before its turn a goal runs just when it did and has not been stopped. */
  lemma AwaitedRuns(g: Goal, log: seq<Event>, before: nat)
    requires before <= |log| && Awaited(g, log, before)
    ensures forall m :: before <= m < |log| ==> log[m] != Started(g) && (log[m].goal != g || !log[m].PollStart?)
    ensures StartAnswers(log, before, g) == []
    ensures IsOn(log, g) <==> IsOn(log[..before], g) && Stopped(g) !in Since(log, before)
  {
    forall m | before <= m < |log|
      ensures log[m] != Started(g) && (log[m].goal != g || !log[m].PollStart?)
    {
      SinceBy(log, before, log[m]);
    }
    NeverAskedToStart(log, before, g);
    OnSince(log, before, g);
    SinceBy(log, before, Stopped(g));
  }

  /** The turn of a goal that runs. */
  lemma TurnPasses(goals: seq<Goal>, g: Goal, log: seq<Event>, before: nat)
    requires before <= |log| && Awaited(g, log, before) && IsOn(log, g)
    ensures Considered(goals, g, IsOn(log[..before], g), log, before)
  {
    AwaitedRuns(g, log, before);
    SinceBy(log, before, Started(g));
  }

  /** Once it is asked. */
  lemma TurnAsks(goals: seq<Goal>, g: Goal, log: seq<Event>, before: nat, answer: bool)
    requires before <= |log| && Awaited(g, log, before) && !IsOn(log, g)
    ensures
      var asked := log + [PollStart(g, answer)];
      && StartAnswers(asked, before, g) == [answer] && Started(g) !in Since(asked, before)
      && (IsOn(log[..before], g) ==> Stopped(g) in Since(asked, before))
      && forall m :: before <= m < |asked| && asked[m].PollStart? && asked[m].goal == g ==>
           m == |log| && asked[m].answer == answer && asked[..m] == log
  {
    AwaitedRuns(g, log, before);
    SinceBy(log, before, Started(g));
    SinceStep(log, before, PollStart(g, answer));
    StartAnswersStep(log, before, PollStart(g, answer), g);
  }

  lemma TurnRefused(goals: seq<Goal>, g: Goal, log: seq<Event>, before: nat, answer: bool)
    requires before <= |log| && Awaited(g, log, before) && !IsOn(log, g)
    requires !answer || Blocked(OnAmong(goals, log), g)
    ensures Considered(goals, g, IsOn(log[..before], g), log + [PollStart(g, answer)], before)
  {
    TurnAsks(goals, g, log, before, answer);
  }

  lemma SinceOthers(log: seq<Event>, log': seq<Event>, before: nat, e: Event)
    requires before <= |log| && log <= log' && forall m :: |log| <= m < |log'| ==> log'[m] != e
    ensures e in Since(log', before) <==> e in Since(log, before)
  {
    SinceBy(log, before, e);
    SinceBy(log', before, e);
  }

  lemma TurnStarts(goals: seq<Goal>, g: Goal, log: seq<Event>, cleared: seq<Event>, before: nat)
    requires before <= |log| && Awaited(g, log, before) && !IsOn(log, g)
    requires log + [PollStart(g, true)] <= cleared && !Blocked(OnAmong(goals, log), g)
    requires forall m :: |log| < m < |cleared| ==> cleared[m].Stopped? && cleared[m].goal != g
    ensures Considered(goals, g, IsOn(log[..before], g), cleared + [Started(g)], before)
  {
    var asked, log' := log + [PollStart(g, true)], cleared + [Started(g)];
    TurnAsks(goals, g, log, before, true);
    StartAnswersStay(asked, log', before, g);
    SinceOthers(asked, log', before, Stopped(g));
    SinceStep(cleared, before, Started(g));
    OnePoll(g, log, log', before);
  }

  lemma OnePoll(g: Goal, log: seq<Event>, log': seq<Event>, before: nat)
    requires before <= |log| && Awaited(g, log, before) && log + [PollStart(g, true)] <= log'
    requires forall m :: |log| < m < |log'| ==> !log'[m].PollStart?
    ensures forall m :: before <= m < |log'| && log'[m].PollStart? && log'[m].goal == g ==>
      log'[m].answer && log'[..m] == log
  {
    AwaitedRuns(g, log, before);
    assert forall m :: before <= m < |log| ==> log'[m] == log[m];
    assert log'[..|log|] == log;
  }

  /** The turn of a goal is over. */
  lemma TurnConsiders(goals: seq<Goal>, g: Goal, run: set<Goal>, log: seq<Event>, log': seq<Event>, before: nat)
    requires before <= |log| && Turn(run, g, log, log') && Awaited(g, log, before) && g in goals
    requires run == OnAmong(goals, log)
    ensures Considered(goals, g, IsOn(log[..before], g), log', before)
  {
    if g in run {
      TurnPasses(goals, g, log, before);
    } else {
      var answer := log'[|log|].answer;
      if !answer || Blocked(run, g) {
        assert log' == log + [PollStart(g, answer)];
        TurnRefused(goals, g, log, before, answer);
      } else {
        var cleared := log'[..|log'| - 1];
        assert log' == cleared + [Started(g)];
        TurnStarts(goals, g, log, cleared, before);
      }
    }
  }

  lemma TurnKeepsSecondPass(goals: seq<Goal>, i: nat, run0: set<Goal>, run: set<Goal>, log: seq<Event>,
                            log': seq<Event>, before: nat)
    requires i < |goals| && Sorted(goals) && Distinct(goals) && before <= |log| && log <= log'
    requires run == OnAmong(goals, log) && run0 == OnAmong(goals, log[..before])
    requires SecondPass(goals, i, run0, log, before) && Turn(run, goals[i], log, log')
    ensures SecondPass(goals, i + 1, run0, log', before)
  {
    forall k | 0 <= k < |goals|
      ensures if k < i + 1 then Considered(goals, goals[k], goals[k] in run0, log', before)
              else Awaited(goals[k], log', before)
    {
      if k == i {
        TurnConsiders(goals, goals[i], run, log, log', before);
      } else if k < i {
        TurnIsLater(goals, i, k, run, log, log');
        ConsideredStays(goals, goals[k], goals[k] in run0, log, log', before);
      } else {
        AwaitedStays(goals[k], goals[i], run, log, log', before);
      }
    }
  }

  lemma TurnIsLater(goals: seq<Goal>, i: nat, k: nat, run: set<Goal>, log: seq<Event>, log': seq<Event>)
    requires k < i < |goals| && Sorted(goals) && Distinct(goals) && Turn(run, goals[i], log, log')
    ensures forall m :: |log| <= m < |log'| ==> NotAbout(log'[m], goals[k])
  {
    if !Blocked(run, goals[i]) {
      WayIsLater(goals, run, i);
      assert goals[k] in goals[..i];
    }
  }

  lemma AwaitedStays(g: Goal, turn: Goal, run: set<Goal>, log: seq<Event>, log': seq<Event>, before: nat)
    requires before <= |log| && log <= log' && g != turn && Turn(run, turn, log, log') && Awaited(g, log, before)
    ensures Awaited(g, log', before)
  {
    forall e | e in Since(log', before) && (e.PollStart? || e.Started?)
      ensures e.goal != g
    {
      SinceBy(log', before, e);
      var m :| before <= m < |log'| && log'[m] == e;
      if m < |log| {
        SinceBy(log, before, e);
      }
    }
  }

  lemma SecondPassBegins(goals: seq<Goal>, run0: set<Goal>, log: seq<Event>, before: nat)
    requires forall e :: e in Since(log, before) ==> e.PollContinue? || e.Stopped?
    ensures SecondPass(goals, 0, run0, log, before)
  {
  }

  // ---------------------------------------------------------------------------------------
  // The order of the calls
  // ---------------------------------------------------------------------------------------

  ghost predicate Earlier(goals: seq<Goal>, a: Goal, b: Goal) {
    exists i, j :: 0 <= i < j < |goals| && goals[i] == a && goals[j] == b
  }

  ghost predicate PairInOrder(goals: seq<Goal>, a: Event, b: Event) {
    && (a.PollContinue? && b.PollContinue? ==> Earlier(goals, a.goal, b.goal))
    && (a.PollStart? && b.PollStart? ==> Earlier(goals, a.goal, b.goal))
    && !(a.PollStart? && b.PollContinue?)
  }

  /** Goals are asked in order of priority, and all that continue before any that starts. */
  ghost predicate InOrder(goals: seq<Goal>, log: seq<Event>, before: nat) {
    forall k, m :: before <= k < m < |log| ==> PairInOrder(goals, log[k], log[m])
  }

  /** Only the first `i` goals have been asked whether they start. */
  ghost predicate AskedUpTo(goals: seq<Goal>, i: nat, log: seq<Event>, before: nat)
    requires i <= |goals|
  {
    InOrder(goals, log, before) && forall m :: before <= m < |log| && log[m].PollStart? ==> log[m].goal in goals[..i]
  }

  /** Only the first `i` goals have been asked whether they continue, and none whether it starts. */
  ghost predicate ContinuedUpTo(goals: seq<Goal>, i: nat, log: seq<Event>, before: nat)
    requires i <= |goals|
  {
    && InOrder(goals, log, before)
    && forall m :: before <= m < |log| ==>
         !log[m].PollStart? && (log[m].PollContinue? ==> log[m].goal in goals[..i])
  }

  lemma EarlierThan(goals: seq<Goal>, i: nat, a: Goal)
    requires i < |goals| && a in goals[..i]
    ensures Earlier(goals, a, goals[i])
  {
    var k :| 0 <= k < i && goals[..i][k] == a;
    assert goals[k] == a;
  }

  lemma ContinueInOrder(goals: seq<Goal>, i: nat, log: seq<Event>, next: seq<Event>, before: nat, answer: bool)
    requires i < |goals| && before <= |log| && ContinuedUpTo(goals, i, log, before)
    requires next == log || AskedAt(goals[i], answer, log, next)
    ensures ContinuedUpTo(goals, i + 1, next, before)
  {
    assert goals[..i + 1] == goals[..i] + [goals[i]];
    forall k, m | before <= k < m < |next|
      ensures PairInOrder(goals, next[k], next[m])
    {
      if m < |log| {
        assert PairInOrder(goals, log[k], log[m]);
      } else if k < |log| && log[k].PollContinue? {
        EarlierThan(goals, i, log[k].goal);
      }
    }
  }

  lemma StartInOrder(goals: seq<Goal>, i: nat, run: set<Goal>, log: seq<Event>, log': seq<Event>, before: nat)
    requires i < |goals| && before <= |log| && AskedUpTo(goals, i, log, before) && Turn(run, goals[i], log, log')
    ensures AskedUpTo(goals, i + 1, log', before)
  {
    assert goals[..i + 1] == goals[..i] + [goals[i]];
    forall k, m | before <= k < m < |log'|
      ensures PairInOrder(goals, log'[k], log'[m])
    {
      if m < |log| {
        assert PairInOrder(goals, log[k], log[m]);
      } else if k < |log| && log[k].PollStart? {
        EarlierThan(goals, i, log[k].goal);
      }
    }
  }

  lemma TicksInOrder(goals: seq<Goal>, log: seq<Event>, log': seq<Event>, before: nat)
    requires before <= |log| <= |log'| && log <= log' && InOrder(goals, log, before)
    requires forall m :: |log| <= m < |log'| ==> log'[m].Ticked?
    ensures InOrder(goals, log', before)
  {
    forall k, m | before <= k < m < |log'|
      ensures PairInOrder(goals, log'[k], log'[m])
    {
      if m < |log| {
        assert PairInOrder(goals, log[k], log[m]);
      }
    }
  }

  /** The second pass has come to goal `i`, with all that is known of its calls. */
  ghost predicate Turned(goals: seq<Goal>, i: nat, run0: set<Goal>, log: seq<Event>, before: nat)
    requires i <= |goals|
  {
    && before <= |log| && run0 == OnAmong(goals, log[..before])
    && SecondPass(goals, i, run0, log, before) && AskedUpTo(goals, i, log, before)
  }

  lemma TurnedNext(goals: seq<Goal>, i: nat, run0: set<Goal>, run: set<Goal>, log: seq<Event>, log': seq<Event>,
                   before: nat)
    requires i < |goals| && Sorted(goals) && Distinct(goals) && log <= log' && run == OnAmong(goals, log)
    requires Turned(goals, i, run0, log, before) && Turn(run, goals[i], log, log')
    ensures Turned(goals, i + 1, run0, log', before)
  {
    assert log'[..before] == log[..before];
    TurnKeepsSecondPass(goals, i, run0, run, log, log', before);
    StartInOrder(goals, i, run, log, log', before);
  }

  lemma TurnedEnds(goals: seq<Goal>, run0: set<Goal>, log: seq<Event>, before: nat)
    requires Turned(goals, |goals|, run0, log, before)
    ensures forall g :: g in goals ==> Considered(goals, g, g in run0, log, before)
  {
  }

  lemma OnIsRunning(goals: seq<Goal>, run: set<Goal>, log: seq<Event>)
    requires LogAgrees(goals, run, log) && forall g :: g in run ==> g in goals
    ensures OnAmong(goals, log) == run
  {
  }

  lemma Symmetric(a: bv8, b: bv8)
    ensures Overlap(a, b) == Overlap(b, a)
  {
    assert a & b == b & a;
  }

  // ---------------------------------------------------------------------------------------
  // The arbiter
  // ---------------------------------------------------------------------------------------

  class GoalSelector {
    var goals: seq<Goal>
    var log: seq<Event>

    constructor ()
      ensures Valid() && goals == [] && log == []
    {
      goals, log := [], [];
    }

    ghost function Running(): set<Goal>
      reads this`goals, goals
    {
      set g | g in goals && g.running
    }

    ghost predicate Valid()
      reads this, goals
    {
      Sorted(goals) && Distinct(goals) && Exclusive(Running()) && LogAgrees(goals, Running(), log)
    }

    /** Appends the goal and sorts stably, which places it behind all goals of equal priority. */
    method Add(goal: Goal?) returns (added: bool)
      requires Valid()
      requires goal != null ==> goal !in goals && !goal.running && forall e :: e in log ==> e.goal != goal
      modifies this`goals
      ensures Valid() && Running() == old(Running())
      ensures added == (goal != null)
      ensures goal == null ==> goals == old(goals)
      ensures goal != null ==> exists i :: InsertedAt(old(goals), goals, goal, i)
    {
      if goal == null {
        return false;
      }
      var i := |goals|;
      while i > 0 && goals[i - 1].priority > goal.priority
        invariant 0 <= i <= |goals|
        invariant forall j :: i <= j < |goals| ==> goals[j].priority > goal.priority
      {
        i := i - 1;
      }
      NeverCalled(log, goal);
      ghost var was := goals;
      goals := goals[..i] + [goal] + goals[i..];
      InsertKeepsOrder(was, goals, goal, i);
      assert Running() == old(Running());
      return true;
    }

    /** Calls a callback of `e.goal` and records it. */
    method Record(e: Event)
      requires e.goal in goals && LogAgrees(goals, Running(), log)
      requires e.Started? || e.Stopped? ==> e.goal.running == e.Stopped?
      modifies this`log, e.goal
      ensures log == old(log) + [e] && LogAgrees(goals, Running(), log)
      ensures Running() == if e.Started? then old(Running()) + {e.goal}
        else if e.Stopped? then old(Running()) - {e.goal} else old(Running())
    {
      forall g | g in goals {
        LogStep(log, e, g);
      }
      log := log + [e];
      if e.Started? {
        e.goal.running := true;
      } else if e.Stopped? {
        e.goal.running := false;
      }
      assert Running() == if e.Started? then old(Running()) + {e.goal}
        else if e.Stopped? then old(Running()) - {e.goal} else old(Running());
    }

    /** First pass: running goals that decline to continue are stopped. */
    method StopDeclined(c: Callbacks)
      requires Valid()
      modifies this`log, goals
      ensures Valid() && old(log) <= log && Honest(c, log, |old(log)|)
      ensures Running() <= old(Running())
      ensures forall g :: g in old(Running()) - Running() ==> PollContinue(g, false) in Since(log, |old(log)|)
      ensures forall e :: e in Since(log, |old(log)|) ==> e.PollContinue? || e.Stopped?
      // every running goal is asked once, and runs on just when it says so
      ensures forall g :: g in goals ==> AskedOnce(log, |old(log)|, g, g in old(Running()))
      ensures forall g :: g in old(Running()) ==> (g in Running() <==> Answers(log, |old(log)|, g) == [true])
      ensures ContinuedUpTo(goals, |goals|, log, |old(log)|)
    {
      ghost var before := |log|;
      for i := 0 to |goals|
        invariant ContinuedUpTo(goals, i, log, before)
        invariant old(log) <= log && Honest(c, log, before) && LogAgrees(goals, Running(), log)
        invariant FirstPass(goals, i, old(Running()), Running(), log, before)
        invariant Running() <= old(Running())
        invariant forall g :: g in old(Running()) - Running() ==> PollContinue(g, false) in Since(log, before)
        invariant forall e :: e in Since(log, before) ==> e.PollContinue? || e.Stopped?
      {
        AskInTurn(c, before, old(Running()), i);
      }
      assert forall g :: g in goals ==> Done(g, old(Running()), Running(), log, before);
    }

    /** The first pass goes on by one goal. */
    method AskInTurn(c: Callbacks, ghost before: nat, ghost run0: set<Goal>, i: nat)
      requires i < |goals| && Distinct(goals) && LogAgrees(goals, Running(), log) && before <= |log|
      requires Honest(c, log, before) && forall e :: e in Since(log, before) ==> e.PollContinue? || e.Stopped?
      requires FirstPass(goals, i, run0, Running(), log, before) && ContinuedUpTo(goals, i, log, before)
      modifies this`log, goals
      ensures old(log) <= log && Honest(c, log, before) && LogAgrees(goals, Running(), log)
      ensures FirstPass(goals, i + 1, run0, Running(), log, before) && ContinuedUpTo(goals, i + 1, log, before)
      ensures Running() <= old(Running())
      ensures forall e :: e in Since(old(log), before) ==> e in Since(log, before)
      ensures forall e :: e in Since(log, before) ==> e.PollContinue? || e.Stopped?
      ensures forall g :: g in old(Running()) - Running() ==> PollContinue(g, false) in Since(log, before)
    {
      ghost var was, run := log, Running();
      var answer := AskOne(c, before, i);
      ContinueInOrder(goals, i, was, log, before, answer);
      if goals[i] in run {
        FirstPassAsks(goals, i, run0, run, was, before, answer, log);
      } else {
        FirstPassSkips(goals, i, run0, run, was, before);
      }
    }

    /** One goal of the first pass. */
    method AskOne(c: Callbacks, ghost before: nat, i: nat) returns (answer: bool)
      requires i < |goals| && LogAgrees(goals, Running(), log) && before <= |log| && Honest(c, log, before)
      requires forall e :: e in Since(log, before) ==> e.PollContinue? || e.Stopped?
      modifies this`log, goals
      ensures old(log) <= log && Honest(c, log, before) && LogAgrees(goals, Running(), log)
      ensures goals[i] !in old(Running()) ==> log == old(log) && Running() == old(Running())
      ensures goals[i] in old(Running()) ==> AskedAt(goals[i], answer, old(log), log)
      ensures goals[i] in old(Running()) ==> Running() == if answer then old(Running()) else old(Running()) - {goals[i]}
      ensures forall e :: e in Since(old(log), before) ==> e in Since(log, before)
      ensures forall e :: e in Since(log, before) ==> e.PollContinue? || e.Stopped?
      ensures forall g :: g in old(Running()) - Running() ==> PollContinue(g, false) in Since(log, before)
    {
      answer := false;
      var g := goals[i];
      if g.running {
        answer := c.canContinue(g, log);
        HonestStep(c, log, before, PollContinue(g, answer));
        SinceStep(log, before, PollContinue(g, answer));
        Record(PollContinue(g, answer));
        if !answer {
          HonestStep(c, log, before, Stopped(g));
          SinceStep(log, before, Stopped(g));
          Record(Stopped(g));
        }
      }
    }

    /** One candidate of the second pass: it is asked, and starts unless a running goal blocks it;
        starting first stops the less urgent goals in its way. */
    method Consider(c: Callbacks, ghost before: nat, ghost run0: set<Goal>, i: nat)
      requires i < |goals| && Sorted(goals) && Distinct(goals) && LogAgrees(goals, Running(), log)
      requires before <= |log| && Honest(c, log, before) && Passing(goals, run0, Running(), log, before, i)
      modifies this`log, goals
      ensures old(log) <= log && LogAgrees(goals, Running(), log)
      ensures Turn(old(Running()), goals[i], old(log), log)
      ensures Honest(c, log, before) && Passing(goals, run0, Running(), log, before, i + 1)
      ensures NoneAsked(log, |old(log)|)
    {
      if goals[i].running {
        RunningKeepsPassing(goals, run0, Running(), log, before, i);
        return;
      }
      ghost var asked, run := log, Running();
      var answer := AskToStart(c, before, goals[i]);
      var blocked := IsBlocked(goals[i]);
      if !answer || blocked {
        RefusalKeepsPassing(goals, run0, run, asked, before, i, answer);
        TurnIsRefusal(run, goals[i], asked, answer);
        return;
      }
      ghost var cleared := StartUnblocked(c, before, goals[i], asked);
      StartKeepsPassing(goals, run0, run, asked, cleared, before, i);
      TurnIsStart(run, goals[i], asked, cleared);
    }

    method AskToStart(c: Callbacks, ghost before: nat, candidate: Goal) returns (answer: bool)
      requires LogAgrees(goals, Running(), log) && before <= |log| && Honest(c, log, before) && candidate in goals
      modifies this`log, candidate
      ensures log == old(log) + [PollStart(candidate, answer)] && LogAgrees(goals, Running(), log)
      ensures Running() == old(Running())
      ensures Honest(c, log, before) && NoneAsked(log, |old(log)|)
    {
      answer := c.canStart(candidate, log);
      HonestStep(c, log, before, PollStart(candidate, answer));
      Record(PollStart(candidate, answer));
    }

    /** Stops who is in the way and starts the candidate, which was asked when the log was `asked`. */
    method StartUnblocked(c: Callbacks, ghost before: nat, candidate: Goal, ghost asked: seq<Event>)
      returns (ghost cleared: seq<Event>)
      requires Distinct(goals) && candidate in goals && !candidate.running && LogAgrees(goals, Running(), log)
      requires before <= |log| && Honest(c, log, before) && log == asked + [PollStart(candidate, true)]
      modifies this`log, goals
      ensures old(log) <= cleared && log == cleared + [Started(candidate)] && LogAgrees(goals, Running(), log)
      ensures Honest(c, log, before) && NoneAsked(log, |asked|)
      ensures Running() == AfterStart(old(Running()), candidate)
      ensures forall m :: |old(log)| <= m < |cleared| ==>
          cleared[m].Stopped? && cleared[m].goal in InTheWay(old(Running()), candidate)
    {
      ClearTheWay(c, before, candidate);
      cleared := log;
      NoneAskedLater(asked, candidate, true, log);
      HonestStep(c, log, before, Started(candidate));
      Record(Started(candidate));
    }

    /** Does a running goal at least as urgent hold one of the candidate's controls? */
    method IsBlocked(candidate: Goal) returns (blocked: bool)
      ensures blocked <==> Blocked(Running(), candidate)
    {
      for j := 0 to |goals|
        invariant forall k :: 0 <= k < j && goals[k].running && Overlap(goals[k].controls, candidate.controls) ==>
          candidate.priority < goals[k].priority
      {
        var active := goals[j];
        if active.running && Overlap(active.controls, candidate.controls) && active.priority <= candidate.priority {
          assert active in Running();
          return true;
        }
      }
      return false;
    }

    /** Stops every running goal that shares a control with the candidate. */
    method ClearTheWay(c: Callbacks, ghost before: nat, candidate: Goal)
      requires Distinct(goals) && candidate !in Running() && LogAgrees(goals, Running(), log)
      requires before <= |log| && Honest(c, log, before)
      modifies this`log, goals
      ensures old(log) <= log && LogAgrees(goals, Running(), log) && Honest(c, log, before)
      ensures Running() == old(Running()) - InTheWay(old(Running()), candidate)
      ensures forall m :: |old(log)| <= m < |log| ==>
          log[m].Stopped? && log[m].goal in InTheWay(old(Running()), candidate)
    {
      for j := 0 to |goals|
        invariant old(log) <= log && LogAgrees(goals, Running(), log) && Honest(c, log, before)
        invariant Running() == old(Running()) - Among(InTheWay(old(Running()), candidate), goals[..j])
        invariant forall m :: |old(log)| <= m < |log| ==>
          log[m].Stopped? && log[m].goal in InTheWay(old(Running()), candidate)
      {
        var active := goals[j];
        assert goals[..j + 1] == goals[..j] + [active];
        assert active !in goals[..j];
        if active.running && Overlap(active.controls, candidate.controls) {
          HonestStep(c, log, before, Stopped(active));
          Record(Stopped(active));
        }
      }
    }

    /** The second pass goes on by one goal; it began with the goals `run1` running, the tick with `run0`. */
    method TakeTurn(c: Callbacks, ghost before: nat, ghost run0: set<Goal>, ghost run1: set<Goal>, i: nat)
      requires i < |goals| && Sorted(goals) && Distinct(goals) && LogAgrees(goals, Running(), log)
      requires before <= |log| && Honest(c, log, before) && Passing(goals, run1, Running(), log, before, i)
      requires Turned(goals, i, run0, log, before)
      modifies this`log, goals
      ensures old(log) <= log && LogAgrees(goals, Running(), log)
      ensures Honest(c, log, before) && Passing(goals, run1, Running(), log, before, i + 1)
      ensures NoneAsked(log, |old(log)|) && Turned(goals, i + 1, run0, log, before)
    {
      OnIsRunning(goals, Running(), log);
      Consider(c, before, run1, i);
      TurnedNext(goals, i, run0, old(Running()), old(log), log, before);
    }

    /** Second pass: the goals are considered in order of priority. */
    method StartWilling(c: Callbacks, ghost before: nat, ghost run0: set<Goal>)
      requires Valid() && before <= |log| && Honest(c, log, before)
      requires forall e :: e in Since(log, before) ==> e.PollContinue? || e.Stopped?
      requires ContinuedUpTo(goals, |goals|, log, before) && run0 == OnAmong(goals, log[..before])
      modifies this`log, goals
      ensures Valid() && old(log) <= log
      ensures Honest(c, log, before) && StartsStand(log, before)
      ensures forall e :: e in Since(log, before) ==> !e.Ticked?
      ensures forall e :: e in Since(old(log), before) ==> e in Since(log, before)
      ensures forall g :: g in goals ==> Decided(Running(), log, before, g)
      ensures forall g :: g in old(Running()) - Running() ==> Preempted(Running(), g)
      ensures NoneAsked(log, |old(log)|)
      ensures Turned(goals, |goals|, run0, log, before)
    {
      ConsiderAll(c, before, run0);
      PassingEnds(goals, old(Running()), Running(), log, before);
      SinceOfPrefix(old(log), log, before);
    }

    method ConsiderAll(c: Callbacks, ghost before: nat, ghost run0: set<Goal>)
      requires Valid() && before <= |log| && Honest(c, log, before)
      requires forall e :: e in Since(log, before) ==> e.PollContinue? || e.Stopped?
      requires ContinuedUpTo(goals, |goals|, log, before) && run0 == OnAmong(goals, log[..before])
      modifies this`log, goals
      ensures old(log) <= log && LogAgrees(goals, Running(), log) && Honest(c, log, before)
      ensures Passing(goals, old(Running()), Running(), log, before, |goals|)
      ensures NoneAsked(log, |old(log)|) && Turned(goals, |goals|, run0, log, before)
    {
      PassingBegins(goals, Running(), log, before);
      SecondPassBegins(goals, run0, log, before);
      for i := 0 to |goals|
        invariant Turned(goals, i, run0, log, before)
        invariant old(log) <= log && LogAgrees(goals, Running(), log)
        invariant Honest(c, log, before) && Passing(goals, old(Running()), Running(), log, before, i)
        invariant NoneAsked(log, |old(log)|)
      {
        TakeTurn(c, before, run0, old(Running()), i);
      }
    }

    /** Third pass: the running goals are ticked, each once, in order of priority. */
    method TickRunning()
      modifies this`log
      ensures log == old(log) + Ticks(goals, Running())
    {
      for i := 0 to |goals|
        invariant log == old(log) + Ticks(goals[..i], Running())
      {
        var g := goals[i];
        assert goals[..i + 1][..i] == goals[..i];
        if g.running {
          log := log + [Ticked(g)];
        }
      }
      assert goals[..|goals|] == goals;
    }

    method Tick(c: Callbacks)
      requires Valid()
      modifies this`log, goals
      ensures Valid() && old(log) <= log
      // the callbacks were asked in the recorded order
      ensures Honest(c, log, |old(log)|)
      // whoever starts in this tick is not stopped again in it
      ensures StartsStand(log, |old(log)|)
      // every goal runs, has just refused to start, or wanted to start and is kept out by a running goal as urgent
      ensures forall g :: g in goals ==> Decided(Running(), log, |old(log)|, g)
      // every running goal was asked once whether it continues, and stopped if it declined
      ensures forall g :: g in goals ==> AskedOnce(log, |old(log)|, g, g in old(Running()))
      // every goal that does not run when its turn comes is asked once to start, and starts just when it agrees
      // and no running goal as urgent is in its way
      ensures forall g :: g in goals ==> Considered(goals, g, g in old(Running()), log, |old(log)|)
      ensures InOrder(goals, log, |old(log)|)
      // whoever stops running declined to continue or gave way to a strictly more urgent goal
      ensures forall g :: g in old(Running()) - Running() ==>
        PollContinue(g, false) in Since(log, |old(log)|) || Preempted(Running(), g)
      // exactly the running goals are ticked
      ensures EndsWith(log, |old(log)|, Ticks(goals, Running()))
    {
      ghost var before := |log|;
      Arbitrate(c);
      ghost var decided := log;
      TickRunning();
      TickingEnds(c, goals, old(Running()), Running(), decided, before);
    }

    /** The first two passes: who runs in this tick. */
    method Arbitrate(c: Callbacks)
      requires Valid()
      modifies this`log, goals
      ensures Valid() && old(log) <= log && Honest(c, log, |old(log)|) && StartsStand(log, |old(log)|)
      ensures forall e :: e in Since(log, |old(log)|) ==> !e.Ticked?
      ensures forall g :: g in goals ==> Decided(Running(), log, |old(log)|, g)
      ensures forall g :: g in goals ==> AskedOnce(log, |old(log)|, g, g in old(Running()))
      ensures forall g :: g in goals ==> Considered(goals, g, g in old(Running()), log, |old(log)|)
      ensures InOrder(goals, log, |old(log)|)
      ensures forall g :: g in old(Running()) - Running() ==>
        PollContinue(g, false) in Since(log, |old(log)|) || Preempted(Running(), g)
    {
      ghost var before, was := |log|, log;
      OnIsRunning(goals, Running(), log);
      StopDeclined(c);
      assert log[..before] == was;
      ghost var continued, declined := Running(), log;
      StartWilling(c, before, old(Running()));
      TurnedEnds(goals, old(Running()), log, before);
      AskedStay(declined, log, before, goals, old(Running()));
      forall g | g in old(Running()) - Running()
        ensures PollContinue(g, false) in Since(log, before) || Preempted(Running(), g)
      {
        assert g !in continued ==> PollContinue(g, false) in Since(declined, before);
        assert g in continued ==> g in continued - Running();
      }
    }

    method StopAll()
      requires Valid()
      modifies this`log, goals
      ensures Valid() && old(log) <= log && Running() == {}
      ensures forall e :: e in Since(log, |old(log)|) <==> e.Stopped? && e.goal in old(Running())
    {
      ghost var before := |log|;
      for i := 0 to |goals|
        invariant old(log) <= log && LogAgrees(goals, Running(), log)
        invariant Running() == old(Running()) - Among(old(Running()), goals[..i])
        invariant forall e :: e in Since(log, before) <==> e.Stopped? && e.goal in Among(old(Running()), goals[..i])
      {
        var g := goals[i];
        assert goals[..i + 1] == goals[..i] + [g];
        assert g !in goals[..i];
        if g.running {
          SinceStep(log, before, Stopped(g));
          Record(Stopped(g));
        }
      }
      assert goals[..|goals|] == goals;
    }
  }

  ghost predicate InsertedAt(was: seq<Goal>, now: seq<Goal>, goal: Goal, i: nat) {
    && i <= |was| && now == was[..i] + [goal] + was[i..]
    && (forall g :: g in was[..i] ==> g.priority <= goal.priority)
    && (forall g :: g in was[i..] ==> goal.priority < g.priority)
  }

  lemma InsertKeepsOrder(was: seq<Goal>, now: seq<Goal>, goal: Goal, i: nat)
    requires Sorted(was) && Distinct(was) && goal !in was
    requires i <= |was| && now == was[..i] + [goal] + was[i..]
    requires i > 0 ==> was[i - 1].priority <= goal.priority
    requires forall j :: i <= j < |was| ==> goal.priority < was[j].priority
    ensures InsertedAt(was, now, goal, i)
    ensures Sorted(now) && Distinct(now)
    ensures forall g :: g in now <==> g in was || g == goal
  {
    assert was == was[..i] + was[i..];
    assert |now| == |was| + 1;
    forall j, k | 0 <= j < k < |now|
      ensures now[j].priority <= now[k].priority && now[j] != now[k]
    {
      InsertedPair(was, now, goal, i, j, k);
    }
    assert forall j :: 0 <= j < i ==> was[j].priority <= was[i - 1].priority;
  }

  lemma InsertedPair(was: seq<Goal>, now: seq<Goal>, goal: Goal, i: nat, j: nat, k: nat)
    requires Sorted(was) && Distinct(was) && goal !in was
    requires i <= |was| && now == was[..i] + [goal] + was[i..]
    requires i > 0 ==> was[i - 1].priority <= goal.priority
    requires i < |was| ==> goal.priority < was[i].priority
    requires j < k < |now|
    ensures now[j].priority <= now[k].priority && now[j] != now[k]
  {
  }

  /** One tick for each running goal. */
  ghost function Ticks(goals: seq<Goal>, run: set<Goal>): (events: seq<Event>)
    ensures forall e :: e in events ==> e.Ticked? && e.goal in goals && e.goal in run
  {
    if goals == [] then []
    else
      var last := goals[|goals| - 1];
      Ticks(goals[..|goals| - 1], run) + if last in run then [Ticked(last)] else []
  }

  /** The third pass leaves standing what the first two decided. */
  lemma TickingEnds(c: Callbacks, goals: seq<Goal>, run0: set<Goal>, run: set<Goal>, decided: seq<Event>, before: nat)
    requires before <= |decided| && LogAgrees(goals, run, decided) && Honest(c, decided, before)
    requires StartsStand(decided, before) && forall e :: e in Since(decided, before) ==> !e.Ticked?
    requires forall g :: g in goals ==> Decided(run, decided, before, g) && AskedOnce(decided, before, g, g in run0)
    requires forall g :: g in goals ==> Considered(goals, g, g in run0, decided, before)
    requires InOrder(goals, decided, before)
    ensures
      var log := decided + Ticks(goals, run);
      && InOrder(goals, log, before)
      && (forall g :: g in goals ==> Considered(goals, g, g in run0, log, before))
      && LogAgrees(goals, run, log) && Honest(c, log, before) && StartsStand(log, before)
      && (forall g :: g in goals ==> Decided(run, log, before, g) && AskedOnce(log, before, g, g in run0))
      && (forall e :: e in Since(decided, before) ==> e in Since(log, before))
      && EndsWith(log, before, Ticks(goals, run))
  {
    TicksKeep(c, goals, run, decided, before, goals);
    assert forall k :: before <= k < |decided| ==> decided[k] in Since(decided, before);
    AskedStay(decided, decided + Ticks(goals, run), before, goals, run0);
    TicksKeepTurns(goals, run0, run, decided, before);
  }

  lemma TicksKeepTurns(goals: seq<Goal>, run0: set<Goal>, run: set<Goal>, decided: seq<Event>, before: nat)
    requires before <= |decided| && InOrder(goals, decided, before)
    requires forall g :: g in goals ==> Considered(goals, g, g in run0, decided, before)
    ensures
      var log := decided + Ticks(goals, run);
      InOrder(goals, log, before) && forall g :: g in goals ==> Considered(goals, g, g in run0, log, before)
  {
    var log := decided + Ticks(goals, run);
    assert forall m :: |decided| <= m < |log| ==> log[m] in Ticks(goals, run);
    TicksInOrder(goals, decided, log, before);
    forall g | g in goals {
      ConsideredStays(goals, g, g in run0, decided, log, before);
    }
  }

  lemma {:induction false} TicksKeep(c: Callbacks, goals: seq<Goal>, run: set<Goal>, log: seq<Event>, before: nat,
                                     some: seq<Goal>)
    requires before <= |log| && LogAgrees(goals, run, log) && Honest(c, log, before) && StartsStand(log, before)
    ensures
      var log' := log + Ticks(some, run);
      LogAgrees(goals, run, log') && Honest(c, log', before) && StartsStand(log', before)
    ensures forall e :: e in Since(log, before) ==> e in Since(log + Ticks(some, run), before)
  {
    if some == [] {
      assert log + Ticks(some, run) == log;
    } else {
      var g := some[|some| - 1];
      var log' := log + Ticks(some[..|some| - 1], run);
      TicksKeep(c, goals, run, log, before, some[..|some| - 1]);
      if g in run {
        assert log + Ticks(some, run) == log' + [Ticked(g)];
        HonestStep(c, log', before, Ticked(g));
        SinceStep(log', before, Ticked(g));
        forall o | o in goals {
          LogStep(log', Ticked(g), o);
        }
      } else {
        assert log + Ticks(some, run) == log';
      }
    }
  }

  lemma SinceOfPrefix(log: seq<Event>, log': seq<Event>, before: nat)
    requires log <= log'
    ensures forall e :: e in Since(log, before) ==> e in Since(log', before)
  {
    if before <= |log| {
      assert log'[before..] == log[before..] + log'[|log|..];
    }
  }
}
