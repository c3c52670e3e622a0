/** `call_with_budget`: one future raced against a cancellation token and a timer. */
module CallBudget {
  import opened Prelude

  // The wrapper polls its branches inside one task. Every wake-up starts the round at a random branch and goes
  // on in rotation until a branch is ready; between any two of these steps the token may be cancelled, time
  // may pass, and the future may become ready to answer.

  datatype Outcome = Done(value: int) | Timeout(budgetMs: nat) | Cancelled

  datatype Phase =
    | NotStarted                          // the async fn has not been polled yet
    | Selecting(start: nat, tried: nat)   // inside one wake-up: `tried` branches were not ready
    | Parked                              // a whole round found nothing ready
    | Publishing                          // the timer won, OperationTimedOut is being published
    | Returned(outcome: Outcome)
    | Abandoned                           // the caller dropped the call

  datatype State = State(
    budget: nat,              // nanoseconds; 0 disables the timer
    elapsed: nat,             // since the timer was armed
    cancelled: bool,
    ready: Option<int>,       // what the future would answer if polled now
    phase: Phase,
    polls: seq<Option<int>>,  // what each poll of the future answered
    publishes: nat,           // attempts to publish OperationTimedOut
    drops: nat)               // how often the future was dropped

  function Init(budget: nat, cancelled: bool): State {
    State(budget, 0, cancelled, None, NotStarted, [], 0, 0)
  }

  /** `as_millis() as u64`. */
  function Millis(nanos: nat): nat {
    nanos / 1_000_000 % 0x1_0000_0000_0000_0000
  }

  predicate Expired(s: State) {
    s.budget != 0 && s.elapsed >= s.budget
  }

  datatype Step =
    | Cancel
    | Tick(nanos: nat)
    | BecomeReady(value: int)
    | Start(branch: nat)      // first poll of the call
    | Wake(branch: nat)       // a later poll, starting at a random branch
    | PollBranch
    | EndPublish
    | Abandon

  predicate Decided(phase: Phase) {
    phase.Publishing? || phase.Returned? || phase.Abandoned?
  }

  predicate Enabled(s: State, step: Step) {
    match step
    case Cancel => true
    case Tick(_) => true
    case BecomeReady(_) => s.ready.None?
    case Start(b) => s.phase.NotStarted? && b < 3
    case Wake(b) => s.phase.Parked? && b < 3
    case PollBranch => s.phase.Selecting?
    case EndPublish => s.phase.Publishing?
    case Abandon => s.phase.NotStarted? || s.phase.Parked? || s.phase.Publishing?
  }

  function Leave(s: State, phase: Phase): State {
    s.(phase := phase, drops := s.drops + 1)
  }

  /** Branches in source order: 0 the future, 1 the token, 2 the timer. */
  function Poll(s: State): State
    requires s.phase.Selecting?
  {
    var branch := (s.phase.start + s.phase.tried) % 3;
    if branch == 0 && s.ready.Some? then
      Leave(s.(polls := s.polls + [s.ready]), Returned(Done(s.ready.value)))
    else if branch == 1 && s.cancelled then Leave(s, Returned(Cancelled))
    else if branch == 2 && Expired(s) then s.(phase := Publishing, publishes := s.publishes + 1)
    else
      s.(polls := if branch == 0 then s.polls + [None] else s.polls,
         phase := if s.phase.tried < 2 then Selecting(s.phase.start, s.phase.tried + 1) else Parked)
  }

  function Apply(s: State, step: Step): State
    requires Enabled(s, step)
  {
    match step
    case Cancel => s.(cancelled := true)
    case Tick(d) => s.(elapsed := s.elapsed + d)
    case BecomeReady(v) => s.(ready := Some(v))
    case Start(b) =>
      if s.cancelled then Leave(s, Returned(Cancelled)) else s.(phase := Selecting(b, 0), elapsed := 0)
    case Wake(b) => s.(phase := Selecting(b, 0))
    case PollBranch => Poll(s)
    case EndPublish => Leave(s, Returned(Timeout(Millis(s.budget))))
    case Abandon => Leave(s, Abandoned)
  }

  predicate Runs(s: State, steps: seq<Step>)
    decreases |steps|
  {
    steps == [] || (Enabled(s, steps[0]) && Runs(Apply(s, steps[0]), steps[1..]))
  }

  function Final(s: State, steps: seq<Step>): State
    requires Runs(s, steps)
    decreases |steps|
  {
    if steps == [] then s else Final(Apply(s, steps[0]), steps[1..])
  }

  // ----- What every schedule keeps ------------------------------------------------------------

  predicate AllPending(polls: seq<Option<int>>) {
    forall p :: p in polls ==> p.None?
  }

  /** A value is returned exactly when the last poll produced it; every other poll was pending. */
  predicate PollsExplainResult(s: State) {
    if s.phase.Returned? && s.phase.outcome.Done? then
      var last := |s.polls| - 1;
      last >= 0 && s.polls[last] == Some(s.phase.outcome.value) && AllPending(s.polls[..last])
    else AllPending(s.polls)
  }

  predicate Inv(s: State) {
    && PollsExplainResult(s)
    && s.drops == (if s.phase.Returned? || s.phase.Abandoned? then 1 else 0)
    && s.publishes <= 1
    && (!s.phase.Abandoned? ==>
          (s.publishes == 1 <==> s.phase.Publishing? || (s.phase.Returned? && s.phase.outcome.Timeout?)))
    && (s.publishes == 1 ==> Expired(s))
    && (s.phase == Returned(Cancelled) ==> s.cancelled)
    && (s.phase.Returned? && s.phase.outcome.Timeout? ==> s.phase.outcome.budgetMs == Millis(s.budget))
    && (s.phase.Selecting? ==> s.phase.start < 3 && s.phase.tried < 3)
    && (s.phase.NotStarted? ==> s.polls == [])
  }

  lemma AnswerKeepsInv(s: State, value: int, t: State)
    requires Inv(s) && s.phase.Selecting?
    requires t == Leave(s.(polls := s.polls + [Some(value)]), Returned(Done(value)))
    ensures Inv(t)
  {
    assert t.polls[..|s.polls|] == s.polls;
  }

  lemma CancelKeepsInv(s: State, t: State)
    requires Inv(s) && s.phase.Selecting? && s.cancelled && t == Leave(s, Returned(Cancelled))
    ensures Inv(t)
  {
  }

  lemma ExpiryKeepsInv(s: State, t: State)
    requires Inv(s) && s.phase.Selecting? && Expired(s)
    requires t == s.(phase := Publishing, publishes := s.publishes + 1)
    ensures Inv(t)
  {
  }

  /** A poll that answers nothing; the round may go on or be over. */
  lemma PendingKeepsInv(s: State, polls: seq<Option<int>>, phase: Phase)
    requires Inv(s) && s.phase.Selecting? && polls in {s.polls, s.polls + [None]}
    requires phase == if s.phase.tried < 2 then Selecting(s.phase.start, s.phase.tried + 1) else Parked
    ensures Inv(s.(polls := polls, phase := phase))
  {
  }

  lemma PollKeepsInv(s: State)
    requires Inv(s) && s.phase.Selecting?
    ensures Inv(Poll(s)) && Poll(s).budget == s.budget
  {
    var branch, t := (s.phase.start + s.phase.tried) % 3, Poll(s);
    if branch == 0 && s.ready.Some? {
      AnswerKeepsInv(s, s.ready.value, t);
    } else if branch == 1 && s.cancelled {
      CancelKeepsInv(s, t);
    } else if branch == 2 && Expired(s) {
      ExpiryKeepsInv(s, t);
    } else {
      PendingKeepsInv(s, t.polls, t.phase);
    }
  }

  lemma StepKeepsInv(s: State, step: Step)
    requires Inv(s) && Enabled(s, step)
    ensures Inv(Apply(s, step)) && Apply(s, step).budget == s.budget
  {
    if step.PollBranch? {
      PollKeepsInv(s);
    }
  }

  lemma {:induction false} RunsKeepInv(s: State, steps: seq<Step>)
    requires Inv(s) && Runs(s, steps)
    ensures Inv(Final(s, steps)) && Final(s, steps).budget == s.budget
    decreases |steps|
  {
    if steps != [] {
      StepKeepsInv(s, steps[0]);
      RunsKeepInv(Apply(s, steps[0]), steps[1..]);
    }
  }

  /** The reported budget is in whole milliseconds, rounded down, as long as they fit 64 bits. */
  lemma MillisRoundDown(nanos: nat)
    requires nanos < 0x1_0000_0000_0000_0000 * 1_000_000
    ensures Millis(nanos) * 1_000_000 <= nanos < (Millis(nanos) + 1) * 1_000_000
  {
  }

  /** The time that passes in a run. */
  function Ticks(steps: seq<Step>): nat {
    if steps == [] then 0 else (if steps[0].Tick? then steps[0].nanos else 0) + Ticks(steps[1..])
  }

  lemma {:induction false} ElapsedAdds(s: State, steps: seq<Step>)
    requires Runs(s, steps) && !s.phase.NotStarted?
    ensures Final(s, steps).elapsed == s.elapsed + Ticks(steps)
    decreases |steps|
  {
    if steps != [] {
      ElapsedAdds(Apply(s, steps[0]), steps[1..]);
    }
  }

  /** A timeout is never early: the budget has passed since the call was first polled. */
  lemma {:induction false} TimeoutIsNotEarly(s: State, steps: seq<Step>) returns (k: nat)
    requires s.phase.NotStarted? && Inv(s) && Runs(s, steps)
    requires Final(s, steps).phase.Returned? && Final(s, steps).phase.outcome.Timeout?
    ensures k < |steps| && steps[k].Start? && 0 < s.budget <= Ticks(steps[k + 1..])
    decreases |steps|
  {
    var s', rest := Apply(s, steps[0]), steps[1..];
    StepKeepsInv(s, steps[0]);
    RunsKeepInv(s', rest);
    if s'.phase.NotStarted? {
      k := TimeoutIsNotEarly(s', rest);
      assert steps[k + 2..] == rest[k + 1..];
      k := k + 1;
    } else {
      ElapsedAdds(s', rest);
      StartedOrOver(s, steps[0], rest);
      k := 0;
    }
  }

  lemma {:induction false} OverStaysOver(s: State, steps: seq<Step>)
    requires Runs(s, steps) && (s.phase.Returned? || s.phase.Abandoned?)
    ensures Final(s, steps).phase == s.phase
    decreases |steps|
  {
    if steps != [] {
      OverStaysOver(Apply(s, steps[0]), steps[1..]);
    }
  }

  /** A step that leaves the initial phase starts the timer, unless the call is over at once. */
  lemma {:induction false} StartedOrOver(s: State, step: Step, rest: seq<Step>)
    requires s.phase.NotStarted? && Enabled(s, step) && !Apply(s, step).phase.NotStarted?
    requires Runs(Apply(s, step), rest)
    requires Final(Apply(s, step), rest).phase.Returned? && Final(Apply(s, step), rest).phase.outcome.Timeout?
    ensures step.Start? && Apply(s, step).elapsed == 0
  {
    if step.Abandon? || s.cancelled {
      OverStaysOver(Apply(s, step), rest);
    }
  }

  /** The contract of a returned call, under every schedule. */
  lemma ResultIsJustified(budget: nat, cancelled: bool, steps: seq<Step>)
    requires Runs(Init(budget, cancelled), steps) && Final(Init(budget, cancelled), steps).phase.Returned?
    ensures var s := Final(Init(budget, cancelled), steps);
            s.drops == 1 &&
            match s.phase.outcome
            case Done(v) =>
              |s.polls| > 0 && s.polls[|s.polls| - 1] == Some(v) &&
              AllPending(s.polls[..|s.polls| - 1]) && s.publishes == 0
            case Cancelled => s.cancelled && s.publishes == 0 && AllPending(s.polls)
            case Timeout(ms) =>
              0 < budget <= s.elapsed && ms == Millis(budget) && s.publishes == 1 && AllPending(s.polls)
  {
    RunsKeepInv(Init(budget, cancelled), steps);
  }

  /** A zero budget disables the timer: no schedule reaches a timeout or publishes one. */
  lemma ZeroBudgetNeverTimesOut(cancelled: bool, steps: seq<Step>)
    requires Runs(Init(0, cancelled), steps)
    ensures var s := Final(Init(0, cancelled), steps);
            s.publishes == 0 && !s.phase.Publishing? && !(s.phase.Returned? && s.phase.outcome.Timeout?)
  {
    RunsKeepInv(Init(0, cancelled), steps);
  }

  predicate Untouched(s: State) {
    s.cancelled && s.polls == [] &&
    (s.phase.NotStarted? || s.phase == Returned(Cancelled) || s.phase.Abandoned?)
  }

  lemma {:induction false} StaysUntouched(s: State, steps: seq<Step>)
    requires Untouched(s) && Runs(s, steps)
    ensures Untouched(Final(s, steps))
    decreases |steps|
  {
    if steps != [] {
      StaysUntouched(Apply(s, steps[0]), steps[1..]);
    }
  }

  /** A token cancelled beforehand: the future is never polled, and Cancelled is the only answer. */
  lemma PreCancelledNeverPolls(budget: nat, steps: seq<Step>)
    requires Runs(Init(budget, true), steps)
    ensures var s := Final(Init(budget, true), steps);
            s.polls == [] && (s.phase.Returned? ==> s.phase.outcome == Cancelled)
  {
    StaysUntouched(Init(budget, true), steps);
  }

  /** Once the race is decided the future is not polled again, and the verdict stands. */
  lemma {:induction false} DecisionIsFinal(s: State, steps: seq<Step>)
    requires Decided(s.phase) && Runs(s, steps)
    ensures var t := Final(s, steps);
            t.polls == s.polls && Decided(t.phase) && t.publishes == s.publishes &&
            (s.phase.Returned? || s.phase.Abandoned? ==> t.phase == s.phase && t.drops == s.drops) &&
            (s.phase.Publishing? && t.phase.Returned? ==> t.phase.outcome == Timeout(Millis(s.budget)))
    decreases |steps|
  {
    if steps != [] {
      DecisionIsFinal(Apply(s, steps[0]), steps[1..]);
    }
  }

  // ----- When finishing in time is enough -----------------------------------------------------

  /** One whole round from a parked call, with nothing else happening in between. */
  function Round(s: State, start: nat): State
    requires s.phase.Parked? && start < 3
  {
    var a := Poll(s.(phase := Selecting(start, 0)));
    var b := if a.phase.Selecting? then Poll(a) else a;
    if b.phase.Selecting? then Poll(b) else b
  }

  /** The future's turn comes before that of branch `other` in a round from `start`. */
  predicate Earlier(start: nat, branch: nat, other: nat) {
    (branch + 3 - start) % 3 < (other + 3 - start) % 3
  }

  /**
   A round gives the verdict of the first ready branch from its start on, and parks the call when none is:
   the future when it has an answer, the token when it is cancelled, the timer when a positive budget is used up.
   */
  lemma RoundEndsIff(s: State, start: nat)
    requires s.phase.Parked? && start < 3
    ensures var timeUp, phase := 0 < s.budget <= s.elapsed, Round(s, start).phase;
            (forall v :: phase == Returned(Done(v)) <==>
                         s.ready == Some(v) &&
                         (s.cancelled ==> Earlier(start, 0, 1)) && (timeUp ==> Earlier(start, 0, 2))) &&
            (phase == Returned(Cancelled) <==>
               s.cancelled && (s.ready.Some? ==> Earlier(start, 1, 0)) && (timeUp ==> Earlier(start, 1, 2))) &&
            (phase == Publishing <==>
               timeUp && (s.ready.Some? ==> Earlier(start, 2, 0)) && (s.cancelled ==> Earlier(start, 2, 1))) &&
            (phase == Parked <==> s.ready.None? && !s.cancelled && !timeUp)
  {
  }

  /** A pending, uncancelled call times out in the very round in which its budget turns out to be used up. */
  lemma PendingRoundTimesOutIff(s: State, start: nat)
    requires s.phase.Parked? && s.ready.None? && !s.cancelled && start < 3
    ensures Round(s, start).phase == if 0 < s.budget <= s.elapsed then Publishing else Parked
  {
    RoundEndsIff(s, start);
  }

  /**
   The documented promise "ready within the budget means Ok" holds of a wake-up, whatever branch it
   starts from, exactly when the token is not cancelled and the budget has not run out by then.
   */
  lemma RoundAnswersIff(s: State, v: int)
    requires s.phase.Parked?
    ensures (forall start: nat :: start < 3 ==> Round(s, start).phase == Returned(Done(v))) <==>
            (s.ready == Some(v) && !s.cancelled && (s.budget == 0 || s.elapsed < s.budget))
  {
    var r0, r1, r2 := Round(s, 0), Round(s, 1), Round(s, 2);
  }

  lemma Cons(s: State, step: Step, rest: seq<Step>) returns (steps: seq<Step>)
    requires Enabled(s, step) && Runs(Apply(s, step), rest)
    ensures steps == [step] + rest && Runs(s, steps) && Final(s, steps) == Final(Apply(s, step), rest)
  {
    steps := [step] + rest;
    assert steps[1..] == rest;
  }

  /** A round over a future that is not ready, on a fresh call, parks it. */
  lemma FirstRoundParks(budget: nat, v: int, rest: seq<Step>) returns (steps: seq<Step>)
    requires budget > 0
    requires Runs(Init(budget, false).(phase := Parked, polls := [None], ready := Some(v)), rest)
    ensures steps == [Start(0), PollBranch, PollBranch, PollBranch, BecomeReady(v)] + rest
    ensures Runs(Init(budget, false), steps)
    ensures Final(Init(budget, false), steps) ==
            Final(Init(budget, false).(phase := Parked, polls := [None], ready := Some(v)), rest)
  {
    var s0 := Init(budget, false);
    var s1 := Apply(s0, Start(0));
    var s2 := Apply(s1, PollBranch);
    var s3 := Apply(s2, PollBranch);
    var s4 := Apply(s3, PollBranch);
    assert s4 == s0.(phase := Parked, polls := [None]);
    steps := Cons(s4, BecomeReady(v), rest);
    steps := Cons(s3, PollBranch, steps);
    steps := Cons(s2, PollBranch, steps);
    steps := Cons(s1, PollBranch, steps);
    steps := Cons(s0, Start(0), steps);
    assert steps == [Start(0), PollBranch, PollBranch, PollBranch, BecomeReady(v)] + rest;
  }

  /** A parked call that is woken at the timer's branch once the budget has run out reports a timeout. */
  lemma LateWakeTimesOut(s: State) returns (steps: seq<Step>)
    requires s.phase.Parked? && s.budget > 0 && s.elapsed == 0
    ensures Runs(s, steps) && Final(s, steps).phase == Returned(Timeout(Millis(s.budget))) && Cancel !in steps
  {
    var s1 := Apply(s, Tick(s.budget));
    var s2 := Apply(s1, Wake(2));
    var s3 := Apply(s2, PollBranch);
    steps := Cons(s3, EndPublish, []);
    steps := Cons(s2, PollBranch, steps);
    steps := Cons(s1, Wake(2), steps);
    steps := Cons(s, Tick(s.budget), steps);
  }

  /** The future is ready before any time has passed, and the call still reports a timeout. */
  lemma ReadyInTimeMayTimeOut(budget: nat, v: int) returns (steps: seq<Step>)
    requires budget > 0
    ensures Runs(Init(budget, false), steps)
    ensures Final(Init(budget, false), steps).phase == Returned(Timeout(Millis(budget)))
    ensures exists rest :: steps == [Start(0), PollBranch, PollBranch, PollBranch, BecomeReady(v)] + rest
    ensures Cancel !in steps
  {
    var late := LateWakeTimesOut(Init(budget, false).(phase := Parked, polls := [None], ready := Some(v)));
    steps := FirstRoundParks(budget, v, late);
  }

  /** How many branch polls a run makes. */
  function BranchPolls(steps: seq<Step>): nat {
    if steps == [] then 0 else (if steps[0].PollBranch? then 1 else 0) + BranchPolls(steps[1..])
  }

  /** The future's turn in this round is still to come. */
  predicate FutureAhead(phase: Phase) {
    phase.Selecting? && phase.tried < 3 && phase.start < 3 &&
    (phase.start == 0 ==> phase.tried == 0) && (phase.start == 1 ==> phase.tried <= 2) &&
    (phase.start == 2 ==> phase.tried <= 1)
  }

  /** Time and cancellation only move forward. */
  lemma {:induction false} Forward(s: State, steps: seq<Step>)
    requires Runs(s, steps) && !s.phase.NotStarted?
    ensures var t := Final(s, steps);
            t.budget == s.budget && (s.cancelled ==> t.cancelled) && t.elapsed >= s.elapsed
    decreases |steps|
  {
    if steps != [] {
      Forward(Apply(s, steps[0]), steps[1..]);
    }
  }

  /**
   The same promise under interference: if the future is ready when a round begins, and neither the
   token nor the budget gives out before that round is over, the call returns the future's answer.
   */
  lemma {:induction false} TimelyRoundAnswers(s: State, v: int, steps: seq<Step>)
    requires FutureAhead(s.phase) && s.ready == Some(v) && Runs(s, steps)
    requires BranchPolls(steps) + s.phase.tried >= 3
    requires !Final(s, steps).cancelled && (s.budget == 0 || Final(s, steps).elapsed < s.budget)
    ensures Final(s, steps).phase == Returned(Done(v))
    decreases |steps|
  {
    var s' := Apply(s, steps[0]);
    Forward(s, steps);
    if s'.phase.Returned? {
      DecisionIsFinal(s', steps[1..]);
    } else {
      TimelyRoundAnswers(s', v, steps[1..]);
    }
  }
}
