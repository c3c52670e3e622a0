/** Whether subscribers see a compacted history before the report that claims it. */
module CompactOrdering {
  import opened Prelude
  import opened ActionOrchestrator

  // The orchestrator promises this order and keeps it on its own side: it attempts the history event first.
  // What reaches subscribers also depends on the bus: a shard may forward the history event after the report,
  // and a downsampling bus may drop it while answering Ok.

  predicate Announced(wire: seq<Sent>, upTo: nat, i: nat)
    requires upTo <= |wire|
  {
    exists h :: 0 <= h < upTo && wire[h] == Sent(Some(i), HistoryReplaced)
  }

  predicate IsCompactReport(m: Sent) {
    m.owner.Some? && m.event.Completed? && m.event.summary == Compacted
  }

  /** Every compact report on the wire comes after the history event of the same task. */
  predicate HistoryFirst(wire: seq<Sent>) {
    forall k :: 0 <= k < |wire| && IsCompactReport(wire[k]) ==> Announced(wire, k, wire[k].owner.value)
  }

  predicate Compacting(stage: Stage) {
    stage == Replying(Success(Compacted)) || stage == Ended(Success(Compacted))
  }

  // ----- A bus that neither shards nor drops --------------------------------------------------

  /** The full channel reaches the trigger level, and not every event passes then. */
  predicate CanDrop(cfg: Config) {
    cfg.sampling.Some? && cfg.capacity > 0 && cfg.sampling.value.every != 1 &&
    cfg.capacity * cfg.sampling.value.trigger <= 1000 * Slots(cfg.capacity)
  }

  predicate PlainBus(cfg: Config) {
    !cfg.sharded && !CanDrop(cfg)
  }

  predicate OrderInv(cfg: Config, s: State) {
    && s.transit == []
    && (cfg.sampling.Some? && cfg.sampling.value.every != 1 ==> !s.latch)
    && Ordered(s.wire, s.tasks)
  }

  lemma WireAppend(wire: seq<Sent>, m: Sent)
    requires HistoryFirst(wire)
    requires IsCompactReport(m) ==> Announced(wire, |wire|, m.owner.value)
    ensures HistoryFirst(wire + [m])
    ensures forall i: nat :: Announced(wire, |wire|, i) ==> Announced(wire + [m], |wire| + 1, i)
  {
    forall k | 0 <= k <= |wire| && IsCompactReport((wire + [m])[k])
      ensures Announced(wire + [m], k, (wire + [m])[k].owner.value)
    {
      var i := (wire + [m])[k].owner.value;
      if k < |wire| {
        assert Announced(wire, k, i);
      }
      var h :| 0 <= h < k && wire[h] == Sent(Some(i), HistoryReplaced);
      assert (wire + [m])[h] == Sent(Some(i), HistoryReplaced);
    }
    forall i: nat | Announced(wire, |wire|, i) ensures Announced(wire + [m], |wire| + 1, i) {
      var h :| 0 <= h < |wire| && wire[h] == Sent(Some(i), HistoryReplaced);
      assert (wire + [m])[h] == Sent(Some(i), HistoryReplaced);
    }
  }

  /** On such a bus nothing that is offered to the channel is dropped. */
  lemma PlainBusAdmits(cfg: Config, s: State, e: Event, fate: Fate)
    requires PlainBus(cfg) && OrderInv(cfg, s) && FateAllowed(cfg, s, e, fate)
    ensures fate.Direct? && Admitted(cfg, s, e, fate.queued)
    ensures cfg.sampling.Some? && cfg.sampling.value.every != 1 ==> !LatchNext(cfg, s.latch, fate.queued)
  {
    AllMultiplesOfOne(s.sampled);
  }

  lemma {:induction false} AllMultiplesOfOne(n: nat)
    ensures IsMultiple(n, 1)
  {
    if n > 0 {
      AllMultiplesOfOne(n - 1);
    }
  }

  lemma PublishKeepsOrder(cfg: Config, s: State, m: Sent, fate: Fate)
    requires PlainBus(cfg) && OrderInv(cfg, s) && FateAllowed(cfg, s, m.event, fate)
    ensures var s' := Publish(cfg, s, m, fate);
            s'.wire == s.wire + [m] && s'.transit == [] && s'.tasks == s.tasks &&
            (cfg.sampling.Some? && cfg.sampling.value.every != 1 ==> !s'.latch)
  {
    PlainBusAdmits(cfg, s, m.event, fate);
  }

  /** The invariant on what subscribers can see and what tasks have come to. */
  predicate Ordered(wire: seq<Sent>, tasks: seq<Task>) {
    HistoryFirst(wire) && forall i :: 0 <= i < |tasks| && Compacting(tasks[i].stage) ==> Announced(wire, |wire|, i)
  }

  lemma SentKeepsOrder(cfg: Config, wire: seq<Sent>, tasks: seq<Task>, i: nat, move: Move)
    requires Ordered(wire, tasks) && i < |tasks| && MoveEnabled(tasks[i], move)
    ensures match Publication(tasks[i], move)
            case None => Ordered(wire, tasks[i := Moved(cfg, tasks[i], move)])
            case Some((e, _)) => Ordered(wire + [Sent(Some(i), e)], tasks[i := Moved(cfg, tasks[i], move)])
  {
    match Publication(tasks[i], move)
    case None =>
    case Some((e, _)) =>
      var m := Sent(Some(i), e);
      assert IsCompactReport(m) ==> Compacting(tasks[i].stage);
      WireAppend(wire, m);
      if move.PublishHistory? {
        assert (wire + [m])[|wire|] == Sent(Some(i), HistoryReplaced);
      }
  }

  lemma PerformKeepsOrder(cfg: Config, s: State, i: nat, move: Move)
    requires PlainBus(cfg) && OrderInv(cfg, s) && Enabled(cfg, s, Run(i, move))
    ensures OrderInv(cfg, Perform(cfg, s, i, move))
  {
    var t := s.tasks[i];
    SentKeepsOrder(cfg, s.wire, s.tasks, i, move);
    match Publication(t, move)
    case None =>
    case Some((e, fate)) =>
      var m := Sent(Some(i), e);
      PublishKeepsOrder(cfg, s, m, fate);
      PublishIgnoresTasks(cfg, s, s.tasks[i := Moved(cfg, t, move)], s.attempts + [Attempt(i, e, fate)], m, fate);
  }

  lemma {:induction false} BroadcastIgnoresTasks(cfg: Config, s: State, tasks: seq<Task>, attempts: seq<Attempt>,
                                                 m: Sent)
    ensures Broadcast(cfg, s.(tasks := tasks, attempts := attempts), m) ==
            Broadcast(cfg, s, m).(tasks := tasks, attempts := attempts)
  {
  }

  lemma {:induction false} PublishIgnoresTasks(cfg: Config, s: State, tasks: seq<Task>, attempts: seq<Attempt>,
                                               m: Sent, fate: Fate)
    ensures Publish(cfg, s.(tasks := tasks, attempts := attempts), m, fate) ==
            Publish(cfg, s, m, fate).(tasks := tasks, attempts := attempts)
  {
    if fate.Direct? {
      BroadcastIgnoresTasks(cfg, Sampled(cfg, s, m.event, fate.queued), tasks, attempts, m);
    }
  }

  lemma StepKeepsOrder(cfg: Config, s: State, step: Step)
    requires PlainBus(cfg) && OrderInv(cfg, s) && Enabled(cfg, s, step)
    ensures OrderInv(cfg, Apply(cfg, s, step))
  {
    match step
    case External(e, fate) =>
      PublishKeepsOrder(cfg, s, Sent(None, e), fate);
      WireAppend(s.wire, Sent(None, e));
    case Run(i, move) => PerformKeepsOrder(cfg, s, i, move);
    case _ =>
  }

  lemma {:induction false} RunsKeepOrder(cfg: Config, s: State, steps: seq<Step>)
    requires PlainBus(cfg) && OrderInv(cfg, s) && Runs(cfg, s, steps)
    ensures OrderInv(cfg, Final(cfg, s, steps))
    decreases |steps|
  {
    if steps != [] {
      StepKeepsOrder(cfg, s, steps[0]);
      RunsKeepOrder(cfg, Apply(cfg, s, steps[0]), steps[1..]);
    }
  }

  // ----- A deployment that never compacts -----------------------------------------------------

  predicate NeverCompacts(cfg: Config) {
    !cfg.chat || cfg.policies == {}
  }

  predicate IdleInv(s: State) {
    && (forall i :: 0 <= i < |s.tasks| ==> !s.tasks[i].stage.Replacing? && !Compacting(s.tasks[i].stage))
    && (forall m :: m in s.transit ==> !IsCompactReport(m))
    && (forall m :: m in s.wire ==> !IsCompactReport(m))
  }

  lemma PublishStaysIdle(cfg: Config, s: State, m: Sent, fate: Fate)
    requires IdleInv(s) && !IsCompactReport(m)
    ensures IdleInv(Publish(cfg, s, m, fate))
  {
  }

  lemma PerformStaysIdle(cfg: Config, s: State, i: nat, move: Move)
    requires NeverCompacts(cfg) && IdleInv(s) && i < |s.tasks| && MoveEnabled(s.tasks[i], move)
    ensures IdleInv(Perform(cfg, s, i, move))
  {
    var t := s.tasks[i];
    assert !Compacting(NextStage(cfg, t, move)) && !NextStage(cfg, t, move).Replacing?;
    var moved := s.(tasks := s.tasks[i := Moved(cfg, t, move)]);
    assert IdleInv(moved);
    match Publication(t, move)
    case None =>
    case Some((e, fate)) =>
      assert !IsCompactReport(Sent(Some(i), e));
      var noted := moved.(attempts := s.attempts + [Attempt(i, e, fate)]);
      PublishStaysIdle(cfg, noted, Sent(Some(i), e), fate);
  }

  lemma MergeStaysIdle(cfg: Config, s: State, i: nat)
    requires IdleInv(s) && i < |s.transit|
    ensures IdleInv(Forward(cfg, s, i))
  {
  }

  lemma ReceiveStaysIdle(s: State)
    requires IdleInv(s) && s.alive && s.lag == 0 && s.queue != []
    ensures IdleInv(Take(s))
  {
  }

  lemma StepStaysIdle(cfg: Config, s: State, step: Step)
    requires NeverCompacts(cfg) && IdleInv(s) && Enabled(cfg, s, step)
    ensures IdleInv(Apply(cfg, s, step))
  {
    match step
    case External(e, fate) => PublishStaysIdle(cfg, s, Sent(None, e), fate);
    case Merge(i) => MergeStaysIdle(cfg, s, i);
    case Receive => ReceiveStaysIdle(s);
    case Run(i, move) => PerformStaysIdle(cfg, s, i, move);
    case _ =>
  }

  lemma {:induction false} RunsStayIdle(cfg: Config, s: State, steps: seq<Step>)
    requires NeverCompacts(cfg) && IdleInv(s) && Runs(cfg, s, steps)
    ensures IdleInv(Final(cfg, s, steps))
    decreases |steps|
  {
    if steps != [] {
      StepStaysIdle(cfg, s, steps[0]);
      RunsStayIdle(cfg, Apply(cfg, s, steps[0]), steps[1..]);
    }
  }

  // ----- The witness --------------------------------------------------------------------------

  lemma Cons(cfg: Config, s: State, step: Step, rest: seq<Step>)
    requires Enabled(cfg, s, step) && Runs(cfg, Apply(cfg, s, step), rest)
    ensures Runs(cfg, s, [step] + rest)
    ensures Final(cfg, s, [step] + rest) == Final(cfg, Apply(cfg, s, step), rest)
  {
    assert ([step] + rest)[1..] == rest;
  }

  function CompactRequest(policy: string): Request {
    Request("tui-1", "compact", Payload(None, None, Some(policy)))
  }

  /** The loop is idle, its one task is about to replace the history, and no history is on the wire. */
  predicate AboutToReplace(s: State, r: Request) {
    && s.alive && s.lag == 0 && s.queue == []
    && |s.tasks| == 1 && s.tasks[0].request == r && s.tasks[0].stage == Replacing
    && forall m :: m in s.wire ==> m.event != HistoryReplaced
  }

  /** The task has handed over the history; its report comes next, and no history is on the wire. */
  predicate AboutToReport(cfg: Config, s: State, r: Request) {
    && s.alive && s.lag == 0 && s.queue == [] && !LatchNext(cfg, s.latch, 0)
    && |s.tasks| == 1 && s.tasks[0].request == r && s.tasks[0].stage == Replying(Success(Compacted))
    && forall m :: m in s.wire ==> m.event != HistoryReplaced
  }

  lemma {:induction false} AskIsQueued(cfg: Config, r: Request)
    ensures var ask := External(Requested(r), Direct(0));
            Enabled(cfg, INIT, ask) &&
            var s := Apply(cfg, INIT, ask);
            s.alive && s.lag == 0 && s.tasks == [] && s.transit == [] && s.queue == [Requested(r)] &&
            s.wire == [Sent(None, Requested(r))] && !LatchNext(cfg, s.latch, 0)
  {
  }

  lemma {:induction false} TaskStarts(cfg: Config, s: State, policy: string)
    requires cfg.chat && policy in cfg.policies && !LatchNext(cfg, s.latch, 0) && s.alive && s.lag == 0
    requires s.queue == [] && s.tasks == [Task(CompactRequest(policy), None, Spawned)]
    requires forall m :: m in s.wire ==> m.event != HistoryReplaced
    ensures var begin := Run(0, Begin(World([], true, 1)));
            Enabled(cfg, s, begin) && AboutToReplace(Apply(cfg, s, begin), CompactRequest(policy)) &&
            Apply(cfg, s, begin).transit == s.transit &&
            !LatchNext(cfg, Apply(cfg, s, begin).latch, 0)
  {
  }

  lemma TaskBegins(cfg: Config, policy: string) returns (steps: seq<Step>)
    requires cfg.chat && policy in cfg.policies
    ensures Runs(cfg, INIT, steps) && AboutToReplace(Final(cfg, INIT, steps), CompactRequest(policy))
    ensures !LatchNext(cfg, Final(cfg, INIT, steps).latch, 0) && Final(cfg, INIT, steps).transit == []
  {
    var r := CompactRequest(policy);
    var ask, begin := External(Requested(r), Direct(0)), Run(0, Begin(World([], true, 1)));
    AskIsQueued(cfg, r);
    var s1 := Apply(cfg, INIT, ask);
    var s2 := Apply(cfg, s1, Receive);
    TaskStarts(cfg, s2, policy);
    Cons(cfg, s2, begin, []);
    Cons(cfg, s1, Receive, [begin]);
    steps := [ask] + ([Receive] + [begin]);
    Cons(cfg, INIT, ask, [Receive] + [begin]);
  }

  lemma {:induction false} HistoryIsHeldBack(cfg: Config, s: State, r: Request, fate: Fate)
    requires AboutToReplace(s, r) && FateAllowed(cfg, s, HistoryReplaced, fate)
    requires fate.Direct? ==> !Admitted(cfg, s, HistoryReplaced, fate.queued) && cfg.capacity > 0
    requires fate.Sharded? ==> !LatchNext(cfg, s.latch, 0)
    ensures var history := Run(0, PublishHistory(fate));
            Enabled(cfg, s, history) && AboutToReport(cfg, Apply(cfg, s, history), r)
  {
  }

  lemma {:induction false} ReportGoesFirst(cfg: Config, s: State, r: Request)
    requires AboutToReport(cfg, s, r) && r.actionId == "compact"
    ensures var reply := Run(0, Reply(Direct(0)));
            Enabled(cfg, s, reply) && !HistoryFirst(Apply(cfg, s, reply).wire)
  {
    var t := Apply(cfg, s, Run(0, Reply(Direct(0))));
    assert t.wire == s.wire + [Sent(Some(0), Completed(KeyOf(r), Compacted))];
    assert IsCompactReport(t.wire[|s.wire|]) && !Announced(t.wire, |s.wire|, 0);
  }

  lemma ReportOvertakes(cfg: Config, s: State, r: Request, fate: Fate) returns (steps: seq<Step>)
    requires AboutToReplace(s, r) && r.actionId == "compact" && FateAllowed(cfg, s, HistoryReplaced, fate)
    requires fate.Direct? ==> !Admitted(cfg, s, HistoryReplaced, fate.queued) && cfg.capacity > 0
    requires fate.Sharded? ==> !LatchNext(cfg, s.latch, 0)
    ensures Runs(cfg, s, steps) && !HistoryFirst(Final(cfg, s, steps).wire)
  {
    var history, reply := Run(0, PublishHistory(fate)), Run(0, Reply(Direct(0)));
    HistoryIsHeldBack(cfg, s, r, fate);
    var s1 := Apply(cfg, s, history);
    ReportGoesFirst(cfg, s1, r);
    Cons(cfg, s1, reply, []);
    Cons(cfg, s, history, [reply]);
    steps := [history] + [reply];
  }

  lemma AppendFront(cfg: Config, s: State, a: seq<Step>, b: seq<Step>)
    requires a != [] && Runs(cfg, s, a)
    ensures Runs(cfg, Apply(cfg, s, a[0]), a[1..]) && Final(cfg, s, a) == Final(cfg, Apply(cfg, s, a[0]), a[1..])
    ensures Runs(cfg, s, a + b) <==> Runs(cfg, Apply(cfg, s, a[0]), a[1..] + b)
    ensures Runs(cfg, s, a + b) ==> Final(cfg, s, a + b) == Final(cfg, Apply(cfg, s, a[0]), a[1..] + b)
  {
    assert (a + b)[0] == a[0] && (a + b)[1..] == a[1..] + b;
  }

  lemma {:induction false} RunsAppend(cfg: Config, s: State, a: seq<Step>, b: seq<Step>)
    requires Runs(cfg, s, a) && Runs(cfg, Final(cfg, s, a), b)
    ensures Runs(cfg, s, a + b) && Final(cfg, s, a + b) == Final(cfg, Final(cfg, s, a), b)
    decreases |a|
  {
    if a == [] {
      assert a + b == b;
    } else {
      AppendFront(cfg, s, a, b);
      RunsAppend(cfg, Apply(cfg, s, a[0]), a[1..], b);
    }
  }

  /** Somebody else's event, received at once; other subscribers may hold back `queued` events meanwhile. */
  lemma Noise(cfg: Config, s: State, r: Request, critical: bool, queued: nat) returns (steps: seq<Step>)
    requires AboutToReplace(s, r) && queued <= Slots(cfg.capacity) && queued <= |s.wire|
    requires Admitted(cfg, s, Domain(0, critical), queued)
    ensures Runs(cfg, s, steps) && AboutToReplace(Final(cfg, s, steps), r)
    ensures var t := Final(cfg, s, steps);
            |t.wire| == |s.wire| + 1 && t.latch == LatchNext(cfg, s.latch, queued) &&
            t.sampled == s.sampled + if t.latch && !critical then 1 else 0
  {
    var event := External(Domain(0, critical), Direct(queued));
    var s1 := Apply(cfg, s, event);
    assert s1.queue == [Domain(0, critical)];
    var s2 := Apply(cfg, s1, Receive);
    Cons(cfg, s1, Receive, []);
    Cons(cfg, s, event, [Receive]);
    steps := [event] + [Receive];
  }

  /** Critical events always pass, so the wire can be made as long as wanted. */
  lemma {:induction false} Fill(cfg: Config, s: State, r: Request, n: nat) returns (steps: seq<Step>)
    requires AboutToReplace(s, r)
    ensures Runs(cfg, s, steps) && AboutToReplace(Final(cfg, s, steps), r)
    ensures |Final(cfg, s, steps).wire| >= n
  {
    if n == 0 {
      return [];
    }
    var first := Fill(cfg, s, r, n - 1);
    var last := Noise(cfg, Final(cfg, s, first), r, true, 0);
    RunsAppend(cfg, s, first, last);
    steps := first + last;
  }

  /** One critical event on a drained channel releases the latch. */
  lemma Release(cfg: Config, s: State, r: Request) returns (steps: seq<Step>)
    requires AboutToReplace(s, r) && CanDrop(cfg)
    ensures Runs(cfg, s, steps) && AboutToReplace(Final(cfg, s, steps), r)
    ensures var t := Final(cfg, s, steps);
            !t.latch && t.sampled == s.sampled && |t.wire| >= |s.wire|
  {
    if s.latch {
      steps := Noise(cfg, s, r, true, 0);
    } else {
      steps := [];
    }
  }

  /** The next event offered to the full channel will be dropped. */
  predicate DropsNext(cfg: Config, s: State) {
    !s.latch && cfg.sampling.Some? && !IsMultiple(s.sampled, cfg.sampling.value.every) &&
    |s.wire| >= Slots(cfg.capacity)
  }

  /** With the channel full the latch engages, and the event that may pass is used up. */
  lemma PassesOnce(cfg: Config, s: State, r: Request) returns (steps: seq<Step>)
    requires AboutToReplace(s, r) && CanDrop(cfg) && |s.wire| >= Slots(cfg.capacity) && !s.latch
    requires IsMultiple(s.sampled, cfg.sampling.value.every)
    ensures Runs(cfg, s, steps) && AboutToReplace(Final(cfg, s, steps), r)
    ensures var t := Final(cfg, s, steps);
            t.sampled == s.sampled + 1 && |t.wire| >= |s.wire|
  {
    assert LatchNext(cfg, s.latch, Slots(cfg.capacity));
    steps := Noise(cfg, s, r, false, Slots(cfg.capacity));
  }

  lemma {:induction false} NextIsNoMultiple(n: nat, every: nat)
    requires IsMultiple(n, every) && every != 1
    ensures !IsMultiple(n + 1, every)
  {
    if every != 0 && n >= every {
      NextIsNoMultiple(n - every, every);
    }
  }

  lemma BecomesDropping(cfg: Config, s: State, r: Request) returns (steps: seq<Step>)
    requires AboutToReplace(s, r) && CanDrop(cfg) && |s.wire| >= Slots(cfg.capacity) && !s.latch
    ensures Runs(cfg, s, steps) && AboutToReplace(Final(cfg, s, steps), r) && DropsNext(cfg, Final(cfg, s, steps))
  {
    steps := [];
    if IsMultiple(s.sampled, cfg.sampling.value.every) {
      var passed := PassesOnce(cfg, s, r);
      var released := Release(cfg, Final(cfg, s, passed), r);
      NextIsNoMultiple(s.sampled, cfg.sampling.value.every);
      RunsAppend(cfg, s, passed, released);
      steps := passed + released;
    }
  }

  /** From a task about to replace: fill the channel, reset the latch, use up the event that passes, drop the next. */
  lemma HistoryIsDropped(cfg: Config, s: State, r: Request) returns (steps: seq<Step>)
    requires AboutToReplace(s, r) && r.actionId == "compact" && CanDrop(cfg)
    ensures Runs(cfg, s, steps) && !HistoryFirst(Final(cfg, s, steps).wire)
  {
    var filled := Fill(cfg, s, r, Slots(cfg.capacity));
    var s1 := Final(cfg, s, filled);
    var released := Release(cfg, s1, r);
    var s2 := Final(cfg, s1, released);
    var ready := BecomesDropping(cfg, s2, r);
    var s3 := Final(cfg, s2, ready);
    var ending := ReportOvertakes(cfg, s3, r, Direct(Slots(cfg.capacity)));
    RunsAppend(cfg, s2, ready, ending);
    RunsAppend(cfg, s1, released, ready + ending);
    RunsAppend(cfg, s, filled, released + (ready + ending));
    steps := filled + (released + (ready + ending));
  }

  /** One compact request whose history event a shard holds back, or the bus drops. */
  lemma LateHistory(cfg: Config, policy: string) returns (steps: seq<Step>)
    requires cfg.chat && policy in cfg.policies && !PlainBus(cfg)
    ensures Runs(cfg, INIT, steps) && !HistoryFirst(Final(cfg, INIT, steps).wire)
  {
    var opening := TaskBegins(cfg, policy);
    var s, r := Final(cfg, INIT, opening), CompactRequest(policy);
    var ending;
    if cfg.sharded {
      ending := ReportOvertakes(cfg, s, r, Sharded);
    } else {
      ending := HistoryIsDropped(cfg, s, r);
    }
    RunsAppend(cfg, INIT, opening, ending);
    steps := opening + ending;
  }

  lemma {:induction false} OtherShardFirst(cfg: Config, s: State, r: Request) returns (steps: seq<Step>)
    requires AboutToReplace(s, r) && r.actionId == "compact" && s.transit == [] && cfg.sharded
    ensures steps == [Run(0, PublishHistory(Sharded)), Run(0, Reply(Sharded)), Merge(1)]
    ensures Runs(cfg, s, steps) && !HistoryFirst(Final(cfg, s, steps).wire)
  {
    var history, reply := Run(0, PublishHistory(Sharded)), Run(0, Reply(Sharded));
    BothWait(cfg, s, r);
    var s1 := Apply(cfg, s, history);
    var s2 := Apply(cfg, s1, reply);
    ReportMergesFirst(cfg, s2, r);
    Cons(cfg, s2, Merge(1), []);
    Cons(cfg, s1, reply, [Merge(1)]);
    Cons(cfg, s, history, [reply] + [Merge(1)]);
    steps := [history] + ([reply] + [Merge(1)]);
  }

  /** Both events of the job wait, each in its shard. */
  lemma {:induction false} BothWait(cfg: Config, s: State, r: Request)
    requires AboutToReplace(s, r) && r.actionId == "compact" && s.transit == [] && cfg.sharded
    ensures Enabled(cfg, s, Run(0, PublishHistory(Sharded)))
    ensures var s1 := Apply(cfg, s, Run(0, PublishHistory(Sharded)));
            Enabled(cfg, s1, Run(0, Reply(Sharded))) &&
            Apply(cfg, s1, Run(0, Reply(Sharded))).wire == s.wire &&
            Apply(cfg, s1, Run(0, Reply(Sharded))).transit ==
              [Sent(Some(0), HistoryReplaced), Sent(Some(0), Completed(KeyOf(r), Compacted))]
  {
  }

  /** The report's shard may be merged first. */
  lemma {:induction false} ReportMergesFirst(cfg: Config, s: State, r: Request)
    requires s.transit == [Sent(Some(0), HistoryReplaced), Sent(Some(0), Completed(KeyOf(r), Compacted))]
    requires forall m :: m in s.wire ==> m.event != HistoryReplaced
    ensures Enabled(cfg, s, Merge(1)) && !HistoryFirst(Apply(cfg, s, Merge(1)).wire)
  {
    var s' := Apply(cfg, s, Merge(1));
    assert s'.wire == s.wire + [Sent(Some(0), Completed(KeyOf(r), Compacted))];
    assert IsCompactReport(s'.wire[|s.wire|]) && !Announced(s'.wire, |s.wire|, 0);
  }

  /** History and report go through different shards: the report can be merged first though it was published last. */
  lemma ShardsOvertake(cfg: Config, policy: string) returns (opening: seq<Step>, steps: seq<Step>)
    requires cfg.chat && policy in cfg.policies && cfg.sharded
    ensures steps == opening + [Run(0, PublishHistory(Sharded)), Run(0, Reply(Sharded)), Merge(1)]
    ensures Runs(cfg, INIT, steps) && !HistoryFirst(Final(cfg, INIT, steps).wire)
  {
    opening := TaskBegins(cfg, policy);
    var ending := OtherShardFirst(cfg, Final(cfg, INIT, opening), CompactRequest(policy));
    RunsAppend(cfg, INIT, opening, ending);
    steps := opening + ending;
  }

  /**
   In every run the channel gets each history before its report, exactly when the bus neither shards nor can
   come to drop an event by downsampling, or the deployment cannot compact at all.
   */
  lemma HistoryIsSentFirstIff(cfg: Config)
    ensures (forall steps :: Runs(cfg, INIT, steps) ==> HistoryFirst(Final(cfg, INIT, steps).wire)) <==>
            (PlainBus(cfg) || NeverCompacts(cfg))
  {
    if PlainBus(cfg) || NeverCompacts(cfg) {
      forall steps | Runs(cfg, INIT, steps) ensures HistoryFirst(Final(cfg, INIT, steps).wire) {
        if PlainBus(cfg) {
          RunsKeepOrder(cfg, INIT, steps);
        } else {
          RunsStayIdle(cfg, INIT, steps);
        }
      }
    } else {
      var policy :| policy in cfg.policies;
      var steps := LateHistory(cfg, policy);
    }
  }
}
