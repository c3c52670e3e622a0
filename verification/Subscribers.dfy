/** What a subscriber of the bus takes in, lagging or not: does it see a compacted history before its report? */
module Subscribers {
  import opened Prelude
  import opened ActionOrchestrator
  import opened CompactOrdering

  // The channel retains its latest events only. A subscriber that is further behind is told so at its next
  // receive, and goes on with the oldest event retained; what it has missed is gone for it.

  /** A subscriber from the start: the position of its next event, what it has taken in, what it has missed. */
  datatype Subscriber = Subscriber(next: nat, seen: seq<Sent>, lost: seq<Sent>)

  datatype Scene = Scene(s: State, sub: Subscriber)

  const START := Scene(INIT, Subscriber(0, [], []))

  datatype Act =
    | System(step: Step)
    | Take               // the subscriber receives an event
    | Skip               // it is told that it lags

  predicate Lags(cfg: Config, x: Scene) {
    |x.s.wire| - x.sub.next > Slots(cfg.capacity)
  }

  /** How many retained events wait for the subscriber. */
  function Waiting(cfg: Config, x: Scene): int {
    if Lags(cfg, x) then Slots(cfg.capacity) else |x.s.wire| - x.sub.next
  }

  /** The length of the channel a direct publication samples. */
  function QueuedBy(s: State, step: Step): Option<nat> {
    match step
    case External(_, Direct(queued)) => Some(queued)
    case Run(i, move) =>
      if i >= |s.tasks| then None
      else
        (match Publication(s.tasks[i], move)
         case Some((_, Direct(queued))) => Some(queued)
         case _ => None)
    case _ => None
  }

  /** The channel is at least as long as what waits for this subscriber. */
  predicate Possible(cfg: Config, x: Scene, act: Act) {
    match act
    case System(step) =>
      Enabled(cfg, x.s, step) &&
      (QueuedBy(x.s, step).Some? ==> Waiting(cfg, x) <= QueuedBy(x.s, step).value)
    case Take => x.sub.next < |x.s.wire| && !Lags(cfg, x)
    case Skip => Lags(cfg, x)
  }

  function After(cfg: Config, x: Scene, act: Act): Scene
    requires Possible(cfg, x, act)
  {
    match act
    case System(step) => x.(s := Apply(cfg, x.s, step))
    case Take => x.(sub := x.sub.(next := x.sub.next + 1, seen := x.sub.seen + [x.s.wire[x.sub.next]]))
    case Skip =>
      var oldest := |x.s.wire| - Slots(cfg.capacity);
      x.(sub := x.sub.(next := oldest, lost := x.sub.lost + x.s.wire[x.sub.next..oldest]))
  }

  predicate Acts(cfg: Config, x: Scene, acts: seq<Act>)
    decreases |acts|
  {
    acts == [] || (Possible(cfg, x, acts[0]) && Acts(cfg, After(cfg, x, acts[0]), acts[1..]))
  }

  function Reached(cfg: Config, x: Scene, acts: seq<Act>): Scene
    requires Acts(cfg, x, acts)
    decreases |acts|
  {
    if acts == [] then x else Reached(cfg, After(cfg, x, acts[0]), acts[1..])
  }

  // ----- What every subscriber can rely on --------------------------------------------------------

  /** A step appends at most one event to the channel. */
  lemma {:induction false} WireGrows(cfg: Config, s: State, step: Step)
    requires Enabled(cfg, s, step)
    ensures var wire := Apply(cfg, s, step).wire;
            s.wire <= wire && |wire| <= |s.wire| + 1
  {
  }

  /** Everything passed was taken in or missed, and nothing else was taken in. */
  predicate Accounted(x: Scene) {
    && x.sub.next <= |x.s.wire|
    && (forall k :: 0 <= k < x.sub.next ==> x.s.wire[k] in x.sub.seen || x.s.wire[k] in x.sub.lost)
    && (forall m :: m in x.sub.seen ==> m in x.s.wire)
  }

  /** Every report taken in comes after its history, unless that history was missed. */
  predicate LedTo(sub: Subscriber) {
    forall p :: 0 <= p < |sub.seen| && IsCompactReport(sub.seen[p]) ==>
      Announced(sub.seen, p, sub.seen[p].owner.value) ||
      Sent(Some(sub.seen[p].owner.value), HistoryReplaced) in sub.lost
  }

  lemma {:induction false} ActKeepsAccount(cfg: Config, x: Scene, act: Act)
    requires Accounted(x) && Possible(cfg, x, act)
    ensures Accounted(After(cfg, x, act))
  {
    match act
    case System(step) => WireGrows(cfg, x.s, step);
    case Take =>
    case Skip =>
      var oldest := |x.s.wire| - Slots(cfg.capacity);
      forall k | x.sub.next <= k < oldest ensures x.s.wire[k] in x.s.wire[x.sub.next..oldest] {
        assert x.s.wire[k] == x.s.wire[x.sub.next..oldest][k - x.sub.next];
      }
  }

  lemma {:induction false} TakeIsLed(sub: Subscriber, wire: seq<Sent>)
    requires sub.next < |wire| && HistoryFirst(wire) && LedTo(sub)
    requires forall k :: 0 <= k < sub.next ==> wire[k] in sub.seen || wire[k] in sub.lost
    ensures LedTo(sub.(next := sub.next + 1, seen := sub.seen + [wire[sub.next]]))
  {
    var m, seen := wire[sub.next], sub.seen + [wire[sub.next]];
    forall p | 0 <= p < |seen| && IsCompactReport(seen[p])
      ensures Announced(seen, p, seen[p].owner.value) || Sent(Some(seen[p].owner.value), HistoryReplaced) in sub.lost
    {
      var i := seen[p].owner.value;
      var history := Sent(Some(i), HistoryReplaced);
      if p < |sub.seen| {
        if Announced(sub.seen, p, i) {
          var h :| 0 <= h < p && sub.seen[h] == history;
          assert seen[h] == history;
        }
      } else {
        assert Announced(wire, sub.next, i);
        if history in sub.seen {
          var h :| 0 <= h < |sub.seen| && sub.seen[h] == history;
          assert seen[h] == history;
        }
      }
    }
  }

  predicate Reliable(cfg: Config, x: Scene) {
    OrderInv(cfg, x.s) && Accounted(x) && LedTo(x.sub)
  }

  lemma {:induction false} ActKeepsReliable(cfg: Config, x: Scene, act: Act)
    requires PlainBus(cfg) && Reliable(cfg, x) && Possible(cfg, x, act)
    ensures Reliable(cfg, After(cfg, x, act))
  {
    ActKeepsAccount(cfg, x, act);
    match act
    case System(step) => StepKeepsOrder(cfg, x.s, step);
    case Take => TakeIsLed(x.sub, x.s.wire);
    case Skip =>
  }

  /**
   On a bus that neither shards nor drops, whatever the subscriber's pace: a report it takes in comes after
   its history, or it has missed that history by lagging.
   */
  lemma {:induction false} OnlyLagLosesHistory(cfg: Config, x: Scene, acts: seq<Act>)
    requires PlainBus(cfg) && Reliable(cfg, x) && Acts(cfg, x, acts)
    ensures Reliable(cfg, Reached(cfg, x, acts))
    decreases |acts|
  {
    if acts != [] {
      ActKeepsReliable(cfg, x, acts[0]);
      OnlyLagLosesHistory(cfg, After(cfg, x, acts[0]), acts[1..]);
    }
  }

  lemma {:induction false} NeverSeesReports(cfg: Config, x: Scene, acts: seq<Act>)
    requires NeverCompacts(cfg) && IdleInv(x.s) && Accounted(x) && Acts(cfg, x, acts)
    ensures HistoryFirst(Reached(cfg, x, acts).sub.seen)
    decreases |acts|
  {
    if acts != [] {
      ActKeepsAccount(cfg, x, acts[0]);
      if acts[0].System? {
        StepStaysIdle(cfg, x.s, acts[0].step);
      }
      NeverSeesReports(cfg, After(cfg, x, acts[0]), acts[1..]);
    }
  }

  // ----- A subscriber that keeps up ---------------------------------------------------------------

  lemma {:induction false} Onward(cfg: Config, x: Scene, act: Act, rest: seq<Act>)
    requires Possible(cfg, x, act) && Acts(cfg, After(cfg, x, act), rest)
    ensures Acts(cfg, x, [act] + rest)
    ensures Reached(cfg, x, [act] + rest) == Reached(cfg, After(cfg, x, act), rest)
  {
    assert ([act] + rest)[1..] == rest;
  }

  lemma {:induction false} ActsFront(cfg: Config, x: Scene, a: seq<Act>, b: seq<Act>)
    requires a != [] && Acts(cfg, x, a)
    ensures Acts(cfg, After(cfg, x, a[0]), a[1..]) && Reached(cfg, x, a) == Reached(cfg, After(cfg, x, a[0]), a[1..])
    ensures Acts(cfg, x, a + b) <==> Acts(cfg, After(cfg, x, a[0]), a[1..] + b)
    ensures Acts(cfg, x, a + b) ==> Reached(cfg, x, a + b) == Reached(cfg, After(cfg, x, a[0]), a[1..] + b)
  {
    assert (a + b)[0] == a[0] && (a + b)[1..] == a[1..] + b;
  }

  lemma {:induction false} ActsAppend(cfg: Config, x: Scene, a: seq<Act>, b: seq<Act>)
    requires Acts(cfg, x, a) && Acts(cfg, Reached(cfg, x, a), b)
    ensures Acts(cfg, x, a + b) && Reached(cfg, x, a + b) == Reached(cfg, Reached(cfg, x, a), b)
    decreases |a|
  {
    if a == [] {
      assert a + b == b;
    } else {
      ActsFront(cfg, x, a, b);
      ActsAppend(cfg, After(cfg, x, a[0]), a[1..], b);
    }
  }

  predicate KeepsUp(x: Scene) {
    x.sub.next == |x.s.wire| && x.sub.seen == x.s.wire && x.sub.lost == []
  }

  /** Any run of the system can be followed without missing an event. */
  lemma {:induction false} CanBeFollowed(cfg: Config, x: Scene, steps: seq<Step>) returns (acts: seq<Act>)
    requires KeepsUp(x) && Runs(cfg, x.s, steps)
    ensures Acts(cfg, x, acts)
    ensures Reached(cfg, x, acts).s == Final(cfg, x.s, steps) && KeepsUp(Reached(cfg, x, acts))
    decreases |steps|
  {
    if steps == [] {
      return [];
    }
    var y := After(cfg, x, System(steps[0]));
    var taken := TakesNew(cfg, x, steps[0]);
    var z := Reached(cfg, y, taken);
    var rest := CanBeFollowed(cfg, z, steps[1..]);
    ActsAppend(cfg, y, taken, rest);
    acts := [System(steps[0])] + (taken + rest);
    Onward(cfg, x, System(steps[0]), taken + rest);
  }

  lemma {:induction false} TakesNew(cfg: Config, x: Scene, step: Step) returns (acts: seq<Act>)
    requires KeepsUp(x) && Enabled(cfg, x.s, step)
    ensures Possible(cfg, x, System(step)) && Acts(cfg, After(cfg, x, System(step)), acts)
    ensures var y := Reached(cfg, After(cfg, x, System(step)), acts);
            y.s == Apply(cfg, x.s, step) && KeepsUp(y)
  {
    WireGrows(cfg, x.s, step);
    var y := After(cfg, x, System(step));
    if |y.s.wire| == |x.s.wire| {
      assert y.s.wire == x.s.wire;
      acts := [];
    } else {
      acts := [Take];
      assert y.s.wire == x.s.wire + [y.s.wire[x.sub.next]];
      assert acts[1..] == [];
    }
  }

  // ----- A subscriber that lags -------------------------------------------------------------------

  /** What the loop has not received fits into the channel. */
  predicate Fits(cfg: Config, s: State) {
    |s.queue| <= Slots(cfg.capacity) && |s.queue| <= |s.wire|
  }

  /** Critical events of somebody else, which always pass, while neither the loop nor the subscriber receives. */
  lemma {:induction false} Flood(cfg: Config, x: Scene, n: nat) returns (acts: seq<Act>)
    requires Fits(cfg, x.s) && x.sub.next <= |x.s.wire|
    ensures Acts(cfg, x, acts)
    ensures var y := Reached(cfg, x, acts);
            y.sub == x.sub && x.s.wire <= y.s.wire && |y.s.wire| == |x.s.wire| + n
    decreases n
  {
    if n == 0 {
      return [];
    }
    var queued := if |x.s.queue| > Waiting(cfg, x) then |x.s.queue| else Waiting(cfg, x);
    var event := System(External(Domain(0, true), Direct(queued)));
    var rest := Flood(cfg, After(cfg, x, event), n - 1);
    Onward(cfg, x, event, rest);
    acts := [event] + rest;
  }

  /** History and report are out, the subscriber has taken in neither. */
  predicate BothOut(x: Scene, report: Sent) {
    && |x.s.wire| == x.sub.next + 2
    && x.s.wire[x.sub.next] == Sent(Some(0), HistoryReplaced) && x.s.wire[x.sub.next + 1] == report
    && IsCompactReport(report) && report.owner == Some(0)
    && x.sub.seen == x.s.wire[..x.sub.next]
    && forall m :: m in x.sub.seen ==> m.event != HistoryReplaced
  }

  const HISTORY := Run(0, PublishHistory(Direct(0)))
  const REPLY := Run(0, Reply(Direct(1)))

  /** The history is out and the report comes next. */
  predicate AboutToReport(s: State, r: Request) {
    && |s.tasks| == 1 && s.tasks[0].request == r && s.tasks[0].stage == Replying(Success(Compacted))
    && s.alive && s.queue == [HistoryReplaced] && s.wire != []
  }

  lemma {:induction false} HistoryGoesOut(cfg: Config, s: State, r: Request)
    requires PlainBus(cfg) && OrderInv(cfg, s) && AboutToReplace(s, r)
    ensures Enabled(cfg, s, HISTORY) && OrderInv(cfg, Apply(cfg, s, HISTORY))
    ensures Apply(cfg, s, HISTORY).wire == s.wire + [Sent(Some(0), HistoryReplaced)]
    ensures AboutToReport(Apply(cfg, s, HISTORY), r)
  {
    PublishKeepsOrder(cfg, s, Sent(Some(0), HistoryReplaced), Direct(0));
    StepKeepsOrder(cfg, s, HISTORY);
  }

  lemma {:induction false} ReportGoesOut(cfg: Config, s: State, r: Request)
    requires PlainBus(cfg) && OrderInv(cfg, s) && AboutToReport(s, r)
    ensures Enabled(cfg, s, REPLY) && Fits(cfg, Apply(cfg, s, REPLY))
    ensures Apply(cfg, s, REPLY).wire == s.wire + [Sent(Some(0), Completed(KeyOf(r), Compacted))]
  {
    PublishKeepsOrder(cfg, s, Sent(Some(0), Completed(KeyOf(r), Compacted)), Direct(1));
    PlainBusAdmits(cfg, s, Completed(KeyOf(r), Compacted), Direct(1));
  }

  lemma {:induction false} CompactsUnread(cfg: Config, x: Scene, r: Request) returns (acts: seq<Act>)
    requires PlainBus(cfg) && OrderInv(cfg, x.s) && KeepsUp(x)
    requires AboutToReplace(x.s, r) && r.actionId == "compact"
    ensures Acts(cfg, x, acts) && Fits(cfg, Reached(cfg, x, acts).s)
    ensures BothOut(Reached(cfg, x, acts), Sent(Some(0), Completed(KeyOf(r), Compacted)))
  {
    HistoryGoesOut(cfg, x.s, r);
    var y := Scene(Apply(cfg, x.s, HISTORY), x.sub);
    ReportGoesOut(cfg, y.s, r);
    assert Possible(cfg, x, System(HISTORY)) && After(cfg, x, System(HISTORY)) == y;
    assert Possible(cfg, y, System(REPLY));
    Onward(cfg, y, System(REPLY), []);
    Onward(cfg, x, System(HISTORY), [System(REPLY)]);
    acts := [System(HISTORY)] + [System(REPLY)];
    BothAreOut(x, Apply(cfg, y.s, REPLY), y.s.wire, Sent(Some(0), Completed(KeyOf(r), Compacted)));
  }

  lemma {:induction false} BothAreOut(x: Scene, t: State, between: seq<Sent>, report: Sent)
    requires KeepsUp(x) && between == x.s.wire + [Sent(Some(0), HistoryReplaced)] && t.wire == between + [report]
    requires IsCompactReport(report) && report.owner == Some(0)
    requires forall m :: m in x.s.wire ==> m.event != HistoryReplaced
    ensures BothOut(Scene(t, x.sub), report)
  {
  }

  lemma {:induction false} OvertakenByFlood(cfg: Config, x: Scene, report: Sent) returns (acts: seq<Act>)
    requires BothOut(x, report) && Fits(cfg, x.s)
    ensures Acts(cfg, x, acts) && !HistoryFirst(Reached(cfg, x, acts).sub.seen)
  {
    var flood := Flood(cfg, x, Slots(cfg.capacity) - 1);
    var y := Reached(cfg, x, flood);
    var z := After(cfg, y, Skip);
    assert z.sub.next == x.sub.next + 1;
    var w := After(cfg, z, Take);
    assert w.sub.seen == x.sub.seen + [report];
    assert w.sub.seen[|x.sub.seen|] == report;
    forall h | 0 <= h < |x.sub.seen| ensures w.sub.seen[h] != Sent(Some(0), HistoryReplaced) {
      assert w.sub.seen[h] == x.sub.seen[h] && x.sub.seen[h] in x.sub.seen;
    }
    assert !Announced(w.sub.seen, |x.sub.seen|, 0);
    Onward(cfg, z, Take, []);
    Onward(cfg, y, Skip, [Take]);
    ActsAppend(cfg, x, flood, [Skip] + [Take]);
    acts := flood + ([Skip] + [Take]);
  }

  /** On a plain bus of any capacity, a run in which a lagging subscriber takes in the report and never the history. */
  lemma {:induction false} LagHidesHistory(cfg: Config, policy: string) returns (acts: seq<Act>)
    requires cfg.chat && policy in cfg.policies && PlainBus(cfg)
    ensures Acts(cfg, START, acts) && !HistoryFirst(Reached(cfg, START, acts).sub.seen)
  {
    var steps := TaskBegins(cfg, policy);
    var r := CompactRequest(policy);
    RunsKeepOrder(cfg, INIT, steps);
    var opening := CanBeFollowed(cfg, START, steps);
    var x := Reached(cfg, START, opening);
    var both := CompactsUnread(cfg, x, r);
    var y := Reached(cfg, x, both);
    var ending := OvertakenByFlood(cfg, y, Sent(Some(0), Completed(KeyOf(r), Compacted)));
    ActsAppend(cfg, x, both, ending);
    ActsAppend(cfg, START, opening, both + ending);
    acts := opening + (both + ending);
  }

  /** On any other bus, a run in which a subscriber that misses nothing does. */
  lemma {:induction false} BusHidesHistory(cfg: Config, policy: string) returns (acts: seq<Act>)
    requires cfg.chat && policy in cfg.policies && !PlainBus(cfg)
    ensures Acts(cfg, START, acts) && Reached(cfg, START, acts).sub.lost == []
    ensures !HistoryFirst(Reached(cfg, START, acts).sub.seen)
  {
    var steps := LateHistory(cfg, policy);
    acts := CanBeFollowed(cfg, START, steps);
  }

  // ----- The promise ------------------------------------------------------------------------------

  /**
   For subscribers that miss nothing the history is there when they take in the report, in every run, exactly
   when the bus neither shards nor can come to drop an event, or the deployment cannot compact.
   */
  lemma {:induction false} AttentiveSeesHistoryIff(cfg: Config)
    ensures (forall acts :: Acts(cfg, START, acts) && Reached(cfg, START, acts).sub.lost == [] ==>
               HistoryFirst(Reached(cfg, START, acts).sub.seen)) <==>
            (PlainBus(cfg) || NeverCompacts(cfg))
  {
    if PlainBus(cfg) || NeverCompacts(cfg) {
      forall acts | Acts(cfg, START, acts) && Reached(cfg, START, acts).sub.lost == []
        ensures HistoryFirst(Reached(cfg, START, acts).sub.seen)
      {
        if PlainBus(cfg) {
          OnlyLagLosesHistory(cfg, START, acts);
        } else {
          NeverSeesReports(cfg, START, acts);
        }
      }
    } else {
      var policy :| policy in cfg.policies;
      var acts := BusHidesHistory(cfg, policy);
    }
  }

  /** For all subscribers, lagging ones included: exactly when the deployment cannot compact at all. */
  lemma {:induction false} EveryoneSeesHistoryIff(cfg: Config)
    ensures (forall acts :: Acts(cfg, START, acts) ==> HistoryFirst(Reached(cfg, START, acts).sub.seen)) <==>
            NeverCompacts(cfg)
  {
    if NeverCompacts(cfg) {
      forall acts | Acts(cfg, START, acts) ensures HistoryFirst(Reached(cfg, START, acts).sub.seen) {
        NeverSeesReports(cfg, START, acts);
      }
    } else {
      var policy :| policy in cfg.policies;
      var acts;
      if PlainBus(cfg) {
        acts := LagHidesHistory(cfg, policy);
      } else {
        acts := BusHidesHistory(cfg, policy);
      }
    }
  }
}
