/** The request/reply protocol of the TUI action orchestrator. */
module ActionOrchestrator {
  import opened Prelude

  // One broadcast bus carries the requests, the replies the orchestrator publishes itself, and everybody
  // else's events. A receive loop starts one detached task per request; tasks interleave freely, a lagging
  // receiver loses its oldest events, and the loop may stop while tasks still run. The bus may route an event
  // through a shard (merged onto the broadcast channel later) or drop it under pressure while still
  // answering Ok to the publisher.

  // ----- Requests, outcomes and events -------------------------------------------------------

  /** What `payload_str` finds under the three keys the router reads. */
  datatype Payload = Payload(query: Option<string>, questId: Option<string>, args: Option<string>)

  datatype Request = Request(requestId: string, actionId: string, payload: Payload)

  datatype Key = Key(requestId: string, actionId: string)

  datatype Call = CreateQuest | PauseQuest | ResumeQuest | CancelQuest | SaveCheckpoint | RunOverWindow

  datatype Summary =
    | Finished(call: Call)
    | NothingToCompact
    | Compacted

  datatype Reason =
    | MissingQuery
    | OverWindowNotInjected
    | EmptyCorpus
    | NoActiveQuest
    | AmbiguousQuest
    | CallFailed
    | CallTimedOut
    | TaskActionUnimplemented
    | ChatNotInjected
    | UnknownPolicy
    | NotOrchestrated

  datatype Outcome = Success(summary: Summary) | Failure(reason: Reason)

  datatype Event =
    | Requested(request: Request)
    | Completed(key: Key, summary: Summary)
    | Failed(key: Key, reason: Reason)
    | HistoryReplaced
    | OperationTimedOut
    | Domain(tag: nat, critical: bool)  // any event of the engine, the bridge or a stranger

  function KeyOf(r: Request): Key {
    Key(r.requestId, r.actionId)
  }

  function ReplyTo(r: Request, o: Outcome): Event {
    match o
    case Success(summary) => Completed(KeyOf(r), summary)
    case Failure(reason) => Failed(KeyOf(r), reason)
  }

  predicate IsReply(e: Event) {
    e.Completed? || e.Failed?
  }

  // ----- Routing ------------------------------------------------------------------------------

  /** Downsampling under pressure: one of `every` events passes; levels are in permille of the capacity. */
  datatype Sampling = Sampling(every: nat, trigger: nat, resume: nat)

  /** Deployment: what was injected, how the bus is configured, how chatty one engine call can be. */
  datatype Config = Config(
    overwindow: bool,
    chat: bool,
    policies: set<string>,
    emitBound: nat,
    capacity: nat,
    sharded: bool,
    sampling: Option<Sampling>)

  /** The channel rounds its capacity up to a power of two. */
  function Slots(capacity: nat): nat {
    PowerFrom(1, capacity)
  }

  function PowerFrom(p: nat, n: nat): (r: nat)
    requires p > 0
    ensures r >= p && r >= n
    decreases n - p
  {
    if p >= n then p else PowerFrom(2 * p, n)
  }

  /** What a task reads from the engine and the session at the moment it is routed. */
  datatype World = World(quests: seq<string>, corpusBlank: bool, messages: nat)

  datatype Stage =
    | Spawned
    | Calling(call: Call, target: string, emits: nat)  // awaiting the engine or the bridge on a quest or a query
    | TimingOut                        // budget elapsed, OperationTimedOut not yet published
    | Replacing                        // curated, history event not yet published
    | Replying(outcome: Outcome)
    | Ended(outcome: Outcome)

  predicate HasText(text: Option<string>) {
    text.Some? && text.value != ""
  }

  function ResolveQuestId(quests: seq<string>, p: Payload): Result<string, Reason> {
    if HasText(p.questId) then Ok(p.questId.value)
    else if |quests| == 0 then Err(NoActiveQuest)
    else if |quests| == 1 then Ok(quests[0])
    else Err(AmbiguousQuest)
  }

  function Targeted(cfg: Config, w: World, p: Payload, call: Call): Stage {
    match ResolveQuestId(w.quests, p)
    case Ok(id) => Calling(call, id, cfg.emitBound)
    case Err(reason) => Replying(Failure(reason))
  }

  /** The synchronous part of `route_action`: everything up to the first await. */
  function Route(cfg: Config, w: World, r: Request): Stage {
    var a, p := r.actionId, r.payload;
    if a == "agent.chat" || a == "quest.start" then
      if HasText(p.query) then Calling(CreateQuest, p.query.value, cfg.emitBound) else Replying(Failure(MissingQuery))
    else if a == "quest.pause" then Targeted(cfg, w, p, PauseQuest)
    else if a == "quest.resume" then Targeted(cfg, w, p, ResumeQuest)
    else if a == "quest.cancel" then Targeted(cfg, w, p, CancelQuest)
    else if a == "overwindow.run" then
      if !cfg.overwindow then Replying(Failure(OverWindowNotInjected))
      else if !HasText(p.query) then Replying(Failure(MissingQuery))
      else if w.corpusBlank then Replying(Failure(EmptyCorpus))
      else Calling(RunOverWindow, p.query.value, cfg.emitBound)
    else if a == "quest.checkpoint" then Targeted(cfg, w, p, SaveCheckpoint)
    else if a in TASK_ACTIONS then Replying(Failure(TaskActionUnimplemented))
    else if a == "compact" then
      if !cfg.chat then Replying(Failure(ChatNotInjected))
      else if (if p.args.Some? then p.args.value else "") !in cfg.policies then Replying(Failure(UnknownPolicy))
      else if w.messages == 0 then Replying(Success(NothingToCompact))
      else Replacing
    else Replying(Failure(NotOrchestrated))
  }

  const TASK_ACTIONS: set<string> :=
    {"task.create", "task.pause", "task.resume", "task.cancel", "task.set_priority"}

  /** The calls an action may make: a declarative table, stated apart from the router. */
  function CallsOf(actionId: string): set<Call> {
    if actionId in {"agent.chat", "quest.start"} then {CreateQuest}
    else if actionId == "quest.pause" then {PauseQuest}
    else if actionId == "quest.resume" then {ResumeQuest}
    else if actionId == "quest.cancel" then {CancelQuest}
    else if actionId == "quest.checkpoint" then {SaveCheckpoint}
    else if actionId == "overwindow.run" then {RunOverWindow}
    else {}
  }

  // ----- State and steps ----------------------------------------------------------------------

  /** A request being served; `seen` is the world it was routed in. */
  datatype Task = Task(request: Request, seen: Option<World>, stage: Stage)

  /** The way one publication takes: into a shard, or to the channel, which then holds `queued` events. */
  datatype Fate = Direct(queued: nat) | Sharded

  datatype Attempt = Attempt(owner: nat, event: Event, fate: Fate)

  /** An event on its way to subscribers; `owner` is the publishing task, if it was one. */
  datatype Sent = Sent(owner: Option<nat>, event: Event)

  datatype State = State(
    alive: bool,             // the receive loop is running
    tasks: seq<Task>,        // one per received request, in order of reception
    attempts: seq<Attempt>,  // every publication a task attempted, in order
    transit: seq<Sent>,      // accepted by a shard, not yet merged
    wire: seq<Sent>,         // the broadcast channel, in order
    latch: bool,             // the bus is downsampling
    sampled: nat,            // normal events offered while downsampling
    heard: seq<Event>,       // what the broadcast offered to the loop's receiver
    queue: seq<Event>,       // heard, retained, not yet received
    lag: nat,                // events lost since the last receive
    consumed: seq<Event>,    // received by the loop
    lost: seq<Event>)        // overwritten while lagging, or abandoned when the loop stopped

  const INIT := State(true, [], [], [], [], false, 0, [], [], 0, [], [])

  datatype Move =
    | Begin(world: World)
    | Emit(tag: nat, critical: bool, fate: Fate)
    | Return(ok: bool)
    | Elapse
    | PublishTimeout(fate: Fate)
    | PublishHistory(fate: Fate)
    | Reply(fate: Fate)

  datatype Step =
    | External(event: Event, fate: Fate)  // anybody else publishes
    | Merge(index: nat)                   // a shard worker forwards its oldest event
    | Receive
    | SkipLag                             // recv answers SlowConsumerDropped, the loop goes on
    | Stop                                // the channel closed, or the handle was aborted
    | Run(task: nat, move: Move)

  /** Shard of an unordered event on a bus of 64 shards: FNV-1a of its type name modulo 64. */
  function ShardOf(e: Event): nat {
    match e
    case Requested(_) => 45
    case Completed(_, _) => 44
    case Failed(_, _) => 30
    case HistoryReplaced => 17
    case OperationTimedOut => 27
    case Domain(tag, _) => tag % 64
  }

  predicate IsCritical(e: Event) {
    e.Domain? && e.critical
  }

  /** Critical events are never sharded; the channel holds at least what the loop has not received. */
  predicate FateAllowed(cfg: Config, s: State, e: Event, fate: Fate) {
    match fate
    case Sharded => cfg.sharded && !IsCritical(e)
    case Direct(queued) => |s.queue| <= queued <= Slots(cfg.capacity) && queued <= |s.wire|
  }

  function Broadcast(cfg: Config, s: State, m: Sent): State {
    var s := s.(wire := s.wire + [m]);
    if !s.alive then s
    else
      var s := s.(heard := s.heard + [m.event]);
      if |s.queue| < Slots(cfg.capacity) then s.(queue := s.queue + [m.event])
      else s.(queue := s.queue[1..] + [m.event], lag := s.lag + 1, lost := s.lost + [s.queue[0]])
  }

  /** The pressure latch, with its dead zone between the two levels. */
  function LatchNext(cfg: Config, latch: bool, queued: nat): bool {
    if cfg.sampling.None? then false
    else if cfg.capacity == 0 then latch
    else if !latch then queued * 1000 >= cfg.capacity * cfg.sampling.value.trigger
    else queued * 1000 > cfg.capacity * cfg.sampling.value.resume
  }

  predicate IsMultiple(n: nat, every: nat) {
    if every == 0 || n < every then n == 0 else IsMultiple(n - every, every)
  }

  /** Whether a sampled event goes out: always below pressure, always when critical, else one in `every`. */
  predicate Admitted(cfg: Config, s: State, e: Event, queued: nat) {
    LatchNext(cfg, s.latch, queued) && !IsCritical(e) ==> IsMultiple(s.sampled, cfg.sampling.value.every)
  }

  function Sampled(cfg: Config, s: State, e: Event, queued: nat): State {
    var next := LatchNext(cfg, s.latch, queued);
    s.(latch := next, sampled := s.sampled + if next && !IsCritical(e) then 1 else 0)
  }

  /** Publishing always answers Ok, also when the event is dropped. */
  function Publish(cfg: Config, s: State, m: Sent, fate: Fate): State {
    match fate
    case Sharded => s.(transit := s.transit + [m])
    case Direct(queued) =>
      var s' := Sampled(cfg, s, m.event, queued);
      if Admitted(cfg, s, m.event, queued) then Broadcast(cfg, s', m) else s'
  }

  /** The publication a move makes, if it makes one. */
  function Publication(t: Task, move: Move): Option<(Event, Fate)> {
    match move
    case Emit(tag, critical, fate) => Some((Domain(tag, critical), fate))
    case PublishTimeout(fate) => Some((OperationTimedOut, fate))
    case PublishHistory(fate) => Some((HistoryReplaced, fate))
    case Reply(fate) =>
      if t.stage.Replying? then Some((ReplyTo(t.request, t.stage.outcome), fate)) else None
    case _ => None
  }

  predicate MoveEnabled(t: Task, move: Move) {
    match move
    case Begin(_) => t.stage.Spawned?
    case Emit(_, _, _) => t.stage.Calling? && t.stage.emits > 0
    case Return(_) => t.stage.Calling?
    case Elapse => t.stage.Calling? && t.stage.call.CreateQuest?
    case PublishTimeout(_) => t.stage.TimingOut?
    case PublishHistory(_) => t.stage.Replacing?
    case Reply(_) => t.stage.Replying?
  }

  function NextStage(cfg: Config, t: Task, move: Move): Stage
    requires MoveEnabled(t, move)
  {
    match move
    case Begin(w) => Route(cfg, w, t.request)
    case Emit(_, _, _) => t.stage.(emits := t.stage.emits - 1)
    case Return(ok) => Replying(if ok then Success(Finished(t.stage.call)) else Failure(CallFailed))
    case Elapse => TimingOut
    case PublishTimeout(_) => Replying(Failure(CallTimedOut))
    case PublishHistory(_) => Replying(Success(Compacted))
    case Reply(_) => Ended(t.stage.outcome)
  }

  function Moved(cfg: Config, t: Task, move: Move): Task
    requires MoveEnabled(t, move)
  {
    Task(t.request, if move.Begin? then Some(move.world) else t.seen, NextStage(cfg, t, move))
  }

  predicate Enabled(cfg: Config, s: State, step: Step) {
    match step
    case External(e, fate) => FateAllowed(cfg, s, e, fate)
    case Merge(i) =>
      i < |s.transit| &&
      forall j :: 0 <= j < i ==> ShardOf(s.transit[j].event) != ShardOf(s.transit[i].event)
    case Receive => s.alive && s.lag == 0 && s.queue != []
    case SkipLag => s.alive && s.lag > 0
    case Stop => s.alive
    case Run(i, move) =>
      i < |s.tasks| && MoveEnabled(s.tasks[i], move) &&
      match Publication(s.tasks[i], move)
      case None => true
      case Some((e, fate)) => FateAllowed(cfg, s, e, fate)
  }

  function Perform(cfg: Config, s: State, i: nat, move: Move): State
    requires i < |s.tasks| && MoveEnabled(s.tasks[i], move)
  {
    var t := s.tasks[i];
    var moved := s.(tasks := s.tasks[i := Moved(cfg, t, move)]);
    match Publication(t, move)
    case None => moved
    case Some((e, fate)) =>
      Publish(cfg, moved.(attempts := s.attempts + [Attempt(i, e, fate)]), Sent(Some(i), e), fate)
  }

  function Forward(cfg: Config, s: State, i: nat): State
    requires i < |s.transit|
  {
    Broadcast(cfg, s.(transit := s.transit[..i] + s.transit[i+1..]), s.transit[i])
  }

  function Take(s: State): State
    requires s.queue != []
  {
    var e := s.queue[0];
    var s := s.(queue := s.queue[1..], consumed := s.consumed + [e]);
    if e.Requested? then s.(tasks := s.tasks + [Task(e.request, None, Spawned)]) else s
  }

  function Apply(cfg: Config, s: State, step: Step): State
    requires Enabled(cfg, s, step)
  {
    match step
    case External(e, fate) => Publish(cfg, s, Sent(None, e), fate)
    case Merge(i) => Forward(cfg, s, i)
    case Receive => Take(s)
    case SkipLag => s.(lag := 0)
    case Stop => s.(alive := false, queue := [], lag := 0, lost := s.lost + s.queue)
    case Run(i, move) => Perform(cfg, s, i, move)
  }

  predicate Runs(cfg: Config, s: State, steps: seq<Step>)
    decreases |steps|
  {
    steps == [] || (Enabled(cfg, s, steps[0]) && Runs(cfg, Apply(cfg, s, steps[0]), steps[1..]))
  }

  function Final(cfg: Config, s: State, steps: seq<Step>): State
    requires Runs(cfg, s, steps)
    decreases |steps|
  {
    if steps == [] then s else Final(cfg, Apply(cfg, s, steps[0]), steps[1..])
  }

  // ----- Routing facts ------------------------------------------------------------------------

  /** A target is found exactly when it is named, or when there is precisely one candidate. */
  lemma ResolveQuestIdNeverGuesses(quests: seq<string>, p: Payload, id: string)
    ensures ResolveQuestId(quests, p) == Ok(id) <==>
            (p.questId == Some(id) && id != "") || (!HasText(p.questId) && quests == [id])
  {
    if !HasText(p.questId) && ResolveQuestId(quests, p) == Ok(id) {
      assert quests == [quests[0]];
    }
  }

  /** Without a name, no quest and several quests are refused, each for its own reason. */
  lemma ResolveQuestIdRefusesIff(quests: seq<string>, p: Payload, reason: Reason)
    ensures ResolveQuestId(quests, p) == Err(reason) <==>
            !HasText(p.questId) &&
            ((reason == NoActiveQuest && quests == []) || (reason == AmbiguousQuest && |quests| >= 2))
  {
  }

  /** What an engine or bridge call must be given: a resolved quest, or a query and what the search needs. */
  predicate Supplied(cfg: Config, w: World, p: Payload, call: Call, target: string) {
    match call
    case CreateQuest => HasText(p.query) && p.query == Some(target)
    case RunOverWindow => HasText(p.query) && p.query == Some(target) && cfg.overwindow && !w.corpusBlank
    case _ => (p.questId == Some(target) && target != "") || (!HasText(p.questId) && w.quests == [target])
  }

  /** A call is made exactly when it is the action's own and its inputs are supplied, and then on those inputs. */
  lemma RouteCallsIff(cfg: Config, w: World, r: Request, call: Call, target: string)
    ensures Route(cfg, w, r) == Calling(call, target, cfg.emitBound) <==>
            call in CallsOf(r.actionId) && Supplied(cfg, w, r.payload, call, target)
  {
    ResolveQuestIdNeverGuesses(w.quests, r.payload, target);
  }

  /** Without a call, only `compact` gets past routing: to a replacement, or to an honest no-op. */
  lemma RouteCompactsIff(cfg: Config, w: World, r: Request)
    ensures var known := r.actionId == "compact" && cfg.chat &&
                         (if r.payload.args.Some? then r.payload.args.value else "") in cfg.policies;
            (Route(cfg, w, r).Replacing? <==> known && w.messages > 0) &&
            ((Route(cfg, w, r).Replying? && Route(cfg, w, r).outcome.Success?) <==> known && w.messages == 0) &&
            (known && w.messages == 0 ==> Route(cfg, w, r) == Replying(Success(NothingToCompact)))
  {
  }

  /** Why a request is turned away, in terms of its action, its inputs and what was injected. */
  predicate Refused(cfg: Config, w: World, action: string, p: Payload, reason: Reason) {
    var quest := action in {"quest.pause", "quest.resume", "quest.cancel", "quest.checkpoint"};
    var asks := HasText(p.query);
    match reason
    case MissingQuery =>
      (action in {"agent.chat", "quest.start"} || (action == "overwindow.run" && cfg.overwindow)) && !asks
    case OverWindowNotInjected => action == "overwindow.run" && !cfg.overwindow
    case EmptyCorpus => action == "overwindow.run" && cfg.overwindow && asks && w.corpusBlank
    case NoActiveQuest => quest && !HasText(p.questId) && w.quests == []
    case AmbiguousQuest => quest && !HasText(p.questId) && |w.quests| >= 2
    case TaskActionUnimplemented =>
      action in {"task.create", "task.pause", "task.resume", "task.cancel", "task.set_priority"}
    case ChatNotInjected => action == "compact" && !cfg.chat
    case UnknownPolicy =>
      action == "compact" && cfg.chat && (if p.args == None then "" else p.args.value) !in cfg.policies
    case NotOrchestrated =>
      !quest &&
      action !in {"agent.chat", "quest.start", "overwindow.run", "compact"} &&
      action !in {"task.create", "task.pause", "task.resume", "task.cancel", "task.set_priority"}
    case CallFailed => false
    case CallTimedOut => false
  }

  /** Routing refuses a request for a reason exactly when that reason applies. */
  lemma RouteRefusesIff(cfg: Config, w: World, r: Request, reason: Reason)
    ensures Route(cfg, w, r) == Replying(Failure(reason)) <==> Refused(cfg, w, r.actionId, r.payload, reason)
  {
    ResolveQuestIdRefusesIff(w.quests, r.payload, reason);
    TargetedRefusesIff(cfg, w, r.payload, reason);
  }

  lemma TargetedRefusesIff(cfg: Config, w: World, p: Payload, reason: Reason)
    ensures forall call :: Targeted(cfg, w, p, call) == Replying(Failure(reason)) <==>
                           ResolveQuestId(w.quests, p) == Err(reason)
  {
  }

  /** Which outcomes an action can honestly report. */
  predicate Fits(actionId: string, o: Outcome) {
    match o
    case Success(Finished(call)) => call in CallsOf(actionId)
    case Success(NothingToCompact) => actionId == "compact"
    case Success(Compacted) => actionId == "compact"
    case Failure(CallTimedOut) => CreateQuest in CallsOf(actionId)
    case Failure(_) => true
  }

  // ----- What one task has published so far ---------------------------------------------------

  /** The publications of task i, in order. */
  function Trace(attempts: seq<Attempt>, i: nat): seq<Attempt> {
    if attempts == [] then []
    else
      var rest := Trace(attempts[..|attempts| - 1], i);
      var last := attempts[|attempts| - 1];
      if last.owner == i then rest + [last] else rest
  }

  predicate OnlyDomain(trace: seq<Attempt>) {
    forall a :: a in trace ==> a.event.Domain?
  }

  /** What a task must have published before it replies `o`. */
  predicate BeforeReply(actionId: string, o: Outcome, trace: seq<Attempt>) {
    Fits(actionId, o) &&
    match o
    case Success(Compacted) => |trace| == 1 && trace[0].event == HistoryReplaced
    case Failure(CallTimedOut) =>
      |trace| > 0 && trace[|trace| - 1].event == OperationTimedOut && OnlyDomain(trace[..|trace| - 1])
    case _ => OnlyDomain(trace)
  }

  /** The outcomes a call may have. */
  predicate Answers(call: Call, o: Outcome) {
    o == Success(Finished(call)) || o == Failure(CallFailed) || (call.CreateQuest? && o == Failure(CallTimedOut))
  }

  /** What may become of a task that was routed to stage `routed`. */
  predicate Follows(routed: Stage, stage: Stage) {
    match routed
    case Calling(call, target, _) =>
      (match stage
       case Calling(c, t, _) => c == call && t == target
       case TimingOut => call.CreateQuest?
       case Replying(o) => Answers(call, o)
       case Ended(o) => Answers(call, o)
       case _ => false)
    case Replacing => stage in {Replacing, Replying(Success(Compacted)), Ended(Success(Compacted))}
    case Replying(o) => stage == Replying(o) || stage == Ended(o)
    case _ => false
  }

  predicate Followed(cfg: Config, t: Task) {
    match t.seen
    case None => t.stage == Spawned
    case Some(w) => Follows(Route(cfg, w, t.request), t.stage)
  }

  predicate Shape(cfg: Config, t: Task, trace: seq<Attempt>) {
    Followed(cfg, t) && Published(cfg, t, trace)
  }

  /** What a task has published, by its stage. */
  predicate Published(cfg: Config, t: Task, trace: seq<Attempt>) {
    var a := t.request.actionId;
    match t.stage
    case Spawned => trace == []
    case Calling(call, _, emits) => OnlyDomain(trace) && call in CallsOf(a) && |trace| + emits == cfg.emitBound
    case TimingOut => OnlyDomain(trace) && CreateQuest in CallsOf(a)
    case Replacing => trace == [] && a == "compact"
    case Replying(o) => BeforeReply(a, o, trace)
    case Ended(o) =>
      |trace| > 0 &&
      trace[|trace| - 1].event == ReplyTo(t.request, o) &&
      BeforeReply(a, o, trace[..|trace| - 1])
  }

  lemma RouteShape(cfg: Config, w: World, r: Request)
    ensures Shape(cfg, Task(r, Some(w), Route(cfg, w, r)), [])
  {
  }

  lemma MoveKeepsShape(cfg: Config, t: Task, move: Move, trace: seq<Attempt>, i: nat)
    requires MoveEnabled(t, move) && Shape(cfg, t, trace)
    ensures var t' := Moved(cfg, t, move);
            match Publication(t, move)
            case None => Shape(cfg, t', trace)
            case Some((e, fate)) => Shape(cfg, t', trace + [Attempt(i, e, fate)])
  {
    match move
    case Begin(w) => RouteShape(cfg, w, t.request);
    case Emit(tag, critical, fate) =>
    case Return(_) =>
    case Elapse =>
    case PublishTimeout(fate) =>
      assert (trace + [Attempt(i, OperationTimedOut, fate)])[..|trace|] == trace;
    case PublishHistory(fate) =>
    case Reply(fate) =>
      var e := ReplyTo(t.request, t.stage.outcome);
      assert (trace + [Attempt(i, e, fate)])[..|trace|] == trace;
  }

  lemma TraceAppend(attempts: seq<Attempt>, a: Attempt, i: nat)
    ensures Trace(attempts + [a], i) == Trace(attempts, i) + if a.owner == i then [a] else []
  {
    assert (attempts + [a])[..|attempts|] == attempts;
  }

  // ----- The ledger ---------------------------------------------------------------------------

  function Requests(events: seq<Event>): seq<Request> {
    if events == [] then []
    else
      var rest := Requests(events[..|events| - 1]);
      var last := events[|events| - 1];
      if last.Requested? then rest + [last.request] else rest
  }

  function RequestKeys(requests: seq<Request>): multiset<Key> {
    if requests == [] then multiset{}
    else RequestKeys(requests[..|requests| - 1]) + multiset{KeyOf(requests[|requests| - 1])}
  }

  function InFlight(tasks: seq<Task>): multiset<Key> {
    if tasks == [] then multiset{}
    else
      var last := tasks[|tasks| - 1];
      InFlight(tasks[..|tasks| - 1]) + if last.stage.Ended? then multiset{} else multiset{KeyOf(last.request)}
  }

  function ReplyKeys(attempts: seq<Attempt>): multiset<Key> {
    if attempts == [] then multiset{}
    else
      var last := attempts[|attempts| - 1].event;
      ReplyKeys(attempts[..|attempts| - 1]) + if IsReply(last) then multiset{last.key} else multiset{}
  }

  function TaskRequests(tasks: seq<Task>): seq<Request> {
    seq(|tasks|, i requires 0 <= i < |tasks| => tasks[i].request)
  }

  /** Tasks mirror the received requests, and each has published exactly what its stage says. */
  predicate Faithful(cfg: Config, requests: seq<Request>, tasks: seq<Task>, attempts: seq<Attempt>) {
    && TaskRequests(tasks) == requests
    && (forall a :: a in attempts ==> a.owner < |tasks|)
    && AllShaped(cfg, tasks, attempts)
  }

  predicate AllShaped(cfg: Config, tasks: seq<Task>, attempts: seq<Attempt>) {
    forall i :: 0 <= i < |tasks| ==> Shape(cfg, tasks[i], Trace(attempts, i))
  }

  lemma OneReshaped(cfg: Config, tasks: seq<Task>, attempts: seq<Attempt>, i: nat, t: Task)
    requires AllShaped(cfg, tasks, attempts) && i < |tasks| && Shape(cfg, t, Trace(attempts, i))
    ensures AllShaped(cfg, tasks[i := t], attempts)
  {
  }

  /** Every received request is in flight or answered, and nothing else is. */
  predicate Balanced(requests: seq<Request>, tasks: seq<Task>, attempts: seq<Attempt>) {
    RequestKeys(requests) == InFlight(tasks) + ReplyKeys(attempts)
  }

  /** No event offered to the receiver vanishes unaccounted for. */
  predicate Conserved(cfg: Config, s: State) {
    && multiset(s.heard) == multiset(s.consumed) + multiset(s.queue) + multiset(s.lost)
    && (!s.alive ==> s.queue == [] && s.lag == 0)
    && |s.queue| <= Slots(cfg.capacity) && |s.queue| <= |s.heard| <= |s.wire|
  }

  predicate Inv(cfg: Config, s: State) {
    && Faithful(cfg, Requests(s.consumed), s.tasks, s.attempts)
    && Balanced(Requests(s.consumed), s.tasks, s.attempts)
    && Conserved(cfg, s)
  }

  lemma {:induction false} TraceOfStranger(attempts: seq<Attempt>, i: nat)
    requires forall a :: a in attempts ==> a.owner != i
    ensures Trace(attempts, i) == []
  {
    if attempts != [] {
      TraceOfStranger(attempts[..|attempts| - 1], i);
    }
  }

  /** What one task contributes to the requests in flight. */
  function Flight(t: Task): multiset<Key> {
    if t.stage.Ended? then multiset{} else multiset{KeyOf(t.request)}
  }

  lemma {:induction false} InFlightSnoc(tasks: seq<Task>, t: Task)
    ensures InFlight(tasks + [t]) == InFlight(tasks) + Flight(t)
  {
    assert (tasks + [t])[..|tasks|] == tasks;
  }

  lemma {:induction false} MultisetSwap<T>(a: multiset<T>, x: multiset<T>, b: multiset<T>)
    ensures (a + x) + b == (a + b) + x
  {
  }

  lemma {:induction false} InFlightUpdate(tasks: seq<Task>, i: nat, t: Task)
    requires i < |tasks| && !tasks[i].stage.Ended? && t.request == tasks[i].request
    ensures InFlight(tasks) ==
            InFlight(tasks[i := t]) + if t.stage.Ended? then multiset{KeyOf(t.request)} else multiset{}
    decreases tasks
  {
    var n := |tasks| - 1;
    var init, last := tasks[..n], tasks[n];
    assert tasks == init + [last];
    InFlightSnoc(init, last);
    if i == n {
      assert tasks[i := t] == init + [t];
      InFlightSnoc(init, t);
    } else {
      InFlightUpdate(init, i, t);
      var landed := if t.stage.Ended? then multiset{KeyOf(t.request)} else multiset{};
      UpdateBeforeLast(init, i, t, last);
      MultisetSwap(InFlight(init[i := t]), landed, Flight(last));
    }
  }

  lemma {:induction false} UpdateBeforeLast(init: seq<Task>, i: nat, t: Task, last: Task)
    requires i < |init|
    ensures InFlight((init + [last])[i := t]) == InFlight(init[i := t]) + Flight(last)
  {
    assert (init + [last])[i := t] == init[i := t] + [last];
    InFlightSnoc(init[i := t], last);
  }

  lemma NewTask(cfg: Config, requests: seq<Request>, tasks: seq<Task>, attempts: seq<Attempt>, r: Request)
    requires Faithful(cfg, requests, tasks, attempts) && Balanced(requests, tasks, attempts)
    ensures Faithful(cfg, requests + [r], tasks + [Task(r, None, Spawned)], attempts)
    ensures Balanced(requests + [r], tasks + [Task(r, None, Spawned)], attempts)
  {
    var tasks' := tasks + [Task(r, None, Spawned)];
    var n := |tasks|;
    assert TaskRequests(tasks') == TaskRequests(tasks) + [r];
    TraceOfStranger(attempts, n);
    assert tasks'[..n] == tasks;
    assert (requests + [r])[..|requests|] == requests;
  }

  lemma SilentMove(cfg: Config, requests: seq<Request>, tasks: seq<Task>, attempts: seq<Attempt>, i: nat, move: Move)
    requires Faithful(cfg, requests, tasks, attempts) && Balanced(requests, tasks, attempts)
    requires i < |tasks| && MoveEnabled(tasks[i], move) && Publication(tasks[i], move).None?
    ensures var tasks' := tasks[i := Moved(cfg, tasks[i], move)];
            Faithful(cfg, requests, tasks', attempts) && Balanced(requests, tasks', attempts)
  {
    var tasks' := tasks[i := Moved(cfg, tasks[i], move)];
    assert TaskRequests(tasks') == TaskRequests(tasks);
    MoveKeepsShape(cfg, tasks[i], move, Trace(attempts, i), i);
    OneReshaped(cfg, tasks, attempts, i, Moved(cfg, tasks[i], move));
    InFlightUpdate(tasks, i, Moved(cfg, tasks[i], move));
  }

  /** A reply is what ends a task, under the task's own ids. */
  lemma {:induction false} MoveReplies(cfg: Config, t: Task, move: Move)
    requires MoveEnabled(t, move)
    ensures Moved(cfg, t, move).request == t.request && !t.stage.Ended?
    ensures match Publication(t, move)
            case None => !Moved(cfg, t, move).stage.Ended?
            case Some((e, _)) =>
              (IsReply(e) <==> Moved(cfg, t, move).stage.Ended?) && (IsReply(e) ==> e.key == KeyOf(t.request))
  {
  }

  lemma {:induction false} AttemptReshapes(cfg: Config, tasks: seq<Task>, attempts: seq<Attempt>, t: Task, a: Attempt)
    requires AllShaped(cfg, tasks, attempts) && a.owner < |tasks|
    requires Shape(cfg, t, Trace(attempts, a.owner) + [a])
    ensures AllShaped(cfg, tasks[a.owner := t], attempts + [a])
  {
    forall j | 0 <= j < |tasks| ensures Shape(cfg, tasks[a.owner := t][j], Trace(attempts + [a], j)) {
      TraceAppend(attempts, a, j);
      ConcatEmpty(Trace(attempts, j));
    }
  }

  lemma {:induction false} AttemptBalances(requests: seq<Request>, tasks: seq<Task>, attempts: seq<Attempt>, t: Task,
                                           a: Attempt)
    requires Balanced(requests, tasks, attempts) && a.owner < |tasks|
    requires t.request == tasks[a.owner].request && !tasks[a.owner].stage.Ended?
    requires (IsReply(a.event) <==> t.stage.Ended?) && (IsReply(a.event) ==> a.event.key == KeyOf(t.request))
    ensures Balanced(requests, tasks[a.owner := t], attempts + [a])
  {
    InFlightUpdate(tasks, a.owner, t);
    assert (attempts + [a])[..|attempts|] == attempts;
  }

  lemma {:induction false} SpeakingMove(cfg: Config, requests: seq<Request>, tasks: seq<Task>, attempts: seq<Attempt>,
                                        i: nat, move: Move)
    requires Faithful(cfg, requests, tasks, attempts) && Balanced(requests, tasks, attempts)
    requires i < |tasks| && MoveEnabled(tasks[i], move) && Publication(tasks[i], move).Some?
    ensures var tasks' := tasks[i := Moved(cfg, tasks[i], move)];
            var (e, fate) := Publication(tasks[i], move).value;
            var attempts' := attempts + [Attempt(i, e, fate)];
            Faithful(cfg, requests, tasks', attempts') && Balanced(requests, tasks', attempts')
  {
    var t := Moved(cfg, tasks[i], move);
    var (e, fate) := Publication(tasks[i], move).value;
    var a := Attempt(i, e, fate);
    assert TaskRequests(tasks[i := t]) == TaskRequests(tasks);
    MoveReplies(cfg, tasks[i], move);
    MoveKeepsShape(cfg, tasks[i], move, Trace(attempts, i), i);
    AttemptReshapes(cfg, tasks, attempts, t, a);
    AttemptBalances(requests, tasks, attempts, t, a);
  }

  lemma {:induction false} HeadAndTail(events: seq<Event>)
    requires events != []
    ensures multiset(events) == multiset{events[0]} + multiset(events[1..])
  {
    assert events == [events[0]] + events[1..];
  }

  lemma {:induction false} BroadcastConserves(cfg: Config, s: State, m: Sent)
    requires Conserved(cfg, s)
    ensures Conserved(cfg, Broadcast(cfg, s, m))
  {
    if |s.queue| >= Slots(cfg.capacity) {
      HeadAndTail(s.queue);
      assert multiset(s.queue[1..] + [m.event]) == multiset(s.queue[1..]) + multiset{m.event};
      assert multiset(s.lost + [s.queue[0]]) == multiset(s.lost) + multiset{s.queue[0]};
    }
    assert multiset(s.heard + [m.event]) == multiset(s.heard) + multiset{m.event};
  }

  /** Publishing touches neither the tasks nor what has been received or attempted. */
  lemma PublishFrame(cfg: Config, s: State, m: Sent, fate: Fate)
    requires Conserved(cfg, s)
    ensures var s' := Publish(cfg, s, m, fate);
            s'.tasks == s.tasks && s'.attempts == s.attempts && s'.consumed == s.consumed && Conserved(cfg, s')
  {
    if fate.Direct? {
      BroadcastConserves(cfg, Sampled(cfg, s, m.event, fate.queued), m);
    }
  }

  lemma TakeConserves(cfg: Config, s: State)
    requires Conserved(cfg, s) && s.queue != []
    ensures Conserved(cfg, Take(s))
  {
    assert s.queue == [s.queue[0]] + s.queue[1..];
  }

  lemma RequestsAppend(events: seq<Event>, e: Event)
    ensures Requests(events + [e]) == Requests(events) + if e.Requested? then [e.request] else []
  {
    assert (events + [e])[..|events|] == events;
  }

  lemma TakeKeepsInv(cfg: Config, s: State)
    requires Inv(cfg, s) && s.queue != []
    ensures Inv(cfg, Take(s))
  {
    TakeConserves(cfg, s);
    RequestsAppend(s.consumed, s.queue[0]);
    if s.queue[0].Requested? {
      NewTask(cfg, Requests(s.consumed), s.tasks, s.attempts, s.queue[0].request);
    }
  }

  lemma PerformKeepsInv(cfg: Config, s: State, i: nat, move: Move)
    requires Inv(cfg, s) && i < |s.tasks| && MoveEnabled(s.tasks[i], move)
    ensures Inv(cfg, Perform(cfg, s, i, move))
  {
    var t := s.tasks[i];
    var requests, tasks' := Requests(s.consumed), s.tasks[i := Moved(cfg, t, move)];
    match Publication(t, move)
    case None => SilentMove(cfg, requests, s.tasks, s.attempts, i, move);
    case Some((e, fate)) =>
      SpeakingMove(cfg, requests, s.tasks, s.attempts, i, move);
      var noted := s.(tasks := tasks', attempts := s.attempts + [Attempt(i, e, fate)]);
      PublishFrame(cfg, noted, Sent(Some(i), e), fate);
      var s' := Publish(cfg, noted, Sent(Some(i), e), fate);
      assert Faithful(cfg, requests, s'.tasks, s'.attempts) && Balanced(requests, s'.tasks, s'.attempts);
  }

  lemma PublishKeepsInv(cfg: Config, s: State, m: Sent, fate: Fate)
    requires Inv(cfg, s)
    ensures Inv(cfg, Publish(cfg, s, m, fate))
  {
    PublishFrame(cfg, s, m, fate);
    InvFrame(cfg, s, Publish(cfg, s, m, fate));
  }

  lemma {:induction false} InvFrame(cfg: Config, s: State, s': State)
    requires Inv(cfg, s) && Conserved(cfg, s')
    requires s'.consumed == s.consumed && s'.tasks == s.tasks && s'.attempts == s.attempts
    ensures Inv(cfg, s')
  {
  }

  lemma {:induction false} BroadcastFrame(cfg: Config, s: State, m: Sent)
    ensures var s' := Broadcast(cfg, s, m);
            s'.consumed == s.consumed && s'.tasks == s.tasks && s'.attempts == s.attempts
  {
  }

  lemma {:induction false} ForwardKeepsInv(cfg: Config, s: State, i: nat)
    requires Inv(cfg, s) && i < |s.transit|
    ensures Inv(cfg, Forward(cfg, s, i))
  {
    var without := s.(transit := s.transit[..i] + s.transit[i+1..]);
    BroadcastConserves(cfg, without, s.transit[i]);
    BroadcastFrame(cfg, without, s.transit[i]);
    InvFrame(cfg, s, Forward(cfg, s, i));
  }

  lemma StepKeepsInv(cfg: Config, s: State, step: Step)
    requires Inv(cfg, s) && Enabled(cfg, s, step)
    ensures Inv(cfg, Apply(cfg, s, step))
  {
    match step
    case External(e, fate) => PublishKeepsInv(cfg, s, Sent(None, e), fate);
    case Merge(i) => ForwardKeepsInv(cfg, s, i);
    case Receive => TakeKeepsInv(cfg, s);
    case SkipLag =>
    case Stop =>
    case Run(i, move) => PerformKeepsInv(cfg, s, i, move);
  }

  lemma {:induction false} RunsKeepInv(cfg: Config, s: State, steps: seq<Step>)
    requires Inv(cfg, s) && Runs(cfg, s, steps)
    ensures Inv(cfg, Final(cfg, s, steps))
    decreases |steps|
  {
    if steps != [] {
      StepKeepsInv(cfg, s, steps[0]);
      RunsKeepInv(cfg, Apply(cfg, s, steps[0]), steps[1..]);
    }
  }

  lemma Reachable(cfg: Config, steps: seq<Step>)
    requires Runs(cfg, INIT, steps)
    ensures Inv(cfg, Final(cfg, INIT, steps))
  {
    RunsKeepInv(cfg, INIT, steps);
  }

  // ----- Safety over every run ----------------------------------------------------------------

  /**
   In every reachable state, for every (request id, action id): received == in flight + answered.
   So no key ever has more replies than requests, lagging and stopping included.
   */
  lemma LedgerBalances(cfg: Config, steps: seq<Step>, k: Key)
    requires Runs(cfg, INIT, steps)
    ensures var s := Final(cfg, INIT, steps);
            RequestKeys(Requests(s.consumed))[k] == InFlight(s.tasks)[k] + ReplyKeys(s.attempts)[k]
  {
    Reachable(cfg, steps);
  }

  /** One task per received request, in order: replies in the queue never start a task. */
  lemma SpawnsAreReceptions(cfg: Config, steps: seq<Step>)
    requires Runs(cfg, INIT, steps)
    ensures var s := Final(cfg, INIT, steps);
            |s.tasks| == |Requests(s.consumed)| &&
            forall i :: 0 <= i < |s.tasks| ==> s.tasks[i].request == Requests(s.consumed)[i]
  {
    Reachable(cfg, steps);
    var s := Final(cfg, INIT, steps);
    assert |TaskRequests(s.tasks)| == |s.tasks|;
    assert forall i :: 0 <= i < |s.tasks| ==> TaskRequests(s.tasks)[i] == s.tasks[i].request;
  }

  /** Everything the receiver was offered was received, is still queued, or was lost to lag or shutdown. */
  lemma NothingVanishes(cfg: Config, steps: seq<Step>)
    requires Runs(cfg, INIT, steps)
    ensures var s := Final(cfg, INIT, steps);
            multiset(s.heard) == multiset(s.consumed) + multiset(s.queue) + multiset(s.lost)
  {
    Reachable(cfg, steps);
  }

  function Replies(trace: seq<Attempt>): nat {
    if trace == [] then 0
    else Replies(trace[..|trace| - 1]) + if IsReply(trace[|trace| - 1].event) then 1 else 0
  }

  lemma {:induction false} NoReplies(trace: seq<Attempt>)
    requires forall a :: a in trace ==> !IsReply(a.event)
    ensures Replies(trace) == 0
  {
    if trace != [] {
      NoReplies(trace[..|trace| - 1]);
    }
  }

  lemma BeforeReplyIsSilent(actionId: string, o: Outcome, trace: seq<Attempt>)
    requires BeforeReply(actionId, o, trace)
    ensures Replies(trace) == 0
  {
    forall a | a in trace ensures !IsReply(a.event) {
      if o == Failure(CallTimedOut) {
        var n := |trace| - 1;
        assert trace == trace[..n] + [trace[n]];
      }
    }
    NoReplies(trace);
  }

  /** A task publishes its one reply with its last breath, under the key of its own request. */
  lemma ExactlyOneReply(cfg: Config, steps: seq<Step>, i: nat)
    requires Runs(cfg, INIT, steps) && i < |Final(cfg, INIT, steps).tasks|
    ensures var s := Final(cfg, INIT, steps);
            var t, trace := s.tasks[i], Trace(s.attempts, i);
            if t.stage.Ended? then
              Replies(trace) == 1 &&
              var key, reply := Key(t.request.requestId, t.request.actionId), trace[|trace| - 1].event;
              match t.stage.outcome
              case Success(summary) => reply == Completed(key, summary)
              case Failure(reason) => reply == Failed(key, reason)
            else Replies(trace) == 0
  {
    Reachable(cfg, steps);
    var s := Final(cfg, INIT, steps);
    var t, trace := s.tasks[i], Trace(s.attempts, i);
    assert Shape(cfg, t, trace);
    match t.stage
    case Ended(o) => BeforeReplyIsSilent(t.request.actionId, o, trace[..|trace| - 1]);
    case Replying(o) => BeforeReplyIsSilent(t.request.actionId, o, trace);
    case _ => NoReplies(trace);
  }

  lemma {:induction false} AttemptIsTraced(attempts: seq<Attempt>, a: Attempt)
    requires a in attempts
    ensures a in Trace(attempts, a.owner)
  {
    var n := |attempts| - 1;
    if attempts[n] != a {
      assert attempts == attempts[..n] + [attempts[n]];
      AttemptIsTraced(attempts[..n], a);
    }
  }

  lemma {:induction false} SilentHasNoReply(trace: seq<Attempt>)
    requires Replies(trace) == 0
    ensures forall a :: a in trace ==> !IsReply(a.event)
  {
    if trace != [] {
      var n := |trace| - 1;
      SilentHasNoReply(trace[..n]);
      assert trace == trace[..n] + [trace[n]];
    }
  }

  lemma ReplyIsLast(cfg: Config, t: Task, trace: seq<Attempt>)
    requires Shape(cfg, t, trace)
    ensures forall a :: a in trace && IsReply(a.event) ==> t.stage.Ended? && a == trace[|trace| - 1]
  {
    match t.stage
    case Ended(o) =>
      var n := |trace| - 1;
      BeforeReplyIsSilent(t.request.actionId, o, trace[..n]);
      SilentHasNoReply(trace[..n]);
      assert trace == trace[..n] + [trace[n]];
    case Replying(o) =>
      BeforeReplyIsSilent(t.request.actionId, o, trace);
      SilentHasNoReply(trace);
    case _ =>
  }

  /** Where a reply can come from: the last publication of an ended task. */
  lemma ReplyEndsItsTask(cfg: Config, s: State, a: Attempt)
    requires Inv(cfg, s) && a in s.attempts && IsReply(a.event)
    ensures a.owner < |s.tasks|
    ensures var t := s.tasks[a.owner];
            t.stage.Ended? && a.event == ReplyTo(t.request, t.stage.outcome) &&
            Fits(t.request.actionId, t.stage.outcome)
  {
    AttemptIsTraced(s.attempts, a);
    var t, trace := s.tasks[a.owner], Trace(s.attempts, a.owner);
    assert Shape(cfg, t, trace);
    ReplyIsLast(cfg, t, trace);
  }

  /**
   Every reply answers a request that was really received, echoes both of its ids, and never
   claims an outcome its action cannot have: task.* and unknown actions are never Completed.
   */
  lemma RepliesAreEarned(cfg: Config, steps: seq<Step>, a: Attempt)
    requires Runs(cfg, INIT, steps) && a in Final(cfg, INIT, steps).attempts && IsReply(a.event)
    ensures var s := Final(cfg, INIT, steps);
            exists r :: r in Requests(s.consumed) &&
                        a.event.key.requestId == r.requestId && a.event.key.actionId == r.actionId &&
                        (a.event.Completed? ==> Fits(r.actionId, Success(a.event.summary)))
  {
    Reachable(cfg, steps);
    var s := Final(cfg, INIT, steps);
    ReplyEndsItsTask(cfg, s, a);
    var r := s.tasks[a.owner].request;
    assert TaskRequests(s.tasks)[a.owner] == r;
  }

  /**
   What becomes of a request is decided by what its routing saw: a call is answered by its own outcome, a
   refusal by its reason, and only a request whose inputs were supplied is ever Completed.
   */
  lemma OutcomeIsRouted(cfg: Config, steps: seq<Step>, i: nat, w: World)
    requires Runs(cfg, INIT, steps) && i < |Final(cfg, INIT, steps).tasks|
    requires Final(cfg, INIT, steps).tasks[i].seen == Some(w)
    ensures var t := Final(cfg, INIT, steps).tasks[i];
            Follows(Route(cfg, w, t.request), t.stage)
  {
    Reachable(cfg, steps);
    var s := Final(cfg, INIT, steps);
    assert Shape(cfg, s.tasks[i], Trace(s.attempts, i));
  }

  /**
   A request is refused for a reason of routing exactly when that reason applies to what routing saw; the other
   failures are those of a call.
   */
  lemma RefusalsAreReported(cfg: Config, steps: seq<Step>, i: nat, w: World, reason: Reason)
    requires Runs(cfg, INIT, steps) && i < |Final(cfg, INIT, steps).tasks|
    requires Final(cfg, INIT, steps).tasks[i].seen == Some(w)
    ensures var t := Final(cfg, INIT, steps).tasks[i];
            (t.stage == Ended(Failure(reason)) ==>
               reason in {CallFailed, CallTimedOut} ||
               Refused(cfg, w, t.request.actionId, t.request.payload, reason)) &&
            (Refused(cfg, w, t.request.actionId, t.request.payload, reason) ==>
               t.stage in {Replying(Failure(reason)), Ended(Failure(reason))})
  {
    OutcomeIsRouted(cfg, steps, i, w);
    RouteRefusesIff(cfg, w, Final(cfg, INIT, steps).tasks[i].request, reason);
  }

  // ----- What a task has done -------------------------------------------------------------------

  datatype Deed =
    | Began(world: World)
    | Emitted
    | GotBack(ok: bool)
    | RanOut
    | ToldTimeout
    | ToldHistory
    | Answered

  function DeedOf(move: Move): Deed {
    match move
    case Begin(w) => Began(w)
    case Emit(_, _, _) => Emitted
    case Return(ok) => GotBack(ok)
    case Elapse => RanOut
    case PublishTimeout(_) => ToldTimeout
    case PublishHistory(_) => ToldHistory
    case Reply(_) => Answered
  }

  /** Task i has done the deed in one of the steps. */
  predicate Did(steps: seq<Step>, i: nat, deed: Deed) {
    exists k :: 0 <= k < |steps| && steps[k].Run? && steps[k].task == i && DeedOf(steps[k].move) == deed
  }

  lemma {:induction false} DidSnoc(steps: seq<Step>, step: Step, i: nat, deed: Deed)
    ensures Did(steps + [step], i, deed) <==>
            Did(steps, i, deed) || (step.Run? && step.task == i && DeedOf(step.move) == deed)
  {
    var all := steps + [step];
    if Did(steps, i, deed) {
      var k :| 0 <= k < |steps| && steps[k].Run? && steps[k].task == i && DeedOf(steps[k].move) == deed;
      assert all[k] == steps[k];
    }
    if step.Run? && step.task == i && DeedOf(step.move) == deed {
      assert all[|steps|] == step;
    }
    if Did(all, i, deed) {
      var k :| 0 <= k < |all| && all[k].Run? && all[k].task == i && DeedOf(all[k].move) == deed;
      assert k < |steps| ==> steps[k] == all[k];
    }
  }

  predicate Decided(stage: Stage, o: Outcome) {
    (stage.Replying? || stage.Ended?) && stage.outcome == o
  }

  /** The stage and what it says, in terms of what the task has done. */
  ghost predicate Told(t: Task, steps: seq<Step>, i: nat) {
    && (t.stage.Spawned? <==> t.seen == None)
    && (forall w :: t.seen == Some(w) <==> Did(steps, i, Began(w)))
    && ((exists call :: Decided(t.stage, Success(Finished(call)))) <==> Did(steps, i, GotBack(true)))
    && (Decided(t.stage, Failure(CallFailed)) <==> Did(steps, i, GotBack(false)))
    && (t.stage.TimingOut? || Decided(t.stage, Failure(CallTimedOut)) <==> Did(steps, i, RanOut))
    && (Decided(t.stage, Failure(CallTimedOut)) <==> Did(steps, i, ToldTimeout))
    && (Decided(t.stage, Success(Compacted)) <==> Did(steps, i, ToldHistory))
    && (t.stage.Ended? <==> Did(steps, i, Answered))
  }

  lemma {:induction false} NothingDone(steps: seq<Step>, i: nat, r: Request)
    requires forall k :: 0 <= k < |steps| && steps[k].Run? ==> steps[k].task != i
    ensures Told(Task(r, None, Spawned), steps, i)
  {
  }

  /** Routing alone finishes nothing, fails no call and runs out of no time. */
  lemma RoutedIsFresh(cfg: Config, w: World, r: Request)
    ensures var stage := Route(cfg, w, r);
            !stage.Spawned? && !stage.TimingOut? && !stage.Ended? && !Decided(stage, Success(Compacted)) &&
            !Decided(stage, Failure(CallFailed)) && !Decided(stage, Failure(CallTimedOut)) &&
            forall call :: !Decided(stage, Success(Finished(call)))
  {
    RouteRefusesIff(cfg, w, r, CallFailed);
    RouteRefusesIff(cfg, w, r, CallTimedOut);
    RouteCompactsIff(cfg, w, r);
  }

  lemma {:induction false} MoveIsTold(cfg: Config, t: Task, move: Move, steps: seq<Step>, i: nat)
    requires MoveEnabled(t, move) && Told(t, steps, i)
    ensures Told(Moved(cfg, t, move), steps + [Run(i, move)], i)
  {
    forall deed ensures Did(steps + [Run(i, move)], i, deed) <==> Did(steps, i, deed) || DeedOf(move) == deed {
      DidSnoc(steps, Run(i, move), i, deed);
    }
    var t' := Moved(cfg, t, move);
    match move
    case Begin(w) => RoutedIsFresh(cfg, w, t.request);
    case Return(ok) =>
      if ok {
        assert Decided(t'.stage, Success(Finished(t.stage.call)));
      }
    case Reply(_) =>
      assert forall o :: Decided(t'.stage, o) <==> Decided(t.stage, o);
    case _ =>
  }

  lemma {:induction false} OthersAreTold(t: Task, step: Step, steps: seq<Step>, i: nat)
    requires Told(t, steps, i) && (step.Run? ==> step.task != i)
    ensures Told(t, steps + [step], i)
  {
    forall deed ensures Did(steps + [step], i, deed) <==> Did(steps, i, deed) {
      DidSnoc(steps, step, i, deed);
    }
  }

  ghost predicate AllTold(tasks: seq<Task>, steps: seq<Step>) {
    && (forall i :: 0 <= i < |tasks| ==> Told(tasks[i], steps, i))
    && (forall k :: 0 <= k < |steps| && steps[k].Run? ==> steps[k].task < |tasks|)
  }

  /** What a step does to the tasks: it moves one, or adds one, or none. */
  lemma {:induction false} TasksAfter(cfg: Config, s: State, step: Step)
    requires Enabled(cfg, s, step)
    ensures var tasks := Apply(cfg, s, step).tasks;
            match step
            case Run(i, move) => tasks == s.tasks[i := Moved(cfg, s.tasks[i], move)]
            case Receive => tasks == s.tasks || exists r :: tasks == s.tasks + [Task(r, None, Spawned)]
            case _ => tasks == s.tasks
  {
  }

  lemma {:induction false} StepIsTold(cfg: Config, s: State, step: Step, steps: seq<Step>)
    requires Enabled(cfg, s, step) && AllTold(s.tasks, steps)
    ensures AllTold(Apply(cfg, s, step).tasks, steps + [step])
  {
    TasksAfter(cfg, s, step);
    var tasks, all := Apply(cfg, s, step).tasks, steps + [step];
    forall i: nat | i < |tasks| ensures Told(tasks[i], all, i) {
      if i == |s.tasks| {
        NothingDone(all, i, tasks[i].request);
      } else if step.Run? && step.task == i {
        MoveIsTold(cfg, s.tasks[i], step.move, steps, i);
      } else {
        OthersAreTold(s.tasks[i], step, steps, i);
      }
    }
  }

  lemma {:induction false} RunIsTold(cfg: Config, s: State, before: seq<Step>, steps: seq<Step>)
    requires Runs(cfg, s, steps) && AllTold(s.tasks, before)
    ensures AllTold(Final(cfg, s, steps).tasks, before + steps)
    decreases |steps|
  {
    if steps == [] {
      ConcatEmpty(before);
    } else {
      StepIsTold(cfg, s, steps[0], before);
      RunIsTold(cfg, Apply(cfg, s, steps[0]), before + [steps[0]], steps[1..]);
      HeadMoves(before, steps);
    }
  }

  lemma HeadMoves(before: seq<Step>, steps: seq<Step>)
    requires steps != []
    ensures before + [steps[0]] + steps[1..] == before + steps
  {
  }

  /**
   Replies report what happened: a job was routed in the world it began in, finished exactly when its call came
   back with success, failed when it came back with an error, timed out when its budget ran out and that was
   published, and compacted when it published the history.
   */
  lemma ReportsAreTrue(cfg: Config, steps: seq<Step>, i: nat)
    requires Runs(cfg, INIT, steps) && i < |Final(cfg, INIT, steps).tasks|
    ensures var t := Final(cfg, INIT, steps).tasks[i];
            && (forall w :: t.seen == Some(w) <==> Did(steps, i, Began(w)))
            && ((exists call :: Decided(t.stage, Success(Finished(call)))) <==> Did(steps, i, GotBack(true)))
            && (Decided(t.stage, Failure(CallFailed)) <==> Did(steps, i, GotBack(false)))
            && (Decided(t.stage, Failure(CallTimedOut)) <==> Did(steps, i, RanOut) && Did(steps, i, ToldTimeout))
            && (Decided(t.stage, Success(Compacted)) <==> Did(steps, i, ToldHistory))
            && (t.stage.Ended? <==> Did(steps, i, Answered))
  {
    RunIsTold(cfg, INIT, [], steps);
    ConcatEmpty(steps);
    assert Told(Final(cfg, INIT, steps).tasks[i], steps, i);
  }

  /** A compact request that found a provider, a known policy and messages. */
  predicate FoundMessages(cfg: Config, w: World, r: Request) {
    r.actionId == "compact" && cfg.chat && w.messages > 0 &&
    (if r.payload.args.Some? then r.payload.args.value else "") in cfg.policies
  }

  lemma ReplacingPublishes(cfg: Config, t: Task, w: World, trace: seq<Attempt>)
    requires Shape(cfg, t, trace) && t.seen == Some(w) && Route(cfg, w, t.request).Replacing?
    ensures if t.stage.Ended? then
              |trace| == 2 && trace[0].event == HistoryReplaced &&
              trace[1].event == Completed(KeyOf(t.request), Compacted)
            else trace == [] || (|trace| == 1 && trace[0].event == HistoryReplaced)
  {
    if t.stage.Ended? {
      var n := |trace| - 1;
      assert trace[0] == trace[..n][0];
    }
  }

  predicate NoHistory(trace: seq<Attempt>) {
    forall k :: 0 <= k < |trace| ==> trace[k].event != HistoryReplaced
  }

  lemma {:induction false} DomainIsNoHistory(trace: seq<Attempt>)
    requires OnlyDomain(trace)
    ensures NoHistory(trace)
  {
    forall k | 0 <= k < |trace| ensures trace[k].event.Domain? {
      assert trace[k] in trace;
    }
  }

  lemma {:induction false} NoHistorySnoc(trace: seq<Attempt>)
    requires trace != [] && NoHistory(trace[..|trace| - 1]) && trace[|trace| - 1].event != HistoryReplaced
    ensures NoHistory(trace)
  {
    forall k | 0 <= k < |trace| ensures trace[k].event != HistoryReplaced {
      assert k < |trace| - 1 ==> trace[k] == trace[..|trace| - 1][k];
    }
  }

  lemma {:induction false} OnlyCompactedHasHistory(actionId: string, o: Outcome, trace: seq<Attempt>)
    requires BeforeReply(actionId, o, trace) && o != Success(Compacted)
    ensures NoHistory(trace)
  {
    if o == Failure(CallTimedOut) {
      DomainIsNoHistory(trace[..|trace| - 1]);
      NoHistorySnoc(trace);
    } else {
      DomainIsNoHistory(trace);
    }
  }

  lemma OnlyReplacingIsCompacted(routed: Stage, stage: Stage)
    requires Follows(routed, stage) && !routed.Replacing?
    ensures !stage.Replacing?
    ensures stage.Ended? || stage.Replying? ==> stage.outcome != Success(Compacted) || routed == Replying(stage.outcome)
  {
  }

  lemma HistoryNeedsMessages(cfg: Config, t: Task, w: World, trace: seq<Attempt>)
    requires Shape(cfg, t, trace) && t.seen == Some(w) && !Route(cfg, w, t.request).Replacing?
    ensures NoHistory(trace)
  {
    OnlyReplacingIsCompacted(Route(cfg, w, t.request), t.stage);
    match t.stage
    case Ended(o) =>
      OnlyCompactedHasHistory(t.request.actionId, o, trace[..|trace| - 1]);
      NoHistorySnoc(trace);
    case Replying(o) =>
      OnlyCompactedHasHistory(t.request.actionId, o, trace);
    case _ =>
      DomainIsNoHistory(trace);
  }

  /**
   A compact task publishes a history event exactly when it found messages; once ended it has published
   two events, the history and then its completion.
   */
  lemma CompactReplacesThenReports(cfg: Config, steps: seq<Step>, i: nat, w: World)
    requires Runs(cfg, INIT, steps) && i < |Final(cfg, INIT, steps).tasks|
    requires Final(cfg, INIT, steps).tasks[i].seen == Some(w)
    ensures var s := Final(cfg, INIT, steps);
            var t, trace := s.tasks[i], Trace(s.attempts, i);
            FoundMessages(cfg, w, t.request) ==>
              if t.stage.Ended? then
                |trace| == 2 && trace[0].event == HistoryReplaced &&
                trace[1].event == Completed(KeyOf(t.request), Compacted)
              else trace == [] || (|trace| == 1 && trace[0].event == HistoryReplaced)
    ensures var s := Final(cfg, INIT, steps);
            var t, trace := s.tasks[i], Trace(s.attempts, i);
            !NoHistory(trace) ==> FoundMessages(cfg, w, t.request)
  {
    Reachable(cfg, steps);
    var s := Final(cfg, INIT, steps);
    var t, trace := s.tasks[i], Trace(s.attempts, i);
    assert Shape(cfg, t, trace);
    RouteCompactsIff(cfg, w, t.request);
    if Route(cfg, w, t.request).Replacing? {
      ReplacingPublishes(cfg, t, w, trace);
    } else {
      HistoryNeedsMessages(cfg, t, w, trace);
    }
  }

  // ----- The bus --------------------------------------------------------------------------------

  function Pow2(k: nat): (p: nat)
    ensures p > 0
  {
    if k == 0 then 1 else 2 * Pow2(k - 1)
  }

  lemma {:induction false} PowerFromIsLeast(k: nat, n: nat) returns (j: nat)
    ensures PowerFrom(Pow2(k), n) == Pow2(j) && j >= k && (j > k ==> Pow2(j - 1) < n)
    decreases n - Pow2(k)
  {
    if Pow2(k) >= n {
      j := k;
    } else {
      assert Pow2(k + 1) == 2 * Pow2(k);
      j := PowerFromIsLeast(k + 1, n);
    }
  }

  /** The channel's real size: the least power of two that holds its capacity. */
  lemma SlotsAreLeastPower(capacity: nat) returns (j: nat)
    ensures Slots(capacity) == Pow2(j) >= capacity && (j > 0 ==> Pow2(j - 1) < capacity)
  {
    assert Pow2(0) == 1;
    j := PowerFromIsLeast(0, capacity);
  }

  /** The loop's queue is the end of what it was offered; it lags only behind a full queue. */
  predicate HoldsLatest(cfg: Config, s: State) {
    s.alive ==>
      && |s.queue| <= |s.heard| && s.queue == s.heard[|s.heard| - |s.queue|..]
      && |s.queue| <= Slots(cfg.capacity) && (s.lag > 0 ==> |s.queue| == Slots(cfg.capacity))
  }

  lemma {:induction false} BroadcastHoldsLatest(cfg: Config, s: State, m: Sent)
    requires HoldsLatest(cfg, s)
    ensures HoldsLatest(cfg, Broadcast(cfg, s, m))
  {
    var s' := Broadcast(cfg, s, m);
    if s.alive {
      assert s'.heard[|s'.heard| - |s'.queue|..] == s'.queue;
    }
  }

  lemma {:induction false} StepHoldsLatest(cfg: Config, s: State, step: Step)
    requires HoldsLatest(cfg, s) && Enabled(cfg, s, step)
    ensures HoldsLatest(cfg, Apply(cfg, s, step))
  {
    match step
    case External(e, fate) => PublishHoldsLatest(cfg, s, Sent(None, e), fate);
    case Merge(i) => ForwardHoldsLatest(cfg, s, i);
    case Receive => TakeHoldsLatest(cfg, s);
    case Run(i, move) => PerformHoldsLatest(cfg, s, i, move);
    case _ =>
  }

  lemma {:induction false} ForwardHoldsLatest(cfg: Config, s: State, i: nat)
    requires HoldsLatest(cfg, s) && i < |s.transit|
    ensures HoldsLatest(cfg, Forward(cfg, s, i))
  {
    BroadcastHoldsLatest(cfg, s.(transit := s.transit[..i] + s.transit[i+1..]), s.transit[i]);
  }

  lemma {:induction false} TakeHoldsLatest(cfg: Config, s: State)
    requires HoldsLatest(cfg, s) && s.alive && s.lag == 0 && s.queue != []
    ensures HoldsLatest(cfg, Take(s))
  {
    LatestBehindHead(s.heard, s.queue);
  }

  lemma LatestBehindHead(heard: seq<Event>, queue: seq<Event>)
    requires queue != [] && |queue| <= |heard| && queue == heard[|heard| - |queue|..]
    ensures queue[1..] == heard[|heard| - |queue[1..]|..]
  {
  }

  lemma {:induction false} PerformHoldsLatest(cfg: Config, s: State, i: nat, move: Move)
    requires HoldsLatest(cfg, s) && i < |s.tasks| && MoveEnabled(s.tasks[i], move)
    ensures HoldsLatest(cfg, Perform(cfg, s, i, move))
  {
    var moved := s.(tasks := s.tasks[i := Moved(cfg, s.tasks[i], move)]);
    match Publication(s.tasks[i], move)
    case None =>
    case Some((e, fate)) =>
      PublishHoldsLatest(cfg, moved.(attempts := s.attempts + [Attempt(i, e, fate)]), Sent(Some(i), e), fate);
  }

  lemma {:induction false} PublishHoldsLatest(cfg: Config, s: State, m: Sent, fate: Fate)
    requires HoldsLatest(cfg, s)
    ensures HoldsLatest(cfg, Publish(cfg, s, m, fate))
  {
    if fate.Direct? {
      BroadcastHoldsLatest(cfg, Sampled(cfg, s, m.event, fate.queued), m);
    }
  }

  /** Lag costs the oldest events: in every reachable state the running loop still has the latest it was offered. */
  lemma {:induction false} OnlyOldestAreLost(cfg: Config, s: State, steps: seq<Step>)
    requires HoldsLatest(cfg, s) && Runs(cfg, s, steps)
    ensures HoldsLatest(cfg, Final(cfg, s, steps))
    decreases |steps|
  {
    if steps != [] {
      StepHoldsLatest(cfg, s, steps[0]);
      OnlyOldestAreLost(cfg, Apply(cfg, s, steps[0]), steps[1..]);
    }
  }

  lemma {:induction false} PublishCountsLost(cfg: Config, s: State, m: Sent, fate: Fate)
    ensures var s' := Publish(cfg, s, m, fate); s'.alive == s.alive && s'.lag - s.lag == |s'.lost| - |s.lost|
  {
  }

  lemma {:induction false} StepCountsLost(cfg: Config, s: State, step: Step)
    requires Enabled(cfg, s, step)
    ensures var s' := Apply(cfg, s, step);
            (s'.alive <==> s.alive && step != Stop) &&
            (step != Stop && step != SkipLag ==> s'.lag - s.lag == |s'.lost| - |s.lost|)
  {
    match step
    case External(e, fate) => PublishCountsLost(cfg, s, Sent(None, e), fate);
    case Run(i, move) =>
      var moved := s.(tasks := s.tasks[i := Moved(cfg, s.tasks[i], move)]);
      match Publication(s.tasks[i], move) {
        case None =>
        case Some((e, fate)) =>
          PublishCountsLost(cfg, moved.(attempts := s.attempts + [Attempt(i, e, fate)]), Sent(Some(i), e), fate);
      }
    case _ =>
  }

  /** Skipping a lag tells it and costs nothing more; stopping costs what is still queued. */
  lemma {:induction false} OnlyStopCostsTheQueue(cfg: Config, s: State, step: Step)
    requires Enabled(cfg, s, step) && step in {SkipLag, Stop}
    ensures var s' := Apply(cfg, s, step);
            s'.lag == 0 && s'.queue == (if step == Stop then [] else s.queue) &&
            s'.lost == s.lost + s.queue[..|s.queue| - |s'.queue|]
  {
  }

  /** Only a stop ends the loop: a skipped lag does not. */
  lemma {:induction false} AliveUntilStop(cfg: Config, s: State, steps: seq<Step>)
    requires Runs(cfg, s, steps)
    ensures Final(cfg, s, steps).alive <==> s.alive && Stop !in steps
    decreases |steps|
  {
    if steps != [] {
      StepCountsLost(cfg, s, steps[0]);
      AliveUntilStop(cfg, Apply(cfg, s, steps[0]), steps[1..]);
      assert steps == [steps[0]] + steps[1..];
    }
  }

  /** The lag a running loop is told is the number of events lost since it was last told. */
  lemma {:induction false} LagCountsLost(cfg: Config, s: State, steps: seq<Step>)
    requires Runs(cfg, s, steps) && Stop !in steps && SkipLag !in steps
    ensures Final(cfg, s, steps).lag - s.lag == |Final(cfg, s, steps).lost| - |s.lost|
    decreases |steps|
  {
    if steps != [] {
      StepCountsLost(cfg, s, steps[0]);
      LagCountsLost(cfg, Apply(cfg, s, steps[0]), steps[1..]);
    }
  }

  /** Everything on the channel or still held by a shard. */
  function OnTheWay(s: State): multiset<Sent> {
    multiset(s.wire) + multiset(s.transit)
  }

  /** `after` is `before` and what was offered in between, all of it if nothing is ever dropped. */
  predicate Carries(cfg: Config, before: multiset<Sent>, offered: multiset<Sent>, after: multiset<Sent>) {
    after <= before + offered && (cfg.sampling.None? ==> after == before + offered)
  }

  lemma {:induction false} BroadcastCarries(cfg: Config, s: State, m: Sent)
    ensures OnTheWay(Broadcast(cfg, s, m)) == OnTheWay(s) + multiset{m}
  {
    var s' := Broadcast(cfg, s, m);
    assert s'.wire == s.wire + [m] && s'.transit == s.transit;
  }

  lemma {:induction false} PublishCarries(cfg: Config, s: State, m: Sent, fate: Fate)
    ensures Carries(cfg, OnTheWay(s), multiset{m}, OnTheWay(Publish(cfg, s, m, fate)))
  {
    match fate
    case Sharded =>
    case Direct(queued) =>
      var s' := Sampled(cfg, s, m.event, queued);
      assert OnTheWay(s') == OnTheWay(s);
      BroadcastCarries(cfg, s', m);
  }

  lemma {:induction false} MergeCarries(cfg: Config, s: State, i: nat)
    requires i < |s.transit|
    ensures OnTheWay(Forward(cfg, s, i)) == OnTheWay(s)
  {
    var left := s.(transit := s.transit[..i] + s.transit[i+1..]);
    TakenOut(s.transit, i);
    MergedOut(cfg, s, left, s.transit[i]);
  }

  lemma {:induction false} MergedOut(cfg: Config, s: State, left: State, m: Sent)
    requires left.wire == s.wire && multiset(s.transit) == multiset(left.transit) + multiset{m}
    ensures OnTheWay(Broadcast(cfg, left, m)) == OnTheWay(s)
  {
    BroadcastCarries(cfg, left, m);
    MultisetSwap(multiset(left.wire), multiset(left.transit), multiset{m});
  }

  lemma TakenOut(transit: seq<Sent>, i: nat)
    requires i < |transit|
    ensures multiset(transit) == multiset(transit[..i] + transit[i+1..]) + multiset{transit[i]}
  {
    assert transit == transit[..i] + [transit[i]] + transit[i+1..];
  }

  /** A step's own offer to the bus. */
  function OfferOf(s: State, step: Step): multiset<Sent> {
    match step
    case External(e, _) => multiset{Sent(None, e)}
    case Run(i, move) =>
      if i >= |s.tasks| then multiset{}
      else
        (match Publication(s.tasks[i], move)
         case Some((e, _)) => multiset{Sent(Some(i), e)}
         case None => multiset{})
    case _ => multiset{}
  }

  lemma {:induction false} StepCarries(cfg: Config, s: State, step: Step)
    requires Enabled(cfg, s, step)
    ensures Carries(cfg, OnTheWay(s), OfferOf(s, step), OnTheWay(Apply(cfg, s, step)))
  {
    match step
    case External(e, fate) => PublishCarries(cfg, s, Sent(None, e), fate);
    case Merge(i) => MergeCarries(cfg, s, i);
    case Run(i, move) => PerformCarries(cfg, s, i, move);
    case _ => assert OnTheWay(Apply(cfg, s, step)) == OnTheWay(s);
  }

  lemma {:induction false} PerformCarries(cfg: Config, s: State, i: nat, move: Move)
    requires i < |s.tasks| && MoveEnabled(s.tasks[i], move)
    ensures Carries(cfg, OnTheWay(s), OfferOf(s, Run(i, move)), OnTheWay(Perform(cfg, s, i, move)))
  {
    var moved := s.(tasks := s.tasks[i := Moved(cfg, s.tasks[i], move)]);
    assert OnTheWay(moved) == OnTheWay(s);
    match Publication(s.tasks[i], move)
    case None =>
    case Some((e, fate)) =>
      PublishCarries(cfg, moved.(attempts := s.attempts + [Attempt(i, e, fate)]), Sent(Some(i), e), fate);
  }

  function Offers(cfg: Config, s: State, steps: seq<Step>): multiset<Sent>
    requires Runs(cfg, s, steps)
    decreases |steps|
  {
    if steps == [] then multiset{} else OfferOf(s, steps[0]) + Offers(cfg, Apply(cfg, s, steps[0]), steps[1..])
  }

  lemma {:induction false} CarriesOn(cfg: Config, a: multiset<Sent>, x: multiset<Sent>, b: multiset<Sent>,
                                     y: multiset<Sent>, c: multiset<Sent>)
    requires Carries(cfg, a, x, b) && Carries(cfg, b, y, c)
    ensures Carries(cfg, a, x + y, c)
  {
    assert a + (x + y) == (a + x) + y;
  }

  /**
   The bus makes up nothing, and a bus that does not downsample loses nothing: whatever was published is on the
   channel or still held by a shard, as often as it was published.
   */
  lemma {:induction false} BusCarriesAll(cfg: Config, s: State, steps: seq<Step>)
    requires Runs(cfg, s, steps)
    ensures OnTheWay(Final(cfg, s, steps)) <= OnTheWay(s) + Offers(cfg, s, steps)
    ensures cfg.sampling.None? ==> OnTheWay(Final(cfg, s, steps)) == OnTheWay(s) + Offers(cfg, s, steps)
    decreases |steps|
  {
    if steps != [] {
      var s' := Apply(cfg, s, steps[0]);
      StepCarries(cfg, s, steps[0]);
      BusCarriesAll(cfg, s', steps[1..]);
      CarriesOn(cfg, OnTheWay(s), OfferOf(s, steps[0]), OnTheWay(s'), Offers(cfg, s', steps[1..]),
                OnTheWay(Final(cfg, s', steps[1..])));
    }
  }

  /** What has passed through a shard or is waiting in it, in order. */
  function Lane(events: seq<Sent>, shard: nat): seq<Sent> {
    if events == [] then []
    else
      var before, last := Lane(events[..|events| - 1], shard), events[|events| - 1];
      if ShardOf(last.event) == shard then before + [last] else before
  }

  lemma {:induction false} LaneConcat(a: seq<Sent>, b: seq<Sent>, shard: nat)
    ensures Lane(a + b, shard) == Lane(a, shard) + Lane(b, shard)
    decreases |b|
  {
    if b == [] {
      ConcatEmpty(a);
      ConcatEmpty(Lane(a, shard));
    } else {
      var n := |b| - 1;
      assert (a + b)[..|a| + n] == a + b[..n];
      LaneConcat(a, b[..n], shard);
    }
  }

  lemma {:induction false} LaneWithout(events: seq<Sent>, shard: nat)
    requires forall j :: 0 <= j < |events| ==> ShardOf(events[j].event) != shard
    ensures Lane(events, shard) == []
  {
    if events != [] {
      LaneWithout(events[..|events| - 1], shard);
    }
  }

  /** Merging takes the oldest event of a shard: whatever the other shards do, each stays in order. */
  lemma {:induction false} ShardsKeepOrder(cfg: Config, s: State, i: nat, shard: nat)
    requires Enabled(cfg, s, Merge(i))
    ensures var s' := Apply(cfg, s, Merge(i));
            Lane(s'.wire, shard) + Lane(s'.transit, shard) == Lane(s.wire, shard) + Lane(s.transit, shard)
  {
    var m, before, behind := s.transit[i], s.transit[..i], s.transit[i+1..];
    assert s.transit == before + [m] + behind;
    forall j | 0 <= j < |before| ensures ShardOf(before[j].event) != ShardOf(m.event) {
    }
    FirstOfItsLane(s.wire, before, m, behind, shard);
  }

  lemma {:induction false} FirstOfItsLane(wire: seq<Sent>, before: seq<Sent>, m: Sent, behind: seq<Sent>, shard: nat)
    requires forall j :: 0 <= j < |before| ==> ShardOf(before[j].event) != ShardOf(m.event)
    ensures Lane(wire + [m], shard) + Lane(before + behind, shard) ==
            Lane(wire, shard) + Lane(before + [m] + behind, shard)
  {
    LaneConcat(before + [m], behind, shard);
    LaneConcat(before, [m], shard);
    LaneConcat(before, behind, shard);
    LaneConcat(wire, [m], shard);
    LaneOfOne(m, shard);
    if ShardOf(m.event) == shard {
      LaneWithout(before, shard);
    }
    MovedUp(Lane(wire, shard), Lane(before, shard), Lane([m], shard), Lane(behind, shard));
  }

  lemma {:induction false} MovedUp(w: seq<Sent>, b: seq<Sent>, m: seq<Sent>, h: seq<Sent>)
    requires b == [] || m == []
    ensures (w + m) + (b + h) == w + ((b + m) + h)
  {
  }

  lemma LaneOfOne(m: Sent, shard: nat)
    ensures Lane([m], shard) == if ShardOf(m.event) == shard then [m] else []
  {
    assert [m][..0] == [];
  }

  /** Under pressure one normal event in `every` goes out, counted over all that are offered; critical ones always. */
  lemma PressureLetsEveryNthPass(cfg: Config, s: State, m: Sent, queued: nat)
    requires cfg.sampling.Some? && LatchNext(cfg, s.latch, queued)
    ensures var s' := Publish(cfg, s, m, Direct(queued));
            if IsCritical(m.event) then s'.wire == s.wire + [m] && s'.sampled == s.sampled
            else
              s'.sampled == s.sampled + 1 &&
              s'.wire == if exists k: nat :: s.sampled == k * cfg.sampling.value.every then s.wire + [m] else s.wire
  {
    IsMultipleIff(s.sampled, cfg.sampling.value.every);
  }

  lemma {:induction false} IsMultipleIff(n: nat, every: nat)
    ensures IsMultiple(n, every) <==> exists k: nat :: n == k * every
    decreases n
  {
    if every == 0 || n < every {
      assert 0 == 0 * every;
      forall k: nat | n == k * every ensures n == 0 {
        if k > 0 {
          assert k * every == every + (k - 1) * every && (k - 1) * every >= 0;
        }
      }
    } else {
      IsMultipleIff(n - every, every);
      if k: nat :| n - every == k * every {
        assert n == (k + 1) * every;
      }
      if k: nat :| n == k * every {
        assert n - every == (k - 1) * every && k > 0;
      }
    }
  }

  /**
   The pressure latch engages from the trigger level on, lets go from the release level down, and holds its state
   in the dead zone between them.
   */
  lemma LatchHasADeadZone(cfg: Config, latch: bool, queued: nat)
    requires cfg.sampling.Some? && cfg.capacity > 0
    ensures var level, z := queued as real / cfg.capacity as real, cfg.sampling.value;
            var (trigger, resume) := (z.trigger as real / 1000.0, z.resume as real / 1000.0);
            (level >= trigger && level > resume ==> LatchNext(cfg, latch, queued)) &&
            (level < trigger && level <= resume ==> !LatchNext(cfg, latch, queued)) &&
            (resume < level < trigger ==> LatchNext(cfg, latch, queued) == latch)
  {
    var z := cfg.sampling.value;
    RatioIff(queued, cfg.capacity, z.trigger);
    RatioIff(queued, cfg.capacity, z.resume);
  }

  lemma RatioIff(queued: nat, capacity: nat, permille: nat)
    requires capacity > 0
    ensures queued as real / capacity as real >= permille as real / 1000.0 <==> queued * 1000 >= capacity * permille
    ensures queued as real / capacity as real > permille as real / 1000.0 <==> queued * 1000 > capacity * permille
  {
    var q, c, p := queued as real, capacity as real, permille as real;
    assert q / c * c == q;
    assert (q / c - p / 1000.0) * c * 1000.0 == q * 1000.0 - c * p;
    assert (queued * 1000) as real == q * 1000.0 && (capacity * permille) as real == c * p;
  }

  // ----- Quiescence ---------------------------------------------------------------------------

  /** What one event costs while it waits in the queue: a request still has its whole task ahead. */
  function QueueCost(cfg: Config, e: Event): nat {
    if e.Requested? then 4 * cfg.emitBound + 11 else 1
  }

  function StageCost(cfg: Config, stage: Stage): nat {
    match stage
    case Spawned => 4 * cfg.emitBound + 10
    case Calling(_, _, emits) => 4 * emits + 9
    case TimingOut => 8
    case Replacing => 8
    case Replying(_) => 4
    case Ended(_) => 0
  }

  function QueueTotal(cfg: Config, queue: seq<Event>): nat {
    if queue == [] then 0
    else QueueTotal(cfg, queue[..|queue| - 1]) + QueueCost(cfg, queue[|queue| - 1])
  }

  function TransitTotal(cfg: Config, transit: seq<Sent>): nat {
    if transit == [] then 0
    else TransitTotal(cfg, transit[..|transit| - 1]) + QueueCost(cfg, transit[|transit| - 1].event) + 2
  }

  function TaskTotal(cfg: Config, tasks: seq<Task>): nat {
    if tasks == [] then 0
    else TaskTotal(cfg, tasks[..|tasks| - 1]) + StageCost(cfg, tasks[|tasks| - 1].stage)
  }

  function Measure(cfg: Config, s: State): nat {
    QueueTotal(cfg, s.queue) + TransitTotal(cfg, s.transit) + TaskTotal(cfg, s.tasks) +
    if s.lag > 0 then 1 else 0
  }

  lemma {:induction false} QueueHead(cfg: Config, queue: seq<Event>)
    requires queue != []
    ensures QueueTotal(cfg, queue) == QueueCost(cfg, queue[0]) + QueueTotal(cfg, queue[1..])
  {
    var n := |queue| - 1;
    if n > 0 {
      QueueHead(cfg, queue[..n]);
      assert queue[1..][..n-1] == queue[..n][1..];
    }
  }

  lemma {:induction false} TransitRemove(cfg: Config, transit: seq<Sent>, i: nat)
    requires i < |transit|
    ensures TransitTotal(cfg, transit) ==
            TransitTotal(cfg, transit[..i] + transit[i+1..]) + QueueCost(cfg, transit[i].event) + 2
  {
    var n := |transit| - 1;
    if i == n {
      assert transit[..i] + transit[i+1..] == transit[..n];
    } else {
      TransitRemove(cfg, transit[..n], i);
      assert (transit[..i] + transit[i+1..])[..n-1] == transit[..n][..i] + transit[..n][i+1..];
    }
  }

  lemma {:induction false} TaskUpdate(cfg: Config, tasks: seq<Task>, i: nat, t: Task)
    requires i < |tasks|
    ensures TaskTotal(cfg, tasks) + StageCost(cfg, t.stage) ==
            TaskTotal(cfg, tasks[i := t]) + StageCost(cfg, tasks[i].stage)
  {
    var n := |tasks| - 1;
    if i == n {
      assert tasks[i := t][..n] == tasks[..n];
    } else {
      TaskUpdate(cfg, tasks[..n], i, t);
      assert tasks[i := t][..n] == tasks[..n][i := t];
    }
  }

  lemma BroadcastCost(cfg: Config, s: State, m: Sent)
    ensures Measure(cfg, Broadcast(cfg, s, m)) <= Measure(cfg, s) + QueueCost(cfg, m.event) + 1
  {
    if s.alive {
      assert (s.queue + [m.event])[..|s.queue|] == s.queue;
      if s.queue != [] {
        QueueHead(cfg, s.queue);
        assert (s.queue[1..] + [m.event])[..|s.queue| - 1] == s.queue[1..];
      }
    }
  }

  lemma PublishCost(cfg: Config, s: State, m: Sent, fate: Fate)
    ensures Measure(cfg, Publish(cfg, s, m, fate)) <= Measure(cfg, s) + QueueCost(cfg, m.event) + 2
  {
    match fate
    case Direct(queued) => BroadcastCost(cfg, Sampled(cfg, s, m.event, queued), m);
    case Sharded => assert (s.transit + [m])[..|s.transit|] == s.transit;
  }

  /** A move lowers its stage, by 4 at least when it also publishes. */
  lemma MoveCost(cfg: Config, t: Task, move: Move)
    requires MoveEnabled(t, move) && (t.stage.Calling? ==> t.stage.emits <= cfg.emitBound)
    ensures StageCost(cfg, NextStage(cfg, t, move)) + 1 <= StageCost(cfg, t.stage)
    ensures Publication(t, move).Some? ==>
              StageCost(cfg, NextStage(cfg, t, move)) + 4 <= StageCost(cfg, t.stage) &&
              !Publication(t, move).value.0.Requested?
  {
  }

  predicate Internal(step: Step) {
    !step.External? && !step.Stop?
  }

  lemma PerformDescends(cfg: Config, s: State, i: nat, move: Move)
    requires i < |s.tasks| && MoveEnabled(s.tasks[i], move)
    requires s.tasks[i].stage.Calling? ==> s.tasks[i].stage.emits <= cfg.emitBound
    ensures Measure(cfg, Perform(cfg, s, i, move)) < Measure(cfg, s)
  {
    var t := s.tasks[i];
    var t' := Moved(cfg, t, move);
    var moved := s.(tasks := s.tasks[i := t']);
    MoveCost(cfg, t, move);
    TaskUpdate(cfg, s.tasks, i, t');
    match Publication(t, move)
    case None =>
    case Some((e, fate)) =>
      var noted := moved.(attempts := s.attempts + [Attempt(i, e, fate)]);
      PublishCost(cfg, noted, Sent(Some(i), e), fate);
  }

  lemma {:induction false} MergeDescends(cfg: Config, s: State, i: nat)
    requires i < |s.transit|
    ensures Measure(cfg, Forward(cfg, s, i)) < Measure(cfg, s)
  {
    TransitRemove(cfg, s.transit, i);
    BroadcastCost(cfg, s.(transit := s.transit[..i] + s.transit[i+1..]), s.transit[i]);
  }

  lemma {:induction false} ReceiveDescends(cfg: Config, s: State)
    requires s.queue != []
    ensures Measure(cfg, Take(s)) < Measure(cfg, s)
  {
    QueueHead(cfg, s.queue);
    if s.queue[0].Requested? {
      assert (s.tasks + [Task(s.queue[0].request, None, Spawned)])[..|s.tasks|] == s.tasks;
    }
  }

  lemma {:induction false} InternalStepDescends(cfg: Config, s: State, step: Step)
    requires Inv(cfg, s) && Enabled(cfg, s, step) && Internal(step)
    ensures Measure(cfg, Apply(cfg, s, step)) < Measure(cfg, s)
  {
    match step
    case Merge(i) => MergeDescends(cfg, s, i);
    case Receive => ReceiveDescends(cfg, s);
    case SkipLag =>
    case Run(i, move) =>
      assert Shape(cfg, s.tasks[i], Trace(s.attempts, i));
      PerformDescends(cfg, s, i, move);
  }

  function Internals(steps: seq<Step>): nat {
    if steps == [] then 0 else (if Internal(steps[0]) then 1 else 0) + Internals(steps[1..])
  }

  function Externals(steps: seq<Step>): nat {
    if steps == [] then 0 else (if steps[0].External? then 1 else 0) + Externals(steps[1..])
  }

  /** The work one step may add: only somebody else's publication adds any. */
  function Income(cfg: Config, step: Step): nat {
    if step.External? then 4 * cfg.emitBound + 13 else 0
  }

  function Work(step: Step): nat {
    if Internal(step) then 1 else 0
  }

  lemma StepIsPaidFor(cfg: Config, s: State, step: Step)
    requires Inv(cfg, s) && Enabled(cfg, s, step)
    ensures Measure(cfg, Apply(cfg, s, step)) + Work(step) <= Measure(cfg, s) + Income(cfg, step)
  {
    if Internal(step) {
      InternalStepDescends(cfg, s, step);
    } else if step.External? {
      PublishCost(cfg, s, Sent(None, step.event), step.fate);
    }
  }

  function TotalIncome(cfg: Config, steps: seq<Step>): nat {
    if steps == [] then 0 else Income(cfg, steps[0]) + TotalIncome(cfg, steps[1..])
  }

  lemma {:induction false} RunIsPaidFor(cfg: Config, s: State, steps: seq<Step>)
    requires Inv(cfg, s) && Runs(cfg, s, steps)
    ensures Internals(steps) + Measure(cfg, Final(cfg, s, steps)) <= Measure(cfg, s) + TotalIncome(cfg, steps)
    decreases |steps|
  {
    if steps != [] {
      var s' := Apply(cfg, s, steps[0]);
      StepKeepsInv(cfg, s, steps[0]);
      StepIsPaidFor(cfg, s, steps[0]);
      RunIsPaidFor(cfg, s', steps[1..]);
      assert Final(cfg, s, steps) == Final(cfg, s', steps[1..]);
      assert Internals(steps) == Work(steps[0]) + Internals(steps[1..]);
    }
  }

  lemma {:induction false} IncomeIsPerExternal(cfg: Config, steps: seq<Step>)
    ensures TotalIncome(cfg, steps) == (4 * cfg.emitBound + 13) * Externals(steps)
  {
    if steps != [] {
      IncomeIsPerExternal(cfg, steps[1..]);
      assert (4 * cfg.emitBound + 13) * (1 + Externals(steps[1..])) ==
             (4 * cfg.emitBound + 13) + (4 * cfg.emitBound + 13) * Externals(steps[1..]);
    }
  }

  /**
   However the steps interleave, a run with x external publications takes a bounded number of
   internal steps: replies re-entering the queue cannot keep the orchestrator busy.
   */
  lemma RunsAreBounded(cfg: Config, steps: seq<Step>)
    requires Runs(cfg, INIT, steps)
    ensures Internals(steps) <= (4 * cfg.emitBound + 13) * Externals(steps)
  {
    RunIsPaidFor(cfg, INIT, steps);
    IncomeIsPerExternal(cfg, steps);
  }

  /** Nothing the orchestrator itself could still do. */
  predicate Quiescent(s: State) {
    && s.transit == []
    && s.queue == [] && s.lag == 0
    && forall i :: 0 <= i < |s.tasks| ==> s.tasks[i].stage.Ended?
  }

  lemma TaskCanMove(cfg: Config, s: State, i: nat)
    requires Inv(cfg, s) && i < |s.tasks|
    ensures s.tasks[i].stage.Ended? || exists move :: Enabled(cfg, s, Run(i, move))
  {
    var t, way := s.tasks[i], Direct(|s.queue|);
    if !t.stage.Ended? {
      var move := match t.stage
        case Spawned => Begin(World([], true, 0))
        case Calling(_, _, _) => Return(true)
        case TimingOut => PublishTimeout(way)
        case Replacing => PublishHistory(way)
        case _ => Reply(way);
      assert Enabled(cfg, s, Run(i, move));
    }
  }

  lemma {:induction false} QuiescentIsStuck(cfg: Config, s: State, step: Step)
    requires Quiescent(s) && Internal(step)
    ensures !Enabled(cfg, s, step)
  {
  }

  /** As long as something is left to do, some internal step is possible. */
  lemma {:induction false} SomethingIsPossible(cfg: Config, s: State) returns (step: Step)
    requires Inv(cfg, s) && !Quiescent(s)
    ensures Internal(step) && Enabled(cfg, s, step)
  {
    if s.transit != [] {
      step := Merge(0);
    } else if s.lag > 0 {
      step := SkipLag;
    } else if s.queue != [] {
      step := Receive;
    } else {
      var i :| 0 <= i < |s.tasks| && !s.tasks[i].stage.Ended?;
      TaskCanMove(cfg, s, i);
      var move :| Enabled(cfg, s, Run(i, move));
      step := Run(i, move);
    }
  }

  /** The orchestrator can only come to rest with everything drained and every task ended. */
  lemma {:induction false} StuckIsQuiescent(cfg: Config, s: State)
    requires Inv(cfg, s)
    ensures (forall step :: Internal(step) ==> !Enabled(cfg, s, step)) <==> Quiescent(s)
  {
    if Quiescent(s) {
      forall step | Internal(step) ensures !Enabled(cfg, s, step) {
        QuiescentIsStuck(cfg, s, step);
      }
    } else {
      var step := SomethingIsPossible(cfg, s);
    }
  }

  lemma {:induction false} AllEndedNoneInFlight(tasks: seq<Task>)
    requires forall i :: 0 <= i < |tasks| ==> tasks[i].stage.Ended?
    ensures InFlight(tasks) == multiset{}
  {
    if tasks != [] {
      AllEndedNoneInFlight(tasks[..|tasks| - 1]);
    }
  }

  /** At rest, the replies attempted are exactly the requests received, key by key. */
  lemma QuiescentIsSettled(cfg: Config, steps: seq<Step>)
    requires Runs(cfg, INIT, steps) && Quiescent(Final(cfg, INIT, steps))
    ensures var s := Final(cfg, INIT, steps);
            ReplyKeys(s.attempts) == RequestKeys(Requests(s.consumed))
  {
    Reachable(cfg, steps);
    AllEndedNoneInFlight(Final(cfg, INIT, steps).tasks);
  }
}
