/** The worker registry of the agent server under concurrent requests
    (ai_agents/server/internal/http_server.go and worker.go).

    Start handlers, the sweep, exit monitors and stop requests run as
    goroutines.  An action is one access to the shared registry, to the clock or
    to a process, and any enabled action may come next; a ping, a stop and the
    sweep's visit to a key take the look-up and what follows it as one. */
module WorkerRegistry {
  import opened Counting
  import opened Sequences
  import opened Wrappers

  const WORKER_TIMEOUT_INFINITY := -1
  const MAX_GEMINI_WORKER_COUNT := 3

  datatype Config = Config(workersMax: nat, quitTimeoutSeconds: int) {
    /** What server/main.go checks before it starts the server. */
    predicate Valid() {
      workersMax > 0 && quitTimeoutSeconds > 0
    }
  }

  datatype Request = Request(channel: string, graph: string, quitTimeoutSeconds: int)

  /** A worker object without its lease; id tells workers of one channel apart. */
  datatype Worker = Worker(id: nat, channel: string, graph: string, quitTimeoutSeconds: int)

  /** How far a start handler has come. */
  datatype Slot =
    | Idle
    | Sized(req: Request, running: nat)
    | Checked(req: Request)
    | Counting(req: Request)
    | Admitted(req: Request)
    | Started(worker: Worker)

  /** The operating system's side of the workers. */
  datatype Processes = Processes(
    alive: set<Worker>,
    /** Workers whose exit monitor has yet to remove their channel name. */
    monitors: set<Worker>,
    /** Workers killed by the sweep. */
    swept: set<Worker>,
    /** The number of the next worker. */
    next: nat)

  datatype State = State(
    reg: map<string, Worker>,
    /** UpdateTs of every worker. */
    updateTs: map<Worker, int>,
    procs: Processes,
    /** Channel names that a successful kill is about to remove. */
    removals: multiset<string>,
    slots: seq<Slot>,
    /** The keys a sweep still has to look at. */
    sweep: Option<seq<string>>,
    /** The sweep looked up a key that was gone, which panics. */
    panicked: bool,
    now: int)

  datatype Action =
    | Begin(slot: nat, req: Request)
    | CheckLimit(slot: nat)
    | CheckChannel(slot: nat)
    | CountGraph(slot: nat)
    | StartProcess(slot: nat, ok: bool)
    | Insert(slot: nat)
    | Ping(channel: string)
    | Stop(channel: string, killed: bool)
    | RemoveStopped(channel: string)
    | Exit(worker: Worker)
    | MonitorRemove(worker: Worker)
    | SweepBegin(keys: seq<string>)
    | SweepNext(killed: bool)
    | SweepEnd
    | Tick(seconds: nat)

  function Start(handlers: nat): State {
    State(map[], map[], Processes({}, {}, {}, 0), multiset{}, seq(handlers, _ => Idle), None, false, 0)
  }

  predicate Blank(s: string) {
    forall i :: 0 <= i < |s| ==> s[i] in {' ', '\t', '\n', '\r'}
  }

  function TrimLeft(s: string): string {
    if s != "" && s[0] in {' ', '\t', '\n', '\r'} then TrimLeft(s[1..]) else s
  }

  function TrimRight(s: string): string {
    if s != "" && s[|s| - 1] in {' ', '\t', '\n', '\r'} then TrimRight(s[..|s| - 1]) else s
  }

  /** Nothing is left of a blank name when it is trimmed, and of no other. */
  lemma {:induction false} BlankIsTrimmed(s: string)
    ensures Blank(s) <==> TrimRight(TrimLeft(s)) == ""
    decreases |s|
  {
    if s != "" {
      if s[0] in {' ', '\t', '\n', '\r'} {
        BlankIsTrimmed(s[1..]);
        assert forall i :: 0 < i < |s| ==> s[i] == s[1..][i - 1];
      } else {
        FirstStays(s);
      }
    }
  }

  lemma {:induction false} FirstStays(s: string)
    requires s != "" && s[0] !in {' ', '\t', '\n', '\r'}
    ensures TrimRight(s) != ""
    decreases |s|
  {
    if s[|s| - 1] in {' ', '\t', '\n', '\r'} {
      FirstStays(s[..|s| - 1]);
    }
  }

  function Limited(graph: string): bool {
    Includes(graph, "gemini")
  }

  function WithGraph(reg: map<string, Worker>, graph: string): set<string> {
    set c | c in reg && reg[c].graph == graph
  }

  function TimeoutFor(cfg: Config, req: Request): int {
    if req.quitTimeoutSeconds > 0 then req.quitTimeoutSeconds else cfg.quitTimeoutSeconds
  }

  predicate Expired(s: State, w: Worker) {
    w.quitTimeoutSeconds != WORKER_TIMEOUT_INFINITY
    && w in s.updateTs && s.updateTs[w] + w.quitTimeoutSeconds < s.now
  }

  function WithSlot(s: State, i: nat, x: Slot): State
    requires i < |s.slots|
  {
    s.(slots := s.slots[i := x])
  }

  /** worker.stop up to the removal: a kill can only succeed while the process
      has not been reaped by its monitor. */
  function Kill(s: State, w: Worker, channel: string, killed: bool): Option<State> {
    if !killed then Some(s)
    else if w !in s.procs.monitors then None
    else Some(s.(procs := s.procs.(alive := s.procs.alive - {w}), removals := s.removals + multiset{channel}))
  }

  predicate OfHandler(a: Action) {
    a.Begin? || a.CheckLimit? || a.CheckChannel? || a.CountGraph? || a.StartProcess? || a.Insert?
  }

  /** One access of a start handler. */
  function HandlerStep(cfg: Config, s: State, a: Action): Option<State>
    requires OfHandler(a)
  {
    var i := a.slot;
    if i >= |s.slots| then None
    else match (a, s.slots[i])
      case (Begin(_, req), Idle) =>
        Some(WithSlot(s, i, Sized(req, |s.reg|)))
      case (CheckLimit(_), Sized(req, running)) =>
        Some(WithSlot(s, i, if Blank(req.channel) || running >= cfg.workersMax then Idle else Checked(req)))
      case (CheckChannel(_), Checked(req)) =>
        Some(WithSlot(s, i, if req.channel in s.reg then Idle
                            else if Limited(req.graph) then Counting(req) else Admitted(req)))
      case (CountGraph(_), Counting(req)) =>
        Some(WithSlot(s, i, if |WithGraph(s.reg, req.graph)| >= MAX_GEMINI_WORKER_COUNT then Idle
                            else Admitted(req)))
      case (StartProcess(_, ok), Admitted(req)) =>
        if !ok then
          Some(WithSlot(s, i, Idle))
        else
          var w := NewWorker(cfg, s, req);
          Some(WithSlot(s, i, Started(w)).(
                 updateTs := s.updateTs[w := s.now],
                 procs := s.procs.(alive := s.procs.alive + {w}, monitors := s.procs.monitors + {w},
                                   next := s.procs.next + 1)))
      case (Insert(_), Started(w)) =>
        Some(WithSlot(s, i, Idle).(reg := if w.channel in s.reg then s.reg else s.reg[w.channel := w]))
      case _ => None
  }

  function NewWorker(cfg: Config, s: State, req: Request): Worker {
    Worker(s.procs.next, req.channel, req.graph, TimeoutFor(cfg, req))
  }

  /** One key of timeoutWorkers. */
  function SweepStep(s: State, killed: bool): Option<State> {
    if s.sweep.None? || s.sweep.value == [] then None
    else
      var key, rest := s.sweep.value[0], Some(s.sweep.value[1..]);
      if key !in s.reg then
        Some(s.(panicked := true))
      else if !Expired(s, s.reg[key]) then
        Some(s.(sweep := rest))
      else
        match Kill(s, s.reg[key], key, killed)
        case None => None
        case Some(s') =>
          Some(s'.(sweep := rest,
                   procs := if killed then s'.procs.(swept := s'.procs.swept + {s.reg[key]}) else s'.procs))
  }

  function Step(cfg: Config, s: State, a: Action): Option<State> {
    if s.panicked then None
    else match a
      case Ping(c) =>
        if Blank(c) || c !in s.reg then Some(s) else Some(s.(updateTs := s.updateTs[s.reg[c] := s.now]))
      case Stop(c, killed) =>
        if Blank(c) || c !in s.reg then Some(s) else Kill(s, s.reg[c], c, killed)
      case RemoveStopped(c) =>
        if c !in s.removals then None
        else Some(s.(reg := s.reg - {c}, removals := s.removals - multiset{c}))
      case Exit(w) =>
        if w !in s.procs.alive then None
        else Some(s.(procs := s.procs.(alive := s.procs.alive - {w})))
      case MonitorRemove(w) =>
        if w !in s.procs.monitors || w in s.procs.alive then None
        else Some(s.(reg := s.reg - {w.channel}, procs := s.procs.(monitors := s.procs.monitors - {w})))
      case SweepBegin(keys) =>
        if s.sweep.Some? || multiset(keys) != multiset(s.reg.Keys) then None else Some(s.(sweep := Some(keys)))
      case SweepNext(killed) => SweepStep(s, killed)
      case SweepEnd =>
        if s.sweep != Some([]) then None else Some(s.(sweep := None))
      case Tick(n) => Some(s.(now := s.now + n))
      case _ => HandlerStep(cfg, s, a)
  }

  function RunAll(cfg: Config, s: State, actions: seq<Action>): Option<State>
    decreases |actions|
  {
    if actions == [] then Some(s)
    else match Step(cfg, s, actions[0])
      case None => None
      case Some(s') => RunAll(cfg, s', actions[1..])
  }

  // ----- the limits

  /** The handler may still insert a worker. */
  function MayInsert(cfg: Config): Slot -> bool {
    (x: Slot) => match x
      case Idle => false
      case Sized(_, running) => running < cfg.workersMax
      case _ => true
  }

  /** The handler has passed the count for the graph and may still insert. */
  function MayInsertGraph(graph: string): Slot -> bool {
    (x: Slot) => match x
      case Admitted(req) => req.graph == graph
      case Started(w) => w.graph == graph
      case _ => false
  }

  ghost predicate WithinLimit(cfg: Config, s: State) {
    |s.reg| + Count(MayInsert(cfg), s.slots) <= cfg.workersMax - 1 + |s.slots|
  }

  ghost predicate WithinGraphLimit(s: State, graph: string) {
    |WithGraph(s.reg, graph)| + Count(MayInsertGraph(graph), s.slots) <= MAX_GEMINI_WORKER_COUNT - 1 + |s.slots|
  }

  lemma SubsetSize<T>(a: set<T>, b: set<T>)
    requires a <= b
    ensures |a| <= |b|
  {
    assert b == a + (b - a);
  }

  lemma SmallerRegistry(reg: map<string, Worker>, c: string, graph: string)
    ensures |reg - {c}| <= |reg| && |WithGraph(reg - {c}, graph)| <= |WithGraph(reg, graph)|
  {
    SubsetSize((reg - {c}).Keys, reg.Keys);
    assert |reg| == |reg.Keys| && |reg - {c}| == |(reg - {c}).Keys|;
    SubsetSize(WithGraph(reg - {c}, graph), WithGraph(reg, graph));
  }

  lemma LargerRegistry(reg: map<string, Worker>, w: Worker, graph: string)
    requires w.channel !in reg
    ensures |reg[w.channel := w]| == |reg| + 1
    ensures |WithGraph(reg[w.channel := w], graph)| ==
      |WithGraph(reg, graph)| + (if w.graph == graph then 1 else 0)
  {
    var reg' := reg[w.channel := w];
    assert WithGraph(reg', graph) == WithGraph(reg, graph) + (if w.graph == graph then {w.channel} else {});
  }

  lemma HandlerWithinLimit(cfg: Config, s: State, a: Action)
    requires OfHandler(a)
    requires HandlerStep(cfg, s, a).Some? && WithinLimit(cfg, s)
    ensures WithinLimit(cfg, HandlerStep(cfg, s, a).value)
  {
    var s' := HandlerStep(cfg, s, a).value;
    var i := a.slot;
    CountUpdate(MayInsert(cfg), s.slots, i, s'.slots[i]);
    CountBound(MayInsert(cfg), s'.slots);
    assert s'.slots == s.slots[i := s'.slots[i]];
    if a.Insert? && s.slots[i].worker.channel !in s.reg {
      LargerRegistry(s.reg, s.slots[i].worker, s.slots[i].worker.graph);
    }
  }

  lemma HandlerWithinGraphLimit(cfg: Config, s: State, a: Action, graph: string)
    requires OfHandler(a)
    requires HandlerStep(cfg, s, a).Some? && Limited(graph) && WithinGraphLimit(s, graph)
    ensures WithinGraphLimit(HandlerStep(cfg, s, a).value, graph)
  {
    var s' := HandlerStep(cfg, s, a).value;
    var i := a.slot;
    CountUpdate(MayInsertGraph(graph), s.slots, i, s'.slots[i]);
    CountBound(MayInsertGraph(graph), s'.slots);
    assert s'.slots == s.slots[i := s'.slots[i]];
    if a.Insert? && s.slots[i].worker.channel !in s.reg {
      LargerRegistry(s.reg, s.slots[i].worker, graph);
    }
  }

  lemma ShrinksWithinLimits(cfg: Config, s: State, s': State, c: string, graph: string)
    requires s'.slots == s.slots && (s'.reg == s.reg || s'.reg == s.reg - {c})
    ensures WithinLimit(cfg, s) ==> WithinLimit(cfg, s')
    ensures WithinGraphLimit(s, graph) ==> WithinGraphLimit(s', graph)
  {
    SmallerRegistry(s.reg, c, graph);
  }

  /** All other steps leave the handlers alone and take one name out at most. */
  lemma OtherStep(cfg: Config, s: State, a: Action) returns (c: string)
    requires Step(cfg, s, a).Some? && !OfHandler(a)
    ensures var s' := Step(cfg, s, a).value; s'.slots == s.slots && (s'.reg == s.reg || s'.reg == s.reg - {c})
  {
    c := match a
      case RemoveStopped(name) => name
      case MonitorRemove(w) => w.channel
      case _ => "";
  }

  lemma HandlerWithinLimits(cfg: Config, s: State, a: Action, graph: string)
    requires OfHandler(a) && HandlerStep(cfg, s, a).Some?
    ensures var s' := HandlerStep(cfg, s, a).value;
      && |s'.slots| == |s.slots|
      && (WithinLimit(cfg, s) ==> WithinLimit(cfg, s'))
      && (Limited(graph) && WithinGraphLimit(s, graph) ==> WithinGraphLimit(s', graph))
  {
    if WithinLimit(cfg, s) {
      HandlerWithinLimit(cfg, s, a);
    }
    if Limited(graph) && WithinGraphLimit(s, graph) {
      HandlerWithinGraphLimit(cfg, s, a, graph);
    }
  }

  lemma StepWithinLimits(cfg: Config, s: State, a: Action, graph: string)
    requires Step(cfg, s, a).Some?
    ensures var s' := Step(cfg, s, a).value;
      && |s'.slots| == |s.slots|
      && (WithinLimit(cfg, s) ==> WithinLimit(cfg, s'))
      && (Limited(graph) && WithinGraphLimit(s, graph) ==> WithinGraphLimit(s', graph))
  {
    if OfHandler(a) {
      HandlerWithinLimits(cfg, s, a, graph);
    } else {
      var c := OtherStep(cfg, s, a);
      ShrinksWithinLimits(cfg, s, Step(cfg, s, a).value, c, graph);
    }
  }

  lemma {:induction false} RunWithinLimits(cfg: Config, s: State, actions: seq<Action>, graph: string)
    requires RunAll(cfg, s, actions).Some? && WithinLimit(cfg, s)
    requires Limited(graph) ==> WithinGraphLimit(s, graph)
    ensures var s' := RunAll(cfg, s, actions).value;
      |s'.slots| == |s.slots| && WithinLimit(cfg, s') && (Limited(graph) ==> WithinGraphLimit(s', graph))
    decreases |actions|
  {
    if actions != [] {
      StepWithinLimits(cfg, s, actions[0], graph);
      RunWithinLimits(cfg, Step(cfg, s, actions[0]).value, actions[1..], graph);
    }
  }

  /** With k start handlers in flight at most, no interleaving lets the workers,
      registered or about to be, exceed the limit by more than k - 1, nor those
      of any one limited graph. */
  lemma {:induction false} LimitsHold(cfg: Config, handlers: nat, actions: seq<Action>, graph: string)
    requires cfg.Valid() && RunAll(cfg, Start(handlers), actions).Some?
    ensures var s := RunAll(cfg, Start(handlers), actions).value;
      && |s.reg| + Count(MayInsert(cfg), s.slots) <= cfg.workersMax + handlers - 1
      && (Limited(graph) ==>
            |WithGraph(s.reg, graph)| + Count(MayInsertGraph(graph), s.slots)
              <= MAX_GEMINI_WORKER_COUNT + handlers - 1)
  {
    var s := Start(handlers);
    CountNone(MayInsert(cfg), handlers, Idle);
    CountNone(MayInsertGraph(graph), handlers, Idle);
    assert WithGraph(s.reg, graph) == {};
    RunWithinLimits(cfg, s, actions, graph);
  }

  lemma Unfold(cfg: Config, s: State, a: Action, rest: seq<Action>)
    ensures RunAll(cfg, s, [a] + rest) ==
      match Step(cfg, s, a) case None => None case Some(s') => RunAll(cfg, s', rest)
  {
    assert ([a] + rest)[1..] == rest;
  }

  // ----- leases

  /** What holds of every worker object the server still refers to. */
  ghost predicate Proper(s: State, w: Worker) {
    w.quitTimeoutSeconds > 0 && w in s.updateTs && w.id < s.procs.next
  }

  ghost predicate AllProper(s: State) {
    && (forall c :: c in s.reg ==> s.reg[c].channel == c && Proper(s, s.reg[c]))
    && (forall w :: w in s.procs.alive ==> w in s.procs.monitors)
    && (forall w :: w in s.procs.monitors ==> Proper(s, w))
    && (forall i :: 0 <= i < |s.slots| && s.slots[i].Started? ==> Proper(s, s.slots[i].worker))
  }

  /** Forgetting workers keeps the rest proper. */
  lemma FewerAllProper(s: State, s': State)
    requires AllProper(s) && s'.slots == s.slots && s'.procs.next == s.procs.next
    requires s.updateTs.Keys <= s'.updateTs.Keys
    requires forall c :: c in s'.reg ==> c in s.reg && s'.reg[c] == s.reg[c]
    requires s'.procs.alive <= s'.procs.monitors <= s.procs.monitors
    ensures AllProper(s')
  {
  }

  lemma SlotAllProper(s: State, i: nat, x: Slot)
    requires AllProper(s) && i < |s.slots| && !x.Started?
    ensures AllProper(WithSlot(s, i, x))
  {
  }

  lemma StartAllProper(cfg: Config, s: State, i: nat)
    requires cfg.Valid() && AllProper(s) && i < |s.slots| && s.slots[i].Admitted?
    ensures AllProper(HandlerStep(cfg, s, StartProcess(i, true)).value)
  {
  }

  lemma InsertAllProper(cfg: Config, s: State, i: nat)
    requires AllProper(s) && i < |s.slots| && s.slots[i].Started?
    ensures AllProper(HandlerStep(cfg, s, Insert(i)).value)
  {
    SlotAllProper(s, i, Idle);
  }

  lemma HandlerAllProper(cfg: Config, s: State, a: Action)
    requires OfHandler(a)
    requires cfg.Valid() && AllProper(s) && HandlerStep(cfg, s, a).Some?
    ensures AllProper(HandlerStep(cfg, s, a).value)
  {
    if a.StartProcess? && a.ok {
      StartAllProper(cfg, s, a.slot);
    } else if a.Insert? {
      InsertAllProper(cfg, s, a.slot);
    } else {
      SlotAllProper(s, a.slot, HandlerStep(cfg, s, a).value.slots[a.slot]);
    }
  }

  lemma SweepAllProper(s: State, killed: bool)
    requires AllProper(s) && SweepStep(s, killed).Some?
    ensures AllProper(SweepStep(s, killed).value)
  {
    FewerAllProper(s, SweepStep(s, killed).value);
  }

  lemma {:induction false} StepAllProper(cfg: Config, s: State, a: Action)
    requires cfg.Valid() && AllProper(s) && Step(cfg, s, a).Some?
    ensures AllProper(Step(cfg, s, a).value)
  {
    match a
    case Ping(_) => FewerAllProper(s, Step(cfg, s, a).value);
    case Stop(_, _) => FewerAllProper(s, Step(cfg, s, a).value);
    case RemoveStopped(_) => FewerAllProper(s, Step(cfg, s, a).value);
    case Exit(_) => FewerAllProper(s, Step(cfg, s, a).value);
    case MonitorRemove(_) => FewerAllProper(s, Step(cfg, s, a).value);
    case SweepBegin(_) => FewerAllProper(s, Step(cfg, s, a).value);
    case SweepNext(killed) => SweepAllProper(s, killed);
    case SweepEnd => FewerAllProper(s, Step(cfg, s, a).value);
    case Tick(_) => FewerAllProper(s, Step(cfg, s, a).value);
    case _ => HandlerAllProper(cfg, s, a);
  }

  lemma {:induction false} RunAllProper(cfg: Config, s: State, actions: seq<Action>)
    requires cfg.Valid() && AllProper(s) && RunAll(cfg, s, actions).Some?
    ensures AllProper(RunAll(cfg, s, actions).value)
    decreases |actions|
  {
    if actions != [] {
      StepAllProper(cfg, s, actions[0]);
      RunAllProper(cfg, Step(cfg, s, actions[0]).value, actions[1..]);
    }
  }

  /** Every registered worker has a positive timeout, so the branch of the sweep
      for workers without one is never taken. */
  lemma {:induction false} NoInfiniteTimeout(cfg: Config, handlers: nat, actions: seq<Action>, c: string)
    requires cfg.Valid() && RunAll(cfg, Start(handlers), actions).Some?
    requires c in RunAll(cfg, Start(handlers), actions).value.reg
    ensures var w := RunAll(cfg, Start(handlers), actions).value.reg[c];
      w.channel == c && w.quitTimeoutSeconds > 0 && w.quitTimeoutSeconds != WORKER_TIMEOUT_INFINITY
  {
    RunAllProper(cfg, Start(handlers), actions);
  }

  /** The worker is one for the request, with the timeout of the request if that
      is positive and else with the server's. */
  predicate StartedFor(cfg: Config, req: Request, w: Worker) {
    && w.channel == req.channel && w.graph == req.graph && !Blank(req.channel)
    && w.quitTimeoutSeconds == (if req.quitTimeoutSeconds > 0 then req.quitTimeoutSeconds else cfg.quitTimeoutSeconds)
  }

  /** The requests that came in during a run. */
  function Requests(actions: seq<Action>): set<Request> {
    set k | 0 <= k < |actions| && actions[k].Begin? :: actions[k].req
  }

  ghost predicate ForSome(cfg: Config, reqs: set<Request>, w: Worker) {
    exists req :: req in reqs && StartedFor(cfg, req, w)
  }

  ghost predicate SlotFrom(cfg: Config, reqs: set<Request>, x: Slot) {
    match x
    case Idle => true
    case Sized(req, _) => req in reqs
    case Checked(req) => req in reqs && !Blank(req.channel)
    case Counting(req) => req in reqs && !Blank(req.channel)
    case Admitted(req) => req in reqs && !Blank(req.channel)
    case Started(w) => ForSome(cfg, reqs, w)
  }

  /** Every worker of the server was started for one of the requests. */
  ghost predicate AllFrom(cfg: Config, s: State, reqs: set<Request>) {
    && (forall i :: 0 <= i < |s.slots| ==> SlotFrom(cfg, reqs, s.slots[i]))
    && (forall c :: c in s.reg ==> s.reg[c].channel == c && ForSome(cfg, reqs, s.reg[c]))
    && (forall w :: w in s.procs.alive ==> ForSome(cfg, reqs, w))
  }

  lemma SlotFromMore(cfg: Config, reqs: set<Request>, more: set<Request>, x: Slot)
    requires SlotFrom(cfg, reqs, x) && reqs <= more
    ensures SlotFrom(cfg, more, x)
  {
    if x.Started? {
      var req :| req in reqs && StartedFor(cfg, req, x.worker);
      assert req in more;
    }
  }

  lemma AllFromMore(cfg: Config, s: State, reqs: set<Request>, more: set<Request>)
    requires AllFrom(cfg, s, reqs) && reqs <= more
    ensures AllFrom(cfg, s, more)
  {
    forall i | 0 <= i < |s.slots| ensures SlotFrom(cfg, more, s.slots[i]) {
      SlotFromMore(cfg, reqs, more, s.slots[i]);
    }
    forall w | ForSome(cfg, reqs, w) ensures ForSome(cfg, more, w) {
      SlotFromMore(cfg, reqs, more, Started(w));
    }
  }

  lemma SlotSetFrom(cfg: Config, s: State, reqs: set<Request>, i: nat, x: Slot)
    requires AllFrom(cfg, s, reqs) && i < |s.slots| && SlotFrom(cfg, reqs, x)
    ensures AllFrom(cfg, WithSlot(s, i, x), reqs)
  {
  }

  lemma StartFrom(cfg: Config, s: State, reqs: set<Request>, i: nat)
    requires AllFrom(cfg, s, reqs) && i < |s.slots| && s.slots[i].Admitted?
    ensures AllFrom(cfg, HandlerStep(cfg, s, StartProcess(i, true)).value, reqs)
  {
    var w := NewWorker(cfg, s, s.slots[i].req);
    assert StartedFor(cfg, s.slots[i].req, w);
    SlotSetFrom(cfg, s, reqs, i, Started(w));
  }

  lemma InsertFrom(cfg: Config, s: State, reqs: set<Request>, i: nat)
    requires AllFrom(cfg, s, reqs) && i < |s.slots| && s.slots[i].Started?
    ensures AllFrom(cfg, HandlerStep(cfg, s, Insert(i)).value, reqs)
  {
    SlotSetFrom(cfg, s, reqs, i, Idle);
  }

  lemma HandlerFrom(cfg: Config, s: State, a: Action, reqs: set<Request>)
    requires OfHandler(a) && HandlerStep(cfg, s, a).Some? && AllFrom(cfg, s, reqs) && (a.Begin? ==> a.req in reqs)
    ensures AllFrom(cfg, HandlerStep(cfg, s, a).value, reqs)
  {
    if a.StartProcess? && a.ok {
      StartFrom(cfg, s, reqs, a.slot);
    } else if a.Insert? {
      InsertFrom(cfg, s, reqs, a.slot);
    } else {
      assert SlotFrom(cfg, reqs, s.slots[a.slot]);
      SlotSetFrom(cfg, s, reqs, a.slot, HandlerStep(cfg, s, a).value.slots[a.slot]);
    }
  }

  lemma StepFrom(cfg: Config, s: State, a: Action, reqs: set<Request>)
    requires Step(cfg, s, a).Some? && AllFrom(cfg, s, reqs) && (a.Begin? ==> a.req in reqs)
    ensures AllFrom(cfg, Step(cfg, s, a).value, reqs)
  {
    if OfHandler(a) {
      HandlerFrom(cfg, s, a, reqs);
    } else {
      var s' := Step(cfg, s, a).value;
      assert s'.slots == s.slots && s'.procs.alive <= s.procs.alive;
      assert forall c :: c in s'.reg ==> c in s.reg && s'.reg[c] == s.reg[c];
    }
  }

  lemma {:induction false} RunFrom(cfg: Config, s: State, actions: seq<Action>, reqs: set<Request>)
    requires RunAll(cfg, s, actions).Some? && AllFrom(cfg, s, reqs) && Requests(actions) <= reqs
    ensures AllFrom(cfg, RunAll(cfg, s, actions).value, reqs)
    decreases |actions|
  {
    if actions != [] {
      if actions[0].Begin? {
        assert actions[0].req in Requests(actions);
      }
      StepFrom(cfg, s, actions[0], reqs);
      forall req | req in Requests(actions[1..]) ensures req in reqs {
        var k :| 0 <= k < |actions[1..]| && actions[1..][k].Begin? && actions[1..][k].req == req;
        assert actions[k + 1].req in Requests(actions);
      }
      RunFrom(cfg, Step(cfg, s, actions[0]).value, actions[1..], reqs);
    }
  }

  /** Every registered worker was started for a request of the run for its
      channel, and carries the graph and the timeout of that request. */
  lemma RegisteredForRequest(cfg: Config, handlers: nat, actions: seq<Action>, c: string)
    requires RunAll(cfg, Start(handlers), actions).Some?
    requires c in RunAll(cfg, Start(handlers), actions).value.reg
    ensures var w := RunAll(cfg, Start(handlers), actions).value.reg[c];
      exists k :: 0 <= k < |actions| && actions[k].Begin? && actions[k].req.channel == c
        && w.channel == c && w.graph == actions[k].req.graph
        && w.quitTimeoutSeconds ==
           if actions[k].req.quitTimeoutSeconds > 0 then actions[k].req.quitTimeoutSeconds else cfg.quitTimeoutSeconds
  {
    RunFrom(cfg, Start(handlers), actions, Requests(actions));
    var w := RunAll(cfg, Start(handlers), actions).value.reg[c];
    var req :| req in Requests(actions) && StartedFor(cfg, req, w);
    var k :| 0 <= k < |actions| && actions[k].Begin? && actions[k].req == req;
  }

  /** Workers are distinct objects: each is in one slot or in the registry. */
  ghost predicate Once(s: State) {
    && (forall i, j :: 0 <= i < j < |s.slots| && s.slots[i].Started? && s.slots[j].Started? ==>
          s.slots[i].worker != s.slots[j].worker)
    && (forall i, c :: 0 <= i < |s.slots| && s.slots[i].Started? && c in s.reg ==> s.slots[i].worker != s.reg[c])
  }

  lemma SlotOnce(s: State, i: nat, x: Slot)
    requires Once(s) && i < |s.slots| && !x.Started?
    ensures Once(WithSlot(s, i, x))
  {
  }

  lemma StartOnce(cfg: Config, s: State, i: nat)
    requires AllProper(s) && Once(s) && i < |s.slots| && s.slots[i].Admitted?
    ensures Once(HandlerStep(cfg, s, StartProcess(i, true)).value)
  {
    var w := NewWorker(cfg, s, s.slots[i].req);
    assert forall j :: 0 <= j < |s.slots| && s.slots[j].Started? ==> Proper(s, s.slots[j].worker);
    assert forall c :: c in s.reg ==> Proper(s, s.reg[c]) && s.reg[c] != w;
  }

  lemma InsertOnce(cfg: Config, s: State, i: nat)
    requires Once(s) && i < |s.slots| && s.slots[i].Started?
    ensures Once(HandlerStep(cfg, s, Insert(i)).value)
  {
    SlotOnce(s, i, Idle);
  }

  lemma HandlerOnce(cfg: Config, s: State, a: Action)
    requires OfHandler(a)
    requires AllProper(s) && Once(s) && HandlerStep(cfg, s, a).Some?
    ensures Once(HandlerStep(cfg, s, a).value)
  {
    if a.StartProcess? && a.ok {
      StartOnce(cfg, s, a.slot);
    } else if a.Insert? {
      InsertOnce(cfg, s, a.slot);
    } else {
      SlotOnce(s, a.slot, HandlerStep(cfg, s, a).value.slots[a.slot]);
    }
  }

  lemma StepOnce(cfg: Config, s: State, a: Action)
    requires AllProper(s) && Once(s) && Step(cfg, s, a).Some?
    ensures Once(Step(cfg, s, a).value)
  {
    if OfHandler(a) {
      HandlerOnce(cfg, s, a);
    } else {
      var s' := Step(cfg, s, a).value;
      assert s'.slots == s.slots && forall c :: c in s'.reg ==> c in s.reg && s'.reg[c] == s.reg[c];
    }
  }

  lemma {:induction false} RunOnce(cfg: Config, s: State, actions: seq<Action>)
    requires cfg.Valid() && AllProper(s) && Once(s) && RunAll(cfg, s, actions).Some?
    ensures Once(RunAll(cfg, s, actions).value)
    decreases |actions|
  {
    if actions != [] {
      StepAllProper(cfg, s, actions[0]);
      StepOnce(cfg, s, actions[0]);
      RunOnce(cfg, Step(cfg, s, actions[0]).value, actions[1..]);
    }
  }

  /** The time since the last ping of the worker's channel. */
  function Elapsed(a: Action, w: Worker, elapsed: int): int {
    match a
    case Tick(n) => elapsed + n
    case Ping(c) => if c == w.channel && !Blank(c) then 0 else elapsed
    case _ => elapsed
  }

  function ElapsedAll(actions: seq<Action>, w: Worker, elapsed: int): int
    decreases |actions|
  {
    if actions == [] then elapsed else ElapsedAll(actions[1..], w, Elapsed(actions[0], w, elapsed))
  }

  /** No two pings of the worker's channel, nor the last one and the end, are
      further apart than its timeout. */
  predicate PingedInTime(actions: seq<Action>, w: Worker, elapsed: int)
    decreases |actions|
  {
    && elapsed <= w.quitTimeoutSeconds
    && (actions != [] ==> PingedInTime(actions[1..], w, Elapsed(actions[0], w, elapsed)))
  }

  predicate Registered(s: State, w: Worker) {
    w.channel in s.reg && s.reg[w.channel] == w
  }

  /** As long as the worker is registered its lease is exactly as old as its last
      ping. */
  ghost predicate LeaseHeld(s: State, w: Worker, elapsed: int) {
    && AllProper(s) && w.id < s.procs.next && w in s.updateTs
    && (forall i :: 0 <= i < |s.slots| ==> s.slots[i] != Started(w))
    && (Registered(s, w) ==> s.now == s.updateTs[w] + elapsed)
  }

  /** What else a step may change does not matter to the lease. */
  lemma LeaseStays(s: State, s': State, w: Worker, elapsed: int)
    requires LeaseHeld(s, w, elapsed) && AllProper(s') && s.procs.next <= s'.procs.next
    requires w in s'.updateTs && s'.updateTs[w] == s.updateTs[w] && s'.now == s.now
    requires forall i :: 0 <= i < |s'.slots| ==> s'.slots[i] != Started(w)
    requires Registered(s', w) ==> Registered(s, w)
    ensures LeaseHeld(s', w, elapsed)
  {
  }

  lemma HandlerLeaseHeld(cfg: Config, s: State, a: Action, w: Worker, elapsed: int)
    requires OfHandler(a)
    requires cfg.Valid() && LeaseHeld(s, w, elapsed) && HandlerStep(cfg, s, a).Some?
    ensures LeaseHeld(HandlerStep(cfg, s, a).value, w, elapsed)
  {
    HandlerAllProper(cfg, s, a);
    LeaseStays(s, HandlerStep(cfg, s, a).value, w, elapsed);
  }

  lemma SweepLeaseHeld(s: State, killed: bool, w: Worker, elapsed: int)
    requires LeaseHeld(s, w, elapsed) && SweepStep(s, killed).Some?
    ensures LeaseHeld(SweepStep(s, killed).value, w, elapsed)
  {
    SweepAllProper(s, killed);
  }

  lemma StepLeaseHeld(cfg: Config, s: State, a: Action, w: Worker, elapsed: int)
    requires cfg.Valid() && LeaseHeld(s, w, elapsed) && Step(cfg, s, a).Some?
    ensures LeaseHeld(Step(cfg, s, a).value, w, Elapsed(a, w, elapsed))
  {
    StepAllProper(cfg, s, a);
    if OfHandler(a) {
      HandlerLeaseHeld(cfg, s, a, w, elapsed);
    } else if a.SweepNext? {
      SweepLeaseHeld(s, a.killed, w, elapsed);
    } else {
      RequestLeaseHeld(cfg, s, a, w, elapsed);
    }
  }

  lemma RequestLeaseHeld(cfg: Config, s: State, a: Action, w: Worker, elapsed: int)
    requires !OfHandler(a) && !a.SweepNext? && LeaseHeld(s, w, elapsed) && Step(cfg, s, a).Some?
    requires AllProper(Step(cfg, s, a).value)
    ensures LeaseHeld(Step(cfg, s, a).value, w, Elapsed(a, w, elapsed))
  {
    var s' := Step(cfg, s, a).value;
    var _ := OtherStep(cfg, s, a);
    match a
    case Ping(c) => PingLeaseHeld(cfg, s, c, w, elapsed);
    case Tick(_) =>
    case _ => LeaseStays(s, s', w, elapsed);
  }

  lemma PingLeaseHeld(cfg: Config, s: State, c: string, w: Worker, elapsed: int)
    requires LeaseHeld(s, w, elapsed) && Step(cfg, s, Ping(c)).Some? && AllProper(Step(cfg, s, Ping(c)).value)
    ensures LeaseHeld(Step(cfg, s, Ping(c)).value, w, Elapsed(Ping(c), w, elapsed))
  {
  }

  /** Only the sweep sweeps, and only what has expired. */
  lemma StepNotSwept(cfg: Config, s: State, a: Action, w: Worker, elapsed: int)
    requires LeaseHeld(s, w, elapsed) && elapsed <= w.quitTimeoutSeconds && Step(cfg, s, a).Some?
    requires w !in s.procs.swept
    ensures w !in Step(cfg, s, a).value.procs.swept
  {
  }

  lemma {:induction false} RunLeaseHeld(cfg: Config, s: State, actions: seq<Action>, w: Worker, elapsed: int)
    requires cfg.Valid() && LeaseHeld(s, w, elapsed) && RunAll(cfg, s, actions).Some?
    ensures LeaseHeld(RunAll(cfg, s, actions).value, w, ElapsedAll(actions, w, elapsed))
    decreases |actions|
  {
    if actions != [] {
      StepLeaseHeld(cfg, s, actions[0], w, elapsed);
      RunLeaseHeld(cfg, Step(cfg, s, actions[0]).value, actions[1..], w, Elapsed(actions[0], w, elapsed));
    }
  }

  lemma {:induction false} RunNotSwept(cfg: Config, s: State, actions: seq<Action>, w: Worker, elapsed: int)
    requires cfg.Valid() && LeaseHeld(s, w, elapsed) && w !in s.procs.swept && PingedInTime(actions, w, elapsed)
    requires RunAll(cfg, s, actions).Some?
    ensures w !in RunAll(cfg, s, actions).value.procs.swept
    decreases |actions|
  {
    if actions != [] {
      StepLeaseHeld(cfg, s, actions[0], w, elapsed);
      StepNotSwept(cfg, s, actions[0], w, elapsed);
      RunNotSwept(cfg, Step(cfg, s, actions[0]).value, actions[1..], w, Elapsed(actions[0], w, elapsed));
    }
  }

  ghost predicate Reachable(cfg: Config, handlers: nat, s: State) {
    exists actions :: RunAll(cfg, Start(handlers), actions) == Some(s)
  }

  lemma RegisteredIsHeld(cfg: Config, handlers: nat, s: State, w: Worker)
    requires cfg.Valid() && Reachable(cfg, handlers, s)
    requires Registered(s, w)
    ensures w in s.updateTs && LeaseHeld(s, w, s.now - s.updateTs[w])
  {
    var actions :| RunAll(cfg, Start(handlers), actions) == Some(s);
    RunAllProper(cfg, Start(handlers), actions);
    RunOnce(cfg, Start(handlers), actions);
  }

  /** A registered worker whose channel is pinged at least every timeout is never
      killed by the sweep, whatever else happens before, in between and after. */
  lemma {:induction false} PingedIsNeverSwept(cfg: Config, handlers: nat, s: State, w: Worker,
                                              actions: seq<Action>, t: State)
    requires cfg.Valid() && Reachable(cfg, handlers, s) && RunAll(cfg, s, actions) == Some(t)
    requires Registered(s, w) && w !in s.procs.swept
    requires w in s.updateTs && PingedInTime(actions, w, s.now - s.updateTs[w])
    ensures w !in t.procs.swept
  {
    RegisteredIsHeld(cfg, handlers, s, w);
    RunNotSwept(cfg, s, actions, w, s.now - s.updateTs[w]);
  }

  /** Whatever happens in a run, the age of the lease of a worker that stays
      registered is the time since the last ping of its own channel, whoever
      else is pinged; and its lease has run out exactly when that is longer than
      its timeout. */
  lemma {:induction false} LeaseIsTimeSincePing(cfg: Config, handlers: nat, s: State, w: Worker,
                                                actions: seq<Action>, t: State)
    requires cfg.Valid() && Reachable(cfg, handlers, s) && RunAll(cfg, s, actions) == Some(t)
    requires Registered(s, w) && Registered(t, w)
    ensures w in s.updateTs && w in t.updateTs
    ensures t.now - t.updateTs[w] == ElapsedAll(actions, w, s.now - s.updateTs[w])
    ensures Expired(t, w) <==> ElapsedAll(actions, w, s.now - s.updateTs[w]) > w.quitTimeoutSeconds
  {
    RegisteredIsHeld(cfg, handlers, s, w);
    RunLeaseHeld(cfg, s, actions, w, s.now - s.updateTs[w]);
    assert Proper(t, t.reg[w.channel]);
  }

  /** No ping of the worker's channel. */
  predicate Unpinged(actions: seq<Action>, w: Worker) {
    forall k :: 0 <= k < |actions| ==> actions[k] != Ping(w.channel)
  }

  function Seconds(actions: seq<Action>): nat {
    if actions == [] then 0 else (if actions[0].Tick? then actions[0].seconds else 0) + Seconds(actions[1..])
  }

  lemma {:induction false} ElapsedUnpinged(actions: seq<Action>, w: Worker, elapsed: int)
    requires Unpinged(actions, w)
    ensures ElapsedAll(actions, w, elapsed) == elapsed + Seconds(actions)
    decreases |actions|
  {
    if actions != [] {
      assert actions[0] != Ping(w.channel);
      assert forall k :: 0 <= k < |actions[1..]| ==> actions[1..][k] == actions[k + 1];
      ElapsedUnpinged(actions[1..], w, Elapsed(actions[0], w, elapsed));
    }
  }

  // ----- what an action leaves alone

  /** The worker that an action is about. */
  predicate About(s: State, a: Action, w: Worker) {
    match a
    case StartProcess(_, _) => w.id == s.procs.next
    case Insert(i) => i < |s.slots| && s.slots[i] == Started(w)
    case Ping(c) => c in s.reg && s.reg[c] == w
    case Stop(c, _) => c in s.reg && s.reg[c] == w
    case RemoveStopped(c) => c in s.reg && s.reg[c] == w
    case Exit(m) => m == w
    case MonitorRemove(m) => m == w || (m.channel in s.reg && s.reg[m.channel] == w)
    case SweepNext(_) => s.sweep.Some? && s.sweep.value != [] && s.sweep.value[0] in s.reg && s.reg[s.sweep.value[0]] == w
    case _ => false
  }

  /** Everything the server holds of the worker is the same. */
  predicate SameFor(s: State, s': State, w: Worker) {
    && (Registered(s', w) <==> Registered(s, w))
    && (w in s'.updateTs <==> w in s.updateTs)
    && (w in s.updateTs ==> s'.updateTs[w] == s.updateTs[w])
    && (w in s'.procs.alive <==> w in s.procs.alive)
    && (w in s'.procs.monitors <==> w in s.procs.monitors)
    && (w in s'.procs.swept <==> w in s.procs.swept)
  }

  lemma HandlerLeavesOthers(cfg: Config, s: State, a: Action, w: Worker)
    requires OfHandler(a) && HandlerStep(cfg, s, a).Some? && !About(s, a, w)
    ensures SameFor(s, HandlerStep(cfg, s, a).value, w)
  {
  }

  lemma SweepLeavesOthers(s: State, killed: bool, w: Worker)
    requires SweepStep(s, killed).Some? && AllProper(s)
    requires s.sweep.value[0] in s.reg ==> s.reg[s.sweep.value[0]] != w
    ensures SameFor(s, SweepStep(s, killed).value, w)
  {
  }

  lemma RequestLeavesOthers(cfg: Config, s: State, a: Action, w: Worker)
    requires AllProper(s) && !OfHandler(a) && !a.SweepNext? && Step(cfg, s, a).Some? && !About(s, a, w)
    ensures SameFor(s, Step(cfg, s, a).value, w)
  {
  }

  /** No action touches a worker that it is not about: not its registration, nor
      its lease, nor its process; and a handler moves its own slot only. */
  lemma OthersUntouched(cfg: Config, s: State, a: Action, w: Worker, i: nat)
    requires AllProper(s) && Step(cfg, s, a).Some?
    ensures !About(s, a, w) ==> SameFor(s, Step(cfg, s, a).value, w)
    ensures var s' := Step(cfg, s, a).value;
      |s'.slots| == |s.slots| && (i < |s.slots| && !(OfHandler(a) && a.slot == i) ==> s'.slots[i] == s.slots[i])
  {
    if !OfHandler(a) {
      var _ := OtherStep(cfg, s, a);
    }
    if !About(s, a, w) {
      if OfHandler(a) {
        HandlerLeavesOthers(cfg, s, a, w);
      } else if a.SweepNext? {
        SweepLeavesOthers(s, a.killed, w);
      } else {
        RequestLeavesOthers(cfg, s, a, w);
      }
    }
  }

  /** The accesses of a sweep over keys whose kills all succeed. */
  function SweepActions(s: State, keys: seq<string>): seq<Action> {
    if keys == [] then []
    else
      (if keys[0] in s.reg && Expired(s, s.reg[keys[0]]) then [SweepNext(true), RemoveStopped(keys[0])]
       else [SweepNext(false)])
      + SweepActions(s, keys[1..])
  }

  function Survivors(s: State, keys: seq<string>): map<string, Worker> {
    map c | c in s.reg && !(c in keys && Expired(s, s.reg[c])) :: s.reg[c]
  }

  lemma {:induction false} SameActions(s: State, s': State, keys: seq<string>)
    requires forall c :: c in keys ==> c in s.reg && c in s'.reg && s'.reg[c] == s.reg[c]
    requires s'.updateTs == s.updateTs && s'.now == s.now
    ensures SweepActions(s', keys) == SweepActions(s, keys)
  {
    if keys != [] {
      SameActions(s, s', keys[1..]);
    }
  }

  /** The first key of a sweep, with the removal that follows a kill. */
  lemma SweepOneKey(cfg: Config, s: State, keys: seq<string>) returns (t: State)
    requires !s.panicked && s.sweep == Some(keys) && keys != [] && s.removals == multiset{}
    requires keys[0] in s.reg && (Expired(s, s.reg[keys[0]]) ==> s.reg[keys[0]] in s.procs.monitors)
    ensures !t.panicked && t.sweep == Some(keys[1..]) && t.removals == multiset{}
    ensures t.updateTs == s.updateTs && t.now == s.now && t.procs.monitors == s.procs.monitors
    ensures t.reg == if Expired(s, s.reg[keys[0]]) then s.reg - {keys[0]} else s.reg
    ensures forall rest :: SweepActions(s, keys[1..]) == rest ==>
      RunAll(cfg, s, SweepActions(s, keys)) == RunAll(cfg, t, rest)
  {
    var tail := SweepActions(s, keys[1..]);
    if Expired(s, s.reg[keys[0]]) {
      var s1 := Step(cfg, s, SweepNext(true)).value;
      t := Step(cfg, s1, RemoveStopped(keys[0])).value;
      Unfold(cfg, s1, RemoveStopped(keys[0]), tail);
      Unfold(cfg, s, SweepNext(true), [RemoveStopped(keys[0])] + tail);
      assert SweepActions(s, keys) == [SweepNext(true)] + ([RemoveStopped(keys[0])] + tail);
    } else {
      t := Step(cfg, s, SweepNext(false)).value;
      Unfold(cfg, s, SweepNext(false), tail);
    }
  }

  /** A sweep that nothing interrupts finds every key, and what it leaves of the
      registry are exactly the workers whose lease had not run out. */
  lemma {:induction false} SweepLeavesUnexpired(cfg: Config, s: State, keys: seq<string>)
    requires !s.panicked && s.sweep == Some(keys) && s.removals == multiset{}
    requires forall i, j :: 0 <= i < j < |keys| ==> keys[i] != keys[j]
    requires forall c :: c in keys ==> c in s.reg && (Expired(s, s.reg[c]) ==> s.reg[c] in s.procs.monitors)
    ensures RunAll(cfg, s, SweepActions(s, keys)).Some?
    ensures var s' := RunAll(cfg, s, SweepActions(s, keys)).value;
      !s'.panicked && s'.sweep == Some([]) && s'.reg == Survivors(s, keys)
    decreases |keys|
  {
    if keys == [] {
      assert Survivors(s, keys) == s.reg;
    } else {
      var key, rest := keys[0], keys[1..];
      var t := SweepOneKey(cfg, s, keys);
      forall c | c in rest ensures c in t.reg && t.reg[c] == s.reg[c] && c != key && c in keys {
        var i :| 0 <= i < |rest| && rest[i] == c;
        assert keys[i + 1] == c;
      }
      SweepLeavesUnexpired(cfg, t, rest);
      SameActions(s, t, rest);
      assert Survivors(t, rest) == Survivors(s, keys) by {
        assert forall c :: c in keys <==> c == key || c in rest;
      }
    }
  }

  // ----- who is registered

  /** A handler has started a worker on channel c and not inserted it yet. */
  ghost predicate Starting(s: State, c: string) {
    exists i :: 0 <= i < |s.slots| && s.slots[i].Started? && s.slots[i].worker.channel == c
  }

  /** Something of an earlier worker on channel c is still about. */
  ghost predicate Leftovers(s: State, c: string) {
    c in s.reg || c in s.removals || Starting(s, c) || exists m :: m in s.procs.monitors && m.channel == c
  }

  /** The worker runs and its start handler is done, but its channel does not lead to it. */
  ghost predicate Lost(s: State, w: Worker) {
    && w in s.procs.alive && !(w.channel in s.reg && s.reg[w.channel] == w)
    && !exists i :: 0 <= i < |s.slots| && s.slots[i] == Started(w)
  }

  /** A start that leaves nothing of an earlier worker behind. */
  ghost predicate CleanStart(s: State, a: Action) {
    a.StartProcess? && a.ok && a.slot < |s.slots| && s.slots[a.slot].Admitted?
    ==> !Leftovers(s, s.slots[a.slot].req.channel)
  }

  ghost predicate CleanRun(cfg: Config, s: State, actions: seq<Action>)
    requires RunAll(cfg, s, actions).Some?
    decreases |actions|
  {
    actions != [] ==>
      CleanStart(s, actions[0]) && CleanRun(cfg, Step(cfg, s, actions[0]).value, actions[1..])
  }

  ghost predicate OneStarting(s: State) {
    forall i, j :: 0 <= i < j < |s.slots| && s.slots[i].Started? && s.slots[j].Started? ==>
      s.slots[i].worker.channel != s.slots[j].worker.channel
  }

  ghost predicate StartingAlone(s: State, w: Worker) {
    && w.channel !in s.reg && w.channel !in s.removals
    && forall m :: m in s.procs.monitors && m.channel == w.channel ==> m == w
  }

  /** In clean runs each channel belongs to one worker at a time. */
  ghost predicate Owned(s: State) {
    && (forall c :: c in s.reg ==> s.reg[c].channel == c)
    && (forall m, n :: m in s.procs.monitors && n in s.procs.monitors && m.channel == n.channel ==> m == n)
    && (forall m :: m in s.procs.alive ==> m in s.procs.monitors && m.channel !in s.removals)
    && OneStarting(s)
    && (forall i :: 0 <= i < |s.slots| && s.slots[i].Started? ==> StartingAlone(s, s.slots[i].worker))
    && (forall w :: w in s.procs.alive ==> !Lost(s, w))
  }

  /** A name goes out of the registry without anything else happening. */
  lemma RemovalOwned(s: State, s': State, c: string)
    requires Owned(s) && s'.reg == s.reg - {c} && s'.slots == s.slots
    requires s'.procs.alive == s.procs.alive && s'.procs.monitors <= s.procs.monitors
    requires s.procs.alive <= s'.procs.monitors && s'.removals <= s.removals
    requires forall w :: w in s.procs.alive ==> w.channel != c
    ensures Owned(s')
  {
    forall w | w in s'.procs.alive ensures !Lost(s', w) {
      assert !Lost(s, w);
    }
    forall i | 0 <= i < |s'.slots| && s'.slots[i].Started? ensures StartingAlone(s', s'.slots[i].worker) {
      assert StartingAlone(s, s.slots[i].worker);
    }
  }

  lemma KillOwned(s: State, c: string, killed: bool)
    requires Owned(s) && c in s.reg && Kill(s, s.reg[c], c, killed).Some?
    ensures Owned(Kill(s, s.reg[c], c, killed).value)
  {
    var s' := Kill(s, s.reg[c], c, killed).value;
    forall w | w in s'.procs.alive ensures !Lost(s', w) {
      assert !Lost(s, w);
    }
    forall i | 0 <= i < |s'.slots| && s'.slots[i].Started? ensures StartingAlone(s', s'.slots[i].worker) {
      assert StartingAlone(s, s.slots[i].worker);
    }
  }

  lemma InsertOwned(cfg: Config, s: State, i: nat)
    requires Owned(s) && i < |s.slots| && s.slots[i].Started?
    ensures Owned(HandlerStep(cfg, s, Insert(i)).value)
  {
    var s' := HandlerStep(cfg, s, Insert(i)).value;
    var w := s.slots[i].worker;
    assert StartingAlone(s, w);
    forall j | 0 <= j < |s'.slots| && s'.slots[j].Started? ensures StartingAlone(s', s'.slots[j].worker) {
      assert StartingAlone(s, s.slots[j].worker);
    }
    forall v | v in s'.procs.alive ensures !Lost(s', v) {
      assert !Lost(s, v);
      if v != w && !(v.channel in s.reg && s.reg[v.channel] == v) {
        var j :| 0 <= j < |s.slots| && s.slots[j] == Started(v);
        assert s'.slots[j] == Started(v);
      }
    }
  }

  /** A handler moves on without starting or inserting a worker. */
  lemma SlotOwned(s: State, i: nat, x: Slot)
    requires Owned(s) && i < |s.slots| && !s.slots[i].Started? && !x.Started?
    ensures Owned(WithSlot(s, i, x))
  {
    var s' := WithSlot(s, i, x);
    forall j | 0 <= j < |s'.slots| && s'.slots[j].Started? ensures StartingAlone(s', s'.slots[j].worker) {
      assert StartingAlone(s, s.slots[j].worker);
    }
    forall v | v in s'.procs.alive ensures !Lost(s', v) {
      assert !Lost(s, v);
      if !(v.channel in s.reg && s.reg[v.channel] == v) {
        var j :| 0 <= j < |s.slots| && s.slots[j] == Started(v);
        assert s'.slots[j] == Started(v);
      }
    }
  }

  lemma StartOwnedAlone(cfg: Config, s: State, i: nat, j: nat)
    requires Owned(s) && i < |s.slots| && s.slots[i].Admitted? && CleanStart(s, StartProcess(i, true))
    requires j < |s.slots| && (j == i || s.slots[j].Started?)
    ensures var s' := HandlerStep(cfg, s, StartProcess(i, true)).value;
      && StartingAlone(s', s'.slots[j].worker)
      && (j != i ==> s'.slots[j].worker.channel != s'.slots[i].worker.channel)
  {
    if j != i {
      assert StartingAlone(s, s.slots[j].worker) && Starting(s, s.slots[j].worker.channel);
    }
  }

  lemma StartOwnedFound(cfg: Config, s: State, i: nat, v: Worker)
    requires Owned(s) && i < |s.slots| && s.slots[i].Admitted?
    requires v in HandlerStep(cfg, s, StartProcess(i, true)).value.procs.alive
    ensures !Lost(HandlerStep(cfg, s, StartProcess(i, true)).value, v)
  {
    var s' := HandlerStep(cfg, s, StartProcess(i, true)).value;
    if v == NewWorker(cfg, s, s.slots[i].req) {
      assert s'.slots[i] == Started(v);
    } else {
      assert !Lost(s, v);
      if !(v.channel in s.reg && s.reg[v.channel] == v) {
        var j :| 0 <= j < |s.slots| && s.slots[j] == Started(v);
        assert s'.slots[j] == Started(v);
      }
    }
  }

  lemma StartOwned(cfg: Config, s: State, i: nat)
    requires Owned(s) && i < |s.slots| && s.slots[i].Admitted? && CleanStart(s, StartProcess(i, true))
    ensures Owned(HandlerStep(cfg, s, StartProcess(i, true)).value)
  {
    var s' := HandlerStep(cfg, s, StartProcess(i, true)).value;
    forall j | 0 <= j < |s'.slots| && s'.slots[j].Started?
      ensures StartingAlone(s', s'.slots[j].worker)
      ensures j != i ==> s'.slots[j].worker.channel != s'.slots[i].worker.channel
    {
      StartOwnedAlone(cfg, s, i, j);
    }
    forall v | v in s'.procs.alive ensures !Lost(s', v) {
      StartOwnedFound(cfg, s, i, v);
    }
  }

  lemma HandlerOwned(cfg: Config, s: State, a: Action)
    requires OfHandler(a)
    requires Owned(s) && CleanStart(s, a) && HandlerStep(cfg, s, a).Some?
    ensures Owned(HandlerStep(cfg, s, a).value)
  {
    var i := a.slot;
    if a.Insert? {
      InsertOwned(cfg, s, i);
    } else if a.StartProcess? && a.ok {
      StartOwned(cfg, s, i);
    } else {
      SlotOwned(s, i, HandlerStep(cfg, s, a).value.slots[i]);
    }
  }

  /** Nothing that Owned speaks about has changed. */
  lemma SameOwned(s: State, s': State)
    requires Owned(s) && s'.reg == s.reg && s'.removals == s.removals && s'.slots == s.slots
    requires s'.procs.monitors == s.procs.monitors && s'.procs.alive <= s.procs.alive
    ensures Owned(s')
  {
    forall i | 0 <= i < |s'.slots| && s'.slots[i].Started? ensures StartingAlone(s', s'.slots[i].worker) {
      assert StartingAlone(s, s.slots[i].worker);
    }
    forall w | w in s'.procs.alive ensures !Lost(s', w) {
      assert !Lost(s, w);
    }
  }

  lemma SweepOwned(s: State, killed: bool)
    requires Owned(s) && SweepStep(s, killed).Some?
    ensures Owned(SweepStep(s, killed).value)
  {
    var key, s' := s.sweep.value[0], SweepStep(s, killed).value;
    if key in s.reg && Expired(s, s.reg[key]) {
      KillOwned(s, key, killed);
      SameOwned(Kill(s, s.reg[key], key, killed).value, s');
    } else {
      SameOwned(s, s');
    }
  }

  lemma RemoveOwned(cfg: Config, s: State, a: Action)
    requires Owned(s) && (a.RemoveStopped? || a.MonitorRemove?) && Step(cfg, s, a).Some?
    ensures Owned(Step(cfg, s, a).value)
  {
    RemovalOwned(s, Step(cfg, s, a).value, if a.RemoveStopped? then a.channel else a.worker.channel);
  }

  lemma StepOwned(cfg: Config, s: State, a: Action)
    requires Owned(s) && CleanStart(s, a) && Step(cfg, s, a).Some?
    ensures Owned(Step(cfg, s, a).value)
  {
    if OfHandler(a) {
      HandlerOwned(cfg, s, a);
    } else if a.RemoveStopped? || a.MonitorRemove? {
      RemoveOwned(cfg, s, a);
    } else if a.SweepNext? {
      SweepOwned(s, a.killed);
    } else if a.Stop? && !Blank(a.channel) && a.channel in s.reg {
      KillOwned(s, a.channel, a.killed);
    } else {
      SameOwned(s, Step(cfg, s, a).value);
    }
  }

  lemma {:induction false} RunOwned(cfg: Config, s: State, actions: seq<Action>)
    requires Owned(s) && RunAll(cfg, s, actions).Some? && CleanRun(cfg, s, actions)
    ensures Owned(RunAll(cfg, s, actions).value)
    decreases |actions|
  {
    if actions != [] {
      StepOwned(cfg, s, actions[0]);
      RunOwned(cfg, Step(cfg, s, actions[0]).value, actions[1..]);
    }
  }

  /** If no process is started on a channel while anything of an earlier worker
      on it is left, then in every state each running worker that has been
      handed over is the one its channel leads to, so pings and stops reach it. */
  lemma {:induction false} RegisteredWhileAlive(cfg: Config, handlers: nat, actions: seq<Action>, w: Worker)
    requires RunAll(cfg, Start(handlers), actions).Some? && CleanRun(cfg, Start(handlers), actions)
    ensures !Lost(RunAll(cfg, Start(handlers), actions).value, w)
  {
    RunOwned(cfg, Start(handlers), actions);
  }
}
