/** Connection migration between the app thread, the external protocol thread
    and the engine thread (core/include_internal/ten_runtime/connection/migration.h).

    Each thread owns a queue of tasks.  A call made by a handler on its own
    thread runs next on that thread, so it goes to the head of the queue; a
    posted task or notification goes to the tail of another thread's queue.
    The scheduler picks any enabled action in any order. */
module Migration {
  import opened Sequences
  import opened Wrappers

  datatype Thread = App | External | Engine

  datatype Handler =
    | ConnectionMigrate
    | ProtocolMigrate
    | ImplMigrate
    | ProtocolOnMigrated
    | ConnectionOnProtocolMigrated
    | ConnectionClean
    | ProtocolClean
    | ImplClean
    | ProtocolOnCleaned
    | ConnectionOnProtocolCleaned
    | ImplOnCleaned

  /** What a message is to the app that gets it first. */
  datatype Kind =
    | Routed     // a command for a graph whose engine runs in a thread of its own
    | Kept       // a command that the app does not route: stop_graph, or one without a graph
    | NonCommand // data or a frame

  /** HandleInMsgs is the engine's work on commands put into its queue. */
  datatype Task = Run(handler: Handler) | Deliver(msg: nat) | HandleInMsgs

  /** The states of connection.h; FIRST_MSG lasts from the first message until
      the migration is complete. */
  datatype MigrationState = Init | FirstMsg | Done

  datatype AttachTo = ToApp | ToEngine | ToRemote

  datatype Queues = Queues(app: seq<Task>, external: seq<Task>, engine: seq<Task>)

  /** The protocol: MSG 1 .. MSG |received| have arrived from the client. */
  datatype Protocol = Protocol(received: seq<Kind>, inMsgs: seq<nat>, firstSent: bool, done: bool)

  /** Where the messages have come. */
  datatype Traffic = Traffic(
    /** Messages that reached the connection (ten_connection_on_msgs). */
    delivered: seq<nat>,
    /** Messages that the app handled itself. */
    appMsgs: seq<nat>,
    /** Commands put into the engine's queue. */
    pending: seq<nat>,
    /** Messages the engine handled. */
    engineMsgs: seq<nat>)

  datatype Link = Link(
    protocol: Protocol,
    connection: MigrationState,
    attach: AttachTo,
    orphan: bool,
    traffic: Traffic,
    /** An assertion of protocol.c, connection.c or the engine has failed. */
    failed: bool)

  datatype State = State(queues: Queues, link: Link, log: seq<(Thread, Handler)>)

  datatype Action = Receive(kind: Kind) | SendFirst | SendNext | RunTask(thread: Thread)

  function Start(): State {
    State(Queues([], [], []),
          Link(Protocol([], [], false, false), Init, ToApp, true, Traffic([], [], [], []), false), [])
  }

  function Queue(q: Queues, t: Thread): seq<Task> {
    match t
    case App => q.app
    case External => q.external
    case Engine => q.engine
  }

  function WithQueue(q: Queues, t: Thread, tasks: seq<Task>): Queues {
    match t
    case App => q.(app := tasks)
    case External => q.(external := tasks)
    case Engine => q.(engine := tasks)
  }

  function Post(q: Queues, t: Thread, task: Task): Queues {
    WithQueue(q, t, Queue(q, t) + [task])
  }

  function Call(q: Queues, t: Thread, h: Handler): Queues {
    WithQueue(q, t, [Run(h)] + Queue(q, t))
  }

  function KindOf(p: Protocol, msg: nat): Kind {
    if 1 <= msg <= |p.received| then p.received[msg - 1] else NonCommand
  }

  /** ten_protocol_on_input and ten_connection_on_msgs on thread t.  In the
      state INIT the connection is attached to the app, which migrates it for a
      routed command only; what is no command is dropped. */
  function OnMessage(s: State, t: Thread, msg: nat): State {
    var l, traffic := s.link, s.link.traffic;
    if l.connection == FirstMsg || l.attach == ToEngine || t != (if l.attach == ToApp then App else Engine) then
      s.(link := l.(failed := true))
    else if l.connection == Init then
      var kind := KindOf(l.protocol, msg);
      s.(link := l.(connection := FirstMsg,
                    traffic := traffic.(
                      delivered := traffic.delivered + [msg],
                      appMsgs := if kind.Kept? then traffic.appMsgs + [msg] else traffic.appMsgs)),
         queues := if kind.Routed? then Call(s.queues, t, ConnectionMigrate) else s.queues)
    else
      s.(link := l.(traffic := traffic.(
                      delivered := traffic.delivered + [msg],
                      engineMsgs := traffic.engineMsgs + [msg])))
  }

  /** The engine handles the migrating command: the connection gets its remote. */
  function OnInMsgs(l: Link): Link {
    if l.connection != Done then l.(failed := true)
    else l.(attach := ToRemote,
            traffic := l.traffic.(pending := [], engineMsgs := l.traffic.engineMsgs + l.traffic.pending))
  }

  /** The calls and posts of handler h on thread t. */
  function Continue(q: Queues, t: Thread, h: Handler): Queues {
    match h
    case ConnectionMigrate => Call(q, t, ProtocolMigrate)
    case ProtocolMigrate => Post(q, External, Run(ImplMigrate))
    case ImplMigrate => Post(q, Engine, Run(ProtocolOnMigrated))
    case ProtocolOnMigrated => Call(q, t, ConnectionOnProtocolMigrated)
    case ConnectionOnProtocolMigrated => Post(q, App, Run(ConnectionClean))
    case ConnectionClean => Call(q, t, ProtocolClean)
    case ProtocolClean => Post(q, External, Run(ImplClean))
    case ImplClean => Post(q, Engine, Run(ProtocolOnCleaned))
    case ProtocolOnCleaned => Call(Post(q, Engine, HandleInMsgs), t, ConnectionOnProtocolCleaned)
    case ConnectionOnProtocolCleaned => Post(q, External, Run(ImplOnCleaned))
    case ImplOnCleaned => q
  }

  /** The assignments of handler h; protocol::on_cleaned also puts the migrating
      command into the engine's queue before anything that follows it. */
  function Effect(l: Link, h: Handler): Link {
    match h
    case ConnectionClean => l.(orphan := false)
    case ProtocolOnCleaned => l.(traffic := l.traffic.(pending := l.traffic.delivered))
    case ConnectionOnProtocolCleaned => l.(connection := Done, attach := ToEngine)
    case ImplOnCleaned => l.(protocol := l.protocol.(done := true))
    case _ => l
  }

  /** Handler h has run on thread t. */
  function Handled(s: State, t: Thread, h: Handler): State {
    State(Continue(s.queues, t, h), Effect(s.link, h), s.log + [(t, h)])
  }

  function Step(s: State, a: Action): Option<State> {
    var l, p := s.link, s.link.protocol;
    match a
    case Receive(kind) =>
      Some(s.(link := l.(protocol := p.(received := p.received + [kind], inMsgs := p.inMsgs + [|p.received| + 1]))))
    case SendFirst =>
      if p.inMsgs == [] || p.firstSent then None
      else Some(s.(link := l.(protocol := p.(inMsgs := p.inMsgs[1..], firstSent := true)),
                   queues := Post(s.queues, App, Deliver(p.inMsgs[0]))))
    case SendNext =>
      if p.inMsgs == [] || !p.done then None
      else Some(s.(link := l.(protocol := p.(inMsgs := p.inMsgs[1..])),
                   queues := Post(s.queues, Engine, Deliver(p.inMsgs[0]))))
    case RunTask(t) =>
      var q := Queue(s.queues, t);
      if q == [] then None
      else
        var rest := s.(queues := WithQueue(s.queues, t, q[1..]));
        match q[0]
        case Deliver(msg) => Some(OnMessage(rest, t, msg))
        case Run(h) => Some(Handled(rest, t, h))
        case HandleInMsgs => Some(rest.(link := OnInMsgs(l)))
  }

  // ----- the intended course of a migration

  /** The stated order of the handlers ... */
  function Position(h: Handler): (n: nat)
    ensures n < HANDLERS
  {
    match h
    case ConnectionMigrate => 0
    case ProtocolMigrate => 1
    case ImplMigrate => 2
    case ProtocolOnMigrated => 3
    case ConnectionOnProtocolMigrated => 4
    case ConnectionClean => 5
    case ProtocolClean => 6
    case ImplClean => 7
    case ProtocolOnCleaned => 8
    case ConnectionOnProtocolCleaned => 9
    case ImplOnCleaned => 10
  }

  /** ... and the thread each of them is stated to run on. */
  function ThreadOf(h: Handler): Thread {
    match h
    case ConnectionMigrate => App
    case ProtocolMigrate => App
    case ImplMigrate => External
    case ProtocolOnMigrated => Engine
    case ConnectionOnProtocolMigrated => Engine
    case ConnectionClean => App
    case ProtocolClean => App
    case ImplClean => External
    case ProtocolOnCleaned => Engine
    case ConnectionOnProtocolCleaned => Engine
    case ImplOnCleaned => External
  }

  const HANDLERS := 11

  /** The handlers ran in their order, each once, on their threads. */
  ghost predicate InOrder(log: seq<(Thread, Handler)>) {
    forall i :: 0 <= i < |log| ==> Position(log[i].1) == i && log[i].0 == ThreadOf(log[i].1)
  }

  /** MSG a, MSG a + 1, ..., MSG b - 1. */
  function Msgs(a: nat, b: nat): (r: seq<nat>)
    ensures |r| == if a <= b then b - a else 0
    ensures forall k :: 0 <= k < |r| ==> r[k] == a + k
  {
    if a < b then seq(b - a, i => a + i) else []
  }

  function Deliveries(msgs: seq<nat>): (r: seq<Task>)
    ensures |r| == |msgs|
  {
    seq(|msgs|, i requires 0 <= i < |msgs| => Deliver(msgs[i]))
  }

  /** The engine's queue behind whatever else is in it. */
  function Owed(l: Link): seq<Task> {
    if l.traffic.pending == [] then [] else [HandleInMsgs]
  }

  /** The first message, once there is one, starts a migration. */
  predicate Migrates(p: Protocol) {
    p.received != [] && p.received[0].Routed?
  }

  ghost predicate NothingRuns(s: State) {
    s.log == [] && s.link.traffic.pending == []
  }

  /** Only handler h is pending, before what the engine owes. */
  ghost predicate OnlyTask(s: State, h: Handler) {
    Position(h) == |s.log| && s.queues == Call(Queues([], [], Owed(s.link)), ThreadOf(h), h)
  }

  /** Where the migration is: nothing sent, the first message on its way, stuck,
      some handler pending, or all of them done and the rest flowing. */
  ghost predicate Course(s: State) {
    var l, p, traffic, n := s.link, s.link.protocol, s.link.traffic, |s.link.protocol.received|;
    if !p.firstSent then
      && NothingRuns(s) && l.connection == Init && traffic.delivered == [] && p.inMsgs == Msgs(1, n + 1)
      && s.queues == Queues([], [], [])
    else if l.connection == Init then
      && NothingRuns(s) && n >= 1 && traffic.delivered == [] && p.inMsgs == Msgs(2, n + 1)
      && s.queues == Queues([Deliver(1)], [], [])
    else if !Migrates(p) then
      && NothingRuns(s) && n >= 1 && traffic.delivered == [1] && p.inMsgs == Msgs(2, n + 1)
      && s.queues == Queues([], [], [])
    else if |s.log| < HANDLERS then
      && traffic.delivered == [1] && p.inMsgs == Msgs(2, n + 1)
      && exists h :: OnlyTask(s, h)
    else
      Flowing(s)
  }

  /** MSG 1 .. MSG a - 1 have reached the connection, those before MSG b are in
      the engine's queue, the others wait. */
  ghost predicate Flow(q: Queues, l: Link, a: nat, b: nat) {
    && 2 <= a <= b <= |l.protocol.received| + 1 && (l.traffic.pending != [] ==> a == 2)
    && l.traffic.delivered == Msgs(1, a) && l.protocol.inMsgs == Msgs(b, |l.protocol.received| + 1)
    && q == Queues([], [], Owed(l) + Deliveries(Msgs(a, b)))
  }

  ghost predicate Flowing(s: State) {
    exists a: nat, b: nat :: Flow(s.queues, s.link, a, b)
  }

  /** Which assignments the first n handlers have made. */
  ghost predicate Flags(l: Link, n: nat) {
    var traffic := l.traffic;
    && (l.orphan <==> n < 6)
    && (l.connection == Done <==> n >= 10)
    && (l.protocol.done <==> n >= 11)
    && traffic.pending == (if n == 9 || (n >= 10 && l.attach == ToEngine) then [1] else [])
    && (n < 10 ==> l.attach == ToApp && traffic.engineMsgs == [])
    && (n >= 10 ==> l.attach != ToApp && traffic.engineMsgs == if l.attach == ToEngine then [] else traffic.delivered)
    && traffic.appMsgs == (if l.connection != Init && KindOf(l.protocol, 1).Kept? then [1] else [])
  }

  ghost predicate Inv(s: State) {
    && !s.link.failed
    && |s.log| <= HANDLERS && InOrder(s.log)
    && Flags(s.link, |s.log|)
    && Course(s)
  }

  lemma StartInv()
    ensures Inv(Start())
  {
  }

  lemma MsgsSnoc(a: nat, b: nat)
    requires a <= b
    ensures Msgs(a, b) + [b] == Msgs(a, b + 1)
    ensures Deliveries(Msgs(a, b)) + [Deliver(b)] == Deliveries(Msgs(a, b + 1))
  {
  }

  lemma MsgsCons(a: nat, b: nat)
    requires a < b
    ensures Msgs(a, b)[0] == a && Msgs(a, b)[1..] == Msgs(a + 1, b)
    ensures Deliveries(Msgs(a, b))[0] == Deliver(a) && Deliveries(Msgs(a, b))[1..] == Deliveries(Msgs(a + 1, b))
  {
  }

  /** While the messages flow only the queues and the messages change. */
  lemma FlowInv(s: State, s': State, a: nat, b: nat)
    requires Inv(s) && |s.log| == HANDLERS && s'.log == s.log && Flow(s'.queues, s'.link, a, b)
    requires Migrates(s'.link.protocol) && s'.link.protocol.firstSent && s'.link.protocol.done
    requires s'.link == s.link.(protocol := s'.link.protocol, attach := s'.link.attach, traffic := s'.link.traffic)
    requires Flags(s'.link, HANDLERS)
    ensures Inv(s')
  {
  }

  lemma FlowReceives(q: Queues, l: Link, a: nat, b: nat, kind: Kind) returns (l': Link)
    requires Flow(q, l, a, b)
    ensures var p := l.protocol;
      l' == l.(protocol := p.(received := p.received + [kind], inMsgs := p.inMsgs + [|p.received| + 1]))
    ensures Flow(q, l', a, b)
  {
    var p := l.protocol;
    MsgsSnoc(b, |p.received| + 1);
    l' := l.(protocol := p.(received := p.received + [kind], inMsgs := p.inMsgs + [|p.received| + 1]));
  }

  lemma ReceiveInv(s: State, kind: Kind)
    requires Inv(s)
    ensures Inv(Step(s, Receive(kind)).value)
  {
    if |s.log| == HANDLERS {
      ReceiveLateInv(s, kind);
    } else {
      MsgsSnoc(if s.link.protocol.firstSent then 2 else 1, |s.link.protocol.received| + 1);
      ReceiveEarlyInv(s, Step(s, Receive(kind)).value, kind);
    }
  }

  lemma ReceiveLateInv(s: State, kind: Kind)
    requires Inv(s) && |s.log| == HANDLERS
    ensures Inv(Step(s, Receive(kind)).value)
  {
    var a: nat, b: nat :| Flow(s.queues, s.link, a, b);
    var l' := FlowReceives(s.queues, s.link, a, b, kind);
    FlowInv(s, s.(link := l'), a, b);
  }

  lemma ReceiveEarlyInv(s: State, s': State, kind: Kind)
    requires Inv(s) && |s.log| < HANDLERS
    requires var p := s.link.protocol;
      s' == s.(link := s.link.(protocol := p.(received := p.received + [kind], inMsgs := s'.link.protocol.inMsgs)))
      && s'.link.protocol.inMsgs == Msgs(if p.firstSent then 2 else 1, |p.received| + 2)
    ensures Inv(s')
  {
    assert forall h :: OnlyTask(s, h) ==> OnlyTask(s', h);
  }

  lemma SendFirstInv(s: State)
    requires Inv(s) && Step(s, SendFirst).Some?
    ensures Inv(Step(s, SendFirst).value)
  {
    MsgsCons(1, |s.link.protocol.received| + 1);
  }

  lemma FlowSends(s: State, s': State, a: nat, b: nat)
    requires Flow(s.queues, s.link, a, b) && Step(s, SendNext) == Some(s')
    ensures Flow(s'.queues, s'.link, a, b + 1)
  {
    var owed := Owed(s.link);
    MsgsCons(b, |s.link.protocol.received| + 1);
    MsgsSnoc(a, b);
    Assoc(owed, Deliveries(Msgs(a, b)), [Deliver(b)]);
    assert s'.queues.engine == owed + Deliveries(Msgs(a, b)) + [Deliver(b)];
  }

  lemma SendNextInv(s: State, s': State)
    requires Inv(s) && Step(s, SendNext) == Some(s')
    ensures Inv(s')
  {
    SentFlows(s, s');
    SentInv(s, s');
  }

  lemma SentFlows(s: State, s': State)
    requires Inv(s) && Step(s, SendNext) == Some(s')
    ensures Flowing(s')
  {
    var a, b := FlowNow(s);
    FlowSends(s, s', a, b);
  }

  /** Once the protocol is done the messages flow. */
  lemma FlowNow(s: State) returns (a: nat, b: nat)
    requires Inv(s) && s.link.protocol.done
    ensures |s.log| == HANDLERS && Flow(s.queues, s.link, a, b)
    ensures Migrates(s.link.protocol) && s.link.protocol.firstSent
  {
    a, b :| Flow(s.queues, s.link, a, b);
  }

  lemma SentInv(s: State, s': State)
    requires Inv(s) && Step(s, SendNext) == Some(s') && Flowing(s')
    ensures Inv(s')
  {
    var _, _ := FlowNow(s);
    var a: nat, b: nat :| Flow(s'.queues, s'.link, a, b);
    FlowInv(s, s', a, b);
  }

  lemma FlowDelivers(q: Queues, l: Link, a: nat, b: nat) returns (q': Queues, l': Link)
    requires Flow(q, l, a, b) && q.engine != [] && q.engine[0].Deliver?
    ensures q.engine[0] == Deliver(a) && l.traffic.pending == []
    ensures q' == q.(engine := q.engine[1..])
    ensures l' == l.(traffic := l.traffic.(delivered := l.traffic.delivered + [a],
                                           engineMsgs := l.traffic.engineMsgs + [a]))
    ensures Flow(q', l', a + 1, b)
  {
    assert Owed(l) == [] && [] + Deliveries(Msgs(a, b)) == Deliveries(Msgs(a, b));
    MsgsCons(a, b);
    MsgsSnoc(1, a);
    assert [] + Deliveries(Msgs(a + 1, b)) == Deliveries(Msgs(a + 1, b));
    q' := q.(engine := q.engine[1..]);
    l' := l.(traffic := l.traffic.(delivered := l.traffic.delivered + [a], engineMsgs := l.traffic.engineMsgs + [a]));
  }

  lemma DeliverFirstInv(s: State, t: Thread)
    requires Inv(s) && Queue(s.queues, t) != [] && Queue(s.queues, t)[0].Deliver? && s.link.connection == Init
    ensures Inv(Step(s, RunTask(t)).value)
  {
    var s' := Step(s, RunTask(t)).value;
    assert t == App && s.queues.app == [Deliver(1)];
    if Migrates(s.link.protocol) {
      assert OnlyTask(s', ConnectionMigrate);
    }
  }

  lemma DeliverLaterInv(s: State, t: Thread)
    requires Inv(s) && Queue(s.queues, t) != [] && Queue(s.queues, t)[0].Deliver? && s.link.connection != Init
    ensures Inv(Step(s, RunTask(t)).value)
  {
    var s' := DeliveredFlows(s, t);
    DeliveredInv(s, s');
  }

  lemma DeliveredFlows(s: State, t: Thread) returns (s': State)
    requires Inv(s) && Queue(s.queues, t) != [] && Queue(s.queues, t)[0].Deliver? && s.link.connection != Init
    ensures Step(s, RunTask(t)) == Some(s') && Flowing(s')
    ensures |s.log| == HANDLERS && s.link.attach == ToRemote
    ensures exists msg :: s' == s.(queues := s'.queues,
      link := s.link.(traffic := s.link.traffic.(delivered := s.link.traffic.delivered + [msg],
                                                 engineMsgs := s.link.traffic.engineMsgs + [msg])))
  {
    assert |s.log| == HANDLERS && t == Engine;
    var a: nat, b: nat :| Flow(s.queues, s.link, a, b);
    var q', l' := FlowDelivers(s.queues, s.link, a, b);
    s' := s.(queues := q', link := l');
    assert Step(s, RunTask(t)) == Some(s');
  }

  lemma DeliveredInv(s: State, s': State)
    requires Inv(s) && |s.log| == HANDLERS && s.link.attach == ToRemote && Flowing(s')
    requires exists msg :: s' == s.(queues := s'.queues,
      link := s.link.(traffic := s.link.traffic.(delivered := s.link.traffic.delivered + [msg],
                                                 engineMsgs := s.link.traffic.engineMsgs + [msg])))
    ensures Inv(s')
  {
    var a: nat, b: nat :| Flow(s'.queues, s'.link, a, b);
    FlowInv(s, s', a, b);
  }

  lemma FlowHandles(q: Queues, l: Link, a: nat, b: nat) returns (q': Queues, l': Link)
    requires Flow(q, l, a, b) && q.engine != [] && q.engine[0].HandleInMsgs? && l.connection == Done
    ensures a == 2 && l.traffic.pending != []
    ensures q' == q.(engine := q.engine[1..]) && l' == OnInMsgs(l)
    ensures Flow(q', l', a, b)
  {
    assert Owed(l) == [HandleInMsgs];
    assert ([HandleInMsgs] + Deliveries(Msgs(a, b)))[1..] == Deliveries(Msgs(a, b));
    q', l' := q.(engine := q.engine[1..]), OnInMsgs(l);
    assert Owed(l') == [] && [] + Deliveries(Msgs(a, b)) == Deliveries(Msgs(a, b));
  }

  lemma InMsgsInv(s: State, t: Thread)
    requires Inv(s) && Queue(s.queues, t) != [] && Queue(s.queues, t)[0].HandleInMsgs?
    ensures Inv(Step(s, RunTask(t)).value)
  {
    assert t == Engine;
    if |s.log| < HANDLERS {
      InMsgsEarlyInv(s);
    } else {
      var s' := InMsgsFlow(s);
      InMsgsLateInv(s, s');
    }
  }

  lemma InMsgsFlow(s: State) returns (s': State)
    requires Inv(s) && s.queues.engine != [] && s.queues.engine[0].HandleInMsgs? && |s.log| == HANDLERS
    ensures Step(s, RunTask(Engine)) == Some(s') && Flowing(s') && s.link.attach == ToEngine
    ensures s' == s.(queues := s'.queues, link := OnInMsgs(s.link))
  {
    var a: nat, b: nat :| Flow(s.queues, s.link, a, b);
    var q', l' := FlowHandles(s.queues, s.link, a, b);
    s' := s.(queues := q', link := l');
    assert Step(s, RunTask(Engine)) == Some(s');
  }

  lemma InMsgsLateInv(s: State, s': State)
    requires Inv(s) && |s.log| == HANDLERS && s.link.attach == ToEngine && Flowing(s')
    requires s' == s.(queues := s'.queues, link := OnInMsgs(s.link))
    ensures Inv(s')
  {
    var a: nat, b: nat :| Flow(s'.queues, s'.link, a, b);
    FlowInv(s, s', a, b);
  }

  /** The engine may handle the command before the protocol hears of the end. */
  lemma InMsgsEarlyInv(s: State)
    requires Inv(s) && s.queues.engine != [] && s.queues.engine[0].HandleInMsgs? && |s.log| < HANDLERS
    ensures Inv(Step(s, RunTask(Engine)).value)
  {
    var h :| OnlyTask(s, h);
    assert h == ImplOnCleaned;
    assert s.queues.engine[1..] == [];
    assert OnlyTask(Step(s, RunTask(Engine)).value, h);
  }

  function Successor(h: Handler): Handler
    requires h != ImplOnCleaned
    ensures Position(Successor(h)) == Position(h) + 1
  {
    match h
    case ConnectionMigrate => ProtocolMigrate
    case ProtocolMigrate => ImplMigrate
    case ImplMigrate => ProtocolOnMigrated
    case ProtocolOnMigrated => ConnectionOnProtocolMigrated
    case ConnectionOnProtocolMigrated => ConnectionClean
    case ConnectionClean => ProtocolClean
    case ProtocolClean => ImplClean
    case ImplClean => ProtocolOnCleaned
    case ProtocolOnCleaned => ConnectionOnProtocolCleaned
    case ConnectionOnProtocolCleaned => ImplOnCleaned
  }

  /** What a handler leaves of the queues: its successor, and a debt that only
      protocol::on_cleaned adds. */
  lemma HandlerPasses(owed: seq<Task>, h: Handler)
    requires Position(h) < 9 ==> owed == []
    ensures var t, base := ThreadOf(h), Queues([], [], owed);
      && Queue(Call(base, t, h), t) == [Run(h)] + Queue(base, t)
      && WithQueue(Call(base, t, h), t, Queue(base, t)) == base
      && Continue(base, t, h) ==
        if h == ImplOnCleaned then base
        else if h == ProtocolOnCleaned then Call(Queues([], [], [HandleInMsgs]), ThreadOf(Successor(h)), Successor(h))
        else Call(base, ThreadOf(Successor(h)), Successor(h))
  {
  }

  lemma HandlerSets(l: Link, h: Handler)
    requires Flags(l, Position(h)) && l.connection != Init && l.traffic.delivered == [1]
    requires Position(h) < 10 ==> l.connection == FirstMsg
    ensures Flags(Effect(l, h), Position(h) + 1)
  {
  }

  lemma HandlerKeeps(l: Link, h: Handler)
    ensures var l' := Effect(l, h);
      && l'.protocol.(done := l.protocol.done) == l.protocol && l'.failed == l.failed
      && l'.traffic.(pending := l.traffic.pending) == l.traffic
      && (h != ProtocolOnCleaned ==> l'.traffic == l.traffic)
      && (l'.connection == l.connection || l'.connection == Done)
  {
  }

  lemma HandlerInv(s: State, t: Thread)
    requires Inv(s) && Queue(s.queues, t) != [] && Queue(s.queues, t)[0].Run?
    ensures Inv(Step(s, RunTask(t)).value)
  {
    assert |s.log| < HANDLERS;
    var h :| OnlyTask(s, h);
    HandlerPasses(Owed(s.link), h);
    assert t == ThreadOf(h);
    var base := s.(queues := Queues([], [], Owed(s.link)));
    assert ([Run(h)] + Queue(base.queues, t))[1..] == Queue(base.queues, t);
    assert Step(s, RunTask(t)) == Some(Handled(base, t, h));
    HandledInv(s, h, Handled(base, t, h));
  }

  lemma HandledInv(s: State, h: Handler, s': State)
    requires Inv(s) && OnlyTask(s, h) && |s.log| < HANDLERS
    requires s' == Handled(s.(queues := Queues([], [], Owed(s.link))), ThreadOf(h), h)
    requires s.link.connection != Init && s.link.protocol.firstSent && Migrates(s.link.protocol)
    ensures Inv(s')
  {
    HandlerSets(s.link, h);
    HandlerKeeps(s.link, h);
    HandlerPasses(Owed(s.link), h);
    if h == ImplOnCleaned {
      FlowStarts(s, s');
    } else {
      assert OnlyTask(s', Successor(h));
    }
  }

  /** After the last handler the messages that waited can flow. */
  lemma FlowStarts(s: State, s': State)
    requires s.link.traffic.delivered == [1] && s.link.protocol.inMsgs == Msgs(2, |s.link.protocol.received| + 1)
    requires |s.link.protocol.received| >= 1
    requires s'.link == s.link.(protocol := s.link.protocol.(done := true))
    requires s'.queues == Queues([], [], Owed(s.link))
    ensures Flow(s'.queues, s'.link, 2, 2)
  {
    assert Deliveries(Msgs(2, 2)) == [];
    assert Owed(s.link) + [] == Owed(s.link);
  }

  lemma StepInv(s: State, a: Action)
    requires Inv(s) && Step(s, a).Some?
    ensures Inv(Step(s, a).value)
  {
    match a
    case Receive(kind) => ReceiveInv(s, kind);
    case SendFirst => SendFirstInv(s);
    case SendNext => SendNextInv(s, Step(s, a).value);
    case RunTask(t) =>
      match Queue(s.queues, t)[0]
      case Run(_) => HandlerInv(s, t);
      case HandleInMsgs => InMsgsInv(s, t);
      case Deliver(_) =>
        if s.link.connection == Init {
          DeliverFirstInv(s, t);
        } else {
          DeliverLaterInv(s, t);
        }
  }

  // ----- runs

  function RunAll(s: State, actions: seq<Action>): Option<State>
    decreases |actions|
  {
    if actions == [] then Some(s)
    else match Step(s, actions[0])
      case None => None
      case Some(s') => RunAll(s', actions[1..])
  }

  ghost predicate Reachable(s: State) {
    exists actions :: RunAll(Start(), actions) == Some(s)
  }

  lemma {:induction false} RunInv(s: State, actions: seq<Action>)
    requires Inv(s) && RunAll(s, actions).Some?
    ensures Inv(RunAll(s, actions).value)
    decreases |actions|
  {
    if actions != [] {
      StepInv(s, actions[0]);
      RunInv(Step(s, actions[0]).value, actions[1..]);
    }
  }

  lemma ReachableInv(s: State)
    requires Reachable(s)
    ensures Inv(s)
  {
    var actions :| RunAll(Start(), actions) == Some(s);
    StartInv();
    RunInv(Start(), actions);
  }

  // ----- what every interleaving keeps

  /** Until the connection's migration is complete at most one message has
      reached it, and no assertion of the runtime ever fails. */
  lemma AtMostOneMessageBeforeDone(s: State)
    requires Reachable(s)
    ensures !s.link.failed
    ensures s.link.connection != Done || !s.link.protocol.done ==> |s.link.traffic.delivered| <= 1
  {
    ReachableInv(s);
  }

  /** Nothing is duplicated or reordered: what reached the connection, is on its
      way to the engine, or still waits, is MSG 1 .. MSG n; and once the
      connection has its remote the engine has handled what reached it. */
  lemma MessagesInOrder(s: State)
    requires Reachable(s)
    ensures var p, traffic := s.link.protocol, s.link.traffic;
      && traffic.delivered <= Msgs(1, |p.received| + 1)
      && traffic.engineMsgs <= traffic.delivered
      && (s.link.attach == ToRemote ==> traffic.engineMsgs == traffic.delivered)
      && (p.done ==> exists sent ::
            s.queues.engine == Owed(s.link) + Deliveries(sent)
            && traffic.delivered + sent + p.inMsgs == Msgs(1, |p.received| + 1))
  {
    ReachableInv(s);
    if s.link.protocol.done {
      var a: nat, b: nat :| Flow(s.queues, s.link, a, b);
      MsgsJoin(1, a, b);
      MsgsJoin(1, b, |s.link.protocol.received| + 1);
      MsgsJoin(1, a, |s.link.protocol.received| + 1);
    } else {
      MsgsJoin(1, |s.link.traffic.delivered| + 1, |s.link.protocol.received| + 1);
    }
  }

  lemma MsgsJoin(a: nat, b: nat, c: nat)
    requires a <= b <= c
    ensures Msgs(a, b) + Msgs(b, c) == Msgs(a, c)
  {
  }

  /** The handlers run in the stated order, each at most once, each on its
      stated thread; the engine owns the connection only after the app has
      given it up; and the protocol learns of the completion last. */
  lemma HandlersInOrder(s: State)
    requires Reachable(s)
    ensures InOrder(s.log) && |s.log| <= HANDLERS
    ensures s.link.attach != ToApp ==> !s.link.orphan
    ensures s.link.protocol.done ==> s.link.connection == Done
    ensures s.link.connection == Done <==> s.link.attach != ToApp
    ensures s.link.protocol.done <==> |s.log| == HANDLERS
  {
    ReachableInv(s);
  }

  // ----- progress

  /** How many steps the runtime would still owe for what has been received. */
  function Measure(s: State): int {
    var p, traffic := s.link.protocol, s.link.traffic;
    |p.inMsgs| + |p.received| - |traffic.delivered| + HANDLERS - |s.log| + (if traffic.engineMsgs == [] then 1 else 0)
  }

  lemma StepMeasure(s: State, a: Action)
    requires Inv(s) && Step(s, a).Some?
    ensures Measure(Step(s, a).value) == if a.Receive? then Measure(s) + 2 else Measure(s) - 1
  {
    if a.RunTask? {
      var task := Queue(s.queues, a.thread)[0];
      if task.Run? {
        HandlerKeeps(s.link, task.handler);
      } else {
        MessageMeasure(s, a.thread, Step(s, a).value);
      }
    }
  }

  lemma MessageMeasure(s: State, t: Thread, s': State)
    requires Queue(s.queues, t) != [] && !Queue(s.queues, t)[0].Run?
    requires Inv(s) && Step(s, RunTask(t)) == Some(s')
    ensures Measure(s') == Measure(s) - 1
  {
    if Queue(s.queues, t)[0].HandleInMsgs? {
      assert s' == s.(queues := s'.queues, link := OnInMsgs(s.link));
    } else if s.link.connection != Init {
      LaterMeasure(s, t, s');
    }
  }

  lemma LaterMeasure(s: State, t: Thread, s': State)
    requires Queue(s.queues, t) != [] && Queue(s.queues, t)[0].Deliver? && s.link.connection != Init
    requires Inv(s) && Step(s, RunTask(t)) == Some(s')
    ensures Measure(s') == Measure(s) - 1
  {
    assert t == Engine && |s.log| == HANDLERS;
    var a: nat, b: nat :| Flow(s.queues, s.link, a, b);
    var q', l' := FlowDelivers(s.queues, s.link, a, b);
    assert s' == s.(queues := q', link := l');
  }

  function Receives(actions: seq<Action>): nat {
    if actions == [] then 0 else (if actions[0].Receive? then 1 else 0) + Receives(actions[1..])
  }

  lemma {:induction false} RunMeasure(s: State, actions: seq<Action>)
    requires Inv(s) && RunAll(s, actions).Some?
    ensures |actions| + Measure(RunAll(s, actions).value) == Measure(s) + 3 * Receives(actions)
    decreases |actions|
  {
    if actions != [] {
      StepInv(s, actions[0]);
      StepMeasure(s, actions[0]);
      RunMeasure(Step(s, actions[0]).value, actions[1..]);
    }
  }

  lemma StepReceives(s: State, a: Action)
    requires Step(s, a).Some?
    ensures var before, after := s.link.protocol.received, Step(s, a).value.link.protocol.received;
      after == if a.Receive? then before + [a.kind] else before
  {
    if a.RunTask? {
      var task := Queue(s.queues, a.thread)[0];
      if task.Run? {
        HandlerKeeps(s.link, task.handler);
      }
    }
  }

  lemma {:induction false} RunReceives(s: State, actions: seq<Action>)
    requires RunAll(s, actions).Some?
    ensures var before, after := s.link.protocol.received, RunAll(s, actions).value.link.protocol.received;
      before <= after && |after| == |before| + Receives(actions)
    decreases |actions|
  {
    if actions != [] {
      StepReceives(s, actions[0]);
      RunReceives(Step(s, actions[0]).value, actions[1..]);
    }
  }

  /** The runtime has no step to take. */
  ghost predicate Quiescent(s: State) {
    forall a: Action :: !a.Receive? ==> Step(s, a).None?
  }

  /** All eleven handlers have run, and every message received has reached the
      connection and then the engine, in order. */
  ghost predicate Complete(s: State) {
    && |s.log| == HANDLERS && s.link.protocol.done && s.link.attach == ToRemote
    && s.link.traffic.delivered == Msgs(1, |s.link.protocol.received| + 1) == s.link.traffic.engineMsgs
  }

  /** MSG 1 has used up the one delivery before the migration, no handler has
      run, and everything behind it waits. */
  ghost predicate Stuck(s: State) {
    && s.log == [] && s.link.connection == FirstMsg && !s.link.protocol.done && s.link.protocol.firstSent
    && s.queues == Queues([], [], [])
    && s.link.traffic.delivered == [1] && s.link.traffic.engineMsgs == []
    && |s.link.protocol.received| >= 1 && s.link.protocol.inMsgs == Msgs(2, |s.link.protocol.received| + 1)
  }

  lemma StuckIsQuiescent(s: State)
    requires Stuck(s)
    ensures Quiescent(s)
  {
    forall a: Action | !a.Receive? ensures Step(s, a).None? {
      if a.RunTask? {
        assert Queue(s.queues, a.thread) == [];
      }
    }
  }

  lemma CompleteIsQuiescent(s: State)
    requires Inv(s) && Complete(s)
    ensures Quiescent(s) && Measure(s) == 0
  {
    assert s.queues == Queues([], [], []);
    forall a: Action | !a.Receive? ensures Step(s, a).None? {
      if a.RunTask? {
        assert Queue(s.queues, a.thread) == [];
      }
    }
  }

  lemma QuiescentQueues(s: State)
    requires Quiescent(s)
    ensures forall t :: Queue(s.queues, t) == []
    ensures s.link.protocol.inMsgs == [] || (s.link.protocol.firstSent && !s.link.protocol.done)
  {
    forall t ensures Queue(s.queues, t) == [] {
      assert Step(s, RunTask(t)).None?;
    }
    assert Step(s, SendFirst).None? && Step(s, SendNext).None?;
  }

  /** A state without a next step of the runtime is a finished one if the first
      message is a routed command, and a stuck one if it is anything else. */
  lemma QuiescentIff(s: State)
    requires Reachable(s) && |s.link.protocol.received| >= 1
    ensures Quiescent(s) <==> if Migrates(s.link.protocol) then Complete(s) else Stuck(s)
  {
    ReachableInv(s);
    if Quiescent(s) {
      QuiescentQueues(s);
      assert forall h :: OnlyTask(s, h) ==> Queue(s.queues, ThreadOf(h)) != [];
      assert Queue(s.queues, App) == [] && Queue(s.queues, Engine) == [];
    }
    if Complete(s) {
      CompleteIsQuiescent(s);
    }
    if Stuck(s) {
      StuckIsQuiescent(s);
    }
  }

  /** Every run from the start that cannot go on has completed the migration if
      and only if MSG 1 is a routed command; its length depends on nothing but
      the number of messages. */
  lemma {:induction false} CompletesIffRouted(actions: seq<Action>)
    requires RunAll(Start(), actions).Some? && Receives(actions) >= 1
    requires Quiescent(RunAll(Start(), actions).value)
    ensures var s := RunAll(Start(), actions).value;
      && (Complete(s) <==> Migrates(s.link.protocol))
      && (Stuck(s) <==> !Migrates(s.link.protocol))
    ensures |actions| ==
      if Migrates(RunAll(Start(), actions).value.link.protocol) then 3 * Receives(actions) + HANDLERS + 1
      else Receives(actions) + 2
  {
    var s := RunAll(Start(), actions).value;
    StartInv();
    RunReceives(Start(), actions);
    RunMeasure(Start(), actions);
    assert Measure(Start()) == HANDLERS + 1;
    QuiescentMeasure(s, actions);
  }

  lemma QuiescentMeasure(s: State, actions: seq<Action>)
    requires RunAll(Start(), actions) == Some(s) && |s.link.protocol.received| >= 1 && Quiescent(s)
    ensures Complete(s) <==> Migrates(s.link.protocol)
    ensures Stuck(s) <==> !Migrates(s.link.protocol)
    ensures Measure(s) == if Migrates(s.link.protocol) then 0 else 2 * |s.link.protocol.received| + HANDLERS - 1
  {
    assert Reachable(s);
    QuiescentIff(s);
    ReachableInv(s);
    if Complete(s) {
      CompleteIsQuiescent(s);
    }
  }

  // ----- a first message that is no routed command

  /** From then on nothing ever moves, whatever the client sends. */
  lemma {:induction false} StuckForever(s: State, actions: seq<Action>)
    requires Stuck(s) && RunAll(s, actions).Some?
    ensures Stuck(RunAll(s, actions).value) && Receives(actions) == |actions|
    decreases |actions|
  {
    if actions != [] {
      StuckIsQuiescent(s);
      var n := |s.link.protocol.received|;
      var s' := Step(s, actions[0]).value;
      assert s'.link.protocol.inMsgs == Msgs(2, n + 2);
      StuckForever(s', actions[1..]);
    }
  }

  /** Such a run exists for each of these kinds: the app keeps a command of its
      own, and what is no command is lost, neither the app nor the engine ever
      handling it. */
  lemma StuckRun(kind: Kind) returns (actions: seq<Action>, s: State)
    requires !kind.Routed?
    ensures RunAll(Start(), actions) == Some(s) && Stuck(s) && s.link.protocol.received == [kind]
    ensures s.link.traffic.engineMsgs == [] && s.link.traffic.appMsgs == if kind.Kept? then [1] else []
  {
    var s1 := Step(Start(), Receive(kind)).value;
    assert s1.link.protocol == Protocol([kind], [1], false, false) && s1.link.traffic == Traffic([], [], [], []);
    var s2 := Step(s1, SendFirst).value;
    assert s2.queues == Queues([Deliver(1)], [], []) && s2.link.protocol == Protocol([kind], [], true, false);
    s := Step(s2, RunTask(App)).value;
    assert s == OnMessage(s2.(queues := Queues([], [], [])), App, 1);
    assert s.queues == Queues([], [], []) && s.link.traffic.delivered == [1];
    actions := [Receive(kind), SendFirst, RunTask(App)];
    assert actions[1..] == [SendFirst, RunTask(App)] && actions[1..][1..] == [RunTask(App)];
    assert RunAll(s2, [RunTask(App)]) == RunAll(s, []) == Some(s);
    assert RunAll(s1, actions[1..]) == RunAll(s2, actions[1..][1..]);
  }
}
