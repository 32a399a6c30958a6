/** The migration handlers as they run: on fields that they assign, on queues
    that they post to, calling each other within a thread
    (core/include_internal/ten_runtime/connection/migration.h).

    A task that calls on is several steps of the machine in Migration, which
    may be interleaved there; so what holds of every run of the machine holds of
    this runtime under every schedule. */
module MigrationThreads {
  import opened Migration
  import opened Wrappers

  function Repeated(a: Action, n: nat): seq<Action> {
    seq(n, _ => a)
  }

  /** The steps of the machine that the next task of the thread amounts to. */
  function Steps(s: State, t: Thread): nat
    requires Queue(s.queues, t) != []
  {
    match Queue(s.queues, t)[0]
    case Deliver(msg) => if Starts(s.link, t, msg) then 3 else 1
    case HandleInMsgs => 1
    case Run(h) => if CallsOn(h) then 2 else 1
  }

  /** The message makes the app call connection::migrate. */
  predicate Starts(l: Link, t: Thread, msg: nat) {
    t == App && l.connection == Init && l.attach == ToApp && KindOf(l.protocol, msg).Routed?
  }

  /** The handlers that call another one on the same thread. */
  predicate CallsOn(h: Handler) {
    h.ConnectionMigrate? || h.ProtocolOnMigrated? || h.ConnectionClean? || h.ProtocolOnCleaned?
  }

  lemma {:induction false} RunConcat(s: State, x: seq<Action>, y: seq<Action>)
    ensures RunAll(s, x + y) == match RunAll(s, x) case None => None case Some(u) => RunAll(u, y)
    decreases |x|
  {
    if x == [] {
      assert x + y == y;
    } else {
      assert (x + y)[1..] == x[1..] + y;
      if Step(s, x[0]).Some? {
        RunConcat(Step(s, x[0]).value, x[1..], y);
      }
    }
  }

  lemma RunKeepsReachable(s: State, actions: seq<Action>)
    requires Reachable(s) && RunAll(s, actions).Some?
    ensures Reachable(RunAll(s, actions).value)
  {
    var before :| RunAll(Start(), before) == Some(s);
    RunConcat(Start(), before, actions);
    assert RunAll(Start(), before + actions) == RunAll(s, actions);
  }

  lemma Unrolled(s: State, a: Action, n: nat)
    requires n > 0
    ensures RunAll(s, Repeated(a, n)) ==
      match Step(s, a) case None => None case Some(u) => RunAll(u, Repeated(a, n - 1))
  {
    assert Repeated(a, n)[1..] == Repeated(a, n - 1);
  }

  lemma TwoSteps(s: State, a: Action)
    requires Step(s, a).Some?
    ensures RunAll(s, Repeated(a, 1)) == Step(s, a)
    ensures RunAll(s, Repeated(a, 2)) == Step(Step(s, a).value, a)
  {
    Unrolled(s, a, 2);
    Unrolled(s, a, 1);
    Unrolled(Step(s, a).value, a, 1);
  }

  /** In a reachable state a thread finds only its own handlers in its queue. */
  lemma OwnHandler(s: State, t: Thread)
    requires Reachable(s) && Queue(s.queues, t) != [] && Queue(s.queues, t)[0].Run?
    ensures ThreadOf(Queue(s.queues, t)[0].handler) == t
  {
    ReachableInv(s);
  }

  class Runtime {
    var app: seq<Task>
    var external: seq<Task>
    var engine: seq<Task>
    var link: Link
    var log: seq<(Thread, Handler)>

    ghost function Abs(): State
      reads this
    {
      State(Queues(app, external, engine), link, log)
    }

    constructor ()
      ensures Abs() == Start()
    {
      app, external, engine := [], [], [];
      link := Start().link;
      log := [];
    }

    method PostTask(t: Thread, task: Task)
      modifies `app, `external, `engine
      ensures Abs() == old(Abs()).(queues := Post(old(Abs()).queues, t, task))
    {
      match t
      case App => app := app + [task];
      case External => external := external + [task];
      case Engine => engine := engine + [task];
    }

    method ConnectionMigrate()
      modifies this
      ensures Some(Abs()) == Step(Handled(old(Abs()), App, Handler.ConnectionMigrate), RunTask(App))
    {
      log := log + [(App, Handler.ConnectionMigrate)];
      ProtocolMigrate();
    }

    method ProtocolMigrate()
      modifies this
      ensures Abs() == Handled(old(Abs()), App, Handler.ProtocolMigrate)
    {
      log := log + [(App, Handler.ProtocolMigrate)];
      PostTask(External, Run(Handler.ImplMigrate));
    }

    method ImplMigrate()
      modifies this
      ensures Abs() == Handled(old(Abs()), External, Handler.ImplMigrate)
    {
      log := log + [(External, Handler.ImplMigrate)];
      PostTask(Engine, Run(Handler.ProtocolOnMigrated));
    }

    method ProtocolOnMigrated()
      modifies this
      ensures Some(Abs()) == Step(Handled(old(Abs()), Engine, Handler.ProtocolOnMigrated), RunTask(Engine))
    {
      log := log + [(Engine, Handler.ProtocolOnMigrated)];
      ConnectionOnProtocolMigrated();
    }

    method ConnectionOnProtocolMigrated()
      modifies this
      ensures Abs() == Handled(old(Abs()), Engine, Handler.ConnectionOnProtocolMigrated)
    {
      log := log + [(Engine, Handler.ConnectionOnProtocolMigrated)];
      PostTask(App, Run(Handler.ConnectionClean));
    }

    method ConnectionClean()
      modifies this
      ensures Some(Abs()) == Step(Handled(old(Abs()), App, Handler.ConnectionClean), RunTask(App))
    {
      log := log + [(App, Handler.ConnectionClean)];
      link := link.(orphan := false);
      ProtocolClean();
    }

    method ProtocolClean()
      modifies this
      ensures Abs() == Handled(old(Abs()), App, Handler.ProtocolClean)
    {
      log := log + [(App, Handler.ProtocolClean)];
      PostTask(External, Run(Handler.ImplClean));
    }

    method ImplClean()
      modifies this
      ensures Abs() == Handled(old(Abs()), External, Handler.ImplClean)
    {
      log := log + [(External, Handler.ImplClean)];
      PostTask(Engine, Run(Handler.ProtocolOnCleaned));
    }

    method ProtocolOnCleaned()
      modifies this
      ensures Some(Abs()) == Step(Handled(old(Abs()), Engine, Handler.ProtocolOnCleaned), RunTask(Engine))
    {
      log := log + [(Engine, Handler.ProtocolOnCleaned)];
      link := link.(traffic := link.traffic.(pending := link.traffic.delivered));
      PostTask(Engine, Task.HandleInMsgs);
      ConnectionOnProtocolCleaned();
    }

    method ConnectionOnProtocolCleaned()
      modifies this
      ensures Abs() == Handled(old(Abs()), Engine, Handler.ConnectionOnProtocolCleaned)
    {
      log := log + [(Engine, Handler.ConnectionOnProtocolCleaned)];
      link := link.(connection := Done, attach := ToEngine);
      PostTask(External, Run(Handler.ImplOnCleaned));
    }

    method ImplOnCleaned()
      modifies this
      ensures Abs() == Handled(old(Abs()), External, Handler.ImplOnCleaned)
    {
      log := log + [(External, Handler.ImplOnCleaned)];
      link := link.(protocol := link.protocol.(done := true));
    }

    /** ten_protocol_on_input and ten_connection_on_msgs. */
    method OnMsgs(t: Thread, msg: nat)
      requires link.attach != ToApp ==> link.connection == Done
      modifies this
      ensures var s := OnMessage(old(Abs()), t, msg);
        if Starts(old(link), t, msg) then
          Step(s, RunTask(t)).Some? && Some(Abs()) == Step(Step(s, RunTask(t)).value, RunTask(t))
        else Abs() == s
      ensures var l, traffic := old(link), old(link).traffic;
        if l.connection == FirstMsg || l.attach == ToEngine || t != (if l.attach == ToApp then App else Engine) then
          link == l.(failed := true)
        else if l.connection == Init then
          link == l.(connection := FirstMsg,
                     traffic := traffic.(delivered := traffic.delivered + [msg],
                                         appMsgs := traffic.appMsgs
                                                    + (if KindOf(l.protocol, msg).Kept? then [msg] else [])))
        else
          link == l.(traffic := traffic.(delivered := traffic.delivered + [msg],
                                         engineMsgs := traffic.engineMsgs + [msg]))
    {
      if link.connection == FirstMsg || link.attach == ToEngine || t != (if link.attach == ToApp then App else Engine) {
        link := link.(failed := true);
      } else if link.connection == Init {
        FirstMessage(msg);
      } else {
        link := link.(traffic := link.traffic.(delivered := link.traffic.delivered + [msg],
                                               engineMsgs := link.traffic.engineMsgs + [msg]));
      }
    }

    /** The first message on the app: what is no command is dropped, a command
        goes to the app, which migrates the connection for a routed one. */
    method FirstMessage(msg: nat)
      requires link.connection == Init && link.attach == ToApp
      modifies this
      ensures var s := OnMessage(old(Abs()), App, msg);
        if Starts(old(link), App, msg) then
          Step(s, RunTask(App)).Some? && Some(Abs()) == Step(Step(s, RunTask(App)).value, RunTask(App))
        else Abs() == s
    {
      ghost var called := OnMessage(Abs(), App, msg);
      link := link.(connection := FirstMsg, traffic := link.traffic.(delivered := link.traffic.delivered + [msg]));
      match KindOf(link.protocol, msg)
      case NonCommand =>
      case Kept =>
        link := link.(traffic := link.traffic.(appMsgs := link.traffic.appMsgs + [msg]));
      case Routed =>
        assert ([Run(Handler.ConnectionMigrate)] + app)[1..] == app;
        assert Step(called, RunTask(App)) == Some(Handled(Abs(), App, Handler.ConnectionMigrate));
        ConnectionMigrate();
    }

    /** ten_engine_handle_in_msgs: the connection gets its remote. */
    method HandleInMsgs()
      modifies `link
      ensures link == OnInMsgs(old(link))
      ensures link.failed <==> old(link).failed || old(link).connection != Done
    {
      if link.connection != Done {
        link := link.(failed := true);
      } else {
        var handled := link.traffic.pending;
        link := link.(attach := ToRemote, traffic := link.traffic.(pending := []));
        link := link.(traffic := link.traffic.(engineMsgs := link.traffic.engineMsgs + handled));
      }
    }

    method RunHandler(h: Handler)
      modifies this
      ensures var s := Handled(old(Abs()), ThreadOf(h), h);
        if CallsOn(h) then Some(Abs()) == Step(s, RunTask(ThreadOf(h))) else Abs() == s
    {
      match h
      case ConnectionMigrate => ConnectionMigrate();
      case ProtocolMigrate => ProtocolMigrate();
      case ImplMigrate => ImplMigrate();
      case ProtocolOnMigrated => ProtocolOnMigrated();
      case ConnectionOnProtocolMigrated => ConnectionOnProtocolMigrated();
      case ConnectionClean => ConnectionClean();
      case ProtocolClean => ProtocolClean();
      case ImplClean => ImplClean();
      case ProtocolOnCleaned => ProtocolOnCleaned();
      case ConnectionOnProtocolCleaned => ConnectionOnProtocolCleaned();
      case ImplOnCleaned => ImplOnCleaned();
    }

    method TakeTask(t: Thread) returns (task: Task)
      requires Queue(Abs().queues, t) != []
      modifies `app, `external, `engine
      ensures var q := Queue(old(Abs()).queues, t);
        && task == q[0]
        && Abs() == old(Abs()).(queues := WithQueue(old(Abs()).queues, t, q[1..]))
    {
      match t
      case App => task := app[0]; app := app[1..];
      case External => task := external[0]; external := external[1..];
      case Engine => task := engine[0]; engine := engine[1..];
    }

    /** The delivery that the thread has just taken from its queue. */
    method DeliverNext(ghost s: State, t: Thread, msg: nat)
      requires Reachable(s) && Queue(s.queues, t) != [] && Queue(s.queues, t)[0] == Deliver(msg)
      requires Abs() == s.(queues := WithQueue(s.queues, t, Queue(s.queues, t)[1..]))
      modifies this
      ensures RunAll(s, Repeated(RunTask(t), Steps(s, t))) == Some(Abs())
    {
      ghost var a, u := RunTask(t), OnMessage(Abs(), t, msg);
      ReachableInv(s);
      assert Step(s, a) == Some(u);
      OnMsgs(t, msg);
      if Steps(s, t) == 3 {
        TwoSteps(u, a);
        Unrolled(s, a, 3);
      } else {
        TwoSteps(s, a);
      }
    }

    /** A thread takes its next task and runs it to the end. */
    method RunNext(t: Thread)
      requires Reachable(Abs()) && Queue(Abs().queues, t) != []
      modifies this
      ensures RunAll(old(Abs()), Repeated(RunTask(t), Steps(old(Abs()), t))) == Some(Abs())
      ensures Reachable(Abs())
    {
      ghost var s, a, n := Abs(), RunTask(t), Steps(Abs(), t);
      var task := TakeTask(t);
      ghost var u := Step(s, a).value;
      match task {
        case Deliver(msg) =>
          DeliverNext(s, t, msg);
        case HandleInMsgs =>
          HandleInMsgs();
          TwoSteps(s, a);
        case Run(h) =>
          OwnHandler(s, t);
          assert u == Handled(Abs(), t, h);
          RunHandler(h);
          TwoSteps(s, a);
      }
      RunKeepsReachable(s, Repeated(a, n));
    }

    /** The external protocol thread: a message comes in from the client. */
    method ReceiveFromClient(kind: Kind)
      requires Reachable(Abs())
      modifies this
      ensures Some(Abs()) == Step(old(Abs()), Receive(kind))
      ensures Reachable(Abs())
    {
      ghost var s := Abs();
      var p := link.protocol;
      link := link.(protocol := p.(received := p.received + [kind], inMsgs := p.inMsgs + [|p.received| + 1]));
      TwoSteps(s, Receive(kind));
      RunKeepsReachable(s, Repeated(Receive(kind), 1));
    }

    /** It sends the first message on at once and the others only when the
        migration is complete. */
    method SendMessage() returns (sent: bool)
      requires Reachable(Abs())
      modifies this
      ensures Reachable(Abs())
      ensures var p := old(link).protocol; sent <==> p.inMsgs != [] && (!p.firstSent || p.done)
      ensures if sent then Some(Abs()) == Step(old(Abs()), if old(link).protocol.firstSent then SendNext else SendFirst)
              else Abs() == old(Abs())
    {
      ghost var s := Abs();
      var p := link.protocol;
      if p.inMsgs == [] || (p.firstSent && !p.done) {
        return false;
      }
      ghost var a := if p.firstSent then SendNext else SendFirst;
      link := link.(protocol := p.(inMsgs := p.inMsgs[1..], firstSent := true));
      PostTask(if p.firstSent then Engine else App, Deliver(p.inMsgs[0]));
      TwoSteps(s, a);
      RunKeepsReachable(s, Repeated(a, 1));
      return true;
    }

    /** What holds of every run of the machine holds after any schedule. */
    method Schedule(choices: seq<Choice>)
      requires Reachable(Abs())
      modifies this
      ensures Reachable(Abs())
      ensures !link.failed && (link.connection != Done || !link.protocol.done ==> |link.traffic.delivered| <= 1)
      ensures link.traffic.delivered <= Msgs(1, |link.protocol.received| + 1)
      ensures link.traffic.engineMsgs <= link.traffic.delivered
      ensures InOrder(log) && (link.attach != ToApp ==> !link.orphan)
      ensures Quiescent(Abs()) && link.protocol.received != [] ==>
        if Migrates(link.protocol) then Complete(Abs()) else Stuck(Abs())
    {
      for i := 0 to |choices|
        invariant Reachable(Abs())
      {
        match choices[i]
        case Arrive(kind) => ReceiveFromClient(kind);
        case Send => var _ := SendMessage();
        case Next(t) =>
          if Queue(Queues(app, external, engine), t) != [] {
            RunNext(t);
          }
      }
      AtMostOneMessageBeforeDone(Abs());
      MessagesInOrder(Abs());
      HandlersInOrder(Abs());
      if link.protocol.received != [] {
        QuiescentIff(Abs());
      }
    }
  }

  /** What the scheduler can do next. */
  datatype Choice = Arrive(kind: Kind) | Send | Next(thread: Thread)
}
