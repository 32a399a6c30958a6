/** What the worker registry can come to: runs that reach the limits, that lose a
    worker, and that make the sweep kill or panic
    (ai_agents/server/internal/http_server.go and worker.go). */
module WorkerRuns {
  import opened Counting
  import opened Wrappers
  import opened WorkerRegistry

  /** Some run of the server leads from s to t. */
  ghost predicate Leads(cfg: Config, s: State, t: State) {
    exists actions :: RunAll(cfg, s, actions) == Some(t)
  }

  lemma LeadsToItself(cfg: Config, s: State)
    ensures Leads(cfg, s, s)
  {
    assert RunAll(cfg, s, []) == Some(s);
  }

  lemma LeadsByStep(cfg: Config, s: State, a: Action, t: State)
    requires Step(cfg, s, a).Some? && Leads(cfg, Step(cfg, s, a).value, t)
    ensures Leads(cfg, s, t)
  {
    var actions :| RunAll(cfg, Step(cfg, s, a).value, actions) == Some(t);
    Unfold(cfg, s, a, actions);
  }

  lemma LeadsInOne(cfg: Config, s: State, a: Action)
    requires Step(cfg, s, a).Some?
    ensures Leads(cfg, s, Step(cfg, s, a).value)
  {
    LeadsToItself(cfg, Step(cfg, s, a).value);
    LeadsByStep(cfg, s, a, Step(cfg, s, a).value);
  }

  lemma {:induction false} LeadsOn(cfg: Config, s: State, actions: seq<Action>, t: State, u: State)
    requires RunAll(cfg, s, actions) == Some(t) && Leads(cfg, t, u)
    ensures Leads(cfg, s, u)
    decreases |actions|
  {
    if actions != [] {
      LeadsOn(cfg, Step(cfg, s, actions[0]).value, actions[1..], t, u);
      LeadsByStep(cfg, s, actions[0], u);
    }
  }

  lemma LeadsVia(cfg: Config, s: State, t: State, u: State)
    requires Leads(cfg, s, t) && Leads(cfg, t, u)
    ensures Leads(cfg, s, u)
  {
    var actions :| RunAll(cfg, s, actions) == Some(t);
    LeadsOn(cfg, s, actions, t, u);
  }

  // ----- one start

  /** The request may be admitted. */
  predicate Admissible(cfg: Config, s: State, req: Request) {
    && !s.panicked && !Blank(req.channel) && |s.reg| < cfg.workersMax && req.channel !in s.reg
    && (Limited(req.graph) ==> |WithGraph(s.reg, req.graph)| < MAX_GEMINI_WORKER_COUNT)
  }

  lemma SlotTwice(s: State, i: nat, x: Slot, y: Slot)
    requires i < |s.slots|
    ensures WithSlot(WithSlot(s, i, x), i, y) == WithSlot(s, i, y)
  {
    assert s.slots[i := x][i := y] == s.slots[i := y];
  }

  lemma AdmitOne(cfg: Config, s: State, i: nat, req: Request)
    requires Admissible(cfg, s, req) && i < |s.slots| && s.slots[i] == Idle
    ensures Leads(cfg, s, WithSlot(s, i, Admitted(req)))
  {
    var s1, s2 := WithSlot(s, i, Sized(req, |s.reg|)), WithSlot(s, i, Checked(req));
    var t := WithSlot(s, i, Admitted(req));
    assert Step(cfg, s, Begin(i, req)) == Some(s1);
    SlotTwice(s, i, Sized(req, |s.reg|), Checked(req));
    assert Step(cfg, s1, CheckLimit(i)) == Some(s2);
    SlotTwice(s, i, Checked(req), Admitted(req));
    if Limited(req.graph) {
      var s3 := WithSlot(s, i, Counting(req));
      SlotTwice(s, i, Checked(req), Counting(req));
      SlotTwice(s, i, Counting(req), Admitted(req));
      assert Step(cfg, s2, CheckChannel(i)) == Some(s3);
      LeadsInOne(cfg, s3, CountGraph(i));
      LeadsByStep(cfg, s2, CheckChannel(i), t);
    } else {
      LeadsInOne(cfg, s2, CheckChannel(i));
    }
    LeadsByStep(cfg, s1, CheckLimit(i), t);
    LeadsByStep(cfg, s, Begin(i, req), t);
  }

  /** The state after the admitted request of slot i has got its worker. */
  function Launched(cfg: Config, s: State, i: nat): State
    requires i < |s.slots| && s.slots[i].Admitted?
  {
    var w := NewWorker(cfg, s, s.slots[i].req);
    s.(slots := s.slots[i := Idle], reg := s.reg[w.channel := w], updateTs := s.updateTs[w := s.now],
       procs := s.procs.(alive := s.procs.alive + {w}, monitors := s.procs.monitors + {w}, next := s.procs.next + 1))
  }

  lemma LaunchOne(cfg: Config, s: State, i: nat)
    requires !s.panicked && i < |s.slots| && s.slots[i].Admitted? && s.slots[i].req.channel !in s.reg
    ensures Leads(cfg, s, Launched(cfg, s, i))
  {
    var s1 := Step(cfg, s, StartProcess(i, true)).value;
    assert s1.slots[i := Idle] == s.slots[i := Idle];
    assert Step(cfg, s1, Insert(i)) == Some(Launched(cfg, s, i));
    LeadsInOne(cfg, s1, Insert(i));
    LeadsByStep(cfg, s, StartProcess(i, true), Launched(cfg, s, i));
  }

  /** A start that nothing interrupts, from an idle slot back to an idle slot. */
  lemma StartOne(cfg: Config, s: State, i: nat, req: Request) returns (t: State)
    requires Admissible(cfg, s, req) && i < |s.slots| && s.slots[i] == Idle
    ensures Leads(cfg, s, t) && t.slots == s.slots && !t.panicked && t.removals == s.removals
    ensures t.sweep == s.sweep && t.now == s.now
    ensures var w := NewWorker(cfg, s, req);
      && t.reg == s.reg[req.channel := w] && t.updateTs == s.updateTs[w := s.now]
      && t.procs == s.procs.(alive := s.procs.alive + {w}, monitors := s.procs.monitors + {w}, next := s.procs.next + 1)
  {
    var s1 := WithSlot(s, i, Admitted(req));
    AdmitOne(cfg, s, i, req);
    LaunchOne(cfg, s1, i);
    t := Launched(cfg, s1, i);
    assert s1.slots[i := Idle] == s.slots;
    LeadsVia(cfg, s, s1, t);
  }

  // ----- the limits are reached

  function Name(n: nat): (r: string)
    ensures |r| == n + 1 && !Blank(r)
  {
    var r := seq(n + 1, _ => 'a');
    assert r[0] == 'a';
    r
  }

  function Req(n: nat, graph: string): Request {
    Request(Name(n), graph, 0)
  }

  /** Exactly n workers, of that graph and of the first n names. */
  ghost predicate Filled(s: State, n: nat, graph: string) {
    && !s.panicked && |s.reg| == |WithGraph(s.reg, graph)| == n
    && forall j: nat :: Name(j) in s.reg <==> j < n
  }

  ghost predicate RoomFor(cfg: Config, n: nat, graph: string) {
    n < cfg.workersMax && (Limited(graph) ==> n < MAX_GEMINI_WORKER_COUNT)
  }

  lemma NamesDiffer(a: nat, b: nat)
    ensures Name(a) == Name(b) <==> a == b
  {
  }

  lemma FilledMore(s: State, t: State, n: nat, graph: string, w: Worker)
    requires Filled(s, n, graph) && !t.panicked && t.reg == s.reg[Name(n) := w]
    requires w.graph == graph && w.channel == Name(n)
    ensures Filled(t, n + 1, graph)
  {
    LargerRegistry(s.reg, w, graph);
    forall j: nat ensures Name(j) in t.reg <==> j < n + 1 {
      NamesDiffer(j, n);
    }
  }

  /** n starts, one after the other. */
  lemma {:induction false} StartMany(cfg: Config, handlers: nat, n: nat, graph: string) returns (t: State)
    requires handlers >= 1 && (n > 0 ==> RoomFor(cfg, n - 1, graph))
    ensures Leads(cfg, Start(handlers), t) && t.slots == Start(handlers).slots && Filled(t, n, graph)
    decreases n
  {
    if n == 0 {
      t := Start(handlers);
      LeadsToItself(cfg, t);
      assert WithGraph(t.reg, graph) == {};
    } else {
      var s := StartMany(cfg, handlers, n - 1, graph);
      t := StartOne(cfg, s, 0, Req(n - 1, graph));
      LeadsVia(cfg, Start(handlers), s, t);
      FilledMore(s, t, n - 1, graph, NewWorker(cfg, s, Req(n - 1, graph)));
    }
  }

  /** The first j handlers have been admitted. */
  function Admitting(s: State, m: nat, graph: string, j: nat): State {
    s.(slots := seq(|s.slots|, i requires 0 <= i < |s.slots| => if i < j then Admitted(Req(m + i, graph)) else Idle))
  }

  /** All handlers are admitted before any of them inserts its worker. */
  lemma {:induction false} AdmitMany(cfg: Config, s: State, m: nat, graph: string, j: nat)
    requires j <= |s.slots| && (forall i :: 0 <= i < |s.slots| ==> s.slots[i] == Idle)
    requires Filled(s, m, graph) && RoomFor(cfg, m, graph)
    ensures Leads(cfg, s, Admitting(s, m, graph, j))
    decreases j
  {
    if j == 0 {
      assert Admitting(s, m, graph, 0).slots == s.slots;
      LeadsToItself(cfg, s);
    } else {
      AdmitMany(cfg, s, m, graph, j - 1);
      var s1 := Admitting(s, m, graph, j - 1);
      AdmitOne(cfg, s1, j - 1, Req(m + j - 1, graph));
      assert s1.slots[j - 1 := Admitted(Req(m + j - 1, graph))] == Admitting(s, m, graph, j).slots;
      LeadsVia(cfg, s, s1, Admitting(s, m, graph, j));
    }
  }

  /** Then they all insert. */
  lemma {:induction false} LaunchMany(cfg: Config, s: State, m: nat, graph: string, j: nat) returns (t: State)
    requires j <= |s.slots| && Filled(s, m + j, graph)
    requires forall i :: j <= i < |s.slots| ==> s.slots[i] == Admitted(Req(m + i, graph))
    ensures Leads(cfg, s, t) && Filled(t, m + |s.slots|, graph)
    decreases |s.slots| - j
  {
    if j == |s.slots| {
      t := s;
      LeadsToItself(cfg, s);
    } else {
      var s1 := Launched(cfg, s, j);
      LaunchOne(cfg, s, j);
      FilledMore(s, s1, m + j, graph, NewWorker(cfg, s, Req(m + j, graph)));
      t := LaunchMany(cfg, s1, m, graph, j + 1);
      LeadsVia(cfg, s, s1, t);
    }
  }

  /** One less than the limit in turn, and then all handlers at once. */
  lemma Overfull(cfg: Config, handlers: nat, m: nat, graph: string) returns (t: State)
    requires handlers >= 1 && RoomFor(cfg, m, graph)
    ensures Leads(cfg, Start(handlers), t) && Filled(t, m + handlers, graph)
  {
    var s := StartMany(cfg, handlers, m, graph);
    var s1 := Admitting(s, m, graph, handlers);
    AdmitMany(cfg, s, m, graph, handlers);
    t := LaunchMany(cfg, s1, m, graph, 0);
    LeadsVia(cfg, s, s1, t);
    LeadsVia(cfg, Start(handlers), s, t);
  }

  lemma EmptyIsUnlimited()
    ensures !Limited("")
  {
  }

  /** With k handlers the bound on the workers is reached, for every k. */
  lemma WorkersLimitAttained(cfg: Config, handlers: nat) returns (t: State)
    requires cfg.Valid() && handlers >= 1
    ensures Leads(cfg, Start(handlers), t) && |t.reg| == cfg.workersMax + handlers - 1
  {
    EmptyIsUnlimited();
    t := Overfull(cfg, handlers, cfg.workersMax - 1, "");
  }

  function GraphLimit(cfg: Config): nat {
    if cfg.workersMax < MAX_GEMINI_WORKER_COUNT then cfg.workersMax else MAX_GEMINI_WORKER_COUNT
  }

  /** And so is the bound for any one limited graph. */
  lemma GraphLimitAttained(cfg: Config, handlers: nat, graph: string) returns (t: State)
    requires cfg.Valid() && handlers >= 1 && Limited(graph)
    ensures Leads(cfg, Start(handlers), t) && |WithGraph(t.reg, graph)| == GraphLimit(cfg) + handlers - 1
  {
    t := Overfull(cfg, handlers, GraphLimit(cfg) - 1, graph);
  }

  /** The bounds, for a state some run leads to. */
  lemma LimitsHoldFor(cfg: Config, handlers: nat, t: State, graph: string)
    requires cfg.Valid() && Leads(cfg, Start(handlers), t)
    ensures |t.reg| <= cfg.workersMax + handlers - 1
    ensures Limited(graph) ==> |WithGraph(t.reg, graph)| <= GraphLimit(cfg) + handlers - 1
  {
    var actions :| RunAll(cfg, Start(handlers), actions) == Some(t);
    LimitsHold(cfg, handlers, actions, graph);
    SubsetSize(WithGraph(t.reg, graph), t.reg.Keys);
    assert |t.reg| == |t.reg.Keys|;
  }

  /** The limit on the workers is kept in all runs exactly when at most one start
      is in flight at a time. */
  lemma WorkersLimitKeptIff(cfg: Config, handlers: nat)
    requires cfg.Valid()
    ensures (forall t :: Leads(cfg, Start(handlers), t) ==> |t.reg| <= cfg.workersMax) <==> handlers <= 1
  {
    if handlers <= 1 {
      forall t | Leads(cfg, Start(handlers), t) ensures |t.reg| <= cfg.workersMax {
        LimitsHoldFor(cfg, handlers, t, "");
      }
    } else {
      var t := WorkersLimitAttained(cfg, handlers);
    }
  }

  /** The limit of a graph is kept also where the limit on all workers, exceeded
      as it may be, is as low. */
  lemma GraphLimitKeptIff(cfg: Config, handlers: nat, graph: string)
    requires cfg.Valid() && Limited(graph)
    ensures (forall t :: Leads(cfg, Start(handlers), t) ==> |WithGraph(t.reg, graph)| <= MAX_GEMINI_WORKER_COUNT)
      <==> handlers <= 1 || cfg.workersMax + handlers - 1 <= MAX_GEMINI_WORKER_COUNT
  {
    if handlers <= 1 || cfg.workersMax + handlers - 1 <= MAX_GEMINI_WORKER_COUNT {
      forall t | Leads(cfg, Start(handlers), t) ensures |WithGraph(t.reg, graph)| <= MAX_GEMINI_WORKER_COUNT {
        LimitsHoldFor(cfg, handlers, t, graph);
      }
    } else {
      var t := GraphLimitAttained(cfg, handlers, graph);
    }
  }

  // ----- the sweep

  /** What a sweep has still to visit was registered when it began. */
  ghost predicate Visits(s0: State, keys: seq<string>, t: State) {
    && (forall c :: c in keys ==> c in s0.reg)
    && t.sweep.Some? && |t.sweep.value| <= |keys| && t.sweep.value == keys[|keys| - |t.sweep.value|..]
  }

  lemma VisitsOn(cfg: Config, s0: State, keys: seq<string>, t: State, a: Action)
    requires Visits(s0, keys, t) && Step(cfg, t, a).Some? && a != SweepEnd
    ensures Visits(s0, keys, Step(cfg, t, a).value)
  {
    var t' := Step(cfg, t, a).value;
    if a.SweepNext? {
      assert t'.sweep == t.sweep || t'.sweep == Some(t.sweep.value[1..]);
      assert t.sweep.value[1..] == keys[|keys| - |t.sweep.value| + 1..];
    } else {
      assert t'.sweep == t.sweep;
    }
  }

  lemma {:induction false} VisitsThrough(cfg: Config, s0: State, keys: seq<string>, t: State, actions: seq<Action>)
    requires Visits(s0, keys, t) && RunAll(cfg, t, actions).Some? && SweepEnd !in actions
    ensures Visits(s0, keys, RunAll(cfg, t, actions).value)
    decreases |actions|
  {
    if actions != [] {
      assert actions[0] != SweepEnd && SweepEnd !in actions[1..];
      VisitsOn(cfg, s0, keys, t, actions[0]);
      VisitsThrough(cfg, s0, keys, Step(cfg, t, actions[0]).value, actions[1..]);
    }
  }

  /** In the run a step takes the name out of the registry. */
  ghost predicate Leaves(cfg: Config, s: State, actions: seq<Action>, c: string)
    requires RunAll(cfg, s, actions).Some?
    decreases |actions|
  {
    actions != [] &&
    var s' := Step(cfg, s, actions[0]).value;
    (c in s.reg && c !in s'.reg) || Leaves(cfg, s', actions[1..], c)
  }

  lemma {:induction false} GoneHasLeft(cfg: Config, s: State, actions: seq<Action>, c: string)
    requires RunAll(cfg, s, actions).Some? && c in s.reg && c !in RunAll(cfg, s, actions).value.reg
    ensures Leaves(cfg, s, actions, c)
    decreases |actions|
  {
    var s' := Step(cfg, s, actions[0]).value;
    if c in s'.reg {
      GoneHasLeft(cfg, s', actions[1..], c);
    }
  }

  lemma PanicStep(cfg: Config, t: State, killed: bool, u: State)
    requires Step(cfg, t, SweepNext(killed)) == Some(u)
    ensures t.sweep.Some? && t.sweep.value != [] && (u.panicked <==> t.sweep.value[0] !in t.reg)
  {
  }

  lemma VisitsBegin(cfg: Config, s: State, keys: seq<string>, s1: State)
    requires Step(cfg, s, SweepBegin(keys)) == Some(s1)
    ensures Visits(s, keys, s1) && s1.reg == s.reg
  {
    forall c | c in keys ensures c in s.reg {
      assert c in multiset(keys);
    }
    assert keys[0..] == keys;
  }

  /** The sweep panics at a key exactly when the key, which was registered when
      the sweep began, is gone; something took it out in between. */
  lemma {:induction false} SweepPanicsIff(cfg: Config, s: State, keys: seq<string>, s1: State,
                                          actions: seq<Action>, t: State, killed: bool, u: State)
    requires Step(cfg, s, SweepBegin(keys)) == Some(s1)
    requires RunAll(cfg, s1, actions) == Some(t) && SweepEnd !in actions
    requires Step(cfg, t, SweepNext(killed)) == Some(u)
    ensures t.sweep.Some? && t.sweep.value != [] && t.sweep.value[0] in s.reg
    ensures u.panicked <==> t.sweep.value[0] !in t.reg
    ensures u.panicked ==> Leaves(cfg, s1, actions, t.sweep.value[0])
  {
    PanicStep(cfg, t, killed, u);
    VisitsBegin(cfg, s, keys, s1);
    VisitsThrough(cfg, s, keys, s1, actions);
    var c := t.sweep.value[0];
    assert c in keys;
    if c !in t.reg {
      GoneHasLeft(cfg, s1, actions, c);
    }
  }

  lemma ExitAndRemove(cfg: Config, s: State, w: Worker) returns (t: State)
    requires !s.panicked && w in s.procs.alive && w in s.procs.monitors
    ensures Leads(cfg, s, t) && t.reg == s.reg - {w.channel} && t.sweep == s.sweep && !t.panicked
  {
    var s1 := Step(cfg, s, Exit(w)).value;
    t := Step(cfg, s1, MonitorRemove(w)).value;
    LeadsInOne(cfg, s1, MonitorRemove(w));
    LeadsByStep(cfg, s, Exit(w), t);
  }

  lemma PanicFrom(cfg: Config, s: State, w: Worker) returns (t: State)
    requires !s.panicked && s.reg == map[w.channel := w] && s.sweep.None?
    requires w in s.procs.alive && w in s.procs.monitors
    ensures Leads(cfg, s, t) && t.panicked
  {
    assert multiset([w.channel]) == multiset(s.reg.Keys);
    var s1 := Step(cfg, s, SweepBegin([w.channel])).value;
    var s2 := ExitAndRemove(cfg, s1, w);
    t := Step(cfg, s2, SweepNext(false)).value;
    LeadsInOne(cfg, s2, SweepNext(false));
    LeadsVia(cfg, s1, s2, t);
    LeadsByStep(cfg, s, SweepBegin([w.channel]), t);
  }

  lemma StartIsAdmissible(cfg: Config, s: State, req: Request)
    requires cfg.Valid() && !s.panicked && s.reg == map[] && !Blank(req.channel)
    ensures Admissible(cfg, s, req)
  {
    assert WithGraph(s.reg, req.graph) == {};
  }

  /** It can happen: a worker that exits while the sweep is on its way to it. */
  lemma SweepCanPanic(cfg: Config, handlers: nat, req: Request) returns (t: State)
    requires cfg.Valid() && handlers >= 1 && !Blank(req.channel)
    ensures Leads(cfg, Start(handlers), t) && t.panicked
  {
    var s := Start(handlers);
    StartIsAdmissible(cfg, s, req);
    var s1 := StartOne(cfg, s, 0, req);
    t := PanicFrom(cfg, s1, NewWorker(cfg, s, req));
    LeadsVia(cfg, s, s1, t);
  }

  /** No name goes that the sweep in progress has still to visit. */
  ghost predicate QuietSweeps(cfg: Config, s: State, actions: seq<Action>)
    requires RunAll(cfg, s, actions).Some?
    decreases |actions|
  {
    actions != [] ==>
      && (s.sweep.Some? ==> match actions[0]
            case RemoveStopped(c) => c !in s.sweep.value
            case MonitorRemove(w) => w.channel !in s.sweep.value
            case _ => true)
      && QuietSweeps(cfg, Step(cfg, s, actions[0]).value, actions[1..])
  }

  /** That rules the panic out over any run. */
  lemma {:induction false} QuietSweepsNeverPanic(cfg: Config, s: State, actions: seq<Action>)
    requires RunAll(cfg, s, actions).Some? && QuietSweeps(cfg, s, actions) && !s.panicked
    requires s.sweep.Some? ==> forall c :: c in s.sweep.value ==> c in s.reg
    ensures !RunAll(cfg, s, actions).value.panicked
    decreases |actions|
  {
    if actions != [] {
      var s' := Step(cfg, s, actions[0]).value;
      if actions[0].SweepBegin? {
        forall c | c in actions[0].keys ensures c in s'.reg {
          assert c in multiset(actions[0].keys);
        }
      }
      QuietSweepsNeverPanic(cfg, s', actions[1..]);
    }
  }

  lemma {:induction false} SetAsSeq(names: set<string>) returns (keys: seq<string>)
    ensures multiset(keys) == multiset(names)
    decreases |names|
  {
    if names == {} {
      keys := [];
    } else {
      var c :| c in names;
      var rest := SetAsSeq(names - {c});
      keys := [c] + rest;
      assert multiset(names) == multiset(names - {c}) + multiset{c};
    }
  }

  /** A lease that has run out is no protection: the next sweep can kill. */
  lemma OverdueCanBeSwept(cfg: Config, s: State, w: Worker) returns (t: State)
    requires !s.panicked && s.sweep.None? && w.channel in s.reg && s.reg[w.channel] == w
    requires w in s.procs.monitors && w in s.updateTs && w.quitTimeoutSeconds > 0
    requires s.now - s.updateTs[w] > w.quitTimeoutSeconds
    ensures Leads(cfg, s, t) && w in t.procs.swept && w !in t.procs.alive
  {
    var rest := SetAsSeq(s.reg.Keys - {w.channel});
    var keys := [w.channel] + rest;
    assert multiset(s.reg.Keys) == multiset(s.reg.Keys - {w.channel}) + multiset{w.channel};
    var s1 := Step(cfg, s, SweepBegin(keys)).value;
    t := Step(cfg, s1, SweepNext(true)).value;
    LeadsInOne(cfg, s1, SweepNext(true));
    LeadsByStep(cfg, s, SweepBegin(keys), t);
  }

  /** A worker that nobody pings comes to that point, whatever is pinged beside
      it: no other client can keep it alive. */
  lemma UnpingedCanBeSwept(cfg: Config, handlers: nat, s: State, w: Worker, actions: seq<Action>, t: State)
    returns (u: State)
    requires cfg.Valid() && Reachable(cfg, handlers, s) && RunAll(cfg, s, actions) == Some(t)
    requires Registered(s, w) && Registered(t, w) && Unpinged(actions, w)
    requires w in s.updateTs && s.now - s.updateTs[w] + Seconds(actions) > w.quitTimeoutSeconds
    requires !t.panicked && t.sweep.None? && w in t.procs.monitors
    ensures Leads(cfg, t, u) && w in u.procs.swept && w !in u.procs.alive
  {
    LeaseIsTimeSincePing(cfg, handlers, s, w, actions, t);
    ElapsedUnpinged(actions, w, s.now - s.updateTs[w]);
    RegisteredIsHeld(cfg, handlers, s, w);
    assert Proper(s, s.reg[w.channel]);
    u := OverdueCanBeSwept(cfg, t, w);
  }

  // ----- running but not registered

  /** The premise cannot be dropped for any single start: when something of an
      earlier worker is left, the new one can come to run unregistered. */
  lemma UncleanStartCanBeLost(cfg: Config, s: State, i: nat)
    requires AllProper(s) && !s.panicked && i < |s.slots| && s.slots[i].Admitted?
    requires Leftovers(s, s.slots[i].req.channel)
    ensures exists t :: Leads(cfg, s, t) && Lost(t, NewWorker(cfg, s, s.slots[i].req))
  {
    var c := s.slots[i].req.channel;
    var w := NewWorker(cfg, s, s.slots[i].req);
    var s1 := Step(cfg, s, StartProcess(i, true)).value;
    var t: State;
    if c in s.reg {
      t := HandOver(cfg, s1, i, w);
    } else if Starting(s, c) {
      var j :| 0 <= j < |s.slots| && s.slots[j].Started? && s.slots[j].worker.channel == c;
      assert s1.slots[j] == s.slots[j];
      t := HandOverLater(cfg, s1, i, w);
    } else {
      if c !in s.removals {
        var m :| m in s.procs.monitors && m.channel == c;
        assert Proper(s, m) && m in s1.procs.monitors && m != w;
      }
      t := LostName(cfg, s1, i, w);
    }
    LeadsByStep(cfg, s, StartProcess(i, true), t);
  }

  /** Another handler inserts its worker of the channel first. */
  lemma HandOverLater(cfg: Config, s: State, i: nat, w: Worker) returns (t: State)
    requires !s.panicked && i < |s.slots| && s.slots[i] == Started(w) && w in s.procs.alive && w.channel !in s.reg
    requires forall j :: 0 <= j < |s.slots| && j != i ==> s.slots[j] != Started(w)
    requires exists j :: 0 <= j < |s.slots| && j != i && s.slots[j].Started? && s.slots[j].worker.channel == w.channel
    ensures Leads(cfg, s, t) && Lost(t, w)
  {
    var j :| 0 <= j < |s.slots| && j != i && s.slots[j].Started? && s.slots[j].worker.channel == w.channel;
    var s1 := Step(cfg, s, Insert(j)).value;
    t := HandOver(cfg, s1, i, w);
    LeadsByStep(cfg, s, Insert(j), t);
  }

  /** A late removal, of a stop or an exit monitor, takes the new entry. */
  lemma LostName(cfg: Config, s: State, i: nat, w: Worker) returns (t: State)
    requires !s.panicked && i < |s.slots| && s.slots[i] == Started(w) && w in s.procs.alive && w.channel !in s.reg
    requires forall j :: 0 <= j < |s.slots| && j != i ==> s.slots[j] != Started(w)
    requires w.channel in s.removals || exists m :: m in s.procs.monitors && m.channel == w.channel && m != w
    ensures Leads(cfg, s, t) && Lost(t, w)
  {
    var s1 := Step(cfg, s, Insert(i)).value;
    if w.channel in s.removals {
      t := LateStop(cfg, s1, w);
    } else {
      var m :| m in s.procs.monitors && m.channel == w.channel && m != w;
      t := LateMonitor(cfg, s1, m, w);
    }
    LeadsByStep(cfg, s, Insert(i), t);
  }

  lemma LateStop(cfg: Config, s: State, w: Worker) returns (t: State)
    requires !s.panicked && w.channel in s.removals && w in s.procs.alive
    requires forall j :: 0 <= j < |s.slots| ==> s.slots[j] != Started(w)
    ensures Leads(cfg, s, t) && Lost(t, w)
  {
    t := Step(cfg, s, RemoveStopped(w.channel)).value;
    LeadsInOne(cfg, s, RemoveStopped(w.channel));
  }

  /** SetIfNotExist leaves an earlier entry alone. */
  lemma HandOver(cfg: Config, s: State, i: nat, w: Worker) returns (t: State)
    requires !s.panicked && i < |s.slots| && s.slots[i] == Started(w) && w in s.procs.alive
    requires w.channel in s.reg && s.reg[w.channel] != w
    requires forall j :: 0 <= j < |s.slots| && j != i ==> s.slots[j] != Started(w)
    ensures Leads(cfg, s, t) && Lost(t, w)
  {
    t := Step(cfg, s, Insert(i)).value;
    LeadsToItself(cfg, t);
    LeadsByStep(cfg, s, Insert(i), t);
  }

  /** The exit monitor of an earlier worker removes the name of the new one. */
  lemma LateMonitor(cfg: Config, s: State, m: Worker, w: Worker) returns (t: State)
    requires !s.panicked && m in s.procs.monitors && m.channel == w.channel && m != w && w in s.procs.alive
    requires forall j :: 0 <= j < |s.slots| ==> s.slots[j] != Started(w)
    ensures Leads(cfg, s, t) && Lost(t, w)
  {
    var s1 := if m in s.procs.alive then Step(cfg, s, Exit(m)).value else s;
    t := Step(cfg, s1, MonitorRemove(m)).value;
    LeadsToItself(cfg, t);
    LeadsByStep(cfg, s1, MonitorRemove(m), t);
    if m in s.procs.alive {
      LeadsByStep(cfg, s, Exit(m), t);
    }
  }

  lemma StopFrom(cfg: Config, s: State, m: Worker) returns (t: State)
    requires !s.panicked && s.reg == map[m.channel := m] && m in s.procs.monitors && !Blank(m.channel)
    ensures Leads(cfg, s, t) && t.reg == map[] && t.slots == s.slots && !t.panicked
    ensures t.procs.monitors == s.procs.monitors && t.procs.next == s.procs.next
  {
    var s1 := Step(cfg, s, Stop(m.channel, true)).value;
    t := Step(cfg, s1, RemoveStopped(m.channel)).value;
    LeadsInOne(cfg, s1, RemoveStopped(m.channel));
    LeadsByStep(cfg, s, Stop(m.channel, true), t);
  }

  /** Such a state is reached from the start, by a worker stopped and started
      again whose first exit monitor comes late. */
  lemma LostRun(cfg: Config, handlers: nat, req: Request) returns (t: State, w: Worker)
    requires cfg.Valid() && handlers >= 1 && !Blank(req.channel)
    ensures Leads(cfg, Start(handlers), t) && Lost(t, w)
  {
    var s := Start(handlers);
    StartIsAdmissible(cfg, s, req);
    var s1 := StartOne(cfg, s, 0, req);
    var m := NewWorker(cfg, s, req);
    var s2 := StopFrom(cfg, s1, m);
    StartIsAdmissible(cfg, s2, req);
    var s3 := StartOne(cfg, s2, 0, req);
    w := NewWorker(cfg, s2, req);
    assert m.id != w.id;
    t := LateMonitor(cfg, s3, m, w);
    LeadsVia(cfg, s2, s3, t);
    LeadsVia(cfg, s1, s2, t);
    LeadsVia(cfg, s, s1, t);
  }
}
