/** The handlers and the sweep of the agent server as they run when nothing
    interrupts them (ai_agents/server/internal/http_server.go and worker.go).

    Each returns the accesses it made, as a run of the machine in
    WorkerRegistry, where anything may come in between. */
module AgentServer {
  import opened JsonValues
  import P = ProcessProperty
  import opened Sequences
  import opened Wrappers
  import opened WorkerRegistry

  datatype Code =
    | Served
    | ChannelEmpty
    | ChannelExisted
    | ChannelNotExisted
    | WorkersLimit
    | ProcessPropertyFailed
    | Crashed // the handler panicked
    | StartWorkerFailed
    | StopWorkerFailed

  /** One more step of a run. */
  lemma {:induction false} RunSnoc(cfg: Config, s: State, actions: seq<Action>, t: State, a: Action)
    requires RunAll(cfg, s, actions) == Some(t)
    ensures RunAll(cfg, s, actions + [a]) == Step(cfg, t, a)
    decreases |actions|
  {
    if actions == [] {
      assert [] + [a] == [a] && [a][1..] == [];
    } else {
      assert (actions + [a])[1..] == actions[1..] + [a];
      RunSnoc(cfg, Step(cfg, s, actions[0]).value, actions[1..], t, a);
    }
  }

  /** The checks of handlerStart, when nothing interrupts them. */
  function Refusal(cfg: Config, s: State, req: Request): Option<Code> {
    if Blank(req.channel) then Some(ChannelEmpty)
    else if |s.reg| >= cfg.workersMax then Some(WorkersLimit)
    else if req.channel in s.reg then Some(ChannelExisted)
    else if Limited(req.graph) && |WithGraph(s.reg, req.graph)| >= MAX_GEMINI_WORKER_COUNT then Some(WorkersLimit)
    else None
  }

  /** The property file that the process is started with, if it comes to that. */
  function PropertyFile(cfg: Config, s: State, req: Request, outcome: P.Outcome, file: string): Option<string> {
    if Refusal(cfg, s, req).Some? || outcome.Panicked? then None
    else
      match P.Returned(outcome, file)
      case Success(name) => Some(name)
      case Failure(_) => None
  }

  function StartCode(cfg: Config, s: State, req: Request, outcome: P.Outcome, started: bool): Code {
    if Refusal(cfg, s, req).Some? then Refusal(cfg, s, req).value
    else if outcome.Panicked? then Crashed
    else if P.Returned(outcome, "").Failure? then ProcessPropertyFailed
    else if !started then StartWorkerFailed
    else Served
  }

  lemma EmptyFileIff(cfg: Config, s: State, req: Request, start: P.Request, content: Option<Json>, tokens: P.Tokens,
                     file: string, started: bool)
    requires start.graphName == req.graph && file != ""
    requires StartCode(cfg, s, req, P.Rewrite(content, start, tokens), started).Served?
    ensures PropertyFile(cfg, s, req, P.Rewrite(content, start, tokens), file) == Some("") <==>
      req.graph == "" || P.TokenFor(start, tokens).None? || P.PredefinedGraphs(content.GetOr(Null)).None?
  {
    P.NothingWrittenIff(content, start, tokens);
    assert P.Readable(content);
  }

  /** What a sweep over done leaves if exactly the workers in kills can be killed. */
  function Remaining(s: State, done: seq<string>, kills: set<Worker>): map<string, Worker> {
    map c | c in s.reg && !(c in done && Expired(s, s.reg[c]) && s.reg[c] in kills) :: s.reg[c]
  }

  /** The workers that such a sweep kills. */
  function Killed(s: State, done: seq<string>, kills: set<Worker>): set<Worker> {
    set c | c in done && c in s.reg && Expired(s, s.reg[c]) && s.reg[c] in kills :: s.reg[c]
  }

  class Server {
    const config: Config
    var reg: map<string, Worker>
    var updateTs: map<Worker, int>
    var procs: Processes
    var now: int
    /** Where the machine stands within a handler or a sweep. */
    ghost var slots: seq<Slot>
    ghost var removals: multiset<string>
    ghost var sweep: Option<seq<string>>

    ghost function Abs(): State
      reads this
    {
      State(reg, updateTs, procs, removals, slots, sweep, false, now)
    }

    constructor (config: Config, handlers: nat)
      ensures this.config == config && Abs() == Start(handlers)
    {
      this.config := config;
      reg, updateTs, procs, now := map[], map[], Processes({}, {}, {}, 0), 0;
      slots, removals, sweep := seq(handlers, _ => Idle), multiset{}, None;
    }

    method HandlerPing(channel: string) returns (code: Code)
      modifies `updateTs
      ensures Step(config, old(Abs()), Ping(channel)) == Some(Abs())
      ensures code == if Blank(channel) then ChannelEmpty
                      else if channel !in reg then ChannelNotExisted else Served
      ensures updateTs == if code.Served? then old(updateTs)[reg[channel] := now] else old(updateTs)
    {
      if Blank(channel) {
        return ChannelEmpty;
      }
      if channel !in reg {
        return ChannelNotExisted;
      }
      var worker := reg[channel];
      updateTs := updateTs[worker := now];
      return Served;
    }

    /** Worker.stop; the kill succeeds only for a process not yet reaped. */
    method StopWorker(w: Worker, channel: string, killed: bool) returns (ok: bool)
      requires killed ==> w in procs.monitors
      modifies `procs, `reg
      ensures ok == killed
      ensures reg == if killed then old(reg) - {channel} else old(reg)
      ensures procs == if killed then old(procs).(alive := old(procs).alive - {w}) else old(procs)
    {
      if !killed {
        return false;
      }
      procs := procs.(alive := procs.alive - {w});
      reg := reg - {channel};
      return true;
    }

    method HandlerStop(channel: string, killed: bool) returns (code: Code, ghost trace: seq<Action>)
      requires killed && channel in reg ==> reg[channel] in procs.monitors
      modifies `procs, `reg
      ensures RunAll(config, old(Abs()), trace) == Some(Abs())
      ensures code == if Blank(channel) then ChannelEmpty
                      else if channel !in old(reg) then ChannelNotExisted
                      else if killed then Served else StopWorkerFailed
      ensures reg == if code.Served? then old(reg) - {channel} else old(reg)
      ensures procs ==
        if code.Served? then old(procs).(alive := old(procs).alive - {old(reg)[channel]}) else old(procs)
    {
      ghost var s := Abs();
      trace := [Stop(channel, killed)];
      RunSnoc(config, s, [], s, trace[0]);
      if Blank(channel) {
        return ChannelEmpty, trace;
      }
      if channel !in reg {
        return ChannelNotExisted, trace;
      }
      var worker := reg[channel];
      var ok := StopWorker(worker, channel, killed);
      if !ok {
        return StopWorkerFailed, trace;
      }
      ghost var t := Step(config, s, trace[0]).value;
      RunSnoc(config, s, trace, t, RemoveStopped(channel));
      assert s.removals + multiset{channel} - multiset{channel} == s.removals;
      return Served, trace + [RemoveStopped(channel)];
    }

    /** The count loop of handlerStart. */
    method CountGraph(graph: string) returns (graphNameCount: nat)
      ensures graphNameCount == |WithGraph(reg, graph)|
    {
      graphNameCount := 0;
      var keys := reg.Keys;
      ghost var counted: set<string> := {};
      while keys != {}
        invariant keys <= reg.Keys
        invariant forall c :: c in counted <==> c in WithGraph(reg, graph) && c !in keys
        invariant graphNameCount == |counted|
        decreases |keys|
      {
        var channelName :| channelName in keys;
        keys := keys - {channelName};
        if reg[channelName].graph == graph {
          graphNameCount := graphNameCount + 1;
          counted := counted + {channelName};
        }
      }
      assert counted == WithGraph(reg, graph);
    }

    /** The checks of handlerStart before the count for the graph. */
    method CheckRegistry(ghost i: nat, req: Request) returns (refused: Option<Code>, ghost trace: seq<Action>)
      requires i < |slots| && slots[i] == Idle
      modifies `slots
      ensures RunAll(config, old(Abs()), trace) == Some(Abs())
      ensures refused == if Blank(req.channel) then Some(ChannelEmpty)
                         else if |reg| >= config.workersMax then Some(WorkersLimit)
                         else if req.channel in reg then Some(ChannelExisted) else None
      ensures slots == old(slots)[i := if refused.Some? then Idle
                                       else if Limited(req.graph) then Counting(req) else Admitted(req)]
    {
      ghost var s := Abs();
      var workersRunning := |reg|;
      trace := Advance(s, [], i, Begin(i, req), Sized(req, workersRunning));
      if Blank(req.channel) {
        trace := Advance(s, trace, i, CheckLimit(i), Idle);
        return Some(ChannelEmpty), trace;
      }
      if workersRunning >= config.workersMax {
        trace := Advance(s, trace, i, CheckLimit(i), Idle);
        return Some(WorkersLimit), trace;
      }
      trace := Advance(s, trace, i, CheckLimit(i), Checked(req));
      if req.channel in reg {
        trace := Advance(s, trace, i, CheckChannel(i), Idle);
        return Some(ChannelExisted), trace;
      }
      trace := Advance(s, trace, i, CheckChannel(i), if Limited(req.graph) then Counting(req) else Admitted(req));
      return None, trace;
    }

    /** All the checks of handlerStart. */
    method Admit(ghost i: nat, req: Request) returns (refused: Option<Code>, ghost trace: seq<Action>)
      requires i < |slots| && slots[i] == Idle
      modifies `slots
      ensures RunAll(config, old(Abs()), trace) == Some(Abs())
      ensures slots == old(slots)[i := if refused.Some? then Idle else Admitted(req)]
      ensures refused == Refusal(config, old(Abs()), req)
    {
      ghost var s := Abs();
      refused, trace := CheckRegistry(i, req);
      if refused.Some? || !Limited(req.graph) {
        return;
      }
      var graphNameCount := CountGraph(req.graph);
      if graphNameCount >= MAX_GEMINI_WORKER_COUNT {
        trace := Advance(s, trace, i, Action.CountGraph(i), Idle);
        return Some(WorkersLimit), trace;
      }
      trace := Advance(s, trace, i, Action.CountGraph(i), Admitted(req));
    }

    /** handlerStart in the idle slot i; outcome is that of processProperty, and
        started says whether the process could be started. */
    method HandlerStart(ghost i: nat, req: Request, outcome: P.Outcome, file: string, started: bool)
      returns (code: Code, propertyFile: Option<string>, ghost trace: seq<Action>)
      requires i < |slots| && slots[i] == Idle
      modifies this
      ensures RunAll(config, old(Abs()), trace) == Some(Abs())
      ensures code == if Blank(req.channel) then ChannelEmpty
                      else if |old(reg)| >= config.workersMax then WorkersLimit
                      else if req.channel in old(reg) then ChannelExisted
                      else if Includes(req.graph, "gemini") && |WithGraph(old(reg), req.graph)| >= 3 then WorkersLimit
                      else if outcome.Panicked? then Crashed
                      else if outcome.Unreadable? || outcome.GraphNotFound? then ProcessPropertyFailed
                      else if !started then StartWorkerFailed else Served
      ensures code == StartCode(config, old(Abs()), req, outcome, started)
      ensures propertyFile == PropertyFile(config, old(Abs()), req, outcome, file)
      ensures code.Served? ==> propertyFile == Some(if outcome.NothingWritten? then "" else file)
      ensures code.Served? ==> req.channel in reg && IsNew(reg[req.channel], req, old(Abs()))
      ensures slots == old(slots) && (!code.Served? ==> Abs() == old(Abs()))
    {
      ghost var s := Abs();
      var refused: Option<Code>;
      refused, trace := Admit(i, req);
      if refused.Some? {
        return refused.value, None, trace;
      }
      if outcome.Panicked? {
        trace := Advance(s, trace, i, StartProcess(i, false), Idle);
        return Crashed, None, trace;
      }
      var returned := P.Returned(outcome, file);
      if returned.Failure? {
        trace := Advance(s, trace, i, StartProcess(i, false), Idle);
        return ProcessPropertyFailed, None, trace;
      }
      if !started {
        trace := Advance(s, trace, i, StartProcess(i, false), Idle);
        return StartWorkerFailed, Some(returned.value), trace;
      }
      var w: Worker;
      w, trace := StartWorker(s, trace, i, req);
      trace := InsertWorker(s, trace, i, w);
      return Served, Some(returned.value), trace;
    }

    /** The worker of a request is the only new thing: it has the channel and the
        graph of the request, the timeout of the request or else the server's,
        a process of its own and a lease that begins now. */
    ghost predicate IsNew(w: Worker, req: Request, s: State)
      reads this
    {
      && w.channel == req.channel && w.graph == req.graph && w.id == s.procs.next
      && w.quitTimeoutSeconds == (if req.quitTimeoutSeconds > 0 then req.quitTimeoutSeconds
                                  else config.quitTimeoutSeconds)
      && reg == s.reg[req.channel := w] && updateTs == s.updateTs[w := now] && now == s.now
      && procs.alive == s.procs.alive + {w} && procs.monitors == s.procs.monitors + {w}
      && procs.swept == s.procs.swept
    }

    /** The whole of handlerStart: a registered worker runs with an empty file
        name exactly when processProperty wrote nothing and did not say so. */
    method HandlerStartRequest(ghost i: nat, req: Request, start: P.Request, content: Option<Json>, tokens: P.Tokens,
                               file: string, started: bool)
      returns (code: Code, propertyFile: Option<string>)
      requires i < |slots| && slots[i] == Idle
      requires start.graphName == req.graph && start.channelName == req.channel && file != ""
      modifies this
      ensures propertyFile == PropertyFile(config, old(Abs()), req, P.Rewrite(content, start, tokens), file)
      ensures code == StartCode(config, old(Abs()), req, P.Rewrite(content, start, tokens), started)
      ensures code.Served? ==> propertyFile.Some? && req.channel in reg
      ensures code.Served? ==>
        (propertyFile == Some("") <==>
          req.graph == "" || P.TokenFor(start, tokens).None? || P.PredefinedGraphs(content.GetOr(Null)).None?)
    {
      var outcome := P.Process(content, start, tokens);
      if StartCode(config, Abs(), req, P.Rewrite(content, start, tokens), started).Served? {
        EmptyFileIff(config, Abs(), req, start, content, tokens, file, started);
      }
      ghost var trace: seq<Action>;
      code, propertyFile, trace := HandlerStart(i, req, outcome, file, started);
    }

    /** The machine takes a step that only moves the handler on. */
    ghost method Advance(s: State, trace: seq<Action>, i: nat, a: Action, x: Slot) returns (longer: seq<Action>)
      requires RunAll(config, s, trace) == Some(Abs()) && i < |slots|
      requires Step(config, Abs(), a) == Some(WithSlot(Abs(), i, x))
      modifies `slots
      ensures slots == old(slots)[i := x] && RunAll(config, s, longer) == Some(Abs())
    {
      RunSnoc(config, s, trace, Abs(), a);
      slots := slots[i := x];
      longer := trace + [a];
    }

    /** newWorker and Worker.start */
    method StartWorker(ghost s: State, ghost before: seq<Action>, ghost i: nat, req: Request)
      returns (w: Worker, ghost trace: seq<Action>)
      requires RunAll(config, s, before) == Some(Abs()) && i < |slots| && slots[i] == Admitted(req)
      modifies `updateTs, `procs, `slots
      ensures RunAll(config, s, trace) == Some(Abs())
      ensures w == NewWorker(config, old(Abs()), req) && slots == old(slots)[i := Started(w)]
      ensures updateTs == old(updateTs)[w := now]
      ensures procs == Processes(old(procs).alive + {w}, old(procs).monitors + {w}, old(procs).swept,
                                 old(procs).next + 1)
    {
      RunSnoc(config, s, before, Abs(), StartProcess(i, true));
      w := Worker(procs.next, req.channel, req.graph,
                  if req.quitTimeoutSeconds > 0 then req.quitTimeoutSeconds else config.quitTimeoutSeconds);
      updateTs := updateTs[w := now];
      procs := procs.(alive := procs.alive + {w}, monitors := procs.monitors + {w}, next := procs.next + 1);
      slots := slots[i := Started(w)];
      trace := before + [StartProcess(i, true)];
    }

    /** workers.SetIfNotExist */
    method InsertWorker(ghost s: State, ghost before: seq<Action>, ghost i: nat, w: Worker)
      returns (ghost trace: seq<Action>)
      requires RunAll(config, s, before) == Some(Abs()) && i < |slots| && slots[i] == Started(w)
      modifies `reg, `slots
      ensures RunAll(config, s, trace) == Some(Abs()) && slots == old(slots)[i := Idle]
      ensures reg == if w.channel in old(reg) then old(reg) else old(reg)[w.channel := w]
    {
      RunSnoc(config, s, before, Abs(), Insert(i));
      if w.channel !in reg {
        reg := reg[w.channel := w];
      }
      slots := slots[i := Idle];
      trace := before + [Insert(i)];
    }

    /** i of the keys have been swept since s. */
    ghost predicate Swept(s: State, trace: seq<Action>, keys: seq<string>, i: nat, kills: set<Worker>)
      requires i <= |keys|
      reads this
    {
      && RunAll(config, s, trace) == Some(Abs())
      && sweep == Some(keys[i..]) && reg == Remaining(s, keys[..i], kills) && kills <= procs.monitors
      && updateTs == s.updateTs && now == s.now && slots == s.slots && removals == s.removals
      && procs == s.procs.(alive := s.procs.alive - Killed(s, keys[..i], kills),
                           swept := s.procs.swept + Killed(s, keys[..i], kills))
    }

    ghost method BeginSweep(keys: seq<string>, kills: set<Worker>) returns (trace: seq<Action>)
      requires multiset(keys) == multiset(reg.Keys) && sweep.None? && kills <= procs.monitors
      modifies `sweep
      ensures Swept(old(Abs()), trace, keys, 0, kills)
    {
      ghost var s := Abs();
      RunSnoc(config, s, [], s, SweepBegin(keys));
      trace := [] + [SweepBegin(keys)];
      sweep := Some(keys);
      assert keys[0..] == keys;
      assert Remaining(s, keys[..0], kills) == reg && Killed(s, keys[..0], kills) == {};
    }

    /** One round of timeoutWorkers over the keys in any order. */
    method SweepTimeouts(keys: seq<string>, kills: set<Worker>) returns (ghost trace: seq<Action>)
      requires multiset(keys) == multiset(reg.Keys) && sweep.None? && kills <= procs.monitors
      modifies this
      ensures RunAll(config, old(Abs()), trace) == Some(Abs())
      ensures reg == Remaining(old(Abs()), keys, kills)
      ensures updateTs == old(updateTs) && now == old(now) && slots == old(slots) && sweep.None?
      ensures procs.alive == old(procs).alive - Killed(old(Abs()), keys, kills)
      ensures procs.swept == old(procs).swept + Killed(old(Abs()), keys, kills)
    {
      ghost var s := Abs();
      KeysOnce(keys, reg.Keys);
      trace := BeginSweep(keys, kills);
      for i := 0 to |keys|
        invariant Swept(s, trace, keys, i, kills)
      {
        trace := SweepKey(s, trace, keys, i, kills);
      }
      assert keys[..|keys|] == keys && keys[|keys|..] == [];
      RunSnoc(config, s, trace, Abs(), SweepEnd);
      sweep := None;
      trace := trace + [SweepEnd];
    }

    method SweepKey(ghost s: State, ghost before: seq<Action>, keys: seq<string>, i: nat, kills: set<Worker>)
      returns (ghost trace: seq<Action>)
      requires i < |keys| && (forall a, b :: 0 <= a < b < |keys| ==> keys[a] != keys[b])
      requires keys[i] in s.reg && Swept(s, before, keys, i, kills)
      modifies `reg, `procs, `sweep
      ensures Swept(s, trace, keys, i + 1, kills)
    {
      ghost var u := Abs();
      var channelName := keys[i];
      assert keys[i..][0] == channelName && keys[i..][1..] == keys[i + 1..];
      RemainingNext(s, keys, i, kills);
      KilledNext(s, keys, i, kills);
      var worker := reg[channelName];
      var killed := worker in kills;
      trace := before + [SweepNext(killed)];
      RunSnoc(config, s, before, u, SweepNext(killed));
      sweep := Some(keys[i + 1..]);
      if worker.quitTimeoutSeconds != WORKER_TIMEOUT_INFINITY && worker in updateTs
        && updateTs[worker] + worker.quitTimeoutSeconds < now {
        trace := SweepExpired(s, u, trace, worker, channelName, killed);
      }
    }

    /** The kill of the worker that the machine has found expired at u. */
    method SweepExpired(ghost s: State, ghost u: State, ghost before: seq<Action>, worker: Worker, channelName: string,
                        killed: bool) returns (ghost trace: seq<Action>)
      requires RunAll(config, s, before) == Step(config, u, SweepNext(killed)) && (killed ==> worker in procs.monitors)
      requires Step(config, u, SweepNext(killed)) == Some(
        if !killed then Abs()
        else Abs().(procs := procs.(alive := procs.alive - {worker}, swept := procs.swept + {worker}),
                    removals := removals + multiset{channelName}))
      requires channelName in reg && !Abs().panicked
      modifies `reg, `procs
      ensures RunAll(config, s, trace) == Some(Abs())
      ensures reg == if killed then old(reg) - {channelName} else old(reg)
      ensures procs == if killed then old(procs).(alive := old(procs).alive - {worker},
                                                  swept := old(procs).swept + {worker}) else old(procs)
    {
      trace := before;
      ghost var t := Step(config, u, SweepNext(killed)).value;
      var ok := StopWorker(worker, channelName, killed);
      if ok {
        procs := procs.(swept := procs.swept + {worker});
        RunSnoc(config, s, before, t, RemoveStopped(channelName));
        trace := before + [RemoveStopped(channelName)];
        assert removals + multiset{channelName} - multiset{channelName} == removals;
      }
    }
  }

  lemma RemainingNext(s: State, keys: seq<string>, i: nat, kills: set<Worker>)
    requires i < |keys| && (forall a, b :: 0 <= a < b < |keys| ==> keys[a] != keys[b]) && keys[i] in s.reg
    ensures keys[i] in Remaining(s, keys[..i], kills) && Remaining(s, keys[..i], kills)[keys[i]] == s.reg[keys[i]]
    ensures Remaining(s, keys[..i + 1], kills) ==
      if Expired(s, s.reg[keys[i]]) && s.reg[keys[i]] in kills then Remaining(s, keys[..i], kills) - {keys[i]}
      else Remaining(s, keys[..i], kills)
  {
    assert keys[i] !in keys[..i];
    assert keys[..i + 1] == keys[..i] + [keys[i]];
  }

  lemma KilledNext(s: State, keys: seq<string>, i: nat, kills: set<Worker>)
    requires i < |keys| && keys[i] in s.reg
    ensures var gone := if Expired(s, s.reg[keys[i]]) && s.reg[keys[i]] in kills then {s.reg[keys[i]]} else {};
      && s.procs.alive - Killed(s, keys[..i + 1], kills) == s.procs.alive - Killed(s, keys[..i], kills) - gone
      && s.procs.swept + Killed(s, keys[..i + 1], kills) == s.procs.swept + Killed(s, keys[..i], kills) + gone
  {
    var gone := if Expired(s, s.reg[keys[i]]) && s.reg[keys[i]] in kills then {s.reg[keys[i]]} else {};
    assert keys[..i + 1] == keys[..i] + [keys[i]];
    assert Killed(s, keys[..i + 1], kills) == Killed(s, keys[..i], kills) + gone;
  }

  lemma KeysOnce(keys: seq<string>, all: set<string>)
    requires multiset(keys) == multiset(all)
    ensures forall a, b :: 0 <= a < b < |keys| ==> keys[a] != keys[b]
    ensures forall c :: c in keys <==> c in all
  {
    forall a, b | 0 <= a < b < |keys| ensures keys[a] != keys[b] {
      TwiceCounted(keys, a, b);
      assert multiset(all)[keys[a]] <= 1;
    }
    forall c ensures c in keys <==> c in all {
      assert c in keys <==> c in multiset(keys);
    }
  }

  lemma TwiceCounted(keys: seq<string>, a: nat, b: nat)
    requires a < b < |keys|
    ensures keys[a] == keys[b] ==> multiset(keys)[keys[a]] >= 2
  {
    assert keys == keys[..b] + keys[b..];
    assert keys[..b][a] == keys[a] && keys[b..][0] == keys[b];
  }
}
