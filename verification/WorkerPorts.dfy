/** The counter that gives each worker its HTTP port
    (getHttpServerPort in ai_agents/server/internal/worker.go). */
module WorkerPorts {
  import opened Counting
  import opened Wrappers

  const PORT_MIN := 10000
  const PORT_MAX := 30000
  const PERIOD := PORT_MAX - PORT_MIN + 1

  // ----- one call at a time

  class PortCounter {
    var port: int
    /** The calls so far. */
    ghost var calls: nat

    ghost predicate Valid()
      reads this
    {
      port == CounterAfter(calls)
    }

    constructor ()
      ensures Valid() && calls == 0
    {
      port, calls := PORT_MIN, 0;
    }

    /** The ports go round from 10001 to 30001. */
    method GetHttpServerPort() returns (p: int)
      requires Valid()
      modifies this
      ensures Valid() && calls == old(calls) + 1
      ensures p == PORT_MIN + 1 + old(calls) % PERIOD
    {
      NthPort(calls);
      if port > PORT_MAX {
        port := PORT_MIN;
      }
      port := port + 1;
      calls := calls + 1;
      return port;
    }
  }

  function After(port: int): int {
    (if port > PORT_MAX then PORT_MIN else port) + 1
  }

  /** The counter after n calls. */
  function CounterAfter(n: nat): int {
    if n == 0 then PORT_MIN else After(CounterAfter(n - 1))
  }

  /** The n-th port, counted from 0. */
  lemma {:induction false} NthPort(n: nat)
    ensures CounterAfter(n + 1) == PORT_MIN + 1 + n % PERIOD
  {
    if n > 0 {
      NthPort(n - 1);
      if (n - 1) % PERIOD == PERIOD - 1 {
        NextMultiple(n - 1);
      } else {
        NextResidue(n - 1);
      }
    } else {
      assert CounterAfter(0) == PORT_MIN;
    }
  }

  lemma NextResidue(n: nat)
    requires n % PERIOD < PERIOD - 1
    ensures (n + 1) % PERIOD == n % PERIOD + 1
  {
  }

  lemma NextMultiple(n: nat)
    requires n % PERIOD == PERIOD - 1
    ensures (n + 1) % PERIOD == 0
  {
  }

  /** Starts that are fewer than a period apart never share a port. */
  lemma PortsAreDistinct(m: nat, n: nat)
    requires m < n
    ensures PORT_MIN < CounterAfter(n + 1) <= PORT_MAX + 1
    ensures n - m < PERIOD ==> CounterAfter(m + 1) != CounterAfter(n + 1)
    ensures n - m == PERIOD ==> CounterAfter(m + 1) == CounterAfter(n + 1)
  {
    NthPort(m);
    NthPort(n);
  }

  // ----- calls of several handlers interleaved

  datatype Call = Waiting | Loaded(over: bool) | Ready | Added

  datatype State = State(port: int, calls: seq<Call>, returned: seq<int>)

  datatype Action = Load(i: nat) | Reset(i: nat) | Increment(i: nat) | Read(i: nat)

  function Step(s: State, a: Action): Option<State> {
    if a.i >= |s.calls| then None
    else match (a, s.calls[a.i])
      case (Load(i), Waiting) =>
        Some(s.(calls := s.calls[i := if s.port > PORT_MAX then Loaded(true) else Ready]))
      case (Reset(i), Loaded(_)) => Some(s.(port := PORT_MIN, calls := s.calls[i := Ready]))
      case (Increment(i), Ready) => Some(s.(port := s.port + 1, calls := s.calls[i := Added]))
      case (Read(i), Added) => Some(s.(calls := s.calls[i := Waiting], returned := s.returned + [s.port]))
      case _ => None
  }

  function RunAll(s: State, actions: seq<Action>): Option<State>
    decreases |actions|
  {
    if actions == [] then Some(s)
    else match Step(s, actions[0])
      case None => None
      case Some(s') => RunAll(s', actions[1..])
  }

  function WillIncrement(): Call -> bool {
    (c: Call) => c == Ready
  }

  ghost predicate InRange(s: State) {
    && PORT_MIN <= s.port && s.port + Count(WillIncrement(), s.calls) <= PORT_MAX + |s.calls|
    && forall p :: p in s.returned ==> PORT_MIN <= p <= PORT_MAX + |s.calls|
  }

  lemma StepInRange(s: State, a: Action)
    requires InRange(s) && Step(s, a).Some?
    ensures InRange(Step(s, a).value) && |Step(s, a).value.calls| == |s.calls|
  {
    var s' := Step(s, a).value;
    CountUpdate(WillIncrement(), s.calls, a.i, s'.calls[a.i]);
    CountBound(WillIncrement(), s'.calls);
    assert s'.calls == s.calls[a.i := s'.calls[a.i]];
  }

  lemma {:induction false} RunInRange(s: State, actions: seq<Action>)
    requires InRange(s) && RunAll(s, actions).Some?
    ensures InRange(RunAll(s, actions).value) && |RunAll(s, actions).value.calls| == |s.calls|
    decreases |actions|
  {
    if actions != [] {
      StepInRange(s, actions[0]);
      RunInRange(Step(s, actions[0]).value, actions[1..]);
    }
  }

  function Start(handlers: nat): State {
    State(PORT_MIN, seq(handlers, _ => Waiting), [])
  }

  /** With k handlers at once the check and the increment can be interleaved,
      but the ports still stay within k of the intended range. */
  lemma InterleavedPortsInRange(handlers: nat, actions: seq<Action>, p: int)
    requires RunAll(Start(handlers), actions).Some? && p in RunAll(Start(handlers), actions).value.returned
    ensures PORT_MIN <= p <= PORT_MAX + handlers
  {
    CountNone(WillIncrement(), handlers, Waiting);
    RunInRange(Start(handlers), actions);
  }

  // ----- one handler

  /** The counter within a call that began with the given one. */
  function Counter(c: Call, before: int): int {
    match c
    case Waiting => before
    case Loaded(_) => before
    case Ready => if before > PORT_MAX then PORT_MIN else before
    case Added => After(before)
  }

  /** With a single handler the machine does what the calls in turn do. */
  ghost predicate InTurn(s: State) {
    && |s.calls| == 1
    && (forall i :: 0 <= i < |s.returned| ==> s.returned[i] == CounterAfter(i + 1))
    && s.port == Counter(s.calls[0], CounterAfter(|s.returned|))
    && (s.calls[0].Loaded? ==> s.port > PORT_MAX)
  }

  lemma {:induction false} RunInTurn(s: State, actions: seq<Action>)
    requires InTurn(s) && RunAll(s, actions).Some?
    ensures InTurn(RunAll(s, actions).value)
    decreases |actions|
  {
    if actions != [] {
      var s' := Step(s, actions[0]).value;
      assert CounterAfter(|s.returned| + 1) == After(CounterAfter(|s.returned|));
      RunInTurn(s', actions[1..]);
    }
  }

  lemma {:induction false} RunWithoutHandlers(s: State, actions: seq<Action>)
    requires s.calls == [] && RunAll(s, actions).Some?
    ensures actions == []
  {
  }

  /** Any PERIOD ports returned in a row are pairwise distinct. */
  predicate DistinctWindows(ports: seq<int>) {
    forall i, j :: 0 <= i < j < |ports| && j - i < PERIOD ==> ports[i] != ports[j]
  }

  ghost predicate Leads(s: State, t: State) {
    exists actions :: RunAll(s, actions) == Some(t)
  }

  lemma LeadsToItself(s: State)
    ensures Leads(s, s)
  {
    assert RunAll(s, []) == Some(s);
  }

  lemma {:induction false} LeadsOn(s: State, actions: seq<Action>, t: State, a: Action)
    requires RunAll(s, actions) == Some(t)
    ensures RunAll(s, actions + [a]) == Step(t, a)
    decreases |actions|
  {
    if actions == [] {
      assert [] + [a] == [a] && [a][1..] == [];
    } else {
      assert (actions + [a])[1..] == actions[1..] + [a];
      LeadsOn(Step(s, actions[0]).value, actions[1..], t, a);
    }
  }

  /** One more step of a run. */
  lemma LeadsFurther(s: State, t: State, a: Action, u: State)
    requires Leads(s, t) && Step(t, a) == Some(u)
    ensures Leads(s, u)
  {
    var actions :| RunAll(s, actions) == Some(t);
    LeadsOn(s, actions, t, a);
  }

  /** A whole call of handler 0. */
  lemma OneCall(s: State, t: State)
    requires Leads(s, t) && t.calls != [] && t.calls[0] == Waiting
    ensures Leads(s, State(After(t.port), t.calls, t.returned + [After(t.port)]))
  {
    var p := if t.port > PORT_MAX then PORT_MIN else t.port;
    var t1 := State(p, t.calls[0 := Ready], t.returned);
    if t.port > PORT_MAX {
      var t0 := t.(calls := t.calls[0 := Loaded(true)]);
      LeadsFurther(s, t, Load(0), t0);
      assert t0.calls[0 := Ready] == t1.calls;
      LeadsFurther(s, t0, Reset(0), t1);
    } else {
      LeadsFurther(s, t, Load(0), t1);
    }
    var t2 := State(p + 1, t.calls[0 := Added], t.returned);
    assert t1.calls[0 := Added] == t2.calls;
    LeadsFurther(s, t1, Increment(0), t2);
    assert t2.calls[0 := Waiting] == t.calls;
    LeadsFurther(s, t2, Read(0), State(p + 1, t.calls, t.returned + [p + 1]));
  }

  lemma {:induction false} ManyCalls(handlers: nat, n: nat) returns (t: State)
    requires handlers >= 1
    ensures Leads(Start(handlers), t) && t.port == CounterAfter(n) && t.calls == Start(handlers).calls
    decreases n
  {
    if n == 0 {
      t := Start(handlers);
      LeadsToItself(t);
    } else {
      var u := ManyCalls(handlers, n - 1);
      OneCall(Start(handlers), u);
      t := State(After(u.port), u.calls, u.returned + [After(u.port)]);
    }
  }

  /** The state in which the next check is the last that finds no overrun. */
  lemma AtTheTop(handlers: nat) returns (t: State)
    requires handlers >= 1
    ensures Leads(Start(handlers), t) && t.port == PORT_MAX && t.calls == Start(handlers).calls
  {
    NthPort(PORT_MAX - PORT_MIN - 1);
    t := ManyCalls(handlers, PORT_MAX - PORT_MIN);
  }

  // ----- several handlers

  lemma BothIncrement(handlers: nat) returns (t: State)
    requires handlers >= 2
    ensures Leads(Start(handlers), t)
    ensures t == State(PORT_MIN + 2, Start(handlers).calls[0 := Added][1 := Added], [])
  {
    var s := Start(handlers);
    var c := s.calls;
    var s1, s2 := State(PORT_MIN, c[0 := Ready], []), State(PORT_MIN, c[0 := Ready][1 := Ready], []);
    var s3 := State(PORT_MIN + 1, c[0 := Added][1 := Ready], []);
    t := State(PORT_MIN + 2, c[0 := Added][1 := Added], []);
    LeadsToItself(s);
    LeadsFurther(s, s, Load(0), s1);
    LeadsFurther(s, s1, Load(1), s2);
    assert s2.calls[0 := Added] == s3.calls;
    LeadsFurther(s, s2, Increment(0), s3);
    assert s3.calls[1 := Added] == t.calls;
    LeadsFurther(s, s3, Increment(1), t);
  }

  /** Two handlers that both increment before either reads get the same port. */
  lemma PortsCollide(handlers: nat) returns (t: State)
    requires handlers >= 2
    ensures Leads(Start(handlers), t) && t.returned == [PORT_MIN + 2, PORT_MIN + 2]
  {
    var s, p := Start(handlers), PORT_MIN + 2;
    var both := BothIncrement(handlers);
    var first := State(p, both.calls[0 := Waiting], [] + [p]);
    LeadsFurther(s, both, Read(0), first);
    assert [] + [p] == [p] && [p] + [p] == [p, p];
    t := State(p, first.calls[1 := Waiting], [p] + [p]);
    LeadsFurther(s, first, Read(1), t);
  }

  /** Ports returned within a period of each other are distinct in every run
      exactly when at most one handler asks for a port at a time. */
  lemma PortsDistinctIff(handlers: nat)
    ensures (forall t :: Leads(Start(handlers), t) ==> DistinctWindows(t.returned)) <==> handlers <= 1
  {
    if handlers <= 1 {
      forall t | Leads(Start(handlers), t) ensures DistinctWindows(t.returned) {
        var actions :| RunAll(Start(handlers), actions) == Some(t);
        if handlers == 0 {
          RunWithoutHandlers(Start(0), actions);
        } else {
          RunInTurn(Start(1), actions);
          forall i, j | 0 <= i < j < |t.returned| && j - i < PERIOD ensures t.returned[i] != t.returned[j] {
            PortsAreDistinct(i, j);
          }
        }
      }
    } else {
      var t := PortsCollide(handlers);
      assert t.returned[0] == t.returned[1];
    }
  }

  /** All handlers check before any of them increments. */
  lemma {:induction false} LoadMany(s: State, t: State, j: nat)
    requires Leads(s, t) && t.port == PORT_MAX && j <= |t.calls| && forall i :: 0 <= i < |t.calls| ==> t.calls[i] == Waiting
    ensures Leads(s, t.(calls := seq(|t.calls|, i => if i < j then Ready else Waiting)))
    decreases j
  {
    if j == 0 {
      assert seq(|t.calls|, i => if i < 0 then Ready else Waiting) == t.calls;
    } else {
      LoadMany(s, t, j - 1);
      var u := t.(calls := seq(|t.calls|, i => if i < j - 1 then Ready else Waiting));
      assert u.calls[j - 1 := Ready] == seq(|t.calls|, i => if i < j then Ready else Waiting);
      LeadsFurther(s, u, Load(j - 1), t.(calls := seq(|t.calls|, i => if i < j then Ready else Waiting)));
    }
  }

  /** Then they all increment. */
  lemma {:induction false} IncrementMany(s: State, t: State, j: nat)
    requires Leads(s, t) && j <= |t.calls| && forall i :: 0 <= i < |t.calls| ==> t.calls[i] == Ready
    ensures Leads(s, State(t.port + j, seq(|t.calls|, i => if i < j then Added else Ready), t.returned))
    decreases j
  {
    if j == 0 {
      assert seq(|t.calls|, i => if i < 0 then Added else Ready) == t.calls;
    } else {
      IncrementMany(s, t, j - 1);
      var u := State(t.port + j - 1, seq(|t.calls|, i => if i < j - 1 then Added else Ready), t.returned);
      assert u.calls[j - 1 := Added] == seq(|t.calls|, i => if i < j then Added else Ready);
      LeadsFurther(s, u, Increment(j - 1),
                   State(t.port + j, seq(|t.calls|, i => if i < j then Added else Ready), t.returned));
    }
  }

  /** The upper bound is reached with any number of handlers. */
  lemma HighestPortAttained(handlers: nat) returns (t: State)
    requires handlers >= 1
    ensures Leads(Start(handlers), t) && PORT_MAX + handlers in t.returned
  {
    var s := Start(handlers);
    var top := AtTheTop(handlers);
    LoadMany(s, top, handlers);
    var ready := top.(calls := seq(handlers, i => if i < handlers then Ready else Waiting));
    IncrementMany(s, ready, handlers);
    var added := State(PORT_MAX + handlers, seq(handlers, i => if i < handlers then Added else Ready), top.returned);
    t := State(added.port, added.calls[0 := Waiting], top.returned + [added.port]);
    LeadsFurther(s, added, Read(0), t);
    assert t.returned[|top.returned|] == PORT_MAX + handlers;
  }

  /** And 10000, below the first port of a single handler, as soon as a second
      one can reset the counter between an increment and its read. */
  lemma LowestPortIff(handlers: nat)
    ensures (exists t :: Leads(Start(handlers), t) && PORT_MIN in t.returned) <==> handlers >= 2
  {
    if handlers >= 2 {
      var t := ResetInBetween(handlers);
    } else {
      forall t | Leads(Start(handlers), t) ensures PORT_MIN !in t.returned {
        var actions :| RunAll(Start(handlers), actions) == Some(t);
        if handlers == 0 {
          RunWithoutHandlers(Start(0), actions);
        } else {
          RunInTurn(Start(1), actions);
          forall i | 0 <= i < |t.returned| ensures t.returned[i] != PORT_MIN {
            NthPort(i);
          }
        }
      }
    }
  }

  lemma ResetInBetween(handlers: nat) returns (t: State)
    requires handlers >= 2
    ensures Leads(Start(handlers), t) && PORT_MIN in t.returned
  {
    var s := Start(handlers);
    var top := AtTheTop(handlers);
    var c := top.calls;
    var s1 := top.(calls := c[0 := Ready]);
    LeadsFurther(s, top, Load(0), s1);
    var s2 := State(PORT_MAX + 1, c[0 := Added], top.returned);
    assert s1.calls[0 := Added] == s2.calls;
    LeadsFurther(s, s1, Increment(0), s2);
    var s3 := s2.(calls := c[0 := Added][1 := Loaded(true)]);
    LeadsFurther(s, s2, Load(1), s3);
    var s4 := State(PORT_MIN, c[0 := Added][1 := Ready], top.returned);
    assert s3.calls[1 := Ready] == s4.calls;
    LeadsFurther(s, s3, Reset(1), s4);
    t := State(PORT_MIN, s4.calls[0 := Waiting], top.returned + [PORT_MIN]);
    LeadsFurther(s, s4, Read(0), t);
    assert t.returned[|top.returned|] == PORT_MIN;
  }
}
