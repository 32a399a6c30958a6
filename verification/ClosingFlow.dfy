/** The three-stage closing flow over a tree of resources
    (core/include_internal/ten_runtime/app/close.h, with the bodies of
    connection.c and remote.c).

    Resources are numbered so that a container comes before what it contains;
    0 is the top-level resource.  Close requests and "I am closed" reports are
    in flight until the scheduler delivers them, in any order. */
module ClosingFlow {
  import opened Wrappers

  /** parent[0] is -1.  A resource that propagates starts to close when a
      contained resource closed unexpectedly (connections and remotes do). */
  datatype Tree = Tree(parent: seq<int>, propagates: seq<bool>) {
    ghost predicate Valid() {
      && |parent| == |propagates| > 0 && parent[0] == -1
      && forall r :: 0 < r < |parent| ==> 0 <= parent[r] < r
    }

    function Size(): nat {
      |parent|
    }
  }

  datatype State = State(
    closing: seq<bool>,
    closed: seq<bool>,
    /** reported[c]: the container of c has been told that c is closed. */
    reported: seq<bool>,
    requests: multiset<nat>,
    reports: multiset<nat>,
    /** Resources that were asked to close from outside the tree. */
    asked: set<nat>,
    destroyed: bool)

  datatype Action = Ask(r: nat) | DeliverRequest(r: nat) | DeliverReport(c: nat) | Destroy

  function Start(t: Tree): State {
    var no := seq(t.Size(), _ => false);
    State(no, no, no, multiset{}, multiset{}, {}, false)
  }

  ghost predicate Sized(t: Tree, s: State) {
    |s.closing| == |s.closed| == |s.reported| == t.Size()
  }

  /** The contained resources of r that have not reported yet. */
  function Live(t: Tree, reported: seq<bool>, r: nat): (kids: set<nat>)
    requires |reported| == t.Size()
  {
    set c: nat | c < t.Size() && t.parent[c] == r && !reported[c]
  }

  /** xxx_do_close: mark it closed and tell the container. */
  function DoClose(s: State, r: nat): State
    requires r < |s.closed|
  {
    s.(closed := s.closed[r := true], reports := if r == 0 then s.reports else s.reports + multiset{r})
  }

  /** xxx_on_close: close r if it could be closed. */
  function OnClose(t: Tree, s: State, r: nat): State
    requires Sized(t, s) && r < t.Size()
  {
    if Live(t, s.reported, r) == {} then DoClose(s, r) else s
  }

  /** xxx_close: the notification stage; a second call does nothing. */
  function Close(t: Tree, s: State, r: nat): State
    requires Sized(t, s) && r < t.Size()
  {
    if s.closing[r] then s
    else
      var s' := s.(closing := s.closing[r := true]);
      if Live(t, s.reported, r) == {} then OnClose(t, s', r)
      else s'.(requests := s'.requests + multiset(Live(t, s.reported, r)))
  }

  /** The container's callback when c is closed. */
  function OnClosed(t: Tree, s: State, c: nat): State
    requires t.Valid() && Sized(t, s) && 0 < c < t.Size()
  {
    var r := t.parent[c];
    var s' := s.(reported := s.reported[c := true]);
    if s.closing[r] then OnClose(t, s', r)
    else if t.propagates[r] then Close(t, s', r)
    else s'
  }

  function Step(t: Tree, s: State, a: Action): Option<State>
    requires t.Valid() && Sized(t, s)
  {
    if s.destroyed then None
    else match a
      case Ask(r) =>
        if r >= t.Size() then None
        else Some(s.(requests := s.requests + multiset{r}, asked := s.asked + {r}))
      case DeliverRequest(r) =>
        if r >= t.Size() || r !in s.requests then None
        else Some(Close(t, s.(requests := s.requests - multiset{r}), r))
      case DeliverReport(c) =>
        if c >= t.Size() || c == 0 || c !in s.reports then None
        else Some(OnClosed(t, s.(reports := s.reports - multiset{c}), c))
      case Destroy =>
        if !s.closed[0] then None else Some(s.(destroyed := true))
  }

  // ----- the invariant

  ghost predicate NodeInv(t: Tree, s: State, r: nat)
    requires t.Valid() && Sized(t, s) && r < t.Size()
  {
    // is_closed implies is_closing, and all that r contains has reported
    && (s.closed[r] ==> s.closing[r] && Live(t, s.reported, r) == {})
    // a closing resource still waits for something
    && (s.closing[r] && !s.closed[r] ==> Live(t, s.reported, r) != {})
    // a report is in flight exactly between closing and being noticed
    && s.reports[r] == (if r > 0 && s.closed[r] && !s.reported[r] then 1 else 0)
    && (s.reported[r] ==> s.closed[r])
    // whatever a closing container contains has been asked to close too
    && (r > 0 && s.closing[t.parent[r]] ==> s.closing[r] || r in s.requests)
    // a request from outside is not forgotten
    && (r in s.asked ==> s.closing[r] || r in s.requests)
  }

  /** A container that propagates has reacted to every report it got. */
  ghost predicate Reacted(t: Tree, s: State)
    requires t.Valid() && Sized(t, s)
  {
    forall c: nat :: 0 < c < t.Size() && s.reported[c] && t.propagates[t.parent[c]] ==> s.closing[t.parent[c]]
  }

  ghost predicate Inv(t: Tree, s: State)
    requires t.Valid()
  {
    && Sized(t, s)
    && (forall r: nat :: r < t.Size() ==> NodeInv(t, s, r))
    && Reacted(t, s)
    && (forall r :: r in s.requests || r in s.reports ==> r < t.Size())
    && (s.destroyed ==> s.closed[0])
  }

  lemma StartInv(t: Tree)
    requires t.Valid()
    ensures Inv(t, Start(t))
  {
  }

  lemma CloseInv(t: Tree, s: State, r: nat)
    requires t.Valid() && Sized(t, s) && r < t.Size()
    requires forall q: nat :: q < t.Size() && q != r ==> NodeInv(t, s, q)
    requires NodeInv(t, s.(requests := s.requests + multiset{r}), r)
    requires forall q :: q in s.requests || q in s.reports ==> q < t.Size()
    ensures Sized(t, Close(t, s, r))
    ensures forall q: nat :: q < t.Size() ==> NodeInv(t, Close(t, s, r), q)
    ensures forall q :: q in Close(t, s, r).requests || q in Close(t, s, r).reports ==> q < t.Size()
  {
    var s' := Close(t, s, r);
    forall q: nat | q < t.Size() ensures NodeInv(t, s', q) {
      if q != r {
        assert NodeInv(t, s, q);
      }
    }
  }

  lemma RequestInv(t: Tree, s: State, r: nat)
    requires t.Valid() && Inv(t, s) && Step(t, s, DeliverRequest(r)).Some?
    ensures Inv(t, Step(t, s, DeliverRequest(r)).value)
  {
    StepReacted(t, s, DeliverRequest(r));
    var s1 := s.(requests := s.requests - multiset{r});
    forall q: nat | q < t.Size() && q != r ensures NodeInv(t, s1, q) {
      assert NodeInv(t, s, q);
    }
    assert NodeInv(t, s, r);
    assert s1.requests + multiset{r} == s.requests;
    CloseInv(t, s1, r);
  }

  function Noticed(s: State, c: nat): State
    requires c < |s.reported|
  {
    s.(reports := s.reports - multiset{c}, reported := s.reported[c := true])
  }

  lemma NoticedInv(t: Tree, s: State, c: nat, q: nat)
    requires t.Valid() && Inv(t, s) && 0 < c < t.Size() && c in s.reports
    requires q < t.Size() && q != t.parent[c]
    ensures NodeInv(t, Noticed(s, c), q)
  {
    assert NodeInv(t, s, q) && NodeInv(t, s, c);
    assert Live(t, Noticed(s, c).reported, q) == Live(t, s.reported, q);
  }

  lemma ReportInv(t: Tree, s: State, c: nat)
    requires t.Valid() && Inv(t, s) && Step(t, s, DeliverReport(c)).Some?
    ensures Inv(t, Step(t, s, DeliverReport(c)).value)
  {
    StepReacted(t, s, DeliverReport(c));
    var r := t.parent[c];
    assert NodeInv(t, s, c) && NodeInv(t, s, r);
    assert c in Live(t, s.reported, r);
    var s1 := Noticed(s, c);
    forall q: nat | q < t.Size() && q != r ensures NodeInv(t, s1, q) {
      NoticedInv(t, s, c, q);
    }
    var s' := Step(t, s, DeliverReport(c)).value;
    if s.closing[r] {
      forall q: nat | q < t.Size() ensures NodeInv(t, s', q) {
        if q != r {
          assert NodeInv(t, s1, q);
        }
      }
    } else if t.propagates[r] {
      CloseInv(t, s1, r);
    } else {
      assert NodeInv(t, s', r);
    }
  }

  lemma StepReacted(t: Tree, s: State, a: Action)
    requires t.Valid() && Sized(t, s) && Reacted(t, s) && Step(t, s, a).Some?
    ensures Sized(t, Step(t, s, a).value) && Reacted(t, Step(t, s, a).value)
  {
    match a
    case DeliverRequest(r) => ClosesOn(t, s.(requests := s.requests - multiset{r}), r);
    case DeliverReport(c) => ReportReacted(t, s.(reports := s.reports - multiset{c}), c);
    case _ =>
  }

  /** Closing is never taken back. */
  lemma ClosesOn(t: Tree, s: State, r: nat)
    requires Sized(t, s) && r < t.Size()
    ensures var s' := Close(t, s, r);
      Sized(t, s') && s'.reported == s.reported && s'.closing == s.closing[r := true]
  {
  }

  lemma ReportReacted(t: Tree, s: State, c: nat)
    requires t.Valid() && Sized(t, s) && Reacted(t, s) && 0 < c < t.Size()
    ensures Sized(t, OnClosed(t, s, c)) && Reacted(t, OnClosed(t, s, c))
  {
    var r := t.parent[c];
    var s1, s' := s.(reported := s.reported[c := true]), OnClosed(t, s, c);
    if !s.closing[r] && t.propagates[r] {
      ClosesOn(t, s1, r);
    }
    assert s'.reported == s1.reported && (t.propagates[r] ==> s'.closing[r]);
    assert forall q :: 0 <= q < t.Size() && s.closing[q] ==> s'.closing[q];
  }

  lemma StepInv(t: Tree, s: State, a: Action)
    requires t.Valid() && Inv(t, s) && Step(t, s, a).Some?
    ensures Inv(t, Step(t, s, a).value)
  {
    StepReacted(t, s, a);
    match a
    case Ask(r) =>
      forall q: nat | q < t.Size() ensures NodeInv(t, Step(t, s, a).value, q) {
        assert NodeInv(t, s, q);
      }
    case DeliverRequest(r) => RequestInv(t, s, r);
    case DeliverReport(c) => ReportInv(t, s, c);
    case Destroy =>
      forall q: nat | q < t.Size() ensures NodeInv(t, Step(t, s, a).value, q) {
        assert NodeInv(t, s, q);
      }
  }

  // ----- runs

  ghost function RunAll(t: Tree, s: State, actions: seq<Action>): Option<State>
    requires t.Valid() && Inv(t, s)
    ensures RunAll(t, s, actions).Some? ==> Inv(t, RunAll(t, s, actions).value)
    decreases |actions|
  {
    if actions == [] then Some(s)
    else match Step(t, s, actions[0])
      case None => None
      case Some(s') =>
        StepInv(t, s, actions[0]);
        RunAll(t, s', actions[1..])
  }

  ghost function Result(t: Tree, actions: seq<Action>): Option<State>
    requires t.Valid()
  {
    StartInv(t);
    RunAll(t, Start(t), actions)
  }

  ghost predicate Reachable(t: Tree, s: State)
    requires t.Valid()
  {
    exists actions :: Result(t, actions) == Some(s)
  }

  lemma ReachableInv(t: Tree, s: State)
    requires t.Valid() && Reachable(t, s)
    ensures Inv(t, s)
  {
    var actions :| Result(t, actions) == Some(s);
  }

  // ----- safety

  /** d is r or is contained in it, directly or not. */
  ghost predicate Under(t: Tree, d: nat, r: nat)
    requires t.Valid() && d < t.Size()
  {
    d == r || (d > 0 && Under(t, t.parent[d], r))
  }

  lemma {:induction false} ClosedDown(t: Tree, s: State, d: nat, r: nat)
    requires t.Valid() && Inv(t, s) && d < t.Size() && r < t.Size()
    requires Under(t, d, r) && s.closed[r]
    ensures s.closed[d]
    decreases d
  {
    if d != r {
      ClosedDown(t, s, t.parent[d], r);
      assert NodeInv(t, s, t.parent[d]) && NodeInv(t, s, d);
      assert d !in Live(t, s.reported, t.parent[d]);
    }
  }

  lemma {:induction false} AllUnderRoot(t: Tree, d: nat)
    requires t.Valid() && d < t.Size()
    ensures Under(t, d, 0)
  {
    if d > 0 {
      AllUnderRoot(t, t.parent[d]);
    }
  }

  /** A container is closed only after everything in it; closed implies closing;
      and destroying starts only when the whole tree is closed. */
  lemma ClosedBottomUp(t: Tree, s: State)
    requires t.Valid() && Reachable(t, s)
    ensures Sized(t, s)
    ensures forall d: nat, r: nat :: d < t.Size() && r < t.Size() && s.closed[r] && Under(t, d, r) ==> s.closed[d]
    ensures forall r: nat :: r < t.Size() && s.closed[r] ==> s.closing[r]
    ensures s.destroyed ==> forall d: nat :: d < t.Size() ==> s.closed[d]
  {
    ReachableInv(t, s);
    forall d: nat, r: nat | d < t.Size() && r < t.Size() && s.closed[r] && Under(t, d, r) ensures s.closed[d] {
      ClosedDown(t, s, d, r);
    }
    forall r: nat | r < t.Size() && s.closed[r] ensures s.closing[r] {
      assert NodeInv(t, s, r);
    }
    if s.destroyed {
      forall d: nat | d < t.Size() ensures s.closed[d] {
        AllUnderRoot(t, d);
        ClosedDown(t, s, d, 0);
      }
    }
  }

  /** A report never reaches a container that is closed already, and none is
      sent twice (the assertions of the on_..._closed callbacks). */
  lemma ReportsAreExpected(t: Tree, s: State, c: nat)
    requires t.Valid() && Reachable(t, s) && c in s.reports
    ensures 0 < c < t.Size() && s.reports[c] == 1 && s.closed[c] && !s.reported[c]
    ensures !s.closed[t.parent[c]]
  {
    ReachableInv(t, s);
    assert NodeInv(t, s, c) && NodeInv(t, s, t.parent[c]);
    assert c in Live(t, s.reported, t.parent[c]);
  }

  // ----- nothing closes without a reason

  /** From a, closing climbs to p through containers that all propagate. */
  ghost predicate Climbs(t: Tree, a: nat, p: nat)
    requires t.Valid() && a < t.Size()
  {
    a == p || (a > 0 && t.propagates[t.parent[a]] && Climbs(t, t.parent[a], p))
  }

  ghost predicate Because(t: Tree, asked: set<nat>, r: nat)
    requires t.Valid() && r < t.Size()
  {
    exists a, p :: a in asked && a < t.Size() && Climbs(t, a, p) && Under(t, r, p)
  }

  ghost predicate Explained(t: Tree, s: State)
    requires t.Valid() && Inv(t, s)
  {
    forall r: nat :: r < t.Size() && (s.closing[r] || r in s.requests) ==> Because(t, s.asked, r)
  }

  lemma BecauseDown(t: Tree, asked: set<nat>, c: nat)
    requires t.Valid() && 0 < c < t.Size() && Because(t, asked, t.parent[c])
    ensures Because(t, asked, c)
  {
    var a, p :| a in asked && a < t.Size() && Climbs(t, a, p) && Under(t, t.parent[c], p);
    assert Under(t, c, p);
  }

  lemma {:induction false} ClimbsOn(t: Tree, a: nat, p: nat)
    requires t.Valid() && a < t.Size() && 0 < p < t.Size()
    requires Climbs(t, a, p) && t.propagates[t.parent[p]]
    ensures Climbs(t, a, t.parent[p])
    decreases a
  {
    if a != p {
      ClimbsOn(t, t.parent[a], p);
    }
  }

  lemma BecauseUp(t: Tree, asked: set<nat>, c: nat)
    requires t.Valid() && 0 < c < t.Size() && Because(t, asked, c) && t.propagates[t.parent[c]]
    ensures Because(t, asked, t.parent[c])
  {
    var a: nat, p: nat :| a in asked && a < t.Size() && Climbs(t, a, p) && Under(t, c, p);
    if c == p {
      ClimbsOn(t, a, p);
      assert Under(t, t.parent[c], t.parent[p]);
    } else {
      assert Under(t, t.parent[c], p);
    }
  }

  lemma MoreAsked(t: Tree, asked: set<nat>, more: set<nat>, r: nat)
    requires t.Valid() && r < t.Size() && Because(t, asked, r) && asked <= more
    ensures Because(t, more, r)
  {
    var a, p :| a in asked && a < t.Size() && Climbs(t, a, p) && Under(t, r, p);
    assert a in more;
  }

  lemma CloseExplained(t: Tree, s: State, r: nat, q: nat)
    requires t.Valid() && Sized(t, s) && r < t.Size() && q < t.Size() && Because(t, s.asked, r)
    requires s.closing[q] || q in s.requests ==> Because(t, s.asked, q)
    ensures var s' := Close(t, s, r);
      Sized(t, s') && s'.asked == s.asked && (s'.closing[q] || q in s'.requests ==> Because(t, s.asked, q))
  {
    if q in Live(t, s.reported, r) {
      BecauseDown(t, s.asked, q);
    }
  }

  lemma AskExplained(t: Tree, s: State, r: nat, q: nat)
    requires t.Valid() && Inv(t, s) && Explained(t, s) && r < t.Size() && q < t.Size()
    requires s.closing[q] || q in s.requests || q == r
    ensures Because(t, s.asked + {r}, q)
  {
    if q == r {
      assert Climbs(t, r, r) && Under(t, r, r) && r in s.asked + {r};
    } else {
      MoreAsked(t, s.asked, s.asked + {r}, q);
    }
  }

  lemma ReportExplained(t: Tree, s: State, c: nat, q: nat)
    requires t.Valid() && Inv(t, s) && Explained(t, s) && Step(t, s, DeliverReport(c)).Some? && q < t.Size()
    ensures var s' := Step(t, s, DeliverReport(c)).value;
      Sized(t, s') && s'.asked == s.asked && (s'.closing[q] || q in s'.requests ==> Because(t, s.asked, q))
  {
    assert NodeInv(t, s, c);
    var r := t.parent[c];
    if !s.closing[r] && t.propagates[r] {
      BecauseUp(t, s.asked, c);
      CloseExplained(t, Noticed(s, c), r, q);
    }
  }

  lemma StepExplained(t: Tree, s: State, a: Action)
    requires t.Valid() && Inv(t, s) && Explained(t, s) && Step(t, s, a).Some?
    ensures Inv(t, Step(t, s, a).value) && Explained(t, Step(t, s, a).value)
  {
    StepInv(t, s, a);
    var s' := Step(t, s, a).value;
    forall q: nat | q < t.Size() && (s'.closing[q] || q in s'.requests) ensures Because(t, s'.asked, q) {
      match a
      case Ask(r) => AskExplained(t, s, r, q);
      case DeliverRequest(r) => CloseExplained(t, s.(requests := s.requests - multiset{r}), r, q);
      case DeliverReport(c) => ReportExplained(t, s, c, q);
      case Destroy =>
    }
  }

  lemma {:induction false} RunExplained(t: Tree, s: State, actions: seq<Action>)
    requires t.Valid() && Inv(t, s) && Explained(t, s) && RunAll(t, s, actions).Some?
    ensures Explained(t, RunAll(t, s, actions).value)
    decreases |actions|
  {
    if actions != [] {
      StepExplained(t, s, actions[0]);
      RunExplained(t, Step(t, s, actions[0]).value, actions[1..]);
    }
  }

  /** Whatever is closing is contained in a resource to which some request from
      outside climbs through propagating containers; so an app that does not
      propagate closes only when it was itself asked to. */
  lemma ClosingHasReason(t: Tree, s: State, r: nat)
    requires t.Valid() && Reachable(t, s) && Sized(t, s) && r < t.Size() && s.closing[r]
    ensures Because(t, s.asked, r)
    ensures r == 0 && !t.propagates[0] ==> 0 in s.asked
  {
    StartInv(t);
    var actions :| Result(t, actions) == Some(s);
    RunExplained(t, Start(t), actions);
    if r == 0 && !t.propagates[0] {
      var a, p :| a in s.asked && a < t.Size() && Climbs(t, a, p) && Under(t, r, p);
      NoClimbToRoot(t, a);
    }
  }

  lemma {:induction false} NoClimbToRoot(t: Tree, a: nat)
    requires t.Valid() && a < t.Size() && Climbs(t, a, 0) && !t.propagates[0]
    ensures a == 0
  {
    if a != 0 {
      NoClimbToRoot(t, t.parent[a]);
    }
  }

  // ----- every request to close is carried out

  /** What the runtime may still send on behalf of the first k resources. */
  function Owed(closing: seq<bool>, closed: seq<bool>, k: nat): nat
    requires |closing| == |closed| && k <= |closing|
  {
    if k == 0 then 0
    else
      Owed(closing, closed, k - 1)
      + (if !closing[k - 1] then |closing| + 1 else if !closed[k - 1] then 1 else 0)
  }

  function Measure(s: State): nat
    requires |s.closing| == |s.closed|
  {
    |s.requests| + |s.reports| + Owed(s.closing, s.closed, |s.closing|) + (if s.destroyed then 0 else 1)
  }

  lemma {:induction false} OwedChange(closing: seq<bool>, closed: seq<bool>, r: nat, done: bool, k: nat)
    requires |closing| == |closed| && r < |closing| && k <= |closing| && !closed[r]
    ensures var n := Owed(closing, closed, k);
      var n' := Owed(closing[r := true], closed[r := done], k);
      n' == if k <= r then n else n - (if closing[r] then 1 else |closing| + 1) + (if done then 0 else 1)
  {
    if k > 0 {
      OwedChange(closing, closed, r, done, k - 1);
    }
  }

  function Below(n: nat): (r: set<nat>)
    ensures |r| == n && forall c: nat :: c in r <==> c < n
  {
    if n == 0 then {} else Below(n - 1) + {n - 1}
  }

  lemma LiveBound(t: Tree, reported: seq<bool>, r: nat)
    requires |reported| == t.Size()
    ensures |multiset(Live(t, reported, r))| <= t.Size()
  {
    Subset(Live(t, reported, r), Below(t.Size()));
  }

  lemma {:induction false} Subset(a: set<nat>, b: set<nat>)
    requires a <= b
    ensures |a| <= |b|
    decreases |a|
  {
    if a != {} {
      var x :| x in a;
      Subset(a - {x}, b - {x});
    }
  }

  lemma CloseMeasure(t: Tree, s: State, r: nat)
    requires Sized(t, s) && r < t.Size() && (s.closed[r] ==> s.closing[r])
    ensures Measure(Close(t, s, r)) <= Measure(s)
  {
    if !s.closing[r] {
      LiveBound(t, s.reported, r);
      OwedChange(s.closing, s.closed, r, Live(t, s.reported, r) == {}, t.Size());
      assert s.closed[r := false] == s.closed;
    }
  }

  /** Every delivery brings the flow nearer to its end. */
  lemma StepMeasure(t: Tree, s: State, a: Action)
    requires t.Valid() && Inv(t, s) && Step(t, s, a).Some?
    ensures Sized(t, Step(t, s, a).value)
    ensures if a.Ask? then Measure(Step(t, s, a).value) == Measure(s) + 1
            else Measure(Step(t, s, a).value) < Measure(s)
  {
    match a
    case Ask(r) =>
    case DeliverRequest(r) =>
      assert NodeInv(t, s, r);
      CloseMeasure(t, s.(requests := s.requests - multiset{r}), r);
    case DeliverReport(c) => ReportMeasure(t, s, c);
    case Destroy =>
  }

  lemma ReportMeasure(t: Tree, s: State, c: nat)
    requires t.Valid() && Inv(t, s) && Step(t, s, DeliverReport(c)).Some?
    ensures Sized(t, Step(t, s, DeliverReport(c)).value)
    ensures Measure(Step(t, s, DeliverReport(c)).value) < Measure(s)
  {
    var r := t.parent[c];
    assert NodeInv(t, s, r) && NodeInv(t, s, c) && c in Live(t, s.reported, r);
    var s1 := Noticed(s, c);
    if s.closing[r] {
      OwedChange(s.closing, s.closed, r, true, t.Size());
      assert s.closing[r := true] == s.closing;
    } else if t.propagates[r] {
      CloseMeasure(t, s1, r);
    }
  }

  function Asks(actions: seq<Action>): nat {
    if actions == [] then 0 else (if actions[0].Ask? then 1 else 0) + Asks(actions[1..])
  }

  lemma {:induction false} RunMeasure(t: Tree, s: State, actions: seq<Action>)
    requires t.Valid() && Inv(t, s) && RunAll(t, s, actions).Some?
    ensures |actions| + Measure(RunAll(t, s, actions).value) <= Measure(s) + 2 * Asks(actions)
    decreases |actions|
  {
    if actions != [] {
      StepInv(t, s, actions[0]);
      StepMeasure(t, s, actions[0]);
      RunMeasure(t, Step(t, s, actions[0]).value, actions[1..]);
    }
  }

  /** Nothing is left to deliver. */
  ghost predicate Settled(s: State) {
    s.requests == multiset{} && s.reports == multiset{}
  }

  lemma {:induction false} SettledClosing(t: Tree, s: State, r: nat, d: nat)
    requires t.Valid() && Inv(t, s) && Settled(s) && r < t.Size() && d < t.Size()
    requires s.closing[r] && Under(t, d, r)
    ensures s.closing[d]
    decreases d
  {
    if d != r {
      SettledClosing(t, s, r, t.parent[d]);
      assert NodeInv(t, s, d);
    }
  }

  lemma {:induction false} SettledClosed(t: Tree, s: State, r: nat)
    requires t.Valid() && Inv(t, s) && Settled(s) && r < t.Size() && s.closing[r]
    ensures s.closed[r]
    decreases t.Size() - r
  {
    assert NodeInv(t, s, r);
    forall c | c in Live(t, s.reported, r) ensures false {
      assert NodeInv(t, s, c);
      SettledClosed(t, s, c);
    }
  }

  /** What is settled has closed together: a report climbs to a container that
      propagates, and a closing container takes all it contains with it. */
  lemma {:induction false} SettledClimb(t: Tree, s: State, a: nat, p: nat)
    requires t.Valid() && Inv(t, s) && Settled(s) && a < t.Size() && p < t.Size()
    requires s.closing[a] && Climbs(t, a, p)
    ensures s.closing[p]
    decreases a
  {
    if a != p {
      SettledClosed(t, s, a);
      assert NodeInv(t, s, a);
      SettledClimb(t, s, t.parent[a], p);
    }
  }

  lemma SettledBecause(t: Tree, s: State, r: nat)
    requires t.Valid() && Inv(t, s) && Settled(s) && r < t.Size() && Because(t, s.asked, r)
    ensures s.closed[r]
  {
    var a: nat, p: nat :| a in s.asked && a < t.Size() && Climbs(t, a, p) && Under(t, r, p);
    assert NodeInv(t, s, a);
    ClimbsInside(t, a, p);
    SettledClimb(t, s, a, p);
    SettledClosing(t, s, p, r);
    SettledClosed(t, s, r);
  }

  lemma {:induction false} ClimbsInside(t: Tree, a: nat, p: nat)
    requires t.Valid() && a < t.Size() && Climbs(t, a, p)
    ensures p <= a
  {
    if a != p {
      ClimbsInside(t, t.parent[a], p);
    }
  }

  /** Once nothing is left to deliver, a resource is closed exactly when some
      request from outside climbs to it or to a container of it: no closing
      without a reason, and no reason without closing. */
  lemma ClosedIff(t: Tree, s: State, r: nat)
    requires t.Valid() && Reachable(t, s) && Settled(s) && r < t.Size()
    ensures Sized(t, s) && (s.closed[r] <==> Because(t, s.asked, r))
  {
    ReachableInv(t, s);
    if s.closed[r] {
      assert NodeInv(t, s, r);
      ClosingHasReason(t, s, r);
    }
    if Because(t, s.asked, r) {
      SettledBecause(t, s, r);
    }
  }

  /** In particular a contained resource that closed by itself takes along a
      container that propagates, and leaves any other as it was. */
  lemma PropagatesIff(t: Tree, s: State, c: nat)
    requires t.Valid() && Reachable(t, s) && Settled(s) && 0 < c < t.Size() && s.asked == {c}
    ensures Sized(t, s) && s.closed[c]
    ensures s.closed[t.parent[c]] <==> t.propagates[t.parent[c]]
  {
    var r := t.parent[c];
    ClosedIff(t, s, c);
    ClosedIff(t, s, r);
    assert Climbs(t, c, c) && Under(t, c, c);
    if t.propagates[r] {
      assert Climbs(t, c, r) && Under(t, r, r);
    }
    if Because(t, s.asked, r) {
      var p: nat :| Climbs(t, c, p) && Under(t, r, p);
      UnderInside(t, r, p);
    }
  }

  lemma {:induction false} UnderInside(t: Tree, d: nat, r: nat)
    requires t.Valid() && d < t.Size() && Under(t, d, r)
    ensures r <= d
  {
    if d != r {
      UnderInside(t, t.parent[d], r);
    }
  }

  /** However the deliveries are scheduled, a run is finite, and once nothing is
      left to deliver every resource under one that was asked is closed. */
  lemma {:induction false} AskedTreeCloses(t: Tree, actions: seq<Action>, r: nat)
    requires t.Valid() && Result(t, actions).Some? && Settled(Result(t, actions).value)
    requires r < t.Size() && r in Result(t, actions).value.asked
    ensures var s := Result(t, actions).value;
      Sized(t, s) && forall d: nat :: d < t.Size() && Under(t, d, r) ==> s.closed[d]
    ensures |actions| <= Measure(Start(t)) + 2 * Asks(actions)
  {
    StartInv(t);
    var s := Result(t, actions).value;
    RunMeasure(t, Start(t), actions);
    assert NodeInv(t, s, r);
    forall d: nat | d < t.Size() && Under(t, d, r) ensures s.closed[d] {
      SettledClosing(t, s, r, d);
      SettledClosed(t, s, d);
    }
  }

  /** The runtime can always go on until everything is delivered, so the top of
      an asked tree does get to destroy it. */
  lemma NoDeadlock(t: Tree, s: State)
    requires t.Valid() && Reachable(t, s) && !s.destroyed && Sized(t, s)
    ensures !Settled(s) ==> exists a: Action :: !a.Ask? && !a.Destroy? && Step(t, s, a).Some?
    ensures Settled(s) && 0 in s.asked ==> Step(t, s, Destroy).Some?
  {
    ReachableInv(t, s);
    if s.requests != multiset{} {
      var r :| r in s.requests;
      assert Step(t, s, DeliverRequest(r)).Some?;
    } else if s.reports != multiset{} {
      var c :| c in s.reports;
      assert NodeInv(t, s, c);
      assert Step(t, s, DeliverReport(c)).Some?;
    } else if 0 in s.asked {
      assert NodeInv(t, s, 0);
      SettledClosed(t, s, 0);
    }
  }
}
