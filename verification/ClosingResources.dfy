/** The functions of the closing flow as they run, on the flags that they set
    (core/include_internal/ten_runtime/app/close.h). */
module ClosingResources {
  import opened ClosingFlow
  import opened Wrappers

  /** The part of Live below bound, for a loop over the resources. */
  function LiveBelow(t: Tree, reported: seq<bool>, r: nat, bound: nat): set<nat>
    requires |reported| == t.Size()
  {
    set c: nat | c < bound && c < t.Size() && t.parent[c] == r && !reported[c]
  }

  lemma NextLive(t: Tree, reported: seq<bool>, r: nat, c: nat)
    requires |reported| == t.Size() == |t.parent| && c < t.Size()
    ensures LiveBelow(t, reported, r, c + 1) ==
      LiveBelow(t, reported, r, c) + (if t.parent[c] == r && !reported[c] then {c} else {})
    ensures c !in LiveBelow(t, reported, r, c)
  {
  }

  lemma AddOne(q: multiset<nat>, s: set<nat>, c: nat)
    requires c !in s
    ensures q + multiset(s + {c}) == q + multiset(s) + multiset{c}
    ensures s + {} == s
  {
    assert multiset(s + {c}) == multiset(s) + multiset{c};
  }

  class Resources {
    const tree: Tree
    var closing: seq<bool>
    var closed: seq<bool>
    var reported: seq<bool>
    var requests: multiset<nat>
    var reports: multiset<nat>
    ghost var asked: set<nat>
    var destroyed: bool

    ghost function Abs(): State
      reads this
    {
      State(closing, closed, reported, requests, reports, asked, destroyed)
    }

    ghost predicate Valid()
      reads this
    {
      tree.Valid() && Inv(tree, Abs()) && Explained(tree, Abs())
    }

    constructor (tree: Tree)
      requires tree.Valid()
      ensures Valid() && this.tree == tree && Abs() == Start(tree)
    {
      this.tree := tree;
      var no := seq(tree.Size(), _ => false);
      closing, closed, reported := no, no, no;
      requests, reports, asked, destroyed := multiset{}, multiset{}, {}, false;
      new;
      StartInv(tree);
    }

    /** xxx_could_be_close */
    method CouldBeClosed(r: nat) returns (could: bool)
      requires tree.Valid() && Sized(tree, Abs()) && r < tree.Size()
      ensures could <==> Live(tree, reported, r) == {}
    {
      for c := 0 to tree.Size()
        invariant LiveBelow(tree, reported, r, c) == {}
      {
        if tree.parent[c] == r && !reported[c] {
          assert c in Live(tree, reported, r);
          return false;
        }
      }
      assert LiveBelow(tree, reported, r, tree.Size()) == Live(tree, reported, r);
      return true;
    }

    /** xxx_do_close */
    method DoClose(r: nat)
      requires tree.Valid() && Sized(tree, Abs()) && r < tree.Size()
      modifies this
      ensures Abs() == ClosingFlow.DoClose(old(Abs()), r)
    {
      closed := closed[r := true];
      if r != 0 {
        reports := reports + multiset{r};
      }
    }

    /** xxx_on_close */
    method OnClose(r: nat)
      requires tree.Valid() && Sized(tree, Abs()) && r < tree.Size()
      modifies this
      ensures Abs() == ClosingFlow.OnClose(tree, old(Abs()), r)
    {
      var could := CouldBeClosed(r);
      if could {
        DoClose(r);
      }
    }

    /** The contained resources are told one by one. */
    method NotifyContained(r: nat) returns (nothingToDo: bool)
      requires tree.Valid() && Sized(tree, Abs()) && r < tree.Size()
      modifies `requests
      ensures requests == old(requests) + multiset(Live(tree, reported, r))
      ensures nothingToDo <==> Live(tree, reported, r) == {}
    {
      nothingToDo := true;
      for c := 0 to tree.Size()
        invariant unchanged(this`reported)
        invariant requests == old(requests) + multiset(LiveBelow(tree, reported, r, c))
        invariant nothingToDo <==> LiveBelow(tree, reported, r, c) == {}
      {
        NextLive(tree, reported, r, c);
        AddOne(old(requests), LiveBelow(tree, reported, r, c), c);
        if tree.parent[c] == r && !reported[c] {
          requests := requests + multiset{c};
          nothingToDo := false;
        }
      }
      assert LiveBelow(tree, reported, r, tree.Size()) == Live(tree, reported, r);
    }

    /** xxx_close */
    method Close(r: nat)
      requires tree.Valid() && Sized(tree, Abs()) && r < tree.Size()
      modifies this
      ensures Abs() == ClosingFlow.Close(tree, old(Abs()), r)
    {
      if closing[r] {
        return;
      }
      closing := closing[r := true];
      var nothingToDo := NotifyContained(r);
      if nothingToDo {
        OnClose(r);
      }
    }

    /** The container of c learns that c is closed. */
    method OnClosed(c: nat)
      requires tree.Valid() && Sized(tree, Abs()) && 0 < c < tree.Size()
      modifies this
      ensures Abs() == ClosingFlow.OnClosed(tree, old(Abs()), c)
      ensures reported == old(reported)[c := true]
      ensures var r := tree.parent[c];
        closing == if tree.propagates[r] then old(closing)[r := true] else old(closing)
    {
      var r := tree.parent[c];
      reported := reported[c := true];
      if closing[r] {
        OnClose(r);
      } else if tree.propagates[r] {
        Close(r);
      }
    }

    method Perform(a: Action) returns (happened: bool)
      requires tree.Valid() && Sized(tree, Abs())
      modifies this
      ensures if happened then Step(tree, old(Abs()), a) == Some(Abs())
              else Step(tree, old(Abs()), a) == None && Abs() == old(Abs())
    {
      ghost var s := Abs();
      happened := !destroyed;
      if destroyed {
        return;
      }
      match a {
        case Ask(r) =>
          happened := r < tree.Size();
          if happened {
            requests, asked := requests + multiset{r}, asked + {r};
          }
        case DeliverRequest(r) =>
          happened := r < tree.Size() && r in requests;
          if happened {
            requests := requests - multiset{r};
            Close(r);
            assert Step(tree, s, a) == Some(Abs());
          }
        case DeliverReport(c) =>
          happened := 0 < c < tree.Size() && c in reports;
          if happened {
            reports := reports - multiset{c};
            OnClosed(c);
            assert Step(tree, s, a) == Some(Abs());
          }
        case Destroy =>
          happened := closed[0];
          destroyed := closed[0];
      }
    }

    /** One event, if it can happen. */
    method Handle(a: Action) returns (happened: bool)
      requires Valid()
      modifies this
      ensures Valid()
      ensures if happened then Step(tree, old(Abs()), a) == Some(Abs())
              else Step(tree, old(Abs()), a) == None && Abs() == old(Abs())
    {
      ghost var s := Abs();
      happened := Perform(a);
      if happened {
        StepInv(tree, s, a);
        StepExplained(tree, s, a);
      }
    }

    /** Events in any order, those that cannot happen being skipped: nothing is
        closed before what it contains, and if there is nothing left to deliver,
        whatever was asked to close is closed with all it contains, with the
        containers its closing climbs to, and with nothing else. */
    method Run(events: seq<Action>)
      requires Valid()
      modifies this
      ensures Valid()
      ensures forall d: nat, r: nat :: d < tree.Size() && r < tree.Size() && closed[r] && Under(tree, d, r) ==> closed[d]
      ensures destroyed ==> forall d: nat :: d < tree.Size() ==> closed[d]
      ensures Settled(Abs()) ==> forall r: nat, d: nat ::
        r in asked && r < tree.Size() && d < tree.Size() && Under(tree, d, r) ==> closed[d]
      ensures Settled(Abs()) ==> forall r: nat :: r < tree.Size() ==> (closed[r] <==> Because(tree, asked, r))
    {
      for i := 0 to |events|
        invariant Valid()
      {
        var _ := Handle(events[i]);
      }
      forall d: nat, r: nat | d < tree.Size() && r < tree.Size() && closed[r] && Under(tree, d, r) ensures closed[d] {
        ClosedDown(tree, Abs(), d, r);
      }
      if destroyed {
        forall d: nat | d < tree.Size() ensures closed[d] {
          AllUnderRoot(tree, d);
          ClosedDown(tree, Abs(), d, 0);
        }
      }
      if Settled(Abs()) {
        forall r: nat, d: nat | r in asked && r < tree.Size() && d < tree.Size() && Under(tree, d, r) ensures closed[d] {
          assert NodeInv(tree, Abs(), r);
          SettledClosing(tree, Abs(), r, d);
          SettledClosed(tree, Abs(), d);
        }
        forall r: nat | r < tree.Size() ensures closed[r] <==> Because(tree, asked, r) {
          assert NodeInv(tree, Abs(), r);
          if Because(tree, asked, r) {
            SettledBecause(tree, Abs(), r);
          }
        }
      }
    }
  }
}
