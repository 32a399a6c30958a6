/** The ${env:...} placeholders in property values and their replacement
    (processProperty in ai_agents/server/internal/http_server.go). */
module EnvSubstitution {
  import opened Sequences

  const OPEN := "${env:"

  /** The longest prefix that the character class of the pattern accepts. */
  function Span(s: string): (n: nat)
    ensures n <= |s| && forall i :: 0 <= i < n ==> s[i] != '}' && s[i] != '|'
    ensures n < |s| ==> s[n] == '}' || s[n] == '|'
  {
    if s == [] || s[0] == '}' || s[0] == '|' then 0 else 1 + Span(s[1..])
  }

  /** The pattern matches at the start of s. */
  predicate Matches(s: string) {
    OPEN <= s && var n := Span(s[|OPEN|..]);
    n > 0 && |OPEN| + n < |s| && s[|OPEN| + n] == '}'
  }

  function Variable(s: string): (v: string)
    requires Matches(s)
    ensures Name(v) && Placeholder(v) <= s
  {
    s[|OPEN|..][..Span(s[|OPEN|..])]
  }

  /** What can stand for a variable in a placeholder. */
  predicate Name(v: string) {
    v != [] && forall i :: 0 <= i < |v| ==> v[i] != '}' && v[i] != '|'
  }

  function Placeholder(v: string): string {
    OPEN + v + "}"
  }

  /** The variables of the leftmost, non-overlapping matches. */
  function FindAll(s: string): (vs: seq<string>)
    ensures forall v :: v in vs ==> Name(v)
    decreases |s|
  {
    if s == [] then []
    else if Matches(s) then [Variable(s)] + FindAll(s[|Placeholder(Variable(s))|..])
    else FindAll(s[1..])
  }

  /** strings.ReplaceAll for a non-empty old text. */
  function ReplaceAll(s: string, old_: string, new_: string): string
    requires old_ != []
    decreases |s|
  {
    if s == [] then []
    else if old_ <= s then new_ + ReplaceAll(s[|old_|..], old_, new_)
    else [s[0]] + ReplaceAll(s[1..], old_, new_)
  }

  // ----- what the handler does

  /** The value after the matches of s in vs, in order: every supplied one
      replaces in the original text, so the last one decides. */
  function AfterMatches(s: string, vs: seq<string>, env: map<string, string>): string
    requires forall v :: v in vs ==> Name(v)
  {
    if vs == [] then s
    else
      var last := vs[|vs| - 1];
      if last in env then ReplaceAll(s, Placeholder(last), env[last]) else AfterMatches(s, vs[..|vs| - 1], env)
  }

  function Substituted(s: string, env: map<string, string>): string {
    AfterMatches(s, FindAll(s), env)
  }

  /** The last match of a supplied variable decides alone: its placeholder is
      replaced in the original text, and every other one stays. */
  lemma {:induction false} LastSuppliedWins(s: string, vs: seq<string>, env: map<string, string>, k: nat)
    requires (forall v :: v in vs ==> Name(v)) && IsLastSupplied(vs, env, k)
    ensures AfterMatches(s, vs, env) == ReplaceAll(s, Placeholder(vs[k]), env[vs[k]])
    decreases |vs|
  {
    var n := |vs| - 1;
    if k < n {
      LastSuppliedWins(s, vs[..n], env, k);
    }
  }

  lemma {:induction false} NoneSupplied(s: string, vs: seq<string>, env: map<string, string>)
    requires (forall v :: v in vs ==> Name(v)) && forall j :: 0 <= j < |vs| ==> vs[j] !in env
    ensures AfterMatches(s, vs, env) == s
    decreases |vs|
  {
    if vs != [] {
      NoneSupplied(s, vs[..|vs| - 1], env);
    }
  }

  predicate IsLastSupplied(vs: seq<string>, env: map<string, string>, k: int) {
    0 <= k < |vs| && vs[k] in env && forall j :: k < j < |vs| ==> vs[j] !in env
  }

  method Substitute(strVal: string, env: map<string, string>) returns (newValue: string)
    ensures newValue == Substituted(strVal, env)
    ensures forall k :: IsLastSupplied(FindAll(strVal), env, k) ==>
      newValue == ReplaceAll(strVal, Placeholder(FindAll(strVal)[k]), env[FindAll(strVal)[k]])
    ensures (forall v :: v in FindAll(strVal) ==> v !in env) ==> newValue == strVal
  {
    newValue := strVal;
    var matches := FindAll(strVal);
    for i := 0 to |matches|
      invariant newValue == AfterMatches(strVal, matches[..i], env)
    {
      var variable := matches[i];
      assert matches[..i + 1][..i] == matches[..i];
      if variable in env {
        newValue := ReplaceAll(strVal, Placeholder(variable), env[variable]);
      }
    }
    assert matches[..|matches|] == matches;
    forall k | IsLastSupplied(matches, env, k)
      ensures newValue == ReplaceAll(strVal, Placeholder(matches[k]), env[matches[k]])
    {
      LastSuppliedWins(strVal, matches, env, k);
    }
    if forall v :: v in matches ==> v !in env {
      NoneSupplied(strVal, matches, env);
    }
  }

  // ----- what the placeholders promise

  /** Every placeholder whose variable is supplied is replaced, all else stays. */
  function Render(s: string, env: map<string, string>): string
    decreases |s|
  {
    if s == [] then []
    else if Matches(s) then
      var v := Variable(s);
      (if v in env then env[v] else Placeholder(v)) + Render(s[|Placeholder(v)|..], env)
    else [s[0]] + Render(s[1..], env)
  }

  // ----- occurrences of a placeholder and matches of the pattern

  lemma SpanOf(v: string, rest: string)
    requires Name(v)
    ensures Span(v + "}" + rest) == |v|
  {
    var s := v + "}" + rest;
    assert s[|v|] == '}';
    assert forall j :: 0 <= j < |v| ==> s[j] == v[j];
  }

  lemma OccurrenceMatches(s: string, v: string)
    requires Name(v) && Placeholder(v) <= s
    ensures Matches(s) && Variable(s) == v
  {
    var rest := s[|Placeholder(v)|..];
    assert s == OPEN + (v + "}" + rest);
    assert s[|OPEN|..] == v + "}" + rest;
    SpanOf(v, rest);
  }

  predicate EndsWith(s: string, t: string) {
    |t| <= |s| && s[|s| - |t|..] == t
  }

  /** A placeholder that starts inside a match ends where the match ends: the
      only closing brace of either is its last character. */
  lemma OccurrenceEnds(s: string, v: string, i: nat)
    requires Matches(s) && Name(v) && i < |Placeholder(Variable(s))| && Placeholder(v) <= s[i..]
    ensures i + |Placeholder(v)| == |Placeholder(Variable(s))|
  {
    var m, p := Placeholder(Variable(s)), Placeholder(v);
    var last := |m| - 1;
    assert s[last] == '}';
    assert forall j :: 0 <= j < last ==> s[j] == m[j] != '}';
    assert forall j :: 0 <= j < |p| - 1 ==> p[j] != '}';
    assert forall j :: 0 <= j < |p| ==> s[i + j] == s[i..][j] == p[j];
    assert s[i + |p| - 1] == '}';
    assert last - i < |p| ==> p[last - i] == '}';
  }

  /** So it is the match itself or a proper tail of it. */
  lemma OccurrenceInside(s: string, v: string, i: nat)
    requires Matches(s) && Name(v) && i < |Placeholder(Variable(s))| && Placeholder(v) <= s[i..]
    ensures i == 0 ==> Variable(s) == v
    ensures i > 0 ==> EndsWith(Variable(s), OPEN + v)
  {
    OccurrenceEnds(s, v, i);
    var w := Variable(s);
    var m, p, t := Placeholder(w), Placeholder(v), OPEN + v;
    var last := |m| - 1;
    assert s[i..|m|] == p;
    assert m == s[..|m|];
    if i == 0 {
      assert m == p;
      assert w == m[|OPEN|..last] == p[|OPEN|..last] == v;
    } else {
      assert s[i] == p[0] == '$';
      assert forall j :: 0 < j < |OPEN| ==> s[j] == OPEN[j] != '$';
      assert w == m[|OPEN|..last];
      assert w[|w| - |t|..] == m[i..last] == p[..|p| - 1] == t;
    }
  }

  lemma NoOccurrenceInside(s: string, v: string)
    requires Matches(s) && Name(v) && Variable(s) != v && !EndsWith(Variable(s), OPEN + v)
    ensures forall i :: 0 <= i < |Placeholder(Variable(s))| ==> !(Placeholder(v) <= s[i..])
  {
    forall i | 0 <= i < |Placeholder(Variable(s))| ensures !(Placeholder(v) <= s[i..]) {
      if Placeholder(v) <= s[i..] {
        OccurrenceInside(s, v, i);
      }
    }
  }

  /** Text in which old_ starts nowhere is copied. */
  lemma {:induction false} ReplaceAllCopies(s: string, n: nat, old_: string, new_: string)
    requires old_ != [] && n <= |s| && forall i :: 0 <= i < n ==> !(old_ <= s[i..])
    ensures ReplaceAll(s, old_, new_) == s[..n] + ReplaceAll(s[n..], old_, new_)
  {
    if n > 0 {
      NoneInRest(s, n, old_);
      ReplaceAllCopies(s[1..], n - 1, old_, new_);
      DropTwice(s, 1, n - 1);
      assert s[..n] == [s[0]] + s[1..][..n - 1];
      Assoc([s[0]], s[1..][..n - 1], ReplaceAll(s[n..], old_, new_));
    }
  }

  lemma NoneInRest(s: string, n: nat, old_: string)
    requires 0 < n <= |s| && forall i :: 0 <= i < n ==> !(old_ <= s[i..])
    ensures !(old_ <= s) && forall i :: 0 <= i < n - 1 ==> !(old_ <= s[1..][i..])
  {
    assert s[0..] == s;
    forall i | 0 <= i < n - 1 ensures !(old_ <= s[1..][i..]) {
      assert s[1..][i..] == s[i + 1..];
    }
  }

  // ----- what is found and what is replaced

  /** The pattern matches where a placeholder starts, and nowhere else. */
  lemma MatchesIff(s: string)
    ensures Matches(s) <==> exists v: string :: v != "" && '}' !in v && '|' !in v && "${env:" + v + "}" <= s
    ensures forall v: string :: v != "" && '}' !in v && '|' !in v && "${env:" + v + "}" <= s ==> Variable(s) == v
  {
    assert forall v :: Name(v) <==> v != "" && '}' !in v && '|' !in v;
    if Matches(s) {
      assert Name(Variable(s)) && Placeholder(Variable(s)) <= s;
    }
    forall v | Name(v) && Placeholder(v) <= s ensures Matches(s) && Variable(s) == v {
      OccurrenceMatches(s, v);
    }
  }

  /** The matches are found from the left, each search going on behind the match. */
  lemma {:induction false} FindAllFirst(s: string, i: nat)
    requires i < |s| && Matches(s[i..]) && forall j :: 0 <= j < i ==> !Matches(s[j..])
    ensures var v := Variable(s[i..]); FindAll(s) == [v] + FindAll(s[i..][|Placeholder(v)|..])
    decreases i
  {
    assert s[0..] == s;
    if i > 0 {
      assert forall j :: 0 <= j < i ==> s[1..][j..] == s[j + 1..];
      assert s[1..][i - 1..] == s[i..];
      FindAllFirst(s[1..], i - 1);
    }
  }

  lemma {:induction false} FindAllNone(s: string)
    requires forall j :: 0 <= j < |s| ==> !Matches(s[j..])
    ensures FindAll(s) == []
    decreases |s|
  {
    if s != [] {
      assert s[0..] == s;
      assert forall j :: 0 <= j < |s| - 1 ==> s[1..][j..] == s[j + 1..];
      FindAllNone(s[1..]);
    }
  }

  /** So are the occurrences that are replaced. */
  lemma ReplaceAllFirst(s: string, i: nat, old_: string, new_: string)
    requires old_ != [] && i <= |s| && old_ <= s[i..] && forall j :: 0 <= j < i ==> !(old_ <= s[j..])
    ensures ReplaceAll(s, old_, new_) == s[..i] + (new_ + ReplaceAll(s[i..][|old_|..], old_, new_))
  {
    ReplaceAllCopies(s, i, old_, new_);
  }

  // ----- when the two agree

  /** All supplied variables of the value are the same one, and no other
      placeholder of the value contains its placeholder. */
  predicate Unambiguous(s: string, supplied: set<string>) {
    forall v, w :: v in FindAll(s) && v in supplied && w in FindAll(s) && w != v ==>
      w !in supplied && !EndsWith(w, OPEN + v)
  }

  /** v is the only supplied variable and hides in no other placeholder. */
  predicate Only(vs: seq<string>, v: string, env: map<string, string>) {
    && Name(v) && v in env
    && forall w :: w in vs && w != v ==> w !in env && !EndsWith(w, OPEN + v)
  }

  lemma {:induction false} RenderNone(s: string, env: map<string, string>)
    requires forall v :: v in FindAll(s) ==> v !in env
    ensures Render(s, env) == s
    decreases |s|
  {
    if s != [] {
      if Matches(s) {
        var v := Variable(s);
        var rest := s[|Placeholder(v)|..];
        assert FindAll(s) == [v] + FindAll(rest);
        RenderNone(rest, env);
        assert s == Placeholder(v) + rest;
      } else {
        RenderNone(s[1..], env);
      }
    }
  }

  lemma {:induction false} RenderOnly(s: string, v: string, env: map<string, string>)
    requires Only(FindAll(s), v, env)
    ensures ReplaceAll(s, Placeholder(v), env[v]) == Render(s, env)
    decreases |s|
  {
    if s == [] {
    } else if Matches(s) {
      var w := Variable(s);
      var n := |Placeholder(w)|;
      assert w in FindAll(s);
      RenderOnly(s[n..], v, env);
      if w != v {
        NoOccurrenceInside(s, v);
        ReplaceAllCopies(s, n, Placeholder(v), env[v]);
        assert s[..n] == Placeholder(w);
      }
    } else {
      if Placeholder(v) <= s {
        OccurrenceMatches(s, v);
      }
      RenderOnly(s[1..], v, env);
    }
  }

  lemma {:induction false} AfterMatchesLast(s: string, vs: seq<string>, env: map<string, string>)
    requires forall v :: v in vs ==> Name(v)
    ensures (forall v :: v in vs ==> v !in env) ==> AfterMatches(s, vs, env) == s
    ensures forall v :: v in vs && Only(vs, v, env) ==>
      AfterMatches(s, vs, env) == ReplaceAll(s, Placeholder(v), env[v])
  {
    if vs != [] {
      var n := |vs| - 1;
      AfterMatchesLast(s, vs[..n], env);
      forall v | v in vs && Only(vs, v, env)
        ensures AfterMatches(s, vs, env) == ReplaceAll(s, Placeholder(v), env[v])
      {
        if vs[n] != v {
          assert vs == vs[..n] + [vs[n]];
          assert v in vs[..n];
          assert Only(vs[..n], v, env);
        }
      }
    }
  }

  lemma UnambiguousIsComplete(s: string, env: map<string, string>)
    requires Unambiguous(s, env.Keys)
    ensures Substituted(s, env) == Render(s, env)
  {
    var vs := FindAll(s);
    AfterMatchesLast(s, vs, env);
    if v :| v in vs && v in env {
      assert Only(vs, v, env);
      RenderOnly(s, v, env);
    } else {
      RenderNone(s, env);
    }
  }

  // ----- when they do not

  /** A longer value of a variable that occurs makes a longer rendering. */
  lemma {:induction false} RenderGrows(s: string, env: map<string, string>, u: string, x: string)
    requires u in env && |x| > |env[u]|
    ensures |Render(s, env[u := x])| >= |Render(s, env)|
    ensures u in FindAll(s) ==> |Render(s, env[u := x])| > |Render(s, env)|
    decreases |s|
  {
    if s != [] {
      RenderGrows(s[if Matches(s) then |Placeholder(Variable(s))| else 1..], env, u, x);
    }
  }

  lemma {:induction false} LastDecides(s: string, vs: seq<string>, env: map<string, string>, v: string)
    requires forall w :: w in vs ==> Name(w)
    requires v in vs && v in env
    ensures exists last :: last in vs && last in env && (forall env': map<string, string> ::
      env'.Keys == env.Keys && env'[last] == env[last] ==> AfterMatches(s, vs, env') == AfterMatches(s, vs, env))
  {
    var n := |vs| - 1;
    if vs[n] !in env {
      assert vs == vs[..n] + [vs[n]];
      LastDecides(s, vs[..n], env, v);
      var last :| last in vs[..n] && last in env && (forall env': map<string, string> ::
        env'.Keys == env.Keys && env'[last] == env[last] ==>
          AfterMatches(s, vs[..n], env') == AfterMatches(s, vs[..n], env));
      assert last in vs;
    }
  }

  function Blank(keys: set<string>): map<string, string> {
    map k | k in keys :: ""
  }

  /** Two supplied variables: the result ignores the value of one of them. */
  lemma TwoSuppliedFails(s: string, supplied: set<string>, v: string, w: string)
    requires v in FindAll(s) && w in FindAll(s) && v in supplied && w in supplied && v != w
    ensures exists env: map<string, string> :: env.Keys == supplied && Substituted(s, env) != Render(s, env)
  {
    var env := Blank(supplied);
    LastDecides(s, FindAll(s), env, v);
    var last :| last in FindAll(s) && last in env && (forall env': map<string, string> ::
      env'.Keys == env.Keys && env'[last] == env[last] ==> Substituted(s, env') == Substituted(s, env));
    var u := if last == v then w else v;
    var env' := env[u := "x"];
    assert env'.Keys == supplied;
    RenderGrows(s, env, u, "x");
  }

  /** Deleting all occurrences deletes at least the matches, and more when one
      occurrence hides in another placeholder. */
  lemma {:induction false} HiddenIsDeleted(s: string, v: string, env: map<string, string>)
    requires Name(v) && v in env && env[v] == ""
    requires forall w :: w in FindAll(s) && w in env ==> w == v
    ensures |ReplaceAll(s, Placeholder(v), "")| <= |Render(s, env)|
    ensures (exists w :: w in FindAll(s) && w != v && EndsWith(w, OPEN + v)) ==>
      |ReplaceAll(s, Placeholder(v), "")| < |Render(s, env)|
    decreases |s|
  {
    var p := Placeholder(v);
    if s == [] {
    } else if Matches(s) {
      var w := Variable(s);
      var n := |Placeholder(w)|;
      assert FindAll(s) == [w] + FindAll(s[n..]);
      HiddenIsDeleted(s[n..], v, env);
      if w != v {
        MatchDeleted(s, v);
      }
    } else {
      if p <= s {
        OccurrenceMatches(s, v);
      }
      HiddenIsDeleted(s[1..], v, env);
    }
  }

  lemma TailOfMatch(s: string, v: string)
    requires Matches(s) && EndsWith(Variable(s), OPEN + v)
    ensures var n := |Placeholder(Variable(s))|;
      var k := n - |Placeholder(v)|;
      0 < k && Placeholder(v) <= s[k..] && s[k..][|Placeholder(v)|..] == s[n..]
  {
    var w, p := Variable(s), Placeholder(v);
    var before, rest := w[..|w| - |OPEN + v|], s[|Placeholder(w)|..];
    assert w == before + (OPEN + v);
    assert Placeholder(w) == (OPEN + before) + p by {
      Assoc(OPEN, before, OPEN + v);
      Assoc(OPEN + before, OPEN + v, "}");
    }
    assert s == Placeholder(w) + rest;
    Assoc(OPEN + before, p, rest);
    TailOfSum(OPEN + before, p + rest);
    TailOfSum(p, rest);
  }

  /** What is left of a match of another variable. */
  lemma TailDeleted(s: string, v: string)
    requires Matches(s) && Name(v) && Variable(s) != v && EndsWith(Variable(s), OPEN + v)
    ensures var n := |Placeholder(Variable(s))|;
      |ReplaceAll(s, Placeholder(v), "")| < n + |ReplaceAll(s[n..], Placeholder(v), "")|
  {
    var p, n := Placeholder(v), |Placeholder(Variable(s))|;
    var k := n - |p|;
    TailOfMatch(s, v);
    OneDeleted(s[k..], p);
    assert ReplaceAll(s, p, "") == s[..k] + ReplaceAll(s[k..], p, "") by {
      NotBeforeTail(s, v);
      ReplaceAllCopies(s, k, p, "");
    }
  }

  lemma OneDeleted(t: string, p: string)
    requires p != [] && p <= t
    ensures ReplaceAll(t, p, "") == ReplaceAll(t[|p|..], p, "")
  {
  }

  lemma NotBeforeTail(s: string, v: string)
    requires Matches(s) && Name(v)
    ensures forall i :: 0 <= i < |Placeholder(Variable(s))| - |Placeholder(v)| ==> !(Placeholder(v) <= s[i..])
  {
    forall i | 0 <= i < |Placeholder(Variable(s))| - |Placeholder(v)| ensures !(Placeholder(v) <= s[i..]) {
      if Placeholder(v) <= s[i..] {
        OccurrenceEnds(s, v, i);
      }
    }
  }

  lemma {:induction false} MatchDeleted(s: string, v: string)
    requires Matches(s) && Name(v) && Variable(s) != v
    ensures var n := |Placeholder(Variable(s))|;
      var rest := |ReplaceAll(s[n..], Placeholder(v), "")|;
      var all := |ReplaceAll(s, Placeholder(v), "")|;
      if EndsWith(Variable(s), OPEN + v) then all < n + rest else all == n + rest
  {
    var p, n := Placeholder(v), |Placeholder(Variable(s))|;
    if EndsWith(Variable(s), OPEN + v) {
      TailDeleted(s, v);
    } else {
      NoOccurrenceInside(s, v);
      ReplaceAllCopies(s, n, p, "");
    }
  }

  lemma HiddenFails(s: string, supplied: set<string>, v: string, w: string)
    requires v in FindAll(s) && w in FindAll(s) && v in supplied && w != v && EndsWith(w, OPEN + v)
    requires forall u :: u in FindAll(s) && u in supplied ==> u == v
    ensures exists env: map<string, string> :: env.Keys == supplied && Substituted(s, env) != Render(s, env)
  {
    var env := Blank(supplied);
    OnlySupplied(s, FindAll(s), env, v);
    HiddenIsDeleted(s, v, env);
  }

  lemma {:induction false} OnlySupplied(s: string, vs: seq<string>, env: map<string, string>, v: string)
    requires forall w :: w in vs ==> Name(w)
    requires v in vs && v in env && forall w :: w in vs && w in env ==> w == v
    ensures AfterMatches(s, vs, env) == ReplaceAll(s, Placeholder(v), env[v])
  {
    var n := |vs| - 1;
    if vs[n] != v {
      assert vs == vs[..n] + [vs[n]];
      OnlySupplied(s, vs[..n], env, v);
    }
  }

  /** The substitution is complete for all values of the supplied variables
      exactly when the property value is unambiguous for them. */
  lemma CompleteIffUnambiguous(s: string, supplied: set<string>)
    ensures (forall env: map<string, string> :: env.Keys == supplied ==> Substituted(s, env) == Render(s, env))
      <==> Unambiguous(s, supplied)
  {
    if Unambiguous(s, supplied) {
      forall env: map<string, string> | env.Keys == supplied ensures Substituted(s, env) == Render(s, env) {
        UnambiguousIsComplete(s, env);
      }
    } else {
      var v, w :| v in FindAll(s) && v in supplied && w in FindAll(s) && w != v
        && (w in supplied || EndsWith(w, OPEN + v));
      if u :| u in FindAll(s) && u in supplied && u != v {
        TwoSuppliedFails(s, supplied, v, u);
      } else {
        HiddenFails(s, supplied, v, w);
      }
    }
  }
}
