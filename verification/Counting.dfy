/** How many elements of a sequence satisfy a predicate. */
module Counting {

  function Count<X>(p: X -> bool, s: seq<X>): nat {
    if s == [] then 0 else (if p(s[0]) then 1 else 0) + Count(p, s[1..])
  }

  lemma {:induction false} CountBound<X>(p: X -> bool, s: seq<X>)
    ensures Count(p, s) <= |s|
    ensures (exists i :: 0 <= i < |s| && !p(s[i])) ==> Count(p, s) < |s|
  {
    if s != [] {
      CountBound(p, s[1..]);
      if i :| 0 <= i < |s| && !p(s[i]) {
        if i > 0 {
          assert !p(s[1..][i - 1]);
        }
      }
    }
  }

  lemma {:induction false} CountUpdate<X>(p: X -> bool, s: seq<X>, i: nat, x: X)
    requires i < |s|
    ensures Count(p, s[i := x]) == Count(p, s) - (if p(s[i]) then 1 else 0) + (if p(x) then 1 else 0)
  {
    var updated := s[i := x];
    if i == 0 {
      assert updated[1..] == s[1..];
    } else {
      assert updated[1..] == s[1..][i - 1 := x];
      CountUpdate(p, s[1..], i - 1, x);
    }
  }

  lemma {:induction false} CountNone<X>(p: X -> bool, n: nat, x: X)
    requires !p(x)
    ensures Count(p, seq(n, _ => x)) == 0
  {
    if n > 0 {
      assert seq(n, _ => x)[1..] == seq(n - 1, _ => x);
      CountNone(p, n - 1, x);
    }
  }
}
