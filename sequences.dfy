/** Order-preserving selection: the positions of a sequence whose elements satisfy a
    test, in increasing order. Every filter that the service writes as a `forEach` pushing
    into an array is characterised through these positions. */
module Sequences {

  /** Strictly increasing sequence of indices. */
  predicate Increasing(ps: seq<nat>)
  {
    forall a, b :: 0 <= a < b < |ps| ==> ps[a] < ps[b]
  }

  /** The indices `i` of `s` with `keep(s[i])`, in increasing order. */
  function Positions<T>(s: seq<T>, keep: T -> bool): (ps: seq<nat>)
    ensures forall k :: 0 <= k < |ps| ==> ps[k] < |s| && keep(s[ps[k]])
    decreases |s|
  {
    if s == [] then []
    else
      var init := s[..|s| - 1];
      Positions(init, keep) + (if keep(s[|s| - 1]) then [|s| - 1] else [])
  }

  /** The positions are exactly the kept indices, in strictly increasing order. */
  lemma {:induction false} PositionsExact<T>(s: seq<T>, keep: T -> bool)
    ensures var ps := Positions(s, keep);
      && Increasing(ps)
      && (forall i :: 0 <= i < |s| ==> (i in ps <==> keep(s[i])))
    decreases |s|
  {
    if s != [] {
      var n := |s| - 1;
      var init := s[..n];
      PositionsExact(init, keep);
      var ps0 := Positions(init, keep);
      var ps := Positions(s, keep);
      assert ps == ps0 + (if keep(s[n]) then [n] else []);
      forall i | 0 <= i < |s|
        ensures i in ps <==> keep(s[i])
      {
        if i < n {
          assert s[i] == init[i];
          if i in ps {
            var k :| 0 <= k < |ps| && ps[k] == i;
            assert k < |ps0|;
          }
        }
      }
    }
  }
}
