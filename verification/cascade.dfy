/** An if/elif chain of keyword tests as data: rules read top-down, the first that fires wins. */
module Cascade {

  /** A test on the (lower-cased) text and the outcome it selects. */
  datatype Rule<I> = Rule(fires: string -> bool, outcome: I)

  predicate Fires<I>(rules: seq<Rule<I>>, l: string, k: int) {
    0 <= k < |rules| && rules[k].fires(l)
  }

  /** `r` is what a top-down reading of `rules` on `l` selects. */
  ghost predicate Selects<I>(rules: seq<Rule<I>>, l: string, fallback: I, r: I) {
    && ((forall k :: !Fires(rules, l, k)) ==> r == fallback)
    && ((exists k :: Fires(rules, l, k)) ==>
          exists k :: Fires(rules, l, k) && r == rules[k].outcome && forall j :: 0 <= j < k ==> !Fires(rules, l, j))
  }

  /** The outcome of the first rule that fires on `l`, or `fallback` when none does. */
  function FirstMatch<I>(rules: seq<Rule<I>>, l: string, fallback: I): (r: I)
    ensures Selects(rules, l, fallback, r)
  {
    if |rules| == 0 then fallback
    else if rules[0].fires(l) then
      assert Fires(rules, l, 0);
      rules[0].outcome
    else
      var r := FirstMatch(rules[1..], l, fallback);
      SelectsPastFirst(rules, l, fallback, r);
      r
  }

  /** When the first rule does not fire, selecting from the rest is selecting from all. */
  lemma SelectsPastFirst<I>(rules: seq<Rule<I>>, l: string, fallback: I, r: I)
    requires |rules| > 0 && !rules[0].fires(l)
    requires Selects(rules[1..], l, fallback, r)
    ensures Selects(rules, l, fallback, r)
  {
    assert forall k :: Fires(rules[1..], l, k) <==> Fires(rules, l, k + 1);
    if exists k :: Fires(rules, l, k) {
      var k0 :| Fires(rules, l, k0);
      assert Fires(rules[1..], l, k0 - 1);
      var k :| Fires(rules[1..], l, k) && r == rules[1..][k].outcome && forall j :: 0 <= j < k ==> !Fires(rules[1..], l, j);
      assert Fires(rules, l, k + 1) && rules[k + 1].outcome == r;
      forall j | 0 <= j < k + 1 ensures !Fires(rules, l, j) {
        if 0 < j { assert !Fires(rules[1..], l, j - 1); }
      }
    } else {
      forall k ensures !Fires(rules[1..], l, k) {
        assert !Fires(rules, l, k + 1);
      }
    }
  }
}
