/**
 * `get_scale` of oh_sched/match.py: one multiplier per slot name, the product of the
 * multipliers of every pattern whose regular expression is found in that name.
 *
 * The regular expression engine is not modelled: `search(pattern, name)` stands for
 * `re.search(pattern, name)` returning a match.
 */
module Scaling {

  /** `re.search(regex, text)` is not None. */
  type Search = (string, string) -> bool

  /** One item of `scale_dict`, in the dictionary's order. */
  datatype Rule = Rule(pattern: string, mult: real)

  /** The rules whose pattern is found in `name`, in order. */
  function Matching(rules: seq<Rule>, name: string, search: Search): seq<Rule> {
    if rules == [] then []
    else
      var last := rules[|rules| - 1];
      Matching(rules[..|rules| - 1], name, search) + (if search(last.pattern, name) then [last] else [])
  }

  /** Matching keeps exactly the rules whose pattern is found in the name. */
  lemma {:induction false} MatchingMembers(rules: seq<Rule>, name: string, search: Search)
    ensures forall r :: r in Matching(rules, name, search) <==> r in rules && search(r.pattern, name)
  {
    if rules != [] {
      var n := |rules| - 1;
      MatchingMembers(rules[..n], name, search);
      assert rules == rules[..n] + [rules[n]];
    }
  }

  /** The product of the multipliers of `rs`, taken in order from 1. */
  function Product(rs: seq<Rule>): real {
    if rs == [] then 1.0 else Product(rs[..|rs| - 1]) * rs[|rs| - 1].mult
  }

  /** The multiplier of one name: the product of the multipliers of the rules it matches. */
  function Factor(rules: seq<Rule>, name: string, search: Search): real {
    Product(Matching(rules, name, search))
  }

  lemma MatchingStep(rules: seq<Rule>, k: nat, name: string, search: Search)
    requires k < |rules|
    ensures Matching(rules[..k + 1], name, search) ==
      Matching(rules[..k], name, search) + (if search(rules[k].pattern, name) then [rules[k]] else [])
  {
    assert rules[..k + 1][..k] == rules[..k];
  }

  /** One more rule that matches multiplies the factor (`v`) by its multiplier. */
  lemma FactorStepHit(rules: seq<Rule>, k: nat, name: string, search: Search, v: real)
    requires k < |rules| && search(rules[k].pattern, name) && v == Factor(rules[..k], name, search)
    ensures Factor(rules[..k + 1], name, search) == v * rules[k].mult
  {
    var m := Matching(rules[..k], name, search);
    MatchingStep(rules, k, name, search);
    assert (m + [rules[k]])[..|m|] == m;
  }

  /** One more rule that does not match keeps the factor. */
  lemma FactorStepMiss(rules: seq<Rule>, k: nat, name: string, search: Search)
    requires k < |rules| && !search(rules[k].pattern, name)
    ensures Factor(rules[..k + 1], name, search) == Factor(rules[..k], name, search)
  {
    var m := Matching(rules[..k], name, search);
    MatchingStep(rules, k, name, search);
    assert m + [] == m;
  }

  /** A name that no pattern matches matches no rule and keeps the factor 1. */
  lemma {:induction false} FactorNoMatch(rules: seq<Rule>, name: string, search: Search)
    requires forall i :: 0 <= i < |rules| ==> !search(rules[i].pattern, name)
    ensures Matching(rules, name, search) == [] && Factor(rules, name, search) == 1.0
  {
    if rules != [] {
      var n := |rules| - 1;
      assert forall i :: 0 <= i < n ==> rules[..n][i] == rules[i];
      FactorNoMatch(rules[..n], name, search);
    }
  }

  /**
   * `get_scale(oh_list, scale_dict)`: a buffer of ones, then for every rule and every name
   * the rule matches, that name's entry (and no other) is multiplied by the rule's multiplier.
   */
  method GetScale(names: seq<string>, rules: seq<Rule>, search: Search) returns (scale: seq<real>)
    ensures |scale| == |names|
    ensures forall i :: 0 <= i < |names| ==> scale[i] == Factor(rules, names[i], search)
  {
    var buf := new real[|names|](_ => 1.0);
    var k := 0;
    while k < |rules|
      invariant 0 <= k <= |rules|
      invariant forall i :: 0 <= i < buf.Length ==> buf[i] == Factor(rules[..k], names[i], search)
    {
      var rule := rules[k];
      var i := 0;
      while i < |names|
        invariant 0 <= i <= |names|
        invariant forall j :: 0 <= j < i ==> buf[j] == Factor(rules[..k + 1], names[j], search)
        invariant forall j :: i <= j < buf.Length ==> buf[j] == Factor(rules[..k], names[j], search)
      {
        ghost var before := buf[..];
        if search(rule.pattern, names[i]) {
          FactorStepHit(rules, k, names[i], search, buf[i]);
          buf[i] := buf[i] * rule.mult;
        } else {
          FactorStepMiss(rules, k, names[i], search);
        }
        assert buf[i] == Factor(rules[..k + 1], names[i], search);
        assert forall j :: 0 <= j < |names| && j != i ==> buf[j] == before[j];
        i := i + 1;
      }
      k := k + 1;
    }
    assert rules[..k] == rules;
    scale := buf[..];
  }
}
