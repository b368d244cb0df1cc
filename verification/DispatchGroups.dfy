/** Dispatch groups: for each group of generic parameters the targets that a
    declaration is instantiated with, and the operations on them. */
module DispatchGroups {

  /** A generic argument, as far as parameters can be mentioned in it. */
  datatype Arg =
    | Path(global: bool, segments: seq<string>, nested: seq<Arg>)
    | Other(text: string, nested: seq<Arg>)

  type Target = seq<Arg>

  /** One entry of the map from parameter lists to targets. */
  datatype Group = Group(params: seq<string>, targets: seq<Target>)

  /** The entries of the map in iteration order. */
  type Groups = seq<Group>

  /** A parameter list together with the target chosen for it. */
  datatype Selection = Selection(params: seq<string>, target: Target)

  // ---------- well-formed groups ----------

  predicate Distinct(params: seq<string>) {
    forall i, j :: 0 <= i < j < |params| ==> params[i] != params[j]
  }

  function ParamSet(params: seq<string>): set<string> {
    set i | 0 <= i < |params| :: params[i]
  }

  function ParamsOf(gs: Groups): (params: set<string>)
    ensures forall i :: 0 <= i < |gs| ==> ParamSet(gs[i].params) <= params
  {
    if |gs| == 0 then {} else ParamSet(gs[0].params) + ParamsOf(gs[1..])
  }

  /** Parameters do not repeat, in a group or across groups, and every target gives
      each parameter of its group one argument. */
  predicate GroupValid(g: Group) {
    |g.params| > 0 && Distinct(g.params) && forall t :: t in g.targets ==> |t| == |g.params|
  }

  predicate Valid(gs: Groups) {
    |gs| == 0 || (GroupValid(gs[0]) && Valid(gs[1..]) && ParamSet(gs[0].params) !! ParamsOf(gs[1..]))
  }

  // ---------- the Cartesian product ----------

  /** Every choice of one target per group, in lexicographic order of target numbers. */
  function Choices(gs: Groups): seq<seq<nat>>
    decreases |gs|, 1
  {
    if |gs| == 0 then [[]] else ChoicesFrom(gs, 0)
  }

  function ChoicesFrom(gs: Groups, first: nat): seq<seq<nat>>
    requires |gs| > 0 && first <= |gs[0].targets|
    decreases |gs|, 0, |gs[0].targets| - first
  {
    if first == |gs[0].targets| then []
    else Prefixed(first, Choices(gs[1..])) + ChoicesFrom(gs, first + 1)
  }

  function Prefixed(first: nat, rest: seq<seq<nat>>): (choices: seq<seq<nat>>)
    ensures |choices| == |rest|
  {
    seq(|rest|, i requires 0 <= i < |rest| => [first] + rest[i])
  }

  predicate IsChoice(gs: Groups, choice: seq<nat>) {
    |choice| == |gs| && forall i :: 0 <= i < |gs| ==> choice[i] < |gs[i].targets|
  }

  function Pick(gs: Groups, choice: seq<nat>): seq<Selection>
    requires IsChoice(gs, choice)
  {
    seq(|gs|, i requires 0 <= i < |gs| => Selection(gs[i].params, gs[i].targets[choice[i]]))
  }

  /** The first difference decides. */
  predicate Before(a: seq<nat>, b: seq<nat>) {
    exists i :: 0 <= i < |a| && i < |b| && a[i] < b[i] && a[..i] == b[..i]
  }

  predicate Increasing(choices: seq<seq<nat>>) {
    forall i, j :: 0 <= i < j < |choices| ==> Before(choices[i], choices[j])
  }

  lemma {:induction false} ChoicesAreComplete(gs: Groups, choice: seq<nat>)
    ensures choice in Choices(gs) <==> IsChoice(gs, choice)
    decreases |gs|, 1
  {
    if |gs| > 0 {
      ChoicesFromAreComplete(gs, 0, choice);
    }
  }

  lemma {:induction false} ChoicesFromAreComplete(gs: Groups, first: nat, choice: seq<nat>)
    requires |gs| > 0 && first <= |gs[0].targets|
    ensures choice in ChoicesFrom(gs, first) <==> IsChoice(gs, choice) && first <= choice[0]
    decreases |gs|, 0, |gs[0].targets| - first
  {
    if first < |gs[0].targets| {
      var rest := Choices(gs[1..]);
      ChoicesFromAreComplete(gs, first + 1, choice);
      if |choice| > 0 {
        ChoicesAreComplete(gs[1..], choice[1..]);
        assert choice == [choice[0]] + choice[1..];
      }
      if choice in Prefixed(first, rest) {
        var i :| 0 <= i < |rest| && Prefixed(first, rest)[i] == choice;
        assert choice[0] == first && choice[1..] == rest[i];
      }
      if IsChoice(gs, choice) && choice[0] == first {
        assert choice[1..] in rest;
        var i :| 0 <= i < |rest| && rest[i] == choice[1..];
        assert Prefixed(first, rest)[i] == choice;
      }
    }
  }

  lemma {:induction false} ChoicesIncrease(gs: Groups)
    ensures Increasing(Choices(gs))
    decreases |gs|, 1
  {
    if |gs| > 0 {
      ChoicesFromIncrease(gs, 0);
    }
  }

  lemma BeforePrefixed(first: nat, a: seq<nat>, b: seq<nat>)
    requires Before(a, b)
    ensures Before([first] + a, [first] + b)
  {
    var i :| 0 <= i < |a| && i < |b| && a[i] < b[i] && a[..i] == b[..i];
    var x, y := [first] + a, [first] + b;
    assert x[..i + 1] == [first] + a[..i] && y[..i + 1] == [first] + b[..i];
    assert x[i + 1] < y[i + 1] && x[..i + 1] == y[..i + 1];
  }

  lemma {:induction false} ChoicesFromIncrease(gs: Groups, first: nat)
    requires |gs| > 0 && first <= |gs[0].targets|
    ensures Increasing(ChoicesFrom(gs, first))
    decreases |gs|, 0, |gs[0].targets| - first
  {
    if first < |gs[0].targets| {
      var rest := Choices(gs[1..]);
      var head, tail := Prefixed(first, rest), ChoicesFrom(gs, first + 1);
      ChoicesIncrease(gs[1..]);
      ChoicesFromIncrease(gs, first + 1);
      var all := head + tail;
      forall i, j | 0 <= i < j < |all| ensures Before(all[i], all[j]) {
        if j < |head| {
          BeforePrefixed(first, rest[i], rest[j]);
        } else if i < |head| {
          assert all[j] in tail;
          ChoicesFromAreComplete(gs, first + 1, all[j]);
          assert all[i][..0] == all[j][..0];
        } else {
          assert Before(tail[i - |head|], tail[j - |head|]);
        }
      }
    }
  }

  /** Enumeration hands the callback every combination once, in lexicographic order;
      without groups there is exactly one combination, the empty one. */
  lemma EnumerationIsProduct(gs: Groups)
    ensures forall choice :: choice in Choices(gs) <==> IsChoice(gs, choice)
    ensures Increasing(Choices(gs)) && forall i, j :: 0 <= i < j < |Choices(gs)| ==> Choices(gs)[i] != Choices(gs)[j]
    ensures |gs| == 0 ==> Choices(gs) == [[]]
  {
    forall choice ensures choice in Choices(gs) <==> IsChoice(gs, choice) { ChoicesAreComplete(gs, choice); }
    ChoicesIncrease(gs);
  }

  function Combinations(gs: Groups): seq<seq<Selection>>
    decreases |gs|, 1
  {
    if |gs| == 0 then [[]] else CombinationsFrom(gs, 0)
  }

  function CombinationsFrom(gs: Groups, first: nat): seq<seq<Selection>>
    requires |gs| > 0 && first <= |gs[0].targets|
    decreases |gs|, 0, |gs[0].targets| - first
  {
    if first == |gs[0].targets| then []
    else Onto([Selection(gs[0].params, gs[0].targets[first])], Combinations(gs[1..])) + CombinationsFrom(gs, first + 1)
  }

  function Onto(stack: seq<Selection>, rest: seq<seq<Selection>>): (calls: seq<seq<Selection>>)
    ensures |calls| == |rest|
  {
    seq(|rest|, i requires 0 <= i < |rest| => stack + rest[i])
  }

  /** The combinations are the picked choices, in the same order. */
  lemma {:induction false} CombinationsArePicked(gs: Groups)
    ensures |Combinations(gs)| == |Choices(gs)|
    ensures forall i :: 0 <= i < |Choices(gs)| ==>
      IsChoice(gs, Choices(gs)[i]) && Combinations(gs)[i] == Pick(gs, Choices(gs)[i])
    decreases |gs|, 1
  {
    if |gs| == 0 {
      assert Pick(gs, []) == [];
    } else {
      CombinationsFromArePicked(gs, 0);
    }
  }

  lemma {:induction false} CombinationsFromArePicked(gs: Groups, first: nat)
    requires |gs| > 0 && first <= |gs[0].targets|
    ensures var choices, combos := ChoicesFrom(gs, first), CombinationsFrom(gs, first);
            |combos| == |choices|
            && forall i :: 0 <= i < |choices| ==> IsChoice(gs, choices[i]) && combos[i] == Pick(gs, choices[i])
    decreases |gs|, 0, |gs[0].targets| - first
  {
    if first < |gs[0].targets| {
      CombinationsArePicked(gs[1..]);
      CombinationsFromArePicked(gs, first + 1);
      var rest, combos := Choices(gs[1..]), Combinations(gs[1..]);
      forall i | 0 <= i < |rest|
        ensures IsChoice(gs, [first] + rest[i])
        ensures [Selection(gs[0].params, gs[0].targets[first])] + combos[i] == Pick(gs, [first] + rest[i])
      {
        var choice := [first] + rest[i];
        forall k | 0 <= k < |gs| ensures choice[k] < |gs[k].targets| {
          assert k > 0 ==> gs[k] == gs[1..][k - 1] && choice[k] == rest[i][k - 1];
        }
      }
    }
  }

  /** The stack that enumeration pushes selections on, and the calls it has made. */
  class Enumerator {
    var selections: seq<Selection>
    var calls: seq<seq<Selection>>

    constructor ()
      ensures selections == [] && calls == []
    {
      selections, calls := [], [];
    }

    method Visit(gs: Groups)
      modifies this
      ensures selections == old(selections)
      ensures calls == old(calls) + Onto(old(selections), Combinations(gs))
      decreases |gs|
    {
      if |gs| == 0 {
        calls := calls + [selections];
        assert selections + [] == selections;
        return;
      }
      var g := gs[0];
      ghost var stack, before := selections, calls;
      for i := 0 to |g.targets|
        invariant selections == stack
        invariant calls + Onto(stack, CombinationsFrom(gs, i)) == before + Onto(stack, CombinationsFrom(gs, 0))
      {
        VisitTarget(stack, calls, gs, i);
        selections := selections + [Selection(g.params, g.targets[i])];
        Visit(gs[1..]);
        selections := selections[..|selections| - 1];
      }
    }
  }

  lemma VisitTarget(stack: seq<Selection>, calls: seq<seq<Selection>>, gs: Groups, i: nat)
    requires |gs| > 0 && i < |gs[0].targets|
    ensures calls + Onto(stack, CombinationsFrom(gs, i)) ==
      calls + Onto(stack + [Selection(gs[0].params, gs[0].targets[i])], Combinations(gs[1..])) +
        Onto(stack, CombinationsFrom(gs, i + 1))
  {
    var top, rest, more :=
      [Selection(gs[0].params, gs[0].targets[i])], Combinations(gs[1..]), CombinationsFrom(gs, i + 1);
    assert CombinationsFrom(gs, i) == Onto(top, rest) + more;
    forall k | 0 <= k < |rest| ensures stack + (top + rest[k]) == stack + top + rest[k] {}
    assert Onto(stack, Onto(top, rest) + more) == Onto(stack + top, rest) + Onto(stack, more);
  }

  method ForEachCombination(gs: Groups) returns (calls: seq<seq<Selection>>)
    ensures calls == Combinations(gs)
  {
    var e := new Enumerator();
    e.Visit(gs);
    calls := e.calls;
    forall i | 0 <= i < |Combinations(gs)| ensures [] + Combinations(gs)[i] == Combinations(gs)[i] {}
    assert Onto([], Combinations(gs)) == Combinations(gs);
  }
}
