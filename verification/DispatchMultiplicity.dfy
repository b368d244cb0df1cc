/** How often `static_bindings` yields each assignment, and what each returned pair
    keeps of every group. */
module DispatchMultiplicity {
  import opened DispatchGroups
  import opened DispatchBindings

  // ---------- how often combinations give an assignment ----------

  function Times(calls: seq<seq<Selection>>, m: Assignment): nat {
    if |calls| == 0 then 0 else (if Given(calls[0]) == m then 1 else 0) + Times(calls[1..], m)
  }

  /** How many of the calls give `m` together with `x`. */
  function TimesWith(x: Assignment, calls: seq<seq<Selection>>, m: Assignment): nat {
    if |calls| == 0 then 0 else (if x + Given(calls[0]) == m then 1 else 0) + TimesWith(x, calls[1..], m)
  }

  /** How many pairs of a static and a dynamic call give `m`. */
  function TimesBoth(left: seq<seq<Selection>>, right: seq<seq<Selection>>, m: Assignment): nat {
    if |left| == 0 then 0 else TimesWith(Given(left[0]), right, m) + TimesBoth(left[1..], right, m)
  }

  function TimesAll(bs: seq<Binding>, m: Assignment): nat {
    if |bs| == 0 then 0
    else TimesBoth(Combinations(bs[0].statics), Combinations(bs[0].dynamics), m) + TimesAll(bs[1..], m)
  }

  /** Groups without dynamic parameters keep each target once. */
  function CollapsedTargets(g: Group, statics: set<string>): seq<Target> {
    if |Keep(g.params, g.params, ParamSet(g.params) - statics)| == 0 then Unique(g.targets) else g.targets
  }

  function Collapsed(gs: Groups, statics: set<string>): (cs: Groups)
    ensures |cs| == |gs|
  {
    if |gs| == 0 then []
    else [Group(gs[0].params, CollapsedTargets(gs[0], statics))] + Collapsed(gs[1..], statics)
  }

  // ---------- counting group by group ----------

  /** How many targets give the parameters what `m` gives them. */
  function Matches(params: seq<string>, ts: seq<Target>, m: Assignment): nat {
    if |ts| == 0 then 0
    else (if Assign(params, ts[0]) == Restrict(m, ParamSet(params)) then 1 else 0) + Matches(params, ts[1..], m)
  }

  function Product(gs: Groups, m: Assignment): nat {
    if |gs| == 0 then 1 else Matches(gs[0].params, gs[0].targets, m) * Product(gs[1..], m)
  }

  lemma {:induction false} MatchesConcat(params: seq<string>, a: seq<Target>, b: seq<Target>, m: Assignment)
    ensures Matches(params, a + b, m) == Matches(params, a, m) + Matches(params, b, m)
  {
    hide Assign, Restrict, ParamSet;
    if |a| == 0 {
      assert a + b == b;
    } else {
      MatchesConcat(params, a[1..], b, m);
      assert (a + b)[1..] == a[1..] + b;
    }
  }

  lemma MatchesOne(params: seq<string>, t: Target, m: Assignment)
    ensures Matches(params, [t], m) == if Assign(params, t) == Restrict(m, ParamSet(params)) then 1 else 0
  {
    hide Assign, Restrict, ParamSet;
  }

  lemma RestrictTwice(m: Assignment, p: set<string>, q: set<string>)
    ensures p <= q ==> Restrict(Restrict(m, q), p) == Restrict(m, p)
  {
  }

  lemma {:induction false} MatchesRestricted(params: seq<string>, ts: seq<Target>, m: Assignment, q: set<string>)
    requires ParamSet(params) <= q
    ensures Matches(params, ts, Restrict(m, q)) == Matches(params, ts, m)
  {
    RestrictTwice(m, ParamSet(params), q);
    hide Assign, Restrict, ParamSet;
    if |ts| > 0 { MatchesRestricted(params, ts[1..], m, q); }
  }

  lemma {:induction false} ProductRestricted(gs: Groups, m: Assignment, q: set<string>)
    requires ParamsOf(gs) <= q
    ensures Product(gs, Restrict(m, q)) == Product(gs, m)
  {
    if |gs| > 0 {
      MatchesRestricted(gs[0].params, gs[0].targets, m, q);
      ProductRestricted(gs[1..], m, q);
    }
  }

  /** Every call of the list gives exactly these parameters. */
  predicate AllGive(calls: seq<seq<Selection>>, q: set<string>) {
    forall i :: 0 <= i < |calls| ==> Given(calls[i]).Keys == q
  }

  lemma CombinationsGive(gs: Groups)
    requires Valid(gs)
    ensures AllGive(Combinations(gs), ParamsOf(gs))
  {
    AssignmentsOfCombinations(gs);
    AssignmentKeys(gs);
    hide Given, Assignments, Combinations, ParamsOf, Valid;
    forall i | 0 <= i < |Combinations(gs)| ensures Given(Combinations(gs)[i]).Keys == ParamsOf(gs) {
      InGiven(Combinations(gs), i);
    }
  }

  lemma SumIsSplit(x: Assignment, y: Assignment, m: Assignment, p: set<string>, q: set<string>)
    requires x.Keys == p && y.Keys == q && p !! q && m.Keys == p + q
    ensures x + y == m <==> x == Restrict(m, p) && y == Restrict(m, q)
  {
    assert Restrict(m, p) + Restrict(m, q) == m;
    assert Restrict(x + y, p) == x && Restrict(x + y, q) == y;
  }

  lemma {:induction false} TimesWithSplits(x: Assignment, calls: seq<seq<Selection>>, m: Assignment, p: set<string>,
      q: set<string>)
    requires x.Keys == p && AllGive(calls, q) && p !! q && m.Keys == p + q
    ensures TimesWith(x, calls, m) == if x == Restrict(m, p) then Times(calls, Restrict(m, q)) else 0
  {
    if |calls| > 0 {
      assert Given(calls[0]).Keys == q && AllGive(calls[1..], q);
      SumIsSplit(x, Given(calls[0]), m, p, q);
      hide Given, Restrict, AllGive;
      TimesWithSplits(x, calls[1..], m, p, q);
    }
  }

  lemma {:induction false} TimesBothSplits(left: seq<seq<Selection>>, right: seq<seq<Selection>>, m: Assignment,
      p: set<string>, q: set<string>)
    requires AllGive(left, p) && AllGive(right, q) && p !! q && m.Keys == p + q
    ensures TimesBoth(left, right, m) == Times(left, Restrict(m, p)) * Times(right, Restrict(m, q))
  {
    if |left| > 0 {
      assert Given(left[0]).Keys == p && AllGive(left[1..], p);
      TimesWithSplits(Given(left[0]), right, m, p, q);
      TimesBothSplits(left[1..], right, m, p, q);
      hide Given, Restrict, AllGive;
      var first := if Given(left[0]) == Restrict(m, p) then 1 else 0;
      Distributes(first, Times(left[1..], Restrict(m, p)), Times(right, Restrict(m, q)));
    }
  }

  lemma {:induction false} TimesOnto(top: Selection, rest: seq<seq<Selection>>, m: Assignment)
    ensures Times(Onto([top], rest), m) == TimesWith(Assign(top.params, top.target), rest, m)
  {
    if |rest| > 0 {
      TimesOnto(top, rest[1..], m);
      assert Onto([top], rest)[1..] == Onto([top], rest[1..]);
      assert ([top] + rest[0])[1..] == rest[0];
    }
  }

  lemma {:induction false} TimesConcat(a: seq<seq<Selection>>, b: seq<seq<Selection>>, m: Assignment)
    ensures Times(a + b, m) == Times(a, m) + Times(b, m)
  {
    hide Given;
    if |a| == 0 {
      assert a + b == b;
    } else {
      TimesConcat(a[1..], b, m);
      assert (a + b)[1..] == a[1..] + b;
    }
  }

  /** The number of combinations that give `m` is the product of the numbers of matching targets. */
  lemma {:induction false} TimesIsProduct(gs: Groups, m: Assignment)
    requires Valid(gs) && m.Keys == ParamsOf(gs)
    ensures Times(Combinations(gs), m) == Product(gs, m)
    decreases |gs|, 1
  {
    if |gs| == 0 {
      var one: seq<seq<Selection>> := [[]];
      assert m == map[] && Combinations(gs) == one && Given([]) == map[];
      assert Times(one, m) == 1 by { assert one[1..] == []; }
    } else {
      TimesFromIsProduct(gs, 0, m);
      assert gs[0].targets[0..] == gs[0].targets;
    }
  }

  lemma {:induction false} TimesFromIsProduct(gs: Groups, first: nat, m: Assignment)
    requires |gs| > 0 && Valid(gs) && m.Keys == ParamsOf(gs) && first <= |gs[0].targets|
    ensures Times(CombinationsFrom(gs, first), m) ==
      Matches(gs[0].params, gs[0].targets[first..], m) * Product(gs[1..], m)
    decreases |gs|, 0, |gs[0].targets| - first
  {
    hide *;
    if first < |gs[0].targets| {
      TimesFromIsProduct(gs, first + 1, m);
      TimesOfFirst(gs, first, m);
      FirstAndLater(gs, first, m);
      Distributes(Matches(gs[0].params, [gs[0].targets[first]], m),
        Matches(gs[0].params, gs[0].targets[first + 1..], m), Product(gs[1..], m));
    } else {
      NothingLater(gs, first, m);
    }
  }

  lemma Distributes(a: int, b: int, c: int)
    ensures (a + b) * c == a * c + b * c
  {
  }

  lemma NothingLater(gs: Groups, first: nat, m: Assignment)
    requires |gs| > 0 && first == |gs[0].targets|
    ensures Times(CombinationsFrom(gs, first), m) == 0 && Matches(gs[0].params, gs[0].targets[first..], m) == 0
  {
  }

  lemma FirstAndLater(gs: Groups, first: nat, m: Assignment)
    requires |gs| > 0 && first < |gs[0].targets|
    ensures var params, targets := gs[0].params, gs[0].targets;
            && Times(CombinationsFrom(gs, first), m) ==
                 Times(Onto([Selection(params, targets[first])], Combinations(gs[1..])), m) +
                 Times(CombinationsFrom(gs, first + 1), m)
            && Matches(params, targets[first..], m) ==
                 Matches(params, [targets[first]], m) + Matches(params, targets[first + 1..], m)
  {
    var params, targets := gs[0].params, gs[0].targets;
    assert targets[first..] == [targets[first]] + targets[first + 1..];
    var here, later :=
      Onto([Selection(params, targets[first])], Combinations(gs[1..])), CombinationsFrom(gs, first + 1);
    assert CombinationsFrom(gs, first) == here + later;
    hide *;
    TimesConcat(here, later, m);
    MatchesConcat(params, [targets[first]], targets[first + 1..], m);
  }

  /** The combinations that begin with one target. */
  lemma TimesOfFirst(gs: Groups, first: nat, m: Assignment)
    requires |gs| > 0 && Valid(gs) && m.Keys == ParamsOf(gs) && first < |gs[0].targets|
    ensures Times(Onto([Selection(gs[0].params, gs[0].targets[first])], Combinations(gs[1..])), m) ==
      Matches(gs[0].params, [gs[0].targets[first]], m) * Product(gs[1..], m)
    decreases |gs|, 0, 0
  {
    var g, t, rest := gs[0], gs[0].targets[first], gs[1..];
    var p, q := ParamSet(g.params), ParamsOf(rest);
    assert t in g.targets && GroupValid(g) && Valid(rest) && p !! q;
    AssignKeys(g.params, t);
    assert Restrict(m, q).Keys == q;
    hide *;
    TimesOnto(Selection(g.params, t), Combinations(rest), m);
    CombinationsGive(rest);
    TimesWithSplits(Assign(g.params, t), Combinations(rest), m, p, q);
    TimesIsProduct(rest, Restrict(m, q));
    ProductRestricted(rest, m, q);
    MatchesOne(g.params, t, m);
  }

  // ---------- counting binding by binding ----------

  function Weight(b: Binding, m: Assignment): nat {
    Product(b.statics, m) * Product(b.dynamics, m)
  }

  function WeightAll(bs: seq<Binding>, m: Assignment): nat {
    if |bs| == 0 then 0 else Weight(bs[0], m) + WeightAll(bs[1..], m)
  }

  lemma RestrictKeys(m: Assignment, p: set<string>)
    requires p <= m.Keys
    ensures Restrict(m, p).Keys == p
  {
  }

  lemma TimesOfBinding(b: Binding, m: Assignment, params: set<string>)
    requires BindingValid(b, params) && m.Keys == params
    ensures TimesBoth(Combinations(b.statics), Combinations(b.dynamics), m) == Weight(b, m)
  {
    hide *;
    hide Weight;
    BindingUnfolds(b, params);
    var p, q := ParamsOf(b.statics), ParamsOf(b.dynamics);
    CombinationsGive(b.statics);
    CombinationsGive(b.dynamics);
    TimesBothSplits(Combinations(b.statics), Combinations(b.dynamics), m, p, q);
    RestrictKeys(m, p);
    RestrictKeys(m, q);
    TimesIsProduct(b.statics, Restrict(m, p));
    TimesIsProduct(b.dynamics, Restrict(m, q));
    ProductRestricted(b.statics, m, p);
    ProductRestricted(b.dynamics, m, q);
    WeightUnfolds(b, m);
  }

  lemma WeightUnfolds(b: Binding, m: Assignment)
    ensures Weight(b, m) == Product(b.statics, m) * Product(b.dynamics, m)
  {
  }

  lemma {:induction false} TimesOfBindings(bs: seq<Binding>, m: Assignment, params: set<string>)
    requires AllValid(bs, params) && m.Keys == params
    ensures TimesAll(bs, m) == WeightAll(bs, m)
  {
    hide BindingValid, Weight, TimesBoth, Combinations;
    if |bs| > 0 {
      TimesOfBinding(bs[0], m, params);
      TimesOfBindings(bs[1..], m, params);
    }
  }

  lemma Swaps(a: int, b: int, c: int)
    ensures a * (b * c) == b * (a * c)
  {
  }

  lemma {:induction false} ProductOfPut(gs: Groups, g: Group, m: Assignment)
    requires GroupValid(g) && ParamSet(g.params) !! ParamsOf(gs)
    ensures Product(Put(gs, g), m) == Matches(g.params, g.targets, m) * Product(gs, m)
  {
    hide Matches, KeyLess;
    if |gs| == 0 || KeyLess(g.params, gs[0].params) {
      assert ([g] + gs)[1..] == gs;
    } else {
      assert g.params[0] in ParamSet(g.params) && gs[0].params != g.params;
      ProductOfPut(gs[1..], g, m);
      assert Put(gs, g)[1..] == Put(gs[1..], g);
      Swaps(Matches(gs[0].params, gs[0].targets, m), Matches(g.params, g.targets, m), Product(gs[1..], m));
    }
  }

  lemma {:induction false} ProductOfCombined(a: Groups, b: Groups, m: Assignment)
    requires Valid(a) && Valid(b) && ParamsOf(a) !! ParamsOf(b)
    ensures Product(Combined(a, b), m) == Product(a, m) * Product(b, m)
    decreases |b|
  {
    if |b| > 0 {
      assert GroupValid(b[0]) && Valid(b[1..]) && ParamSet(b[0].params) !! ParamsOf(b[1..]);
      assert ParamsOf(b) == ParamSet(b[0].params) + ParamsOf(b[1..]) &&
        Combined(a, b) == Combined(Put(a, b[0]), b[1..]);
      assert Product(b, m) == Matches(b[0].params, b[0].targets, m) * Product(b[1..], m);
      hide *;
      PutIsCross(a, b[0]);
      ProductOfPut(a, b[0], m);
      ProductOfCombined(Put(a, b[0]), b[1..], m);
      Rotates(Matches(b[0].params, b[0].targets, m), Product(a, m), Product(b[1..], m));
    }
  }

  lemma Rotates(a: int, b: int, c: int)
    ensures (a * b) * c == b * (a * c)
  {
    assert (a * b) * c == (b * a) * c;
  }

  lemma WeightOfJoined(l: Binding, r: Binding, p: set<string>, q: set<string>, m: Assignment)
    requires BindingValid(l, p) && BindingValid(r, q) && p !! q
    ensures Weight(Joined(l, r), m) == Weight(l, m) * Weight(r, m)
  {
    hide *;
    BindingUnfolds(l, p);
    BindingUnfolds(r, q);
    JoinedUnfolds(l, r);
    ProductOfCombined(l.statics, r.statics, m);
    ProductOfCombined(l.dynamics, r.dynamics, m);
    WeightUnfolds(l, m);
    WeightUnfolds(r, m);
    WeightUnfolds(Joined(l, r), m);
    FourFactors(Product(l.statics, m), Product(r.statics, m), Product(l.dynamics, m), Product(r.dynamics, m));
  }

  lemma FourFactors(a: int, b: int, c: int, d: int)
    ensures (a * b) * (c * d) == (a * c) * (b * d)
  {
    Swaps(b, c, d);
    assert (a * b) * (c * d) == a * (b * (c * d));
    assert (a * c) * (b * d) == a * (c * (b * d));
  }

  lemma {:induction false} WeightOfConcat(a: seq<Binding>, b: seq<Binding>, m: Assignment)
    ensures WeightAll(a + b, m) == WeightAll(a, m) + WeightAll(b, m)
  {
    hide Weight;
    if |a| == 0 {
      assert a + b == b;
    } else {
      WeightOfConcat(a[1..], b, m);
      assert (a + b)[1..] == a[1..] + b;
    }
  }

  lemma PairsOfFirst(l: Binding, right: seq<Binding>)
    requires |right| > 0
    ensures PairsOf(l, right)[0] == Joined(l, right[0]) && PairsOf(l, right)[1..] == PairsOf(l, right[1..])
  {
    hide Combined;
  }

  lemma {:induction false} WeightOfPairsOf(l: Binding, right: seq<Binding>, p: set<string>, q: set<string>,
      m: Assignment)
    requires BindingValid(l, p) && AllValid(right, q) && p !! q
    ensures WeightAll(PairsOf(l, right), m) == Weight(l, m) * WeightAll(right, m)
  {
    hide BindingValid, Weight, PairsOf, Joined;
    if |right| > 0 {
      WeightOfPairsOf(l, right[1..], p, q, m);
      WeightOfJoined(l, right[0], p, q, m);
      PairsOfFirst(l, right);
      Distributes(Weight(right[0], m), WeightAll(right[1..], m), Weight(l, m));
    }
  }

  lemma {:induction false} WeightOfPairs(left: seq<Binding>, right: seq<Binding>, p: set<string>, q: set<string>,
      m: Assignment)
    requires AllValid(left, p) && AllValid(right, q) && p !! q
    ensures WeightAll(Pairs(left, right), m) == WeightAll(left, m) * WeightAll(right, m)
  {
    hide BindingValid, Weight, PairsOf;
    if |left| > 0 {
      WeightOfPairsOf(left[0], right, p, q, m);
      WeightOfPairs(left[1..], right, p, q, m);
      WeightOfConcat(PairsOf(left[0], right), Pairs(left[1..], right), m);
      Distributes(Weight(left[0], m), WeightAll(left[1..], m), WeightAll(right, m));
    }
  }

  // ---------- the bindings of one group ----------

  /** A target matches exactly if its static and its dynamic part do. */
  lemma MatchesSplit(params: seq<string>, t: Target, statics: set<string>, m: Assignment)
    requires |t| == |params| && Distinct(params)
    ensures var others := ParamSet(params) - statics;
            Matches(params, [t], m) ==
              Matches(Keep(params, params, statics), [Keep(params, t, statics)], m) *
              Matches(Keep(params, params, others), [Keep(params, t, others)], m)
  {
    var all := ParamSet(params);
    var others := all - statics;
    var sp, dp, s, d :=
      Keep(params, params, statics), Keep(params, params, others), Keep(params, t, statics), Keep(params, t, others);
    KeepNames(params, statics);
    KeepNames(params, others);
    KeepAssigns(params, t, statics);
    KeepAssigns(params, t, others);
    AssignKeys(params, t);
    MatchesOne(params, t, m);
    MatchesOne(sp, s, m);
    MatchesOne(dp, d, m);
    hide *;
    RestrictSplits(Assign(params, t), m, all, statics);
    assert all * others == others;
  }

  lemma RestrictSplits(x: Assignment, m: Assignment, all: set<string>, statics: set<string>)
    requires x.Keys == all
    ensures x == Restrict(m, all) <==>
      Restrict(x, statics) == Restrict(m, all * statics) && Restrict(x, all - statics) == Restrict(m, all - statics)
  {
    var here, there := Restrict(m, all * statics), Restrict(m, all - statics);
    assert here + there == Restrict(m, all);
    assert Restrict(x, statics) + Restrict(x, all - statics) == x;
    if x == Restrict(m, all) {
      assert Restrict(x, statics) == here;
      assert Restrict(x, all - statics) == there;
    }
  }

  /** What the bindings of the given static parts count to. */
  function SumOf(params: seq<string>, ts: seq<Target>, statics: set<string>, parts: seq<Target>, m: Assignment): nat {
    if |parts| == 0 then 0
    else
      Matches(Keep(params, params, statics), [parts[0]], m) *
        Matches(Keep(params, params, ParamSet(params) - statics), DynamicOf(params, ts, statics, parts[0]), m) +
      SumOf(params, ts, statics, parts[1..], m)
  }

  lemma {:induction false} SumOfNothing(params: seq<string>, statics: set<string>, parts: seq<Target>, m: Assignment)
    ensures SumOf(params, [], statics, parts, m) == 0
  {
    hide Keep, ParamSet;
    if |parts| > 0 { SumOfNothing(params, statics, parts[1..], m); }
  }

  lemma DynamicOfMore(params: seq<string>, ts: seq<Target>, t: Target, statics: set<string>, part: Target,
      m: Assignment)
    ensures var dp := Keep(params, params, ParamSet(params) - statics);
            Matches(dp, DynamicOf(params, ts + [t], statics, part), m) ==
              Matches(dp, DynamicOf(params, ts, statics, part), m) +
              if Keep(params, t, statics) != part then 0
              else Matches(dp, [Keep(params, t, ParamSet(params) - statics)], m)
  {
    hide Keep, ParamSet, Matches;
    var others := ParamSet(params) - statics;
    var all := ts + [t];
    assert all[..|all| - 1] == ts && all[|all| - 1] == t;
    MatchesConcat(Keep(params, params, others), DynamicOf(params, ts, statics, part), [Keep(params, t, others)], m);
  }

  lemma {:induction false} SumOfMore(params: seq<string>, ts: seq<Target>, t: Target, statics: set<string>,
      parts: seq<Target>, m: Assignment)
    requires |t| == |params| && Distinct(params) && forall i, j :: 0 <= i < j < |parts| ==> parts[i] != parts[j]
    ensures SumOf(params, ts + [t], statics, parts, m) ==
      SumOf(params, ts, statics, parts, m) + if Keep(params, t, statics) in parts then Matches(params, [t], m) else 0
  {
    hide *;
    SumOfUnfolds(params, ts, statics, parts, m);
    SumOfUnfolds(params, ts + [t], statics, parts, m);
    if |parts| > 0 {
      SumOfMore(params, ts, t, statics, parts[1..], m);
      DynamicOfMore(params, ts, t, statics, parts[0], m);
      MatchesSplit(params, t, statics, m);
      var sp, dp := Keep(params, params, statics), Keep(params, params, ParamSet(params) - statics);
      Distributes(Matches(dp, DynamicOf(params, ts, statics, parts[0]), m),
        Matches(dp, [Keep(params, t, ParamSet(params) - statics)], m), Matches(sp, [parts[0]], m));
      InHeadOrTail(Keep(params, t, statics), parts);
    }
  }

  lemma SumOfUnfolds(params: seq<string>, ts: seq<Target>, statics: set<string>, parts: seq<Target>, m: Assignment)
    ensures SumOf(params, ts, statics, parts, m) ==
      if |parts| == 0 then 0
      else
        Matches(Keep(params, params, statics), [parts[0]], m) *
          Matches(Keep(params, params, ParamSet(params) - statics), DynamicOf(params, ts, statics, parts[0]), m) +
        SumOf(params, ts, statics, parts[1..], m)
  {
    hide Keep, ParamSet, Matches, DynamicOf;
  }

  lemma InHeadOrTail(x: Target, parts: seq<Target>)
    requires |parts| > 0 && forall i, j :: 0 <= i < j < |parts| ==> parts[i] != parts[j]
    ensures x in parts <==> x == parts[0] || x in parts[1..]
    ensures parts[0] !in parts[1..]
  {
    if x in parts {
      var i :| 0 <= i < |parts| && parts[i] == x;
      assert i > 0 ==> parts[1..][i - 1] == x;
    }
  }

  lemma {:induction false} SumIsMatches(params: seq<string>, ts: seq<Target>, statics: set<string>,
      parts: seq<Target>, m: Assignment)
    requires Distinct(params) && forall i, j :: 0 <= i < j < |parts| ==> parts[i] != parts[j]
    requires forall i :: 0 <= i < |ts| ==> |ts[i]| == |params| && Keep(params, ts[i], statics) in parts
    ensures SumOf(params, ts, statics, parts, m) == Matches(params, ts, m)
  {
    hide Keep, Distinct;
    if |ts| == 0 {
      SumOfNothing(params, statics, parts, m);
    } else {
      hide SumOf, Matches;
      var before, t := ts[..|ts| - 1], ts[|ts| - 1];
      assert ts == before + [t];
      SumIsMatches(params, before, statics, parts, m);
      SumOfMore(params, before, t, statics, parts, m);
      MatchesConcat(params, before, [t], m);
    }
  }

  lemma ProductOfEntry(params: seq<string>, ts: seq<Target>, m: Assignment)
    ensures |params| > 0 ==> Product(Entry(params, ts), m) == Matches(params, ts, m)
    ensures |params| == 0 ==> Product(Entry(params, ts), m) == 1
    ensures |params| == 0 && |ts| == 1 ==> Matches(params, ts, m) == 1
  {
    if |params| > 0 {
      assert Entry(params, ts)[1..] == [];
    } else if |ts| == 1 {
      assert ts == [ts[0]];
      MatchesOne(params, ts[0], m);
      assert ParamSet(params) == {} && Restrict(m, {}) == map[];
    }
  }

  lemma WeightOfPart(g: Group, statics: set<string>, part: Target, m: Assignment)
    ensures var sp, dp := Keep(g.params, g.params, statics), Keep(g.params, g.params, ParamSet(g.params) - statics);
            Weight(PartBinding(g, statics, part), m) ==
              Matches(sp, [part], m) *
                if |dp| == 0 then 1 else Matches(dp, DynamicOf(g.params, g.targets, statics, part), m)
  {
    hide *;
    PartUnfolds(g, statics, part);
    WeightUnfolds(PartBinding(g, statics, part), m);
    ProductOfEntry(Keep(g.params, g.params, statics), [part], m);
    ProductOfEntry(Keep(g.params, g.params, ParamSet(g.params) - statics),
      DynamicOf(g.params, g.targets, statics, part), m);
  }

  predicate ArePartsOf(g: Group, statics: set<string>, parts: seq<Target>, bs: seq<Binding>) {
    |bs| == |parts| && forall i :: 0 <= i < |parts| ==> bs[i] == PartBinding(g, statics, parts[i])
  }

  lemma {:induction false} WeightOfParts(g: Group, statics: set<string>, parts: seq<Target>, bs: seq<Binding>,
      m: Assignment)
    requires ArePartsOf(g, statics, parts, bs)
    ensures WeightAll(bs, m) ==
      if |Keep(g.params, g.params, ParamSet(g.params) - statics)| == 0
      then Matches(Keep(g.params, g.params, statics), parts, m)
      else SumOf(g.params, g.targets, statics, parts, m)
  {
    hide Weight, PartBinding, Keep, ParamSet, DynamicOf;
    if |parts| > 0 {
      WeightOfParts(g, statics, parts[1..], bs[1..], m);
      WeightOfPart(g, statics, parts[0], m);
      FirstMatches(Keep(g.params, g.params, statics), parts, m);
    }
  }

  lemma FirstMatches(params: seq<string>, ts: seq<Target>, m: Assignment)
    requires |ts| > 0
    ensures Matches(params, ts, m) == Matches(params, [ts[0]], m) + Matches(params, ts[1..], m)
  {
    MatchesConcat(params, [ts[0]], ts[1..], m);
    assert [ts[0]] + ts[1..] == ts;
  }

  lemma {:induction false} KeepAll<T>(params: seq<string>, xs: seq<T>, kept: set<string>)
    requires |xs| == |params| && ParamSet(params) <= kept
    ensures Keep(params, xs, kept) == xs
  {
    if |params| > 0 {
      HeadParam(params);
      KeepAll(params[1..], xs[1..], kept);
    }
  }

  lemma NothingOutside(a: set<string>, b: set<string>)
    requires a * (a - b) == {}
    ensures a <= b
  {
    forall p | p in a ensures p in b {
      assert p !in a * (a - b);
    }
  }

  /** Without dynamic parameters every target is its own static part. */
  lemma PurelyStatic(g: Group, statics: set<string>)
    requires GroupValid(g) && |Keep(g.params, g.params, ParamSet(g.params) - statics)| == 0
    ensures Keep(g.params, g.params, statics) == g.params && Projected(g.params, g.targets, statics) == g.targets
  {
    var all := ParamSet(g.params);
    var dp := Keep(g.params, g.params, all - statics);
    KeepNames(g.params, all - statics);
    assert ParamSet(dp) == {};
    assert all * (all - statics) == {};
    assert all <= statics by { NothingOutside(all, statics); }
    KeepAll(g.params, g.params, statics);
    hide Keep, ParamSet;
    forall i | 0 <= i < |g.targets| ensures Keep(g.params, g.targets[i], statics) == g.targets[i] {
      KeepAll(g.params, g.targets[i], statics);
    }
  }

  lemma WeightOfGroup(g: Group, statics: set<string>, m: Assignment)
    requires GroupValid(g)
    ensures WeightAll(Parts(g, statics), m) == Matches(g.params, CollapsedTargets(g, statics), m)
  {
    var projected, bs := Projected(g.params, g.targets, statics), Parts(g, statics);
    var parts := Unique(projected);
    PartsUnfold(g, statics);
    assert ArePartsOf(g, statics, parts, bs);
    WeightOfParts(g, statics, parts, bs, m);
    if |Keep(g.params, g.params, ParamSet(g.params) - statics)| == 0 {
      PurelyStatic(g, statics);
    } else {
      forall i | 0 <= i < |g.targets| ensures Keep(g.params, g.targets[i], statics) in parts {
        assert projected[i] in projected;
      }
      hide Keep, Unique, Projected, SumOf, Matches, Parts, WeightAll, ParamSet;
      assert forall i :: 0 <= i < |g.targets| ==> g.targets[i] in g.targets;
      SumIsMatches(g.params, g.targets, statics, parts, m);
    }
  }

  // ---------- all groups ----------

  lemma {:induction false} WeightOfBindings(bindings: seq<Binding>, gs: Groups, statics: set<string>, p: set<string>,
      m: Assignment)
    requires AllValid(bindings, p) && Valid(gs) && p !! ParamsOf(gs)
    ensures WeightAll(BindingsFrom(bindings, gs, statics), m) ==
      WeightAll(bindings, m) * Product(Collapsed(gs, statics), m)
    decreases |gs|
  {
    hide BindingValid, Pairs, Parts, ParamSet, GroupValid, WeightAll, Matches, CollapsedTargets;
    if |gs| > 0 {
      var g, q := gs[0], ParamSet(gs[0].params);
      var next := Pairs(bindings, Parts(g, statics));
      PartsAreValid(g, statics);
      PairsAreCross(bindings, Parts(g, statics), p, q);
      WeightOfPairs(bindings, Parts(g, statics), p, q, m);
      WeightOfGroup(g, statics, m);
      WeightOfBindings(next, gs[1..], statics, p + q, m);
      assert Collapsed(gs, statics)[1..] == Collapsed(gs[1..], statics);
      Associates(WeightAll(bindings, m), Matches(g.params, CollapsedTargets(g, statics), m),
        Product(Collapsed(gs[1..], statics), m));
    }
  }

  lemma Associates(a: int, b: int, c: int)
    ensures (a * b) * c == a * (b * c)
  {
  }

  lemma {:induction false} CollapsedIsValid(gs: Groups, statics: set<string>)
    requires Valid(gs)
    ensures Valid(Collapsed(gs, statics)) && ParamsOf(Collapsed(gs, statics)) == ParamsOf(gs)
  {
    if |gs| > 0 {
      CollapsedIsValid(gs[1..], statics);
      hide Keep, Unique, ParamSet;
      var cs := Collapsed(gs, statics);
      assert cs[1..] == Collapsed(gs[1..], statics);
      assert GroupValid(cs[0]);
    }
  }

  lemma {:induction false} NeverOthers(calls: seq<seq<Selection>>, q: set<string>, m: Assignment)
    requires AllGive(calls, q) && m.Keys != q
    ensures Times(calls, m) == 0
  {
    hide Given;
    if |calls| > 0 { NeverOthers(calls[1..], q, m); }
  }

  lemma {:induction false} NeverWithOthers(x: Assignment, calls: seq<seq<Selection>>, q: set<string>, m: Assignment)
    requires AllGive(calls, q) && m.Keys != x.Keys + q
    ensures TimesWith(x, calls, m) == 0
  {
    hide Given;
    if |calls| > 0 { NeverWithOthers(x, calls[1..], q, m); }
  }

  lemma {:induction false} NeverBothOthers(left: seq<seq<Selection>>, right: seq<seq<Selection>>, p: set<string>,
      q: set<string>, m: Assignment)
    requires AllGive(left, p) && AllGive(right, q) && m.Keys != p + q
    ensures TimesBoth(left, right, m) == 0
  {
    hide Given, TimesWith;
    if |left| > 0 {
      NeverWithOthers(Given(left[0]), right, q, m);
      NeverBothOthers(left[1..], right, p, q, m);
    }
  }

  lemma {:induction false} NeverAllOthers(bs: seq<Binding>, params: set<string>, m: Assignment)
    requires AllValid(bs, params) && m.Keys != params
    ensures TimesAll(bs, m) == 0
  {
    if |bs| > 0 {
      var b := bs[0];
      assert BindingValid(b, params);
      NeverAllOthers(bs[1..], params, m);
      hide Combinations, AllGive, BindingValid, TimesBoth, Valid, ParamsOf;
      BindingUnfolds(b, params);
      CombinationsGive(b.statics);
      CombinationsGive(b.dynamics);
      NeverBothOthers(Combinations(b.statics), Combinations(b.dynamics), ParamsOf(b.statics), ParamsOf(b.dynamics), m);
    }
  }

  /** Duplicated targets stay duplicated: the returned pairs yield every assignment as
      often as the product of the groups does in which only the purely static groups
      have lost their repeated targets. */
  lemma DynamicsKeepMultiplicity(gs: Groups, statics: set<string>, m: Assignment)
    requires Valid(gs)
    ensures TimesAll(StaticBindings(gs, statics), m) == Times(Combinations(Collapsed(gs, statics)), m)
  {
    StartCounts(m);
    assert StaticBindings(gs, statics) == BindingsFrom([Binding([], [])], gs, statics);
    hide *;
    var params, cs := ParamsOf(gs), Collapsed(gs, statics);
    StaticBindingsPreserveProduct(gs, statics);
    CollapsedIsValid(gs, statics);
    if m.Keys == params {
      TimesOfBindings(StaticBindings(gs, statics), m, params);
      WeightOfBindings([Binding([], [])], gs, statics, {}, m);
      TimesIsProduct(cs, m);
    } else {
      NeverAllOthers(StaticBindings(gs, statics), params, m);
      CombinationsGive(cs);
      NeverOthers(Combinations(cs), params, m);
    }
  }

  lemma StartCounts(m: Assignment)
    ensures AllValid([Binding([], [])], {}) && WeightAll([Binding([], [])], m) == 1
  {
    var start := [Binding([], [])];
    assert start[1..] == [];
  }

  // ---------- the entries of a returned pair ----------

  /** The binding has the group's entries for this static part. */
  predicate HasEntries(b: Binding, g: Group, statics: set<string>, part: Target) {
    var sp, dp := Keep(g.params, g.params, statics), Keep(g.params, g.params, ParamSet(g.params) - statics);
    && (|sp| > 0 ==> Group(sp, [part]) in b.statics)
    && (|dp| > 0 ==> Group(dp, DynamicOf(g.params, g.targets, statics, part)) in b.dynamics)
  }

  predicate HoldsPart(b: Binding, g: Group, statics: set<string>) {
    exists part :: part in Projected(g.params, g.targets, statics) && HasEntries(b, g, statics, part)
  }

  lemma {:induction false} PutHolds(gs: Groups, g: Group, h: Group)
    requires h == g || (h in gs && h.params != g.params)
    ensures h in Put(gs, g)
  {
    hide KeyLess;
    if |gs| > 0 {
      assert h == g || h == gs[0] || h in gs[1..];
      if !KeyLess(g.params, gs[0].params) && gs[0].params != g.params && h != gs[0] { PutHolds(gs[1..], g, h); }
    }
  }

  lemma {:induction false} CombinedHolds(a: Groups, b: Groups, h: Group)
    requires Valid(a) && Valid(b) && ParamsOf(a) !! ParamsOf(b) && (h in a || h in b)
    ensures h in Combined(a, b)
    decreases |b|
  {
    if |b| > 0 {
      assert GroupValid(b[0]) && Valid(b[1..]) && ParamSet(b[0].params) !! ParamsOf(b[1..]);
      assert ParamsOf(b) == ParamSet(b[0].params) + ParamsOf(b[1..]) &&
        Combined(a, b) == Combined(Put(a, b[0]), b[1..]);
      if h in a { OtherKey(a, b[0], h); }
      hide *;
      PutIsCross(a, b[0]);
      if h in a || h == b[0] {
        PutHolds(a, b[0], h);
      } else {
        assert h in b[1..];
      }
      CombinedHolds(Put(a, b[0]), b[1..], h);
    }
  }

  lemma OtherKey(gs: Groups, g: Group, h: Group)
    requires GroupValid(g) && ParamSet(g.params) !! ParamsOf(gs) && h in gs
    ensures h.params != g.params
  {
    assert g.params[0] in ParamSet(g.params);
    var i :| 0 <= i < |gs| && gs[i] == h;
    assert ParamSet(gs[i].params) <= ParamsOf(gs);
  }

  lemma JoinedHolds(l: Binding, r: Binding, p: set<string>, q: set<string>, g: Group, statics: set<string>)
    requires BindingValid(l, p) && BindingValid(r, q) && p !! q &&
      (HoldsPart(l, g, statics) || HoldsPart(r, g, statics))
    ensures HoldsPart(Joined(l, r), g, statics)
  {
    var b := if HoldsPart(l, g, statics) then l else r;
    var part :| part in Projected(g.params, g.targets, statics) && HasEntries(b, g, statics, part);
    var sp, dp := Keep(g.params, g.params, statics), Keep(g.params, g.params, ParamSet(g.params) - statics);
    var s, d := Group(sp, [part]), Group(dp, DynamicOf(g.params, g.targets, statics, part));
    hide Valid, ParamsOf, Combined, Keep, ParamSet, DynamicOf, Projected;
    if |sp| > 0 { CombinedHolds(l.statics, r.statics, s); }
    if |dp| > 0 { CombinedHolds(l.dynamics, r.dynamics, d); }
    assert HasEntries(Joined(l, r), g, statics, part);
  }

  predicate AllHold(bs: seq<Binding>, gs: Groups, statics: set<string>) {
    forall i, k :: 0 <= i < |bs| && 0 <= k < |gs| ==> HoldsPart(bs[i], gs[k], statics)
  }

  lemma PartsHold(g: Group, statics: set<string>)
    ensures AllHold(Parts(g, statics), [g], statics)
  {
    var projected, bs := Projected(g.params, g.targets, statics), Parts(g, statics);
    var parts := Unique(projected);
    PartsUnfold(g, statics);
    forall i | 0 <= i < |bs| ensures HoldsPart(bs[i], g, statics) {
      assert HasEntries(PartBinding(g, statics, parts[i]), g, statics, parts[i]);
    }
  }

  lemma PairsHold(left: seq<Binding>, right: seq<Binding>, p: set<string>, q: set<string>, before: Groups, g: Group,
      statics: set<string>)
    requires AllValid(left, p) && AllValid(right, q) && p !! q && AllHold(left, before, statics) &&
      AllHold(right, [g], statics)
    ensures AllHold(Pairs(left, right), before + [g], statics)
  {
    var bs, gs := Pairs(left, right), before + [g];
    hide Pairs, BindingValid, HoldsPart;
    forall n, k | 0 <= n < |bs| && 0 <= k < |gs| ensures HoldsPart(bs[n], gs[k], statics) {
      var i, j := FromPairs(left, right, n);
      assert k == |before| ==> [g][0] == gs[k];
      JoinedHolds(left[i], right[j], p, q, gs[k], statics);
    }
  }

  lemma FirstStep(bindings: seq<Binding>, gs: Groups, statics: set<string>)
    requires |gs| > 0
    ensures BindingsFrom(bindings, gs, statics) ==
      BindingsFrom(Pairs(bindings, Parts(gs[0], statics)), gs[1..], statics)
    ensures Valid(gs) ==> GroupValid(gs[0]) && Valid(gs[1..]) && ParamSet(gs[0].params) !! ParamsOf(gs[1..])
    ensures ParamsOf(gs) == ParamSet(gs[0].params) + ParamsOf(gs[1..])
  {
    hide Pairs, Parts, ParamSet, GroupValid;
  }

  lemma Shift<T>(a: seq<T>, b: seq<T>)
    ensures |b| > 0 ==> a + [b[0]] + b[1..] == a + b
    ensures |b| == 0 ==> a + b == a
  {
  }

  lemma {:induction false} BindingsHold(bindings: seq<Binding>, before: Groups, gs: Groups, statics: set<string>,
      p: set<string>)
    requires AllValid(bindings, p) && Valid(gs) && p !! ParamsOf(gs) && AllHold(bindings, before, statics)
    ensures AllHold(BindingsFrom(bindings, gs, statics), before + gs, statics)
    decreases |gs|
  {
    Shift(before, gs);
    if |gs| == 0 {
      assert BindingsFrom(bindings, gs, statics) == bindings;
    } else {
      hide *;
      var g, q := gs[0], ParamSet(gs[0].params);
      FirstStep(bindings, gs, statics);
      PartsAreValid(g, statics);
      PairsAreCross(bindings, Parts(g, statics), p, q);
      PartsHold(g, statics);
      PairsHold(bindings, Parts(g, statics), p, q, before, g, statics);
      BindingsHold(Pairs(bindings, Parts(g, statics)), before + [g], gs[1..], statics, p + q);
    }
  }

  /** Every returned pair holds one static part of each group: the static side has that
      part as the group's only target, and the dynamic side has exactly the dynamic parts
      of the targets with that static part, in their order and with their repetitions. */
  lemma EntriesOfPairs(gs: Groups, statics: set<string>)
    requires Valid(gs)
    ensures AllHold(StaticBindings(gs, statics), gs, statics)
  {
    assert AllHold([Binding([], [])], [], statics);
    assert StaticBindings(gs, statics) == BindingsFrom([Binding([], [])], gs, statics);
    hide *;
    StartCounts(map[]);
    BindingsHold([Binding([], [])], [], gs, statics, {});
    assert [] + gs == gs;
  }
}
