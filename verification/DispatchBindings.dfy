/** Splitting dispatch groups into bindings: one static target per group, together with
    the dynamic targets that go with it. */
module DispatchBindings {
  import opened DispatchGroups

  // ---------- assignments ----------

  /** What one choice of targets gives to each parameter. */
  type Assignment = map<string, Arg>

  function Assign(params: seq<string>, t: Target): Assignment {
    if |params| == 0 || |t| == 0 then map[]
    else Assign(params[1..], t[1..]) + map[params[0] := t[0]]
  }

  function AssignAll(params: seq<string>, targets: seq<Target>): set<Assignment> {
    set t | t in targets :: Assign(params, t)
  }

  /** Every left assignment with every right one. */
  function Cross(a: set<Assignment>, b: set<Assignment>): set<Assignment> {
    set x, y | x in a && y in b :: x + y
  }

  lemma InCross(x: Assignment, y: Assignment, a: set<Assignment>, b: set<Assignment>)
    requires x in a && y in b
    ensures x + y in Cross(a, b)
  {
  }

  lemma FromCross(m: Assignment, a: set<Assignment>, b: set<Assignment>) returns (x: Assignment, y: Assignment)
    requires m in Cross(a, b)
    ensures x in a && y in b && m == x + y
  {
    x, y :| x in a && y in b && m == x + y;
  }

  /** What the combinations of all groups give to the parameters. */
  function Assignments(gs: Groups): set<Assignment> {
    if |gs| == 0 then {map[]} else Cross(AssignAll(gs[0].params, gs[0].targets), Assignments(gs[1..]))
  }

  function Given(selections: seq<Selection>): Assignment {
    if |selections| == 0 then map[] else Assign(selections[0].params, selections[0].target) + Given(selections[1..])
  }

  function GivenAll(calls: seq<seq<Selection>>): set<Assignment> {
    set c | c in calls :: Given(c)
  }

  lemma InGiven(calls: seq<seq<Selection>>, k: nat)
    requires k < |calls|
    ensures Given(calls[k]) in GivenAll(calls)
  {
  }

  lemma FromGiven(calls: seq<seq<Selection>>, x: Assignment) returns (k: nat)
    requires x in GivenAll(calls)
    ensures k < |calls| && x == Given(calls[k])
  {
    var c :| c in calls && x == Given(c);
    k :| 0 <= k < |calls| && calls[k] == c;
  }

  lemma GivenConcat(a: seq<seq<Selection>>, b: seq<seq<Selection>>)
    ensures GivenAll(a + b) == GivenAll(a) + GivenAll(b)
  {
    hide Given;
    assert forall c :: c in a + b <==> c in a || c in b;
  }

  /** The assignments are those of the enumerated combinations. */
  lemma {:induction false} AssignmentsOfCombinations(gs: Groups)
    ensures Assignments(gs) == GivenAll(Combinations(gs))
    decreases |gs|, 1
  {
    if |gs| == 0 {
      assert Combinations(gs) == [[]];
      assert [] in Combinations(gs);
    } else {
      AssignmentsFrom(gs, 0);
      assert gs[0].targets[0..] == gs[0].targets;
    }
  }

  lemma {:induction false} AssignmentsFrom(gs: Groups, first: nat)
    requires |gs| > 0 && first <= |gs[0].targets|
    ensures Cross(AssignAll(gs[0].params, gs[0].targets[first..]), Assignments(gs[1..])) ==
      GivenAll(CombinationsFrom(gs, first))
    decreases |gs|, 0, |gs[0].targets| - first
  {
    var params, targets, more := gs[0].params, gs[0].targets, Assignments(gs[1..]);
    if first < |targets| {
      AssignmentsOfCombinations(gs[1..]);
      AssignmentsFrom(gs, first + 1);
      var rest, later := Combinations(gs[1..]), CombinationsFrom(gs, first + 1);
      var here := Onto([Selection(params, targets[first])], rest);
      hide Cross, AssignAll, Combinations, Assignments, GivenAll;
      GivenConcat(here, later);
      assert targets[first..] == [targets[first]] + targets[first + 1..];
      AssignAllSplits(params, targets[first], targets[first + 1..]);
      CrossUnion({Assign(params, targets[first])}, AssignAll(params, targets[first + 1..]), more);
      FirstTarget(params, targets[first], rest);
      assert CombinationsFrom(gs, first) == here + later;
    } else {
      assert targets[first..] == [];
      CrossOfNothing(params, more);
    }
  }

  lemma CrossOfNothing(params: seq<string>, more: set<Assignment>)
    ensures Cross(AssignAll(params, []), more) == {}
  {
  }

  lemma AssignAllSplits(params: seq<string>, t: Target, ts: seq<Target>)
    ensures AssignAll(params, [t] + ts) == {Assign(params, t)} + AssignAll(params, ts)
  {
    hide Assign;
    assert forall u :: u in [t] + ts <==> u == t || u in ts;
  }

  lemma FirstTarget(params: seq<string>, t: Target, rest: seq<seq<Selection>>)
    ensures Cross({Assign(params, t)}, GivenAll(rest)) == GivenAll(Onto([Selection(params, t)], rest))
  {
    var x, calls := Assign(params, t), Onto([Selection(params, t)], rest);
    forall k | 0 <= k < |rest| ensures Given(calls[k]) == x + Given(rest[k]) {
      assert calls[k][1..] == rest[k];
    }
    hide *;
    forall m | m in Cross({x}, GivenAll(rest)) ensures m in GivenAll(calls) {
      var y, z := FromCross(m, {x}, GivenAll(rest));
      var k := FromGiven(rest, z);
      InGiven(calls, k);
    }
    forall m | m in GivenAll(calls) ensures m in Cross({x}, GivenAll(rest)) {
      var k := FromGiven(calls, m);
      InGiven(rest, k);
      InCross(x, Given(rest[k]), {x}, GivenAll(rest));
    }
  }

  lemma {:induction false} AssignKeys(params: seq<string>, t: Target)
    requires |t| == |params|
    ensures Assign(params, t).Keys == ParamSet(params)
  {
    if |params| > 0 {
      AssignKeys(params[1..], t[1..]);
      assert ParamSet(params) == {params[0]} + ParamSet(params[1..]) by {
        forall p | p in ParamSet(params) ensures p in {params[0]} + ParamSet(params[1..]) {
          var i :| 0 <= i < |params| && params[i] == p;
          assert i > 0 ==> params[1..][i - 1] == p;
        }
      }
    }
  }

  lemma {:induction false} AssignmentKeys(gs: Groups)
    requires Valid(gs)
    ensures forall x :: x in Assignments(gs) ==> x.Keys == ParamsOf(gs)
  {
    if |gs| > 0 {
      AssignmentKeys(gs[1..]);
      GroupKeys(gs[0]);
      hide Cross, AssignAll, ParamSet;
      forall x | x in Assignments(gs) ensures x.Keys == ParamsOf(gs) {
        var a, b := FromCross(x, AssignAll(gs[0].params, gs[0].targets), Assignments(gs[1..]));
      }
    }
  }

  /** No two assignments of the two sets share a parameter. */
  predicate Independent(a: set<Assignment>, b: set<Assignment>) {
    forall x, y :: x in a && y in b ==> x.Keys !! y.Keys
  }

  lemma SwapOne(m: Assignment, a: set<Assignment>, b: set<Assignment>, c: set<Assignment>)
    requires Independent(a, b) && m in Cross(a, Cross(b, c))
    ensures m in Cross(b, Cross(a, c))
  {
    hide Cross;
    var x, yz := FromCross(m, a, Cross(b, c));
    var y, z := FromCross(yz, b, c);
    assert x + (y + z) == y + (x + z);
    InCross(x, z, a, c);
    InCross(y, x + z, b, Cross(a, c));
  }

  /** Assignments to other parameters can be merged in any order. */
  lemma CrossSwaps(a: set<Assignment>, b: set<Assignment>, c: set<Assignment>)
    requires Independent(a, b)
    ensures Cross(a, Cross(b, c)) == Cross(b, Cross(a, c))
  {
    hide Cross;
    forall m | m in Cross(a, Cross(b, c)) ensures m in Cross(b, Cross(a, c)) { SwapOne(m, a, b, c); }
    forall m | m in Cross(b, Cross(a, c)) ensures m in Cross(a, Cross(b, c)) { SwapOne(m, b, a, c); }
  }

  // ---------- inserting and combining ----------

  predicate TextLess(a: string, b: string) {
    |b| > 0 && (|a| == 0 || a[0] < b[0] || (a[0] == b[0] && TextLess(a[1..], b[1..])))
  }

  predicate KeyLess(a: seq<string>, b: seq<string>) {
    |b| > 0 && (|a| == 0 || TextLess(a[0], b[0]) || (a[0] == b[0] && KeyLess(a[1..], b[1..])))
  }

  /** Insert into the ordered map; an existing entry is replaced. */
  function Put(gs: Groups, g: Group): Groups {
    if |gs| == 0 || KeyLess(g.params, gs[0].params) then [g] + gs
    else if gs[0].params == g.params then [g] + gs[1..]
    else [gs[0]] + Put(gs[1..], g)
  }

  function Combined(a: Groups, b: Groups): Groups
    decreases |b|
  {
    if |b| == 0 then a else Combined(Put(a, b[0]), b[1..])
  }

  // ---------- the order of the entries ----------

  /** Names are ordered by their first difference, a prefix before what it begins. */
  lemma {:induction false} TextLessIs(a: string, b: string)
    ensures TextLess(a, b) <==>
      exists k :: 0 <= k <= |a| && k < |b| && a[..k] == b[..k] && (k == |a| || a[k] < b[k])
  {
    if |a| > 0 && |b| > 0 && a[0] == b[0] {
      TextLessIs(a[1..], b[1..]);
      var x, y := a[1..], b[1..];
      if k :| 0 <= k <= |x| && k < |y| && x[..k] == y[..k] && (k == |x| || x[k] < y[k]) {
        assert a[..k + 1] == [a[0]] + x[..k] && b[..k + 1] == [b[0]] + y[..k];
      }
      if k :| 0 <= k <= |a| && k < |b| && a[..k] == b[..k] && (k == |a| || a[k] < b[k]) {
        assert k > 0 && a[1..][..k - 1] == a[..k][1..] && b[1..][..k - 1] == b[..k][1..];
      }
    } else {
      assert a[..0] == b[..0];
      assert forall k :: 0 < k <= |a| && k < |b| && a[..k] == b[..k] ==> a[..k][0] == b[..k][0];
    }
  }

  lemma {:induction false} TextLessIsTotal(a: string, b: string)
    ensures TextLess(a, b) || a == b || TextLess(b, a)
    ensures !(TextLess(a, b) && TextLess(b, a)) && !TextLess(a, a)
  {
    if |a| > 0 { TextLessIsTotal(a[1..], if |b| > 0 then b[1..] else ""); }
    if |a| > 0 && |b| > 0 && a[1..] == b[1..] && a[0] == b[0] {
      assert a == [a[0]] + a[1..] && b == [b[0]] + b[1..];
    }
    if |a| > 0 { TextLessIsTotal(a[1..], a[1..]); }
  }

  lemma {:induction false} TextLessIsTransitive(a: string, b: string, c: string)
    requires TextLess(a, b) && TextLess(b, c)
    ensures TextLess(a, c)
  {
    if |a| > 0 && |b| > 0 && |c| > 0 && a[0] == b[0] == c[0] { TextLessIsTransitive(a[1..], b[1..], c[1..]); }
  }

  lemma {:induction false} KeyLessIsTotal(a: seq<string>, b: seq<string>)
    ensures KeyLess(a, b) || a == b || KeyLess(b, a)
    ensures !(KeyLess(a, b) && KeyLess(b, a))
  {
    if |a| > 0 && |b| > 0 {
      TextLessIsTotal(a[0], b[0]);
      TextLessIsTotal(a[0], a[0]);
      KeyLessIsTotal(a[1..], b[1..]);
      hide TextLess;
      if a[0] == b[0] && a[1..] == b[1..] {
        assert a == [a[0]] + a[1..] && b == [b[0]] + b[1..];
      }
    }
  }

  lemma {:induction false} KeyLessIsTransitive(a: seq<string>, b: seq<string>, c: seq<string>)
    requires KeyLess(a, b) && KeyLess(b, c)
    ensures KeyLess(a, c)
  {
    hide TextLess;
    if |a| > 0 && |b| > 0 && |c| > 0 {
      if TextLess(a[0], b[0]) && TextLess(b[0], c[0]) { TextLessIsTransitive(a[0], b[0], c[0]); }
      if a[0] == b[0] == c[0] && !TextLess(a[0], b[0]) && !TextLess(b[0], c[0]) {
        KeyLessIsTransitive(a[1..], b[1..], c[1..]);
      }
    }
  }

  /** The entries are in the order of the map. */
  predicate Sorted(gs: Groups) {
    forall i, j :: 0 <= i < j < |gs| ==> KeyLess(gs[i].params, gs[j].params)
  }

  lemma SortedMore(g: Group, gs: Groups)
    requires Sorted(gs) && forall h :: h in gs ==> KeyLess(g.params, h.params)
    ensures Sorted([g] + gs)
  {
    hide KeyLess;
    var more := [g] + gs;
    assert forall j :: 0 < j < |more| ==> more[j] == gs[j - 1] && more[j] in gs;
  }

  lemma FirstIsLeast(gs: Groups)
    requires Sorted(gs) && |gs| > 0
    ensures Sorted(gs[1..]) && forall h :: h in gs[1..] ==> KeyLess(gs[0].params, h.params)
  {
    hide KeyLess;
  }

  lemma {:induction false} PutKeepsSorted(gs: Groups, g: Group)
    requires Sorted(gs)
    ensures Sorted(Put(gs, g))
    ensures forall h :: h in Put(gs, g) ==> h == g || h in gs
  {
    if |gs| > 0 {
      KeyLessIsTotal(gs[0].params, g.params);
      FirstIsLeast(gs);
      PutKeepsSorted(gs[1..], g);
      hide KeyLess, Sorted;
      if KeyLess(g.params, gs[0].params) {
        forall h | h in gs ensures KeyLess(g.params, h.params) {
          if h in gs[1..] { KeyLessIsTransitive(g.params, gs[0].params, h.params); }
        }
        SortedMore(g, gs);
      } else if gs[0].params == g.params {
        SortedMore(g, gs[1..]);
      } else {
        SortedMore(gs[0], Put(gs[1..], g));
      }
    }
  }

  /** What is put replaces the entry with its parameters and no other. */
  lemma {:induction false} PutReplaces(gs: Groups, g: Group, h: Group)
    requires Sorted(gs)
    ensures h in Put(gs, g) <==> h == g || (h in gs && h.params != g.params)
  {
    hide KeyLess;
    if |gs| > 0 {
      KeyLessIsTotal(gs[0].params, g.params);
      KeyLessIsTotal(g.params, g.params);
      PutReplaces(gs[1..], g, h);
      if KeyLess(g.params, gs[0].params) && h in gs[1..] {
        var i :| 0 < i < |gs| && gs[i] == h;
        KeyLessIsTransitive(g.params, gs[0].params, gs[i].params);
      }
    }
  }

  /** Combining keeps the entries in the order of the map. */
  lemma {:induction false} CombinedIsSorted(a: Groups, b: Groups)
    requires Sorted(a)
    ensures Sorted(Combined(a, b))
    decreases |b|
  {
    if |b| > 0 {
      PutKeepsSorted(a, b[0]);
      CombinedIsSorted(Put(a, b[0]), b[1..]);
    }
  }

  lemma {:induction false} PutIsCross(gs: Groups, g: Group)
    requires Valid(gs) && GroupValid(g) && ParamSet(g.params) !! ParamsOf(gs)
    ensures Valid(Put(gs, g)) && ParamsOf(Put(gs, g)) == ParamSet(g.params) + ParamsOf(gs)
    ensures Assignments(Put(gs, g)) == Cross(AssignAll(g.params, g.targets), Assignments(gs))
  {
    if |gs| == 0 || KeyLess(g.params, gs[0].params) {
      assert ([g] + gs)[1..] == gs;
    } else {
      assert g.params[0] in ParamSet(g.params) && gs[0].params != g.params;
      PutIsCross(gs[1..], g);
      assert Put(gs, g)[1..] == Put(gs[1..], g);
      GroupsAreIndependent(gs[0], g);
      CrossSwaps(AssignAll(gs[0].params, gs[0].targets), AssignAll(g.params, g.targets), Assignments(gs[1..]));
    }
  }

  lemma GroupKeys(g: Group)
    requires GroupValid(g)
    ensures forall x :: x in AssignAll(g.params, g.targets) ==> x.Keys == ParamSet(g.params)
  {
    forall x | x in AssignAll(g.params, g.targets) ensures x.Keys == ParamSet(g.params) {
      var t :| t in g.targets && x == Assign(g.params, t);
      AssignKeys(g.params, t);
    }
  }

  lemma GroupsAreIndependent(g: Group, h: Group)
    requires GroupValid(g) && GroupValid(h) && ParamSet(g.params) !! ParamSet(h.params)
    ensures Independent(AssignAll(g.params, g.targets), AssignAll(h.params, h.targets))
  {
    GroupKeys(g);
    GroupKeys(h);
    hide AssignAll;
  }

  lemma CrossUnit(a: set<Assignment>)
    ensures Cross(a, {map[]}) == a && Cross({map[]}, a) == a
  {
    hide Cross;
    forall x | x in a ensures x in Cross(a, {map[]}) && x in Cross({map[]}, a) {
      InCross(x, map[], a, {map[]});
      InCross(map[], x, {map[]}, a);
      assert x + map[] == x && map[] + x == x;
    }
    forall x | x in Cross(a, {map[]}) ensures x in a {
      var y, z := FromCross(x, a, {map[]});
      assert y + z == y;
    }
    forall x | x in Cross({map[]}, a) ensures x in a {
      var z, y := FromCross(x, {map[]}, a);
      assert z + y == y;
    }
  }

  lemma CrossAssociates(a: set<Assignment>, b: set<Assignment>, c: set<Assignment>)
    ensures Cross(Cross(a, b), c) == Cross(a, Cross(b, c))
  {
    hide Cross;
    forall m | m in Cross(Cross(a, b), c) ensures m in Cross(a, Cross(b, c)) {
      var xy, z := FromCross(m, Cross(a, b), c);
      var x, y := FromCross(xy, a, b);
      assert x + y + z == x + (y + z);
      InCross(y, z, b, c);
      InCross(x, y + z, a, Cross(b, c));
    }
    forall m | m in Cross(a, Cross(b, c)) ensures m in Cross(Cross(a, b), c) {
      var x, yz := FromCross(m, a, Cross(b, c));
      var y, z := FromCross(yz, b, c);
      assert x + y + z == x + (y + z);
      InCross(x, y, a, b);
      InCross(x + y, z, Cross(a, b), c);
    }
  }

  /** Combining groups over other parameters combines their assignments. */
  lemma {:induction false} CombinedIsCross(a: Groups, b: Groups)
    requires Valid(a) && Valid(b) && ParamsOf(a) !! ParamsOf(b)
    ensures Valid(Combined(a, b)) && ParamsOf(Combined(a, b)) == ParamsOf(a) + ParamsOf(b)
    ensures Assignments(Combined(a, b)) == Cross(Assignments(a), Assignments(b))
    decreases |b|
  {
    if |b| == 0 {
      CrossUnit(Assignments(a));
    } else {
      PutIsCross(a, b[0]);
      CombinedIsCross(Put(a, b[0]), b[1..]);
      var first := AssignAll(b[0].params, b[0].targets);
      AssignmentKeys(a);
      GroupKeys(b[0]);
      hide Cross, AssignAll, Put, Valid;
      CrossAssociates(first, Assignments(a), Assignments(b[1..]));
      CrossSwaps(Assignments(a), first, Assignments(b[1..]));
    }
  }

  // ---------- projection ----------

  /** The entries of `xs` that belong to the kept parameters. */
  function Keep<T>(params: seq<string>, xs: seq<T>, kept: set<string>): (r: seq<T>)
    ensures |r| <= |xs|
  {
    if |params| == 0 || |xs| == 0 then []
    else (if params[0] in kept then [xs[0]] else []) + Keep(params[1..], xs[1..], kept)
  }

  function Restrict(m: Assignment, kept: set<string>): Assignment {
    map p | p in m && p in kept :: m[p]
  }

  lemma {:induction false} KeepNames(params: seq<string>, kept: set<string>)
    requires Distinct(params)
    ensures ParamSet(Keep(params, params, kept)) == ParamSet(params) * kept && Distinct(Keep(params, params, kept))
  {
    if |params| > 0 {
      var rest := params[1..];
      KeepNames(rest, kept);
      HeadParam(params);
      var names := Keep(params, params, kept);
      if params[0] in kept {
        assert names[1..] == Keep(rest, rest, kept);
        HeadParam(names);
        DistinctFrom(names);
      } else {
        assert names == Keep(rest, rest, kept);
      }
    }
  }

  lemma DistinctFrom(names: seq<string>)
    requires |names| > 0 && Distinct(names[1..]) && names[0] !in ParamSet(names[1..])
    ensures Distinct(names)
  {
    forall i, j | 0 <= i < j < |names| ensures names[i] != names[j] {
      assert names[j] == names[1..][j - 1] && names[1..][j - 1] in ParamSet(names[1..]);
      assert i > 0 ==> names[i] == names[1..][i - 1];
    }
  }

  lemma RestrictOne(m: Assignment, p: string, x: Arg, kept: set<string>)
    requires p !in m
    ensures Restrict(m + map[p := x], kept) == if p in kept then Restrict(m, kept) + map[p := x] else Restrict(m, kept)
  {
  }

  lemma AssignFirst(params: seq<string>, t: Target)
    requires |params| > 0 && |t| > 0
    ensures Assign(params, t) == Assign(params[1..], t[1..]) + map[params[0] := t[0]]
  {
  }

  lemma KeepFirst<T>(params: seq<string>, xs: seq<T>, kept: set<string>)
    requires |params| > 0 && |xs| > 0
    ensures Keep(params, xs, kept) == (if params[0] in kept then [xs[0]] else []) + Keep(params[1..], xs[1..], kept)
  {
  }

  lemma {:induction false} KeepAssigns(params: seq<string>, t: Target, kept: set<string>)
    requires |t| == |params| && Distinct(params)
    ensures |Keep(params, t, kept)| == |Keep(params, params, kept)|
    ensures Assign(Keep(params, params, kept), Keep(params, t, kept)) == Restrict(Assign(params, t), kept)
  {
    if |params| == 0 {
      assert Restrict(map[], kept) == map[];
    } else {
      var rest, args := params[1..], t[1..];
      KeepAssigns(rest, args, kept);
      AssignKeys(rest, args);
      HeadParam(params);
      AssignFirst(params, t);
      KeepFirst(params, params, kept);
      KeepFirst(params, t, kept);
      RestrictOne(Assign(rest, args), params[0], t[0], kept);
      hide *;
      var names, values := Keep(params, params, kept), Keep(params, t, kept);
      if params[0] in kept {
        AssignFirst(names, values);
        assert names[1..] == Keep(rest, rest, kept) && values[1..] == Keep(rest, args, kept);
      } else {
        assert names == Keep(rest, rest, kept) && values == Keep(rest, args, kept);
      }
    }
  }

  lemma HeadParam(params: seq<string>)
    requires |params| > 0
    ensures ParamSet(params) == {params[0]} + ParamSet(params[1..])
    ensures Distinct(params) ==> params[0] !in ParamSet(params[1..])
  {
    forall p | p in ParamSet(params) ensures p in {params[0]} + ParamSet(params[1..]) {
      var i :| 0 <= i < |params| && params[i] == p;
      assert i > 0 ==> params[1..][i - 1] == p;
    }
  }

  // ---------- static and dynamic parts ----------

  /** The targets without repetition, in order of first appearance. */
  function Unique(ts: seq<Target>): (us: seq<Target>)
    ensures forall t :: t in us <==> t in ts
    ensures forall i, j :: 0 <= i < j < |us| ==> us[i] != us[j]
  {
    if |ts| == 0 then []
    else
      var before, last := Unique(ts[..|ts| - 1]), ts[|ts| - 1];
      assert ts == ts[..|ts| - 1] + [last];
      if last in before then before else before + [last]
  }

  function Projected(params: seq<string>, ts: seq<Target>, kept: set<string>): (ps: seq<Target>)
    ensures |ps| == |ts|
  {
    seq(|ts|, i requires 0 <= i < |ts| => Keep(params, ts[i], kept))
  }

  /** The dynamic parts of the targets with one static part, in order and with repetition. */
  function DynamicOf(params: seq<string>, ts: seq<Target>, statics: set<string>, part: Target): seq<Target> {
    if |ts| == 0 then []
    else
      var before, last := DynamicOf(params, ts[..|ts| - 1], statics, part), ts[|ts| - 1];
      if Keep(params, last, statics) == part then before + [Keep(params, last, ParamSet(params) - statics)] else before
  }

  lemma {:induction false} InDynamic(params: seq<string>, ts: seq<Target>, statics: set<string>, part: Target, i: nat)
    requires i < |ts| && Keep(params, ts[i], statics) == part
    ensures Keep(params, ts[i], ParamSet(params) - statics) in DynamicOf(params, ts, statics, part)
  {
    hide Keep;
    if i < |ts| - 1 { InDynamic(params, ts[..|ts| - 1], statics, part, i); }
  }

  lemma {:induction false} FromDynamic(params: seq<string>, ts: seq<Target>, statics: set<string>, part: Target,
      d: Target)
      returns (i: nat)
    requires d in DynamicOf(params, ts, statics, part)
    ensures i < |ts| && Keep(params, ts[i], statics) == part && d == Keep(params, ts[i], ParamSet(params) - statics)
  {
    hide Keep;
    if d in DynamicOf(params, ts[..|ts| - 1], statics, part) {
      i := FromDynamic(params, ts[..|ts| - 1], statics, part, d);
    } else {
      i := |ts| - 1;
    }
  }

  datatype Binding = Binding(statics: Groups, dynamics: Groups)

  /** A group with no parameters is left out. */
  function Entry(params: seq<string>, targets: seq<Target>): Groups {
    if |params| == 0 then [] else [Group(params, targets)]
  }

  function PartBinding(g: Group, statics: set<string>, part: Target): Binding {
    Binding(Entry(Keep(g.params, g.params, statics), [part]),
            Entry(Keep(g.params, g.params, ParamSet(g.params) - statics),
              DynamicOf(g.params, g.targets, statics, part)))
  }

  /** One binding for each static part of a group. */
  function Parts(g: Group, statics: set<string>): (bs: seq<Binding>)
  {
    var parts := Unique(Projected(g.params, g.targets, statics));
    seq(|parts|, i requires 0 <= i < |parts| => PartBinding(g, statics, parts[i]))
  }

  function Pairs(left: seq<Binding>, right: seq<Binding>): seq<Binding> {
    if |left| == 0 then [] else PairsOf(left[0], right) + Pairs(left[1..], right)
  }

  function PairsOf(left: Binding, right: seq<Binding>): (bs: seq<Binding>)
    ensures |bs| == |right|
  {
    seq(|right|, i requires 0 <= i < |right| =>
      Binding(Combined(left.statics, right[i].statics), Combined(left.dynamics, right[i].dynamics)))
  }

  function BindingsFrom(bindings: seq<Binding>, gs: Groups, statics: set<string>): seq<Binding>
    decreases |gs|
  {
    if |gs| == 0 then bindings else BindingsFrom(Pairs(bindings, Parts(gs[0], statics)), gs[1..], statics)
  }

  /** What `static_bindings` returns. */
  function StaticBindings(gs: Groups, statics: set<string>): seq<Binding> {
    BindingsFrom([Binding([], [])], gs, statics)
  }

  function Merged(b: Binding): set<Assignment> {
    Cross(Assignments(b.statics), Assignments(b.dynamics))
  }

  function MergedAll(bs: seq<Binding>): set<Assignment> {
    set i, x | 0 <= i < |bs| && x in Merged(bs[i]) :: x
  }

  // ---------- the product is preserved ----------

  /** A binding of part of the groups: its static side has one target per group and
      its two sides share no parameter. */
  predicate BindingValid(b: Binding, params: set<string>) {
    && Valid(b.statics) && Valid(b.dynamics) && ParamsOf(b.statics) !! ParamsOf(b.dynamics)
    && ParamsOf(b.statics) + ParamsOf(b.dynamics) == params
    && forall i :: 0 <= i < |b.statics| ==> |b.statics[i].targets| == 1
  }

  lemma EntryFacts(params: seq<string>, targets: seq<Target>)
    requires Distinct(params) && forall t :: t in targets ==> |t| == |params|
    ensures Valid(Entry(params, targets)) && ParamsOf(Entry(params, targets)) == ParamSet(params)
    ensures |params| > 0 || |targets| > 0 ==> Assignments(Entry(params, targets)) == AssignAll(params, targets)
  {
    if |params| > 0 {
      var entry := Entry(params, targets);
      assert GroupValid(entry[0]) && entry[1..] == [] && ParamsOf([]) == {} && Valid([]);
      CrossUnit(AssignAll(params, targets));
    } else if |targets| > 0 {
      assert Assign(params, targets[0]) == map[] && map[] in AssignAll(params, targets);
    }
  }

  /** The sides of a binding have the arity of their parameters. */
  lemma PartSides(g: Group, statics: set<string>, part: Target)
    requires GroupValid(g) && part in Projected(g.params, g.targets, statics)
    ensures var others := ParamSet(g.params) - statics;
            var sp, dp, ds :=
              Keep(g.params, g.params, statics), Keep(g.params, g.params, others),
              DynamicOf(g.params, g.targets, statics, part);
            && Distinct(sp) && Distinct(dp) && ParamSet(sp) == ParamSet(g.params) * statics && ParamSet(dp) == others
            && |part| == |sp| && |ds| > 0 && forall d :: d in ds ==> |d| == |dp|
  {
    var others := ParamSet(g.params) - statics;
    var i :| 0 <= i < |g.targets| && Keep(g.params, g.targets[i], statics) == part;
    KeepAssigns(g.params, g.targets[i], statics);
    KeepNames(g.params, statics);
    KeepNames(g.params, others);
    InDynamic(g.params, g.targets, statics, part, i);
    hide Keep, Assign, DynamicOf, ParamSet, Distinct, Restrict, Projected;
    forall d | d in DynamicOf(g.params, g.targets, statics, part) ensures |d| == |Keep(g.params, g.params, others)| {
      var k := FromDynamic(g.params, g.targets, statics, part, d);
      KeepAssigns(g.params, g.targets[k], others);
    }
    assert ParamSet(g.params) * others == others;
  }

  lemma PartIsValid(g: Group, statics: set<string>, part: Target)
    requires GroupValid(g) && part in Projected(g.params, g.targets, statics)
    ensures BindingValid(PartBinding(g, statics, part), ParamSet(g.params))
  {
    hide *;
    PartSides(g, statics, part);
    var sp, dp := Keep(g.params, g.params, statics), Keep(g.params, g.params, ParamSet(g.params) - statics);
    EntryFacts(sp, [part]);
    EntryFacts(dp, DynamicOf(g.params, g.targets, statics, part));
    PartUnfolds(g, statics, part);
    BindingUnfolds(PartBinding(g, statics, part), ParamSet(g.params));
  }

  lemma PartUnfolds(g: Group, statics: set<string>, part: Target)
    ensures var b, others := PartBinding(g, statics, part), ParamSet(g.params) - statics;
            && b.statics == Entry(Keep(g.params, g.params, statics), [part])
            && b.dynamics == Entry(Keep(g.params, g.params, others), DynamicOf(g.params, g.targets, statics, part))
            && forall i :: 0 <= i < |b.statics| ==> |b.statics[i].targets| == 1
  {
  }

  /** What the binding of one static part assigns. */
  function PartAssigns(g: Group, statics: set<string>, part: Target): set<Assignment> {
    Cross(AssignAll(Keep(g.params, g.params, statics), [part]),
          AssignAll(Keep(g.params, g.params, ParamSet(g.params) - statics),
            DynamicOf(g.params, g.targets, statics, part)))
  }

  lemma PartMerges(g: Group, statics: set<string>, part: Target)
    requires GroupValid(g) && part in Projected(g.params, g.targets, statics)
    ensures Merged(PartBinding(g, statics, part)) == PartAssigns(g, statics, part)
  {
    PartSides(g, statics, part);
    hide Keep, DynamicOf, ParamSet, Distinct, Projected, GroupValid, AssignAll, Assignments, Cross, Entry, Valid,
      ParamsOf;
    var sp, dp := Keep(g.params, g.params, statics), Keep(g.params, g.params, ParamSet(g.params) - statics);
    EntryFacts(sp, [part]);
    EntryFacts(dp, DynamicOf(g.params, g.targets, statics, part));
  }

  lemma SplitAssignment(params: seq<string>, t: Target, statics: set<string>)
    requires |t| == |params| && Distinct(params)
    ensures var others := ParamSet(params) - statics;
            Assign(params, t) ==
              Assign(Keep(params, params, statics), Keep(params, t, statics)) +
              Assign(Keep(params, params, others), Keep(params, t, others))
  {
    var others, m := ParamSet(params) - statics, Assign(params, t);
    KeepAssigns(params, t, statics);
    KeepAssigns(params, t, others);
    AssignKeys(params, t);
    hide Assign, Keep, ParamSet;
    assert Restrict(m, statics) + Restrict(m, others) == m;
  }

  lemma InAssignAll(params: seq<string>, targets: seq<Target>, t: Target)
    requires t in targets
    ensures Assign(params, t) in AssignAll(params, targets)
  {
  }

  lemma FromAssignAll(params: seq<string>, targets: seq<Target>, x: Assignment) returns (t: Target)
    requires x in AssignAll(params, targets)
    ensures t in targets && x == Assign(params, t)
  {
    t :| t in targets && x == Assign(params, t);
  }

  /** Each target of a group is split between the binding of its static part and one
      of that binding's dynamic targets. */
  lemma TargetIsSplit(g: Group, statics: set<string>, t: Target)
    requires GroupValid(g) && t in g.targets
    ensures Keep(g.params, t, statics) in Projected(g.params, g.targets, statics)
    ensures Assign(g.params, t) in PartAssigns(g, statics, Keep(g.params, t, statics))
  {
    var others, part := ParamSet(g.params) - statics, Keep(g.params, t, statics);
    var i :| 0 <= i < |g.targets| && g.targets[i] == t;
    assert Projected(g.params, g.targets, statics)[i] == part;
    SplitAssignment(g.params, t, statics);
    InDynamic(g.params, g.targets, statics, part, i);
    hide *;
    var sp, dp := Keep(g.params, g.params, statics), Keep(g.params, g.params, others);
    InAssignAll(sp, [part], part);
    InAssignAll(dp, DynamicOf(g.params, g.targets, statics, part), Keep(g.params, t, others));
    PartAssignsIs(g, statics, part);
    InCross(Assign(sp, part), Assign(dp, Keep(g.params, t, others)), AssignAll(sp, [part]),
      AssignAll(dp, DynamicOf(g.params, g.targets, statics, part)));
  }

  lemma PartAssignsIs(g: Group, statics: set<string>, part: Target)
    ensures PartAssigns(g, statics, part) ==
      Cross(AssignAll(Keep(g.params, g.params, statics), [part]),
            AssignAll(Keep(g.params, g.params, ParamSet(g.params) - statics),
              DynamicOf(g.params, g.targets, statics, part)))
  {
  }

  lemma SplitIsTarget(g: Group, statics: set<string>, part: Target, x: Assignment)
    requires GroupValid(g) && part in Projected(g.params, g.targets, statics) && x in PartAssigns(g, statics, part)
    ensures x in AssignAll(g.params, g.targets)
  {
    assert Distinct(g.params) && forall t :: t in g.targets ==> |t| == |g.params|;
    hide *;
    var others := ParamSet(g.params) - statics;
    var sp, dp := Keep(g.params, g.params, statics), Keep(g.params, g.params, others);
    PartAssignsIs(g, statics, part);
    var a, b := FromCross(x, AssignAll(sp, [part]), AssignAll(dp, DynamicOf(g.params, g.targets, statics, part)));
    var s := FromAssignAll(sp, [part], a);
    var d := FromAssignAll(dp, DynamicOf(g.params, g.targets, statics, part), b);
    var i := FromDynamic(g.params, g.targets, statics, part, d);
    SplitAssignment(g.params, g.targets[i], statics);
    InAssignAll(g.params, g.targets, g.targets[i]);
  }

  lemma InMerged(bs: seq<Binding>, i: nat, x: Assignment)
    requires i < |bs| && x in Merged(bs[i])
    ensures x in MergedAll(bs)
  {
  }

  lemma FromMerged(bs: seq<Binding>, x: Assignment) returns (i: nat)
    requires x in MergedAll(bs)
    ensures i < |bs| && x in Merged(bs[i])
  {
    i :| 0 <= i < |bs| && x in Merged(bs[i]);
  }

  lemma PartsUnfold(g: Group, statics: set<string>)
    ensures var projected, bs := Projected(g.params, g.targets, statics), Parts(g, statics);
            var parts := Unique(projected);
            && |bs| == |parts| && (forall part :: part in projected <==> part in parts)
            && (forall i :: 0 <= i < |parts| ==> bs[i] == PartBinding(g, statics, parts[i]) && parts[i] in projected)
            && (forall i, j :: 0 <= i < j < |parts| ==> parts[i] != parts[j])
  {
    hide Projected, PartBinding;
  }

  /** The bindings of a group assign what the group assigns. */
  lemma PartsMerge(g: Group, statics: set<string>)
    requires GroupValid(g)
    ensures MergedAll(Parts(g, statics)) == AssignAll(g.params, g.targets)
  {
    hide *;
    var projected, bs := Projected(g.params, g.targets, statics), Parts(g, statics);
    var parts := Unique(projected);
    PartsUnfold(g, statics);
    forall x | x in AssignAll(g.params, g.targets) ensures x in MergedAll(bs) {
      var t := FromAssignAll(g.params, g.targets, x);
      TargetIsSplit(g, statics, t);
      var part := Keep(g.params, t, statics);
      var i :| 0 <= i < |parts| && parts[i] == part;
      PartMerges(g, statics, part);
      InMerged(bs, i, x);
    }
    forall x | x in MergedAll(bs) ensures x in AssignAll(g.params, g.targets) {
      var i := FromMerged(bs, x);
      PartMerges(g, statics, parts[i]);
      SplitIsTarget(g, statics, parts[i], x);
    }
  }

  lemma PartsAreValid(g: Group, statics: set<string>)
    requires GroupValid(g)
    ensures AllValid(Parts(g, statics), ParamSet(g.params))
  {
    var projected := Projected(g.params, g.targets, statics);
    var parts := Unique(projected);
    hide PartBinding, BindingValid, GroupValid, Projected;
    forall i | 0 <= i < |parts| ensures BindingValid(PartBinding(g, statics, parts[i]), ParamSet(g.params)) {
      assert parts[i] in projected;
      PartIsValid(g, statics, parts[i]);
    }
  }

  predicate AllValid(bs: seq<Binding>, params: set<string>) {
    forall i :: 0 <= i < |bs| ==> BindingValid(bs[i], params)
  }

  lemma {:induction false} CombinedKeepsSingle(a: Groups, b: Groups)
    requires forall i :: 0 <= i < |a| ==> |a[i].targets| == 1
    requires forall i :: 0 <= i < |b| ==> |b[i].targets| == 1
    ensures forall i :: 0 <= i < |Combined(a, b)| ==> |Combined(a, b)[i].targets| == 1
    decreases |b|
  {
    if |b| > 0 {
      PutKeepsSingle(a, b[0]);
      CombinedKeepsSingle(Put(a, b[0]), b[1..]);
    }
  }

  lemma {:induction false} PutKeepsSingle(gs: Groups, g: Group)
    requires |g.targets| == 1 && forall i :: 0 <= i < |gs| ==> |gs[i].targets| == 1
    ensures forall i :: 0 <= i < |Put(gs, g)| ==> |Put(gs, g)[i].targets| == 1
  {
    if |gs| > 0 && !KeyLess(g.params, gs[0].params) && gs[0].params != g.params { PutKeepsSingle(gs[1..], g); }
  }

  function Joined(l: Binding, r: Binding): Binding {
    Binding(Combined(l.statics, r.statics), Combined(l.dynamics, r.dynamics))
  }

  /** Joining bindings over other parameters crosses what they assign. */
  lemma JoinedIsCross(l: Binding, r: Binding, p: set<string>, q: set<string>)
    requires BindingValid(l, p) && BindingValid(r, q) && p !! q
    ensures BindingValid(Joined(l, r), p + q) && Merged(Joined(l, r)) == Cross(Merged(l), Merged(r))
  {
    hide *;
    BindingUnfolds(l, p);
    BindingUnfolds(r, q);
    BindingUnfolds(Joined(l, r), p + q);
    JoinedUnfolds(l, r);
    CombinedIsCross(l.statics, r.statics);
    CombinedIsCross(l.dynamics, r.dynamics);
    CombinedKeepsSingle(l.statics, r.statics);
    SidesAreIndependent(r.statics, l.dynamics);
    FourWays(Assignments(l.statics), Assignments(r.statics), Assignments(l.dynamics), Assignments(r.dynamics));
  }

  lemma BindingUnfolds(b: Binding, params: set<string>)
    ensures BindingValid(b, params) <==>
      && Valid(b.statics) && Valid(b.dynamics) && ParamsOf(b.statics) !! ParamsOf(b.dynamics)
      && ParamsOf(b.statics) + ParamsOf(b.dynamics) == params
      && forall i :: 0 <= i < |b.statics| ==> |b.statics[i].targets| == 1
    ensures Merged(b) == Cross(Assignments(b.statics), Assignments(b.dynamics))
  {
  }

  lemma JoinedUnfolds(l: Binding, r: Binding)
    ensures Joined(l, r).statics == Combined(l.statics, r.statics) &&
      Joined(l, r).dynamics == Combined(l.dynamics, r.dynamics)
  {
  }

  lemma SidesAreIndependent(a: Groups, b: Groups)
    requires Valid(a) && Valid(b) && ParamsOf(a) !! ParamsOf(b)
    ensures Independent(Assignments(a), Assignments(b))
  {
    AssignmentKeys(a);
    AssignmentKeys(b);
    hide Assignments, ParamsOf, Valid;
  }

  lemma FourWays(ls: set<Assignment>, rs: set<Assignment>, ld: set<Assignment>, rd: set<Assignment>)
    requires Independent(rs, ld)
    ensures Cross(Cross(ls, rs), Cross(ld, rd)) == Cross(Cross(ls, ld), Cross(rs, rd))
  {
    hide Cross;
    CrossAssociates(ls, rs, Cross(ld, rd));
    CrossSwaps(rs, ld, rd);
    CrossAssociates(ls, ld, Cross(rs, rd));
  }

  lemma PairsOfIsCross(l: Binding, right: seq<Binding>, p: set<string>, q: set<string>)
    requires BindingValid(l, p) && AllValid(right, q) && p !! q
    ensures AllValid(PairsOf(l, right), p + q) && MergedAll(PairsOf(l, right)) == Cross(Merged(l), MergedAll(right))
  {
    var bs := PairsOf(l, right);
    assert forall i :: 0 <= i < |right| ==> bs[i] == Joined(l, right[i]);
    hide Cross, Merged, MergedAll, BindingValid, Combined, Joined, PairsOf;
    forall i | 0 <= i < |right|
      ensures BindingValid(bs[i], p + q) && Merged(bs[i]) == Cross(Merged(l), Merged(right[i]))
    {
      JoinedIsCross(l, right[i], p, q);
    }
    forall x | x in MergedAll(bs) ensures x in Cross(Merged(l), MergedAll(right)) {
      var i := FromMerged(bs, x);
      var y, z := FromCross(x, Merged(l), Merged(right[i]));
      InMerged(right, i, z);
      InCross(y, z, Merged(l), MergedAll(right));
    }
    forall x | x in Cross(Merged(l), MergedAll(right)) ensures x in MergedAll(bs) {
      var y, z := FromCross(x, Merged(l), MergedAll(right));
      var i := FromMerged(right, z);
      InCross(y, z, Merged(l), Merged(right[i]));
      InMerged(bs, i, x);
    }
  }

  lemma MergedConcat(a: seq<Binding>, b: seq<Binding>)
    ensures MergedAll(a + b) == MergedAll(a) + MergedAll(b)
  {
    hide Merged, MergedAll;
    forall x | x in MergedAll(a + b) ensures x in MergedAll(a) + MergedAll(b) {
      var i := FromMerged(a + b, x);
      if i < |a| { InMerged(a, i, x); } else { InMerged(b, i - |a|, x); }
    }
    forall x | x in MergedAll(a) ensures x in MergedAll(a + b) {
      var i := FromMerged(a, x);
      InMerged(a + b, i, x);
    }
    forall x | x in MergedAll(b) ensures x in MergedAll(a + b) {
      var i := FromMerged(b, x);
      InMerged(a + b, |a| + i, x);
    }
  }

  lemma CrossUnion(a: set<Assignment>, b: set<Assignment>, c: set<Assignment>)
    ensures Cross(a + b, c) == Cross(a, c) + Cross(b, c)
  {
    hide Cross;
    forall x | x in Cross(a + b, c) ensures x in Cross(a, c) + Cross(b, c) {
      var y, z := FromCross(x, a + b, c);
      if y in a { InCross(y, z, a, c); } else { InCross(y, z, b, c); }
    }
    forall x | x in Cross(a, c) ensures x in Cross(a + b, c) {
      var y, z := FromCross(x, a, c);
      InCross(y, z, a + b, c);
    }
    forall x | x in Cross(b, c) ensures x in Cross(a + b, c) {
      var y, z := FromCross(x, b, c);
      InCross(y, z, a + b, c);
    }
  }

  lemma MergedOne(b: Binding)
    ensures MergedAll([b]) == Merged(b)
  {
    hide Merged;
    assert [b][0] == b;
  }

  lemma {:induction false} PairsAreCross(left: seq<Binding>, right: seq<Binding>, p: set<string>, q: set<string>)
    requires AllValid(left, p) && AllValid(right, q) && p !! q
    ensures AllValid(Pairs(left, right), p + q) &&
      MergedAll(Pairs(left, right)) == Cross(MergedAll(left), MergedAll(right))
  {
    hide BindingValid, PairsOf, Merged, MergedAll, Cross;
    if |left| == 0 {
      NothingMerged(right);
    } else {
      PairsOfIsCross(left[0], right, p, q);
      PairsAreCross(left[1..], right, p, q);
      MergedConcat(PairsOf(left[0], right), Pairs(left[1..], right));
      MergedConcat([left[0]], left[1..]);
      assert [left[0]] + left[1..] == left;
      MergedOne(left[0]);
      CrossUnion(Merged(left[0]), MergedAll(left[1..]), MergedAll(right));
    }
  }

  lemma NothingMerged(right: seq<Binding>)
    ensures MergedAll([]) == {} && Cross({}, MergedAll(right)) == {}
  {
    hide MergedAll, Merged, Cross;
    if x :| x in MergedAll([]) { var i := FromMerged([], x); }
    if x :| x in Cross({}, MergedAll(right)) { var y, z := FromCross(x, {}, MergedAll(right)); }
  }

  lemma {:induction false} BindingsAreProduct(bindings: seq<Binding>, gs: Groups, statics: set<string>, p: set<string>)
    requires AllValid(bindings, p) && Valid(gs) && p !! ParamsOf(gs)
    ensures AllValid(BindingsFrom(bindings, gs, statics), p + ParamsOf(gs))
    ensures MergedAll(BindingsFrom(bindings, gs, statics)) == Cross(MergedAll(bindings), Assignments(gs))
    decreases |gs|
  {
    hide BindingValid, Merged, MergedAll, Cross, AssignAll, Pairs, Parts, ParamSet, GroupValid;
    if |gs| == 0 {
      CrossUnit(MergedAll(bindings));
      assert p + ParamsOf(gs) == p;
    } else {
      var g, q := gs[0], ParamSet(gs[0].params);
      PartsMerge(g, statics);
      PartsAreValid(g, statics);
      PairsAreCross(bindings, Parts(g, statics), p, q);
      BindingsAreProduct(Pairs(bindings, Parts(g, statics)), gs[1..], statics, p + q);
      CrossAssociates(MergedAll(bindings), AssignAll(g.params, g.targets), Assignments(gs[1..]));
      assert p + q + ParamsOf(gs[1..]) == p + ParamsOf(gs);
    }
  }

  /** Splitting preserves the product: merging the static and the dynamic side of
      every returned pair yields the original assignments, and every static side has
      exactly one target per group. */
  lemma StaticBindingsPreserveProduct(gs: Groups, statics: set<string>)
    requires Valid(gs)
    ensures MergedAll(StaticBindings(gs, statics)) == Assignments(gs)
    ensures AllValid(StaticBindings(gs, statics), ParamsOf(gs))
  {
    var start := [Binding([], [])];
    hide Cross;
    MergedOne(start[0]);
    CrossUnit({map[]});
    BindingsAreProduct(start, gs, statics, {});
    CrossUnit(Assignments(gs));
    assert {} + ParamsOf(gs) == ParamsOf(gs);
  }

  /** Both sides of every binding are in the order of the map. */
  predicate SidesSorted(bs: seq<Binding>) {
    forall i :: 0 <= i < |bs| ==> Sorted(bs[i].statics) && Sorted(bs[i].dynamics)
  }

  lemma {:induction false} PairsAreSorted(left: seq<Binding>, right: seq<Binding>)
    requires SidesSorted(left)
    ensures SidesSorted(Pairs(left, right))
  {
    hide Sorted, Combined;
    if |left| > 0 {
      PairsAreSorted(left[1..], right);
      forall i | 0 <= i < |right|
        ensures Sorted(Combined(left[0].statics, right[i].statics))
        ensures Sorted(Combined(left[0].dynamics, right[i].dynamics))
      {
        CombinedIsSorted(left[0].statics, right[i].statics);
        CombinedIsSorted(left[0].dynamics, right[i].dynamics);
      }
    }
  }

  lemma {:induction false} BindingsAreSorted(bindings: seq<Binding>, gs: Groups, statics: set<string>)
    requires SidesSorted(bindings)
    ensures SidesSorted(BindingsFrom(bindings, gs, statics))
    decreases |gs|
  {
    hide Pairs, Parts, SidesSorted;
    if |gs| > 0 {
      PairsAreSorted(bindings, Parts(gs[0], statics));
      BindingsAreSorted(Pairs(bindings, Parts(gs[0], statics)), gs[1..], statics);
    }
  }

  /** Both sides of every returned pair list their groups in the order of their parameters. */
  lemma StaticBindingsAreSorted(gs: Groups, statics: set<string>)
    ensures SidesSorted(StaticBindings(gs, statics))
  {
    BindingsAreSorted([Binding([], [])], gs, statics);
  }

  lemma {:induction false} CountOfPairs(left: seq<Binding>, right: seq<Binding>)
    ensures |Pairs(left, right)| == |left| * |right|
  {
    hide PairsOf;
    if |left| > 0 {
      CountOfPairs(left[1..], right);
      assert |left| * |right| == |right| + (|left| - 1) * |right|;
    }
  }

  lemma {:induction false} PairsInOrder(left: seq<Binding>, right: seq<Binding>, i: nat, j: nat)
    requires i < |left| && j < |right|
    ensures i * |right| + j < |Pairs(left, right)|
    ensures Pairs(left, right)[i * |right| + j] == PairsOf(left[i], right)[j]
  {
    hide PairsOf;
    var n := |right|;
    if i == 0 {
      assert i * n + j == j;
    } else {
      PairsInOrder(left[1..], right, i - 1, j);
      assert i * n + j == n + ((i - 1) * n + j);
    }
  }

  lemma {:induction false} BindingsOfMore(bindings: seq<Binding>, gs: Groups, g: Group, statics: set<string>)
    ensures BindingsFrom(bindings, gs + [g], statics) == Pairs(BindingsFrom(bindings, gs, statics), Parts(g, statics))
    decreases |gs|
  {
    hide Pairs, Parts;
    if |gs| > 0 {
      assert (gs + [g])[0] == gs[0] && (gs + [g])[1..] == gs[1..] + [g];
      BindingsOfMore(Pairs(bindings, Parts(gs[0], statics)), gs[1..], g, statics);
    } else {
      assert (gs + [g])[0] == g && (gs + [g])[1..] == [];
    }
  }

  /** The parts of the last group vary fastest, and every pair takes one of them. */
  lemma LastGroupVariesFastest(gs: Groups, g: Group, statics: set<string>, i: nat, j: nat)
    requires i < |StaticBindings(gs, statics)| && j < |Parts(g, statics)|
    ensures var before, parts := StaticBindings(gs, statics), Parts(g, statics);
            var pairs := StaticBindings(gs + [g], statics);
            && |pairs| == |before| * |parts| && i * |parts| + j < |pairs|
            && pairs[i * |parts| + j] ==
                 Binding(Combined(before[i].statics, parts[j].statics), Combined(before[i].dynamics, parts[j].dynamics))
  {
    BindingsOfMore([Binding([], [])], gs, g, statics);
    CountOfPairs(StaticBindings(gs, statics), Parts(g, statics));
    PairsInOrder(StaticBindings(gs, statics), Parts(g, statics), i, j);
    hide Pairs, Parts, Combined, BindingsFrom;
  }

  /** At these positions, and nowhere else, the targets have this static part. */
  predicate PartAt(params: seq<string>, ts: seq<Target>, statics: set<string>, part: Target, ps: seq<nat>) {
    && (forall j, k :: 0 <= j < k < |ps| ==> ps[j] < ps[k])
    && (forall j :: 0 <= j < |ps| ==> ps[j] < |ts|)
    && (forall i :: 0 <= i < |ts| ==> (i in ps <==> Keep(params, ts[i], statics) == part))
  }

  /** The dynamic parts of the targets at these positions. */
  predicate DynamicsAt(params: seq<string>, ts: seq<Target>, statics: set<string>, ds: seq<Target>, ps: seq<nat>) {
    |ds| == |ps| &&
    forall j :: 0 <= j < |ps| ==> ps[j] < |ts| && ds[j] == Keep(params, ts[ps[j]], ParamSet(params) - statics)
  }

  lemma PartAtLonger(params: seq<string>, ts: seq<Target>, t: Target, statics: set<string>, part: Target, ps: seq<nat>)
    requires PartAt(params, ts, statics, part, ps)
    ensures PartAt(params, ts + [t], statics, part, if Keep(params, t, statics) == part then ps + [|ts|] else ps)
  {
    var qs := if Keep(params, t, statics) == part then ps + [|ts|] else ps;
    var us := ts + [t];
    hide Keep;
    forall i | 0 <= i < |us| ensures i in qs <==> Keep(params, us[i], statics) == part {
      if i < |ts| { assert us[i] == ts[i]; } else { assert us[i] == t; }
    }
  }

  lemma DynamicsAtLonger(params: seq<string>, ts: seq<Target>, t: Target, statics: set<string>, ds: seq<Target>,
      ps: seq<nat>)
    requires DynamicsAt(params, ts, statics, ds, ps)
    ensures DynamicsAt(params, ts + [t], statics, ds, ps)
    ensures DynamicsAt(params, ts + [t], statics, ds + [Keep(params, t, ParamSet(params) - statics)], ps + [|ts|])
  {
    hide Keep, ParamSet;
  }

  /** The dynamic parts that go with a static part are those of the targets that have it,
      in their order. */
  lemma {:induction false} DynamicsInOrder(params: seq<string>, ts: seq<Target>, statics: set<string>, part: Target)
      returns (ps: seq<nat>)
    ensures PartAt(params, ts, statics, part, ps)
    ensures DynamicsAt(params, ts, statics, DynamicOf(params, ts, statics, part), ps)
  {
    ps := [];
    if |ts| > 0 {
      var front, t := ts[..|ts| - 1], ts[|ts| - 1];
      assert ts == front + [t];
      var before := DynamicsInOrder(params, front, statics, part);
      hide Keep, ParamSet, PartAt, DynamicsAt;
      PartAtLonger(params, front, t, statics, part, before);
      DynamicsAtLonger(params, front, t, statics, DynamicOf(params, front, statics, part), before);
      ps := if Keep(params, t, statics) == part then before + [|front|] else before;
    }
  }

  /** Repeated targets are left out where they recur. */
  lemma UniqueInOrder(ts: seq<Target>, t: Target)
    ensures Unique(ts + [t]) == if t in ts then Unique(ts) else Unique(ts) + [t]
    ensures Unique([]) == []
  {
    var all := ts + [t];
    assert all[..|all| - 1] == ts && all[|all| - 1] == t;
  }

  // ---------- static sides are single and distinct ----------

  /** The one assignment of groups that have one target each. */
  function Only(gs: Groups): Assignment {
    if |gs| == 0 then map[]
    else (if |gs[0].targets| == 0 then map[] else Assign(gs[0].params, gs[0].targets[0])) + Only(gs[1..])
  }

  lemma {:induction false} SingleHasOne(gs: Groups)
    requires forall i :: 0 <= i < |gs| ==> |gs[i].targets| == 1
    ensures Assignments(gs) == {Only(gs)} && |Combinations(gs)| == 1
    decreases |gs|
  {
    if |gs| > 0 {
      SingleHasOne(gs[1..]);
      var g := gs[0];
      OneTarget(g.params, g.targets[0]);
      assert g.targets == [g.targets[0]] && |CombinationsFrom(gs, 1)| == 0;
      hide Cross, AssignAll, Assign;
      CrossOne(Assign(g.params, g.targets[0]), Only(gs[1..]));
    }
  }

  lemma OneTarget(params: seq<string>, t: Target)
    ensures AssignAll(params, [t]) == {Assign(params, t)}
  {
    hide Assign;
  }

  lemma CrossOne(x: Assignment, y: Assignment)
    ensures Cross({x}, {y}) == {x + y}
  {
    hide Cross;
    InCross(x, y, {x}, {y});
    forall m | m in Cross({x}, {y}) ensures m == x + y {
      var a, b := FromCross(m, {x}, {y});
    }
  }

  /** Two static sides never coincide. */
  predicate StaticsDiffer(bs: seq<Binding>) {
    forall i, j :: 0 <= i < j < |bs| ==> Only(bs[i].statics) != Only(bs[j].statics)
  }

  lemma {:induction false} AssignIsInjective(params: seq<string>, a: Target, b: Target)
    requires Distinct(params) && |a| == |b| == |params| && Assign(params, a) == Assign(params, b)
    ensures a == b
  {
    if |params| > 0 {
      var m, x, y, p := Assign(params, a), Assign(params[1..], a[1..]), Assign(params[1..], b[1..]), params[0];
      HeadParam(params);
      AssignKeys(params[1..], a[1..]);
      AssignKeys(params[1..], b[1..]);
      assert m[p] == a[0] && m[p] == b[0];
      assert x == m - {p} && y == m - {p};
      AssignIsInjective(params[1..], a[1..], b[1..]);
    }
  }

  lemma PartOnly(g: Group, statics: set<string>, part: Target)
    requires GroupValid(g) && part in Projected(g.params, g.targets, statics)
    ensures Only(PartBinding(g, statics, part).statics) == Assign(Keep(g.params, g.params, statics), part)
    ensures |part| == |Keep(g.params, g.params, statics)| && Distinct(Keep(g.params, g.params, statics))
  {
    PartSides(g, statics, part);
    hide Keep, DynamicOf, Projected, ParamSet, Distinct;
    var sp := Keep(g.params, g.params, statics);
    assert Assign(sp, part) + map[] == Assign(sp, part);
  }

  lemma PartsDiffer(g: Group, statics: set<string>)
    requires GroupValid(g)
    ensures StaticsDiffer(Parts(g, statics))
  {
    hide PartBinding, Only, Unique, Projected, GroupValid, Keep, Assign, Parts, Distinct;
    var projected, bs := Projected(g.params, g.targets, statics), Parts(g, statics);
    var parts := Unique(projected);
    PartsUnfold(g, statics);
    forall i, j | 0 <= i < j < |bs| ensures Only(bs[i].statics) != Only(bs[j].statics) {
      PartOnly(g, statics, parts[i]);
      PartOnly(g, statics, parts[j]);
      if Only(bs[i].statics) == Only(bs[j].statics) {
        AssignIsInjective(Keep(g.params, g.params, statics), parts[i], parts[j]);
      }
    }
  }

  /** The static side of a joined binding remembers both of its origins. */
  lemma JoinedOnly(l: Binding, r: Binding, p: set<string>, q: set<string>)
    requires BindingValid(l, p) && BindingValid(r, q) && p !! q
    ensures Restrict(Only(Joined(l, r).statics), p) == Only(l.statics)
    ensures Restrict(Only(Joined(l, r).statics), q) == Only(r.statics)
  {
    hide *;
    BindingUnfolds(l, p);
    BindingUnfolds(r, q);
    JoinedUnfolds(l, r);
    JoinedIsCross(l, r, p, q);
    BindingUnfolds(Joined(l, r), p + q);
    CombinedIsCross(l.statics, r.statics);
    SingleHasOne(l.statics);
    SingleHasOne(r.statics);
    SingleHasOne(Joined(l, r).statics);
    AssignmentKeys(l.statics);
    AssignmentKeys(r.statics);
    var x, y := Only(l.statics), Only(r.statics);
    InCross(x, y, {x}, {y});
    assert x + y in {Only(Joined(l, r).statics)};
    RestrictSum(x, y, p, q);
  }

  lemma RestrictSum(x: Assignment, y: Assignment, p: set<string>, q: set<string>)
    requires x.Keys <= p && y.Keys <= q && p !! q
    ensures Restrict(x + y, p) == x && Restrict(x + y, q) == y
  {
  }

  lemma {:induction false} FromPairs(left: seq<Binding>, right: seq<Binding>, k: nat) returns (i: nat, j: nat)
    requires k < |Pairs(left, right)|
    ensures i < |left| && j < |right| && Pairs(left, right)[k] == Joined(left[i], right[j]) && k == i * |right| + j
  {
    if k < |right| {
      i, j := 0, k;
    } else {
      i, j := FromPairs(left[1..], right, k - |right|);
      i := i + 1;
      assert (i - 1) * |right| + |right| == i * |right|;
    }
  }

  lemma PairsDiffer(left: seq<Binding>, right: seq<Binding>, p: set<string>, q: set<string>)
    requires AllValid(left, p) && AllValid(right, q) && p !! q && StaticsDiffer(left) && StaticsDiffer(right)
    ensures StaticsDiffer(Pairs(left, right))
  {
    var bs := Pairs(left, right);
    hide Pairs, BindingValid, Joined, Only;
    forall k, n | 0 <= k < n < |bs| ensures Only(bs[k].statics) != Only(bs[n].statics) {
      var i, j := FromPairs(left, right, k);
      var i', j' := FromPairs(left, right, n);
      JoinedOnly(left[i], right[j], p, q);
      JoinedOnly(left[i'], right[j'], p, q);
      if i == i' {
        assert j != j';
      }
    }
  }

  lemma {:induction false} BindingsDiffer(bindings: seq<Binding>, gs: Groups, statics: set<string>, p: set<string>)
    requires AllValid(bindings, p) && Valid(gs) && p !! ParamsOf(gs) && StaticsDiffer(bindings)
    ensures StaticsDiffer(BindingsFrom(bindings, gs, statics))
    decreases |gs|
  {
    if |gs| > 0 {
      hide BindingValid, Only, Pairs, Parts, ParamSet, GroupValid;
      var g, q := gs[0], ParamSet(gs[0].params);
      PartsAreValid(g, statics);
      PartsDiffer(g, statics);
      PairsAreCross(bindings, Parts(g, statics), p, q);
      PairsDiffer(bindings, Parts(g, statics), p, q);
      BindingsDiffer(Pairs(bindings, Parts(g, statics)), gs[1..], statics, p + q);
    }
  }

  /** Every returned static side has exactly one combination and no two of them coincide. */
  lemma StaticSidesAreSingleAndDistinct(gs: Groups, statics: set<string>)
    requires Valid(gs)
    ensures var bs := StaticBindings(gs, statics);
            StaticsDiffer(bs) && forall i :: 0 <= i < |bs| ==>
              |Combinations(bs[i].statics)| == 1 && Assignments(bs[i].statics) == {Only(bs[i].statics)}
  {
    var bs := StaticBindings(gs, statics);
    BindingsDiffer([Binding([], [])], gs, statics, {});
    StaticBindingsPreserveProduct(gs, statics);
    hide StaticBindings, Only, Combinations, Assignments;
    forall i | 0 <= i < |bs|
      ensures |Combinations(bs[i].statics)| == 1 && Assignments(bs[i].statics) == {Only(bs[i].statics)}
    {
      SingleHasOne(bs[i].statics);
    }
  }

  // ---------- the algorithms ----------

  datatype Generic = TypeParam(name: string, erased: bool) | ConstParam(name: string) | LifetimeParam(name: string)

  /** Type parameters that are not erased and const parameters can be bound statically. */
  predicate Bindable(generics: seq<Generic>, name: string) {
    exists i :: 0 <= i < |generics| && generics[i].name == name && !generics[i].LifetimeParam?
      && (generics[i].TypeParam? ==> !generics[i].erased)
  }

  function StaticParams(generics: seq<Generic>, requested: set<string>): set<string> {
    set name | name in requested && Bindable(generics, name)
  }

  /** Exactly the requested names that are those of a const parameter or of a type
      parameter that is not erased are bound statically. */
  lemma StaticParamsAre(generics: seq<Generic>, requested: set<string>, name: string)
    ensures name in StaticParams(generics, requested) <==>
      name in requested && (TypeParam(name, false) in generics || ConstParam(name) in generics)
  {
    if TypeParam(name, false) in generics {
      var i :| 0 <= i < |generics| && generics[i] == TypeParam(name, false);
      assert Bindable(generics, name);
    }
    if ConstParam(name) in generics {
      var i :| 0 <= i < |generics| && generics[i] == ConstParam(name);
      assert Bindable(generics, name);
    }
    if Bindable(generics, name) {
      var i :| 0 <= i < |generics| && generics[i].name == name && !generics[i].LifetimeParam?
        && (generics[i].TypeParam? ==> !generics[i].erased);
      assert generics[i] == TypeParam(name, false) || generics[i] == ConstParam(name);
    }
  }

  method CombinedWith(left: Groups, right: Groups) returns (groups: Groups)
    ensures groups == Combined(left, right)
  {
    groups := left;
    for i := 0 to |right|
      invariant Combined(groups, right[i..]) == Combined(left, right)
    {
      assert right[i..][0] == right[i] && right[i..][1..] == right[i + 1..];
      groups := Put(groups, right[i]);
    }
  }

  method Find(keys: seq<Target>, key: Target) returns (i: nat)
    ensures i <= |keys| && (i < |keys| ==> keys[i] == key) && (i == |keys| ==> key !in keys)
  {
    i := 0;
    while i < |keys| && keys[i] != key
      invariant i <= |keys| && key !in keys[..i]
    {
      i := i + 1;
    }
  }

  /** The bindings of the targets seen so far. */
  function PartsSoFar(g: Group, statics: set<string>, k: nat): seq<Binding>
    requires k <= |g.targets|
  {
    Parts(Group(g.params, g.targets[..k]), statics)
  }

  function KeysSoFar(g: Group, statics: set<string>, k: nat): (keys: seq<Target>)
    requires k <= |g.targets|
    ensures |keys| == |PartsSoFar(g, statics, k)|
  {
    Unique(Projected(g.params, g.targets[..k], statics))
  }

  /** Collect the targets of a group by their static parts. */
  method CollectParts(g: Group, statics: set<string>) returns (variants: seq<Binding>)
    ensures variants == Parts(g, statics)
  {
    var others := ParamSet(g.params) - statics;
    var staticParams, dynamicParams := Keep(g.params, g.params, statics), Keep(g.params, g.params, others);
    hide *;
    var keys: seq<Target> := [];
    variants := [];
    NothingCollected(g, statics);
    for k := 0 to |g.targets|
      invariant keys == KeysSoFar(g, statics, k) && variants == PartsSoFar(g, statics, k)
    {
      var staticTarget, dynamicTarget := Keep(g.params, g.targets[k], statics), Keep(g.params, g.targets[k], others);
      var at := Find(keys, staticTarget);
      CollectOne(g, statics, k);
      if at == |keys| {
        CollectNew(g, statics, k);
        keys := keys + [staticTarget];
        variants := variants + [Binding(Entry(staticParams, [staticTarget]), Entry(dynamicParams, [dynamicTarget]))];
      } else {
        CollectMore(g, statics, k, at);
        if |dynamicParams| > 0 {
          var entry := variants[at].dynamics[0];
          variants := variants[at := variants[at].(dynamics := [Group(entry.params, entry.targets + [dynamicTarget])])];
        }
      }
    }
    AllCollected(g, statics);
  }

  lemma NothingCollected(g: Group, statics: set<string>)
    ensures KeysSoFar(g, statics, 0) == [] && PartsSoFar(g, statics, 0) == []
  {
  }

  lemma AllCollected(g: Group, statics: set<string>)
    ensures PartsSoFar(g, statics, |g.targets|) == Parts(g, statics)
  {
    assert g.targets[..|g.targets|] == g.targets;
  }

  lemma {:induction false} EmptyDynamic(params: seq<string>, ts: seq<Target>, statics: set<string>, part: Target)
    requires forall i :: 0 <= i < |ts| ==> Keep(params, ts[i], statics) != part
    ensures DynamicOf(params, ts, statics, part) == []
  {
    hide Keep;
    if |ts| > 0 { EmptyDynamic(params, ts[..|ts| - 1], statics, part); }
  }

  /** One more target adds a dynamic part to the binding of its static part, or begins one. */
  lemma CollectOne(g: Group, statics: set<string>, k: nat)
    requires k < |g.targets|
    ensures var params, before, after := g.params, g.targets[..k], g.targets[..k + 1];
            var t, others, keys := g.targets[k], ParamSet(params) - statics, KeysSoFar(g, statics, k);
            var key := Keep(params, t, statics);
            && KeysSoFar(g, statics, k + 1) == (if key in keys then keys else keys + [key])
            && (forall part :: DynamicOf(params, after, statics, part) ==
                  if part == key then DynamicOf(params, before, statics, part) + [Keep(params, t, others)]
                  else DynamicOf(params, before, statics, part))
            && (key !in keys ==> DynamicOf(params, before, statics, key) == [])
            && (forall i, j :: 0 <= i < j < |keys| ==> keys[i] != keys[j])
  {
    var params, before, after := g.params, g.targets[..k], g.targets[..k + 1];
    var key, projected := Keep(params, g.targets[k], statics), Projected(params, before, statics);
    assert after[..k] == before && after[k] == g.targets[k];
    assert Projected(params, after, statics)[..k] == projected;
    if key !in Unique(projected) {
      forall i | 0 <= i < |before| ensures Keep(params, before[i], statics) != key {
        assert projected[i] in projected;
      }
      EmptyDynamic(params, before, statics, key);
    }
  }

  lemma BindingAt(g: Group, statics: set<string>, k: nat, i: nat)
    requires k <= |g.targets| && i < |KeysSoFar(g, statics, k)|
    ensures var part, others := KeysSoFar(g, statics, k)[i], ParamSet(g.params) - statics;
            PartsSoFar(g, statics, k)[i] ==
              Binding(Entry(Keep(g.params, g.params, statics), [part]),
                      Entry(Keep(g.params, g.params, others), DynamicOf(g.params, g.targets[..k], statics, part)))
  {
    hide Keep, DynamicOf, ParamSet, Entry, Unique;
  }

  lemma CollectNew(g: Group, statics: set<string>, k: nat)
    requires k < |g.targets| && Keep(g.params, g.targets[k], statics) !in KeysSoFar(g, statics, k)
    ensures var others := ParamSet(g.params) - statics;
            var key, t := Keep(g.params, g.targets[k], statics), Keep(g.params, g.targets[k], others);
            PartsSoFar(g, statics, k + 1) == PartsSoFar(g, statics, k) +
              [Binding(Entry(Keep(g.params, g.params, statics), [key]), Entry(Keep(g.params, g.params, others), [t]))]
  {
    hide *;
    CollectOne(g, statics, k);
    var before, after, keys := PartsSoFar(g, statics, k), PartsSoFar(g, statics, k + 1), KeysSoFar(g, statics, k);
    forall i | 0 <= i < |keys| ensures after[i] == before[i] {
      BindingAt(g, statics, k, i);
      BindingAt(g, statics, k + 1, i);
    }
    BindingAt(g, statics, k + 1, |keys|);
    var others := ParamSet(g.params) - statics;
    var key, t := Keep(g.params, g.targets[k], statics), Keep(g.params, g.targets[k], others);
    assert DynamicOf(g.params, g.targets[..k + 1], statics, key) == [t] by {
      assert DynamicOf(g.params, g.targets[..k], statics, key) + [t] == [t];
    }
    OneLonger(before, after);
  }

  lemma OneLonger<T>(a: seq<T>, b: seq<T>)
    requires |b| == |a| + 1 && forall i :: 0 <= i < |a| ==> b[i] == a[i]
    ensures b == a + [b[|a|]]
  {
  }

  lemma CollectMore(g: Group, statics: set<string>, k: nat, at: nat)
    requires k < |g.targets| && at < |KeysSoFar(g, statics, k)|
    requires KeysSoFar(g, statics, k)[at] == Keep(g.params, g.targets[k], statics)
    ensures var others, before := ParamSet(g.params) - statics, PartsSoFar(g, statics, k);
            var dp := Keep(g.params, g.params, others);
            && PartsSoFar(g, statics, k + 1) ==
                 (if |dp| == 0 then before
                  else before[at := before[at].(dynamics :=
                    [Group(dp, DynamicOf(g.params, g.targets[..k], statics, KeysSoFar(g, statics, k)[at]) +
                      [Keep(g.params, g.targets[k], others)])])])
            && (|dp| > 0 ==>
                  before[at].dynamics ==
                    [Group(dp, DynamicOf(g.params, g.targets[..k], statics, KeysSoFar(g, statics, k)[at]))])
  {
    hide *;
    CollectOne(g, statics, k);
    var before, after, keys := PartsSoFar(g, statics, k), PartsSoFar(g, statics, k + 1), KeysSoFar(g, statics, k);
    forall i | 0 <= i < |keys| && i != at ensures after[i] == before[i] {
      BindingAt(g, statics, k, i);
      BindingAt(g, statics, k + 1, i);
    }
    BindingAt(g, statics, k, at);
    BindingAt(g, statics, k + 1, at);
    SameButOne(before, after, at);
    var others := ParamSet(g.params) - statics;
    var dp, ds := Keep(g.params, g.params, others), DynamicOf(g.params, g.targets[..k], statics, keys[at]);
    EntryIs(dp, ds);
    EntryIs(dp, ds + [Keep(g.params, g.targets[k], others)]);
  }

  lemma SameButOne<T>(a: seq<T>, b: seq<T>, at: nat)
    requires |a| == |b| && at < |a| && forall i :: 0 <= i < |a| && i != at ==> b[i] == a[i]
    ensures b == a[at := b[at]]
    ensures b[at] == a[at] ==> b == a
  {
  }

  lemma EntryIs(params: seq<string>, targets: seq<Target>)
    ensures Entry(params, targets) == if |params| == 0 then [] else [Group(params, targets)]
  {
  }

  method SplitStatic(gs: Groups, generics: seq<Generic>, requested: set<string>) returns (bindings: seq<Binding>)
    ensures bindings == StaticBindings(gs, StaticParams(generics, requested))
  {
    var statics := StaticParams(generics, requested);
    bindings := [Binding([], [])];
    for i := 0 to |gs|
      invariant BindingsFrom(bindings, gs[i..], statics) == StaticBindings(gs, statics)
    {
      assert gs[i..][0] == gs[i] && gs[i..][1..] == gs[i + 1..];
      var variants := CollectParts(gs[i], statics);
      bindings := JoinAll(bindings, variants);
    }
  }

  method JoinAll(left: seq<Binding>, right: seq<Binding>) returns (next: seq<Binding>)
    ensures next == Pairs(left, right)
  {
    next := [];
    for i := 0 to |left|
      invariant next + Pairs(left[i..], right) == Pairs(left, right)
    {
      assert left[i..][0] == left[i] && left[i..][1..] == left[i + 1..];
      ghost var before := next;
      for j := 0 to |right|
        invariant next == before + PairsOf(left[i], right)[..j]
      {
        var statics := CombinedWith(left[i].statics, right[j].statics);
        var dynamics := CombinedWith(left[i].dynamics, right[j].dynamics);
        next := next + [Binding(statics, dynamics)];
      }
      assert PairsOf(left[i], right)[..|right|] == PairsOf(left[i], right);
      assert before + (PairsOf(left[i], right) + Pairs(left[i + 1..], right)) == next + Pairs(left[i + 1..], right);
    }
  }
}
