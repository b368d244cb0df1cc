/** The dispatch groups that one parameter depends on. */
module DispatchClosure {
  import opened DispatchGroups
  import opened DispatchBindings

  /** A path that starts with the parameter mentions it, unless it is global; so does
      anything with such a path inside. */
  predicate Mentions(arg: Arg, p: string) {
    || (arg.Path? && !arg.global && |arg.segments| > 0 && arg.segments[0] == p)
    || exists i :: 0 <= i < |arg.nested| && Mentions(arg.nested[i], p)
  }

  /** An argument bound to a selected parameter of the group mentions `q`. */
  predicate GroupUses(g: Group, selected: set<string>, q: string) {
    exists i, t :: 0 <= i < |g.params| && g.params[i] in selected && t in g.targets && i < |t| && Mentions(t[i], q)
  }

  predicate Uses(gs: Groups, selected: set<string>, q: string) {
    exists k :: 0 <= k < |gs| && GroupUses(gs[k], selected, q)
  }

  /** A set of parameters that contains every parameter its bound arguments mention. */
  predicate Closed(gs: Groups, selected: set<string>) {
    forall q :: q in ParamsOf(gs) && Uses(gs, selected, q) ==> q in selected
  }

  /** `a` is the argument or lies somewhere inside it. */
  predicate Within(a: Arg, arg: Arg) {
    a == arg || exists i :: 0 <= i < |arg.nested| && Within(a, arg.nested[i])
  }

  /** An argument mentions a parameter exactly if somewhere in it, at any depth, there is a
      path that is not global and begins with the parameter. */
  lemma {:induction false} MentionsIs(arg: Arg, p: string)
    ensures Mentions(arg, p) <==>
      exists a :: Within(a, arg) && Begins(a, p)
  {
    forall i | 0 <= i < |arg.nested|
      ensures Mentions(arg.nested[i], p) <==>
        exists a :: Within(a, arg.nested[i]) && Begins(a, p)
    {
      MentionsIs(arg.nested[i], p);
    }
    if a :| Within(a, arg) && Begins(a, p) {
      if a != arg {
        var i :| 0 <= i < |arg.nested| && Within(a, arg.nested[i]);
        assert Mentions(arg.nested[i], p);
      }
    }
    if Mentions(arg, p) {
      if i :| 0 <= i < |arg.nested| && Mentions(arg.nested[i], p) {
        var a :| Within(a, arg.nested[i]) && Begins(a, p);
        assert Within(a, arg);
      } else {
        assert Within(arg, arg);
      }
    }
  }

  /** A target binds the `i`-th parameter of the group, a selected one, to an argument that
      has `a` in it. */
  predicate Bound(g: Group, selected: set<string>, i: nat, t: Target, a: Arg) {
    i < |g.params| && g.params[i] in selected && t in g.targets && i < |t| && Within(a, t[i])
  }

  /** A parameter is used exactly if it begins a path somewhere in an argument that a target
      binds to a selected parameter. */
  lemma UsesIs(gs: Groups, selected: set<string>, q: string)
    ensures Uses(gs, selected, q) <==>
      exists k: nat, i: nat, t, a :: k < |gs| && Bound(gs[k], selected, i, t, a) && Begins(a, q)
  {
    if Uses(gs, selected, q) {
      var k: nat :| k < |gs| && GroupUses(gs[k], selected, q);
      var g := gs[k];
      var i: nat, t :| i < |g.params| && g.params[i] in selected && t in g.targets && i < |t| && Mentions(t[i], q);
      MentionsIs(t[i], q);
      var a :| Within(a, t[i]) && Begins(a, q);
      assert Bound(gs[k], selected, i, t, a);
    }
    if k: nat, i: nat, t, a :| k < |gs| && Bound(gs[k], selected, i, t, a) && Begins(a, q) {
      MentionsIs(t[i], q);
      assert GroupUses(gs[k], selected, q);
    }
  }

  /** A path that is not global and begins with the parameter. */
  predicate Begins(a: Arg, q: string) {
    a.Path? && !a.global && |a.segments| > 0 && a.segments[0] == q
  }

  function Next(gs: Groups, selected: set<string>): set<string> {
    selected + set q | q in ParamsOf(gs) && Uses(gs, selected, q)
  }

  lemma UsesGrow(gs: Groups, a: set<string>, b: set<string>, q: string)
    requires a <= b && Uses(gs, a, q)
    ensures Uses(gs, b, q)
  {
    var k :| 0 <= k < |gs| && GroupUses(gs[k], a, q);
    var g := gs[k];
    var i, t :| 0 <= i < |g.params| && g.params[i] in a && t in g.targets && i < |t| && Mentions(t[i], q);
    assert GroupUses(g, b, q);
  }

  /** A step stays inside every closed set. */
  lemma NextStaysWithin(gs: Groups, selected: set<string>, closed: set<string>)
    requires selected <= closed && Closed(gs, closed)
    ensures Next(gs, selected) <= closed
  {
    forall q | q in ParamsOf(gs) && Uses(gs, selected, q) ensures q in closed {
      UsesGrow(gs, selected, closed, q);
    }
  }

  method CandidatesUsed(g: Group, selected: set<string>, candidates: seq<string>, next: set<string>)
      returns (more: set<string>)
    ensures more == next + set q | q in candidates && GroupUses(g, selected, q)
  {
    more := next;
    for i := 0 to |candidates|
      invariant more == next + set q | q in candidates[..i] && GroupUses(g, selected, q)
    {
      assert candidates[..i + 1] == candidates[..i] + [candidates[i]];
      if GroupUses(g, selected, candidates[i]) {
        more := more + {candidates[i]};
      }
    }
    assert candidates[..|candidates|] == candidates;
  }

  function AllParams(gs: Groups): (params: seq<string>)
    ensures forall p :: p in params <==> p in ParamsOf(gs)
  {
    if |gs| == 0 then []
    else
      assert forall p :: p in gs[0].params <==> p in ParamSet(gs[0].params);
      gs[0].params + AllParams(gs[1..])
  }

  method NextSelected(gs: Groups, selected: set<string>) returns (next: set<string>)
    ensures next == Next(gs, selected)
  {
    var candidates := AllParams(gs);
    next := selected;
    for k := 0 to |gs|
      invariant next == selected + set q | q in ParamsOf(gs) && Uses(gs[..k], selected, q)
    {
      forall q ensures Uses(gs[..k + 1], selected, q) <==> Uses(gs[..k], selected, q) || GroupUses(gs[k], selected, q) {
        UsesOneMore(gs, selected, q, k);
      }
      next := CandidatesUsed(gs[k], selected, candidates, next);
    }
    assert gs[..|gs|] == gs;
  }

  lemma UsesOneMore(gs: Groups, selected: set<string>, q: string, k: nat)
    requires k < |gs|
    ensures Uses(gs[..k + 1], selected, q) <==> Uses(gs[..k], selected, q) || GroupUses(gs[k], selected, q)
  {
    hide GroupUses;
    if Uses(gs[..k], selected, q) {
      var j :| 0 <= j < k && GroupUses(gs[..k][j], selected, q);
      assert gs[..k + 1][j] == gs[..k][j];
    }
    if GroupUses(gs[k], selected, q) {
      assert gs[..k + 1][k] == gs[k];
    }
    if Uses(gs[..k + 1], selected, q) {
      var j :| 0 <= j < k + 1 && GroupUses(gs[..k + 1][j], selected, q);
      assert j < k ==> gs[..k][j] == gs[..k + 1][j];
    }
  }

  /** What every closed set that contains the root has in common. */
  ghost function Needed(gs: Groups, root: string): set<string> {
    set q | q in ParamsOf(gs) + {root} && forall closed: set<string> :: Closed(gs, closed) && root in closed ==>
      q in closed
  }

  /** What is needed is itself closed, and so the least closed set that contains the root. */
  lemma NeededIsLeast(gs: Groups, root: string)
    ensures root in Needed(gs, root) && Closed(gs, Needed(gs, root))
    ensures forall closed :: Closed(gs, closed) && root in closed ==> Needed(gs, root) <= closed
  {
    var needed := Needed(gs, root);
    forall q | q in ParamsOf(gs) && Uses(gs, needed, q) ensures q in needed {
      forall closed: set<string> | Closed(gs, closed) && root in closed ensures q in closed {
        assert needed <= closed;
        UsesGrow(gs, needed, closed, q);
      }
    }
  }

  /** The closure loop ends with the least closed set that contains the root. */
  method Closure(gs: Groups, root: string) returns (selected: set<string>)
    ensures selected == Needed(gs, root)
  {
    hide *;
    selected := {root};
    NeededIsLeast(gs, root);
    while true
      invariant root in selected && selected <= ParamsOf(gs) + {root}
      invariant selected <= Needed(gs, root)
      decreases |ParamsOf(gs) + {root} - selected|
    {
      var next := NextSelected(gs, selected);
      NextGrows(gs, selected);
      if next == selected {
        break;
      }
      NextStaysWithin(gs, selected, Needed(gs, root));
      SmallerRest(ParamsOf(gs) + {root}, selected, next);
      selected := next;
    }
  }

  lemma NextGrows(gs: Groups, selected: set<string>)
    ensures selected <= Next(gs, selected) <= selected + ParamsOf(gs)
    ensures Next(gs, selected) == selected ==> Closed(gs, selected)
  {
    hide Uses, ParamsOf;
    if Next(gs, selected) == selected {
      forall q | q in ParamsOf(gs) && Uses(gs, selected, q) ensures q in selected {
        assert q in Next(gs, selected);
      }
    }
  }

  lemma SmallerRest(all: set<string>, a: set<string>, b: set<string>)
    requires a < b <= all
    ensures |all - b| < |all - a|
  {
    assert all - a == (all - b) + (b - a) && (all - b) !! (b - a);
    assert b - a != {};
    assert |b - a| > 0;
  }

  // ---------- projection onto the selected parameters ----------

  /** A group keeps its selected parameters and the distinct targets for them; a group
      without any is dropped. */
  function ProjectFrom(bindings: Groups, gs: Groups, selected: set<string>): Groups
    decreases |gs|
  {
    if |gs| == 0 then bindings
    else
      var params := Keep(gs[0].params, gs[0].params, selected);
      if |params| == 0 then ProjectFrom(bindings, gs[1..], selected)
      else ProjectFrom(Put(bindings, Group(params, Unique(Projected(gs[0].params, gs[0].targets, selected)))),
        gs[1..], selected)
  }

  method UniqueTargets(targets: seq<Target>) returns (unique: seq<Target>)
    ensures unique == Unique(targets)
  {
    unique := [];
    for i := 0 to |targets|
      invariant unique == Unique(targets[..i])
    {
      assert targets[..i + 1][..i] == targets[..i];
      if targets[i] !in unique {
        unique := unique + [targets[i]];
      }
    }
    assert targets[..|targets|] == targets;
  }

  function RestrictAll(a: set<Assignment>, kept: set<string>): set<Assignment> {
    set x | x in a :: Restrict(x, kept)
  }

  lemma InRestrictAll(a: set<Assignment>, kept: set<string>, x: Assignment)
    requires x in a
    ensures Restrict(x, kept) in RestrictAll(a, kept)
  {
  }

  lemma FromRestrictAll(a: set<Assignment>, kept: set<string>, y: Assignment) returns (x: Assignment)
    requires y in RestrictAll(a, kept)
    ensures x in a && y == Restrict(x, kept)
  {
    x :| x in a && y == Restrict(x, kept);
  }

  lemma RestrictCross(a: set<Assignment>, b: set<Assignment>, kept: set<string>)
    ensures RestrictAll(Cross(a, b), kept) == Cross(RestrictAll(a, kept), RestrictAll(b, kept))
  {
    hide Cross, RestrictAll;
    forall m | m in RestrictAll(Cross(a, b), kept) ensures m in Cross(RestrictAll(a, kept), RestrictAll(b, kept)) {
      var xy := FromRestrictAll(Cross(a, b), kept, m);
      var x, y := FromCross(xy, a, b);
      InRestrictAll(a, kept, x);
      InRestrictAll(b, kept, y);
      InCross(Restrict(x, kept), Restrict(y, kept), RestrictAll(a, kept), RestrictAll(b, kept));
      assert m == Restrict(x, kept) + Restrict(y, kept);
    }
    forall m | m in Cross(RestrictAll(a, kept), RestrictAll(b, kept)) ensures m in RestrictAll(Cross(a, b), kept) {
      var u, v := FromCross(m, RestrictAll(a, kept), RestrictAll(b, kept));
      var x := FromRestrictAll(a, kept, u);
      var y := FromRestrictAll(b, kept, v);
      InCross(x, y, a, b);
      InRestrictAll(Cross(a, b), kept, x + y);
      assert m == Restrict(x + y, kept);
    }
  }

  lemma ProjectedGroup(g: Group, kept: set<string>)
    requires GroupValid(g)
    ensures AssignAll(Keep(g.params, g.params, kept), Unique(Projected(g.params, g.targets, kept))) ==
      RestrictAll(AssignAll(g.params, g.targets), kept)
  {
    var projected := Projected(g.params, g.targets, kept);
    var names, unique, all := Keep(g.params, g.params, kept), Unique(projected), AssignAll(g.params, g.targets);
    assert forall t :: t in unique <==> t in projected;
    assert |projected| == |g.targets| && forall i :: 0 <= i < |g.targets| ==>
      projected[i] == Keep(g.params, g.targets[i], kept);
    assert Distinct(g.params) && forall i :: 0 <= i < |g.targets| ==> |g.targets[i]| == |g.params|;
    hide *;
    forall x | x in AssignAll(names, unique) ensures x in RestrictAll(all, kept) {
      var u := FromAssignAll(names, unique, x);
      var i :| 0 <= i < |projected| && projected[i] == u;
      KeepAssigns(g.params, g.targets[i], kept);
      InAssignAll(g.params, g.targets, g.targets[i]);
      InRestrictAll(all, kept, Assign(g.params, g.targets[i]));
    }
    forall x | x in RestrictAll(all, kept) ensures x in AssignAll(names, unique) {
      var m := FromRestrictAll(all, kept, x);
      var t := FromAssignAll(g.params, g.targets, m);
      var i :| 0 <= i < |g.targets| && g.targets[i] == t;
      KeepAssigns(g.params, t, kept);
      InAssignAll(names, unique, projected[i]);
    }
  }

  /** No target of a group occurs twice. */
  predicate NoRepeats(gs: Groups) {
    forall k :: 0 <= k < |gs| ==> forall i, j :: 0 <= i < j < |gs[k].targets| ==> gs[k].targets[i] != gs[k].targets[j]
  }

  lemma {:induction false} PutKeepsNoRepeats(gs: Groups, g: Group)
    requires NoRepeats(gs) && NoRepeats([g])
    ensures NoRepeats(Put(gs, g))
  {
    assert [g][0] == g;
    if |gs| > 0 && !KeyLess(g.params, gs[0].params) && gs[0].params != g.params {
      assert NoRepeats(gs[1..]);
      PutKeepsNoRepeats(gs[1..], g);
    }
  }

  lemma ProjectedIsValid(g: Group, kept: set<string>)
    requires GroupValid(g)
    ensures var names := Keep(g.params, g.params, kept);
            var projected := Group(names, Unique(Projected(g.params, g.targets, kept)));
            && ParamSet(names) == ParamSet(g.params) * kept && NoRepeats([projected])
            && (|names| > 0 ==> GroupValid(projected))
            && (|names| == 0 && |g.targets| > 0 ==> RestrictAll(AssignAll(g.params, g.targets), kept) == {map[]})
  {
    KeepNames(g.params, kept);
    var names, ps := Keep(g.params, g.params, kept), Projected(g.params, g.targets, kept);
    forall t | t in Unique(ps) ensures |t| == |names| {
      var i :| 0 <= i < |ps| && ps[i] == t;
      KeepAssigns(g.params, g.targets[i], kept);
    }
    if |names| == 0 && |g.targets| > 0 {
      ProjectedGroup(g, kept);
      assert ps[0] in Unique(ps) && Assign(names, ps[0]) == map[];
    }
  }

  lemma {:induction false} ProjectFromKeepsNoRepeats(bindings: Groups, gs: Groups, kept: set<string>)
    requires NoRepeats(bindings)
    ensures NoRepeats(ProjectFrom(bindings, gs, kept))
    decreases |gs|
  {
    if |gs| > 0 {
      hide Keep, Put, Projected;
      var g, names := gs[0], Keep(gs[0].params, gs[0].params, kept);
      if |names| == 0 {
        ProjectFromKeepsNoRepeats(bindings, gs[1..], kept);
      } else {
        var projected := Group(names, Unique(Projected(g.params, g.targets, kept)));
        PutKeepsNoRepeats(bindings, projected);
        ProjectFromKeepsNoRepeats(Put(bindings, projected), gs[1..], kept);
      }
    }
  }

  /** None of the group's parameters is kept. */
  predicate Dropped(g: Group, kept: set<string>) {
    |Keep(g.params, g.params, kept)| == 0
  }

  predicate DroppedHaveTargets(gs: Groups, kept: set<string>) {
    forall i :: 0 <= i < |gs| && Dropped(gs[i], kept) ==> |gs[i].targets| > 0
  }

  predicate SomeKeptIsEmpty(gs: Groups, kept: set<string>) {
    exists i :: 0 <= i < |gs| && !Dropped(gs[i], kept) && |gs[i].targets| == 0
  }

  lemma {:induction false} ProjectFromRestricts(bindings: Groups, gs: Groups, kept: set<string>)
    requires Valid(bindings) && Valid(gs) && ParamsOf(bindings) !! ParamsOf(gs) && DroppedHaveTargets(gs, kept)
    ensures Assignments(ProjectFrom(bindings, gs, kept)) ==
      Cross(Assignments(bindings), RestrictAll(Assignments(gs), kept))
    decreases |gs|
  {
    if |gs| == 0 {
      assert RestrictAll({map[]}, kept) == {map[]};
      CrossUnit(Assignments(bindings));
    } else {
      var g, names := gs[0], Keep(gs[0].params, gs[0].params, kept);
      var here, rest := RestrictAll(AssignAll(g.params, g.targets), kept), RestrictAll(Assignments(gs[1..]), kept);
      assert Dropped(g, kept) ==> |g.targets| > 0;
      assert DroppedHaveTargets(gs[1..], kept);
      hide Cross, RestrictAll, AssignAll, Keep, Unique, Projected, Put, ParamSet, NoRepeats, GroupValid,
        DroppedHaveTargets;
      ProjectedIsValid(g, kept);
      ProjectedGroup(g, kept);
      RestrictCross(AssignAll(g.params, g.targets), Assignments(gs[1..]), kept);
      if |names| == 0 {
        ProjectFromRestricts(bindings, gs[1..], kept);
        CrossUnit(rest);
      } else {
        hide Assignments;
        var projected := Group(names, Unique(Projected(g.params, g.targets, kept)));
        PutIsCross(bindings, projected);
        ProjectFromRestricts(Put(bindings, projected), gs[1..], kept);
        MoveInside(Assignments(bindings), projected, rest, bindings);
      }
    }
  }

  lemma MoveInside(before: set<Assignment>, g: Group, rest: set<Assignment>, bindings: Groups)
    requires Valid(bindings) && before == Assignments(bindings) && GroupValid(g) &&
      ParamSet(g.params) !! ParamsOf(bindings)
    ensures Cross(Cross(AssignAll(g.params, g.targets), before), rest) ==
      Cross(before, Cross(AssignAll(g.params, g.targets), rest))
  {
    var here := AssignAll(g.params, g.targets);
    AssignmentKeys(bindings);
    GroupKeys(g);
    hide Cross, AssignAll, Assignments, ParamsOf, ParamSet;
    CrossAssociates(here, before, rest);
    CrossSwaps(before, here, rest);
  }

  /** The groups that are not dropped. */
  function Trim(gs: Groups, kept: set<string>): Groups {
    if |gs| == 0 then [] else (if Dropped(gs[0], kept) then [] else [gs[0]]) + Trim(gs[1..], kept)
  }

  lemma {:induction false} TrimKeepsProjection(bindings: Groups, gs: Groups, kept: set<string>)
    requires Valid(gs)
    ensures ProjectFrom(bindings, Trim(gs, kept), kept) == ProjectFrom(bindings, gs, kept)
    ensures Valid(Trim(gs, kept)) && ParamsOf(Trim(gs, kept)) <= ParamsOf(gs) &&
      DroppedHaveTargets(Trim(gs, kept), kept)
    decreases |gs|
  {
    if |gs| > 0 {
      hide Keep, Unique, Projected, Put, ParamSet, GroupValid;
      var g, names, rest := gs[0], Keep(gs[0].params, gs[0].params, kept), Trim(gs[1..], kept);
      if |names| == 0 {
        TrimKeepsProjection(bindings, gs[1..], kept);
        assert Trim(gs, kept) == rest;
      } else {
        var projected := Group(names, Unique(Projected(g.params, g.targets, kept)));
        TrimKeepsProjection(Put(bindings, projected), gs[1..], kept);
        assert Trim(gs, kept) == [g] + rest && ([g] + rest)[1..] == rest;
      }
    }
  }

  predicate SomeEmpty(gs: Groups) {
    exists i :: 0 <= i < |gs| && |gs[i].targets| == 0
  }

  lemma {:induction false} EmptyIfSomeEmpty(gs: Groups)
    ensures Assignments(gs) == {} <==> SomeEmpty(gs)
  {
    if |gs| > 0 {
      EmptyIfSomeEmpty(gs[1..]);
      var g := gs[0];
      CrossIsEmpty(AssignAll(g.params, g.targets), Assignments(gs[1..]));
      NoneAssigned(g);
      hide Cross, AssignAll;
      if i :| 0 <= i < |gs| && |gs[i].targets| == 0 {
        assert i > 0 ==> gs[1..][i - 1] == gs[i];
      }
    }
  }

  lemma NoneAssigned(g: Group)
    ensures AssignAll(g.params, g.targets) == {} <==> |g.targets| == 0
  {
    if |g.targets| > 0 { InAssignAll(g.params, g.targets, g.targets[0]); }
  }

  lemma CrossIsEmpty(a: set<Assignment>, b: set<Assignment>)
    ensures Cross(a, b) == {} <==> a == {} || b == {}
  {
    if a != {} && b != {} {
      var x :| x in a;
      var y :| y in b;
      InCross(x, y, a, b);
    }
  }

  lemma RestrictNone(a: set<Assignment>, kept: set<string>)
    ensures RestrictAll(a, kept) == {} <==> a == {}
  {
    if x :| x in a { InRestrictAll(a, kept, x); }
  }

  lemma {:induction false} TrimHasEmpty(gs: Groups, kept: set<string>)
    ensures SomeEmpty(Trim(gs, kept)) <==> SomeKeptIsEmpty(gs, kept)
  {
    hide Dropped;
    if |gs| > 0 {
      var trimmed, rest := Trim(gs, kept), Trim(gs[1..], kept);
      TrimHasEmpty(gs[1..], kept);
      if i :| 0 <= i < |gs| && !Dropped(gs[i], kept) && |gs[i].targets| == 0 {
        assert i > 0 ==> gs[1..][i - 1] == gs[i];
        if i > 0 {
          var k :| 0 <= k < |rest| && |rest[k].targets| == 0;
          assert trimmed[|trimmed| - |rest| + k] == rest[k];
        } else {
          assert trimmed[0] == gs[0];
        }
      }
      if i :| 0 <= i < |trimmed| && |trimmed[i].targets| == 0 {
        if i >= |trimmed| - |rest| {
          var j := i - (|trimmed| - |rest|);
          assert rest[j] == trimmed[i];
          assert SomeEmpty(rest) && SomeKeptIsEmpty(gs[1..], kept);
          var k :| 0 <= k < |gs[1..]| && !Dropped(gs[1..][k], kept) && |gs[1..][k].targets| == 0;
          assert gs[k + 1] == gs[1..][k];
        } else {
          assert trimmed[i] == gs[0];
        }
      }
    }
  }

  /** The bindings repeat no target, and they assign exactly the restrictions of the
      original assignments to the selected parameters, unless a dropped group has no
      targets while every kept one has some. */
  lemma ProjectionRestricts(gs: Groups, kept: set<string>)
    requires Valid(gs)
    ensures Assignments(ProjectFrom([], gs, kept)) == RestrictAll(Assignments(gs), kept) <==>
      DroppedHaveTargets(gs, kept) || SomeKeptIsEmpty(gs, kept)
    ensures NoRepeats(ProjectFrom([], gs, kept))
  {
    ProjectFromKeepsNoRepeats([], gs, kept);
    EmptyIfSomeEmpty(gs);
    TrimHasEmpty(gs, kept);
    EmptyIfSomeEmpty(Trim(gs, kept));
    TrimKeepsProjection([], gs, kept);
    hide Cross, RestrictAll, Assignments, ProjectFrom, Dropped, Trim;
    ProjectFromRestrictsAll(gs, kept);
    ProjectFromRestrictsAll(Trim(gs, kept), kept);
    RestrictNone(Assignments(gs), kept);
    RestrictNone(Assignments(Trim(gs, kept)), kept);
  }

  /** `B` is needed and has a target, `A` is not needed and has none. */
  function EmptyBeside(): Groups {
    [Group(["A"], []), Group(["B"], [[Other("u8", [])]])]
  }

  /** There the original groups have no combination, but the projected ones have one. */
  lemma DroppingAnEmptyGroup()
    ensures Valid(EmptyBeside()) && Assignments(EmptyBeside()) == {}
    ensures Assignments(ProjectFrom([], EmptyBeside(), {"B"})) != {}
  {
    var gs := EmptyBeside();
    assert gs[1..] == [gs[1]] && gs[1..][1..] == [];
    OneParam("A");
    OneParam("B");
    assert Dropped(gs[0], {"B"}) && !Dropped(gs[1], {"B"});
    hide ProjectFrom, Keep, Assignments, RestrictAll, Dropped, AssignAll, Cross;
    assert SomeEmpty(gs) by { assert |gs[0].targets| == 0; }
    assert !DroppedHaveTargets(gs, {"B"}) && !SomeKeptIsEmpty(gs, {"B"});
    EmptyIfSomeEmpty(gs);
    ProjectionRestricts(gs, {"B"});
    RestrictNone(Assignments(gs), {"B"});
  }

  lemma OneParam(p: string)
    ensures ParamSet([p]) == {p}
  {
    assert [p][0] == p;
  }

  lemma ProjectFromRestrictsAll(gs: Groups, kept: set<string>)
    requires Valid(gs)
    ensures DroppedHaveTargets(gs, kept) ==>
      Assignments(ProjectFrom([], gs, kept)) == RestrictAll(Assignments(gs), kept)
  {
    hide Cross, RestrictAll;
    if DroppedHaveTargets(gs, kept) {
      ProjectFromRestricts([], gs, kept);
      CrossUnit(RestrictAll(Assignments(gs), kept));
    }
  }

  /** `bindings_for`: the bindings repeat no target, and they assign exactly what the
      original assignments give to the parameters that the root needs, unless a group
      without such parameters has no targets while every other one has some. */
  method BindingsFor(gs: Groups, root: string) returns (bindings: Groups)
    ensures bindings == ProjectFrom([], gs, Needed(gs, root)) && NoRepeats(bindings)
    ensures Valid(gs) ==>
      (Assignments(bindings) == RestrictAll(Assignments(gs), Needed(gs, root)) <==>
        DroppedHaveTargets(gs, Needed(gs, root)) || SomeKeptIsEmpty(gs, Needed(gs, root)))
  {
    var kept := Closure(gs, root);
    bindings := [];
    for i := 0 to |gs|
      invariant ProjectFrom(bindings, gs[i..], kept) == ProjectFrom([], gs, kept)
    {
      assert gs[i..][0] == gs[i] && gs[i..][1..] == gs[i + 1..];
      var params := Keep(gs[i].params, gs[i].params, kept);
      if |params| > 0 {
        var targets := UniqueTargets(Projected(gs[i].params, gs[i].targets, kept));
        bindings := Put(bindings, Group(params, targets));
      }
    }
    ProjectFromKeepsNoRepeats([], gs, kept);
    if Valid(gs) {
      ProjectionRestricts(gs, kept);
    }
  }
}
