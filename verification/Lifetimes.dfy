/** Normalisation of lifetimes: free lifetimes become `'static`, lifetimes bound by
    an enclosing `for<..>` keep their names. */
module Lifetimes {

  const STATIC := "static"

  /** One parameter of a `for<..>` list; a lifetime may be bounded by others. */
  datatype Param = LifetimeParam(name: string, bounds: seq<string>) | OtherParam(text: string)

  /** A type as far as lifetimes are concerned. `Binder` is a function pointer, a trait
      bound or a where predicate with its `for<..>` list. */
  datatype Syntax =
    | Lifetime(name: string)
    | Node(kind: string, children: seq<Syntax>)
    | Binder(kind: string, params: seq<Param>, body: seq<Syntax>)

  function BoundNames(params: seq<Param>): seq<string> {
    if |params| == 0 then []
    else (if params[0].LifetimeParam? then [params[0].name] else []) + BoundNames(params[1..])
  }

  /** All lifetimes of a list are bound, and nothing else. */
  lemma {:induction false} BoundNamesAre(params: seq<Param>, name: string)
    ensures name in BoundNames(params) <==> Binds(params, name)
  {
    if |params| > 0 {
      BoundNamesAre(params[1..], name);
      if Binds(params, name) {
        var i :| 0 <= i < |params| && params[i].LifetimeParam? && params[i].name == name;
        assert i > 0 ==> params[1..][i - 1] == params[i];
      }
      if Binds(params[1..], name) {
        var i :| 0 <= i < |params[1..]| && params[1..][i].LifetimeParam? && params[1..][i].name == name;
        assert params[i + 1] == params[1..][i];
      }
    }
  }

  /** The list declares a lifetime of this name. */
  predicate Binds(params: seq<Param>, name: string) {
    exists i :: 0 <= i < |params| && params[i].LifetimeParam? && params[i].name == name
  }

  function Replaced(name: string, bound: seq<string>): string {
    if name in bound then name else STATIC
  }

  /** What the visitor makes of a type below the given binders. Binder lists are left alone. */
  function Normalised(t: Syntax, bound: seq<string>): Syntax
    decreases t, 1
  {
    match t
    case Lifetime(name) => Lifetime(Replaced(name, bound))
    case Node(kind, children) => Node(kind, NormalisedAll(children, bound))
    case Binder(kind, params, body) => Binder(kind, params, NormalisedAll(body, bound + BoundNames(params)))
  }

  function NormalisedAll(ts: seq<Syntax>, bound: seq<string>): (rs: seq<Syntax>)
    ensures |rs| == |ts| && forall i :: 0 <= i < |ts| ==> rs[i] == Normalised(ts[i], bound)
    decreases ts, 0
  {
    if |ts| == 0 then [] else [Normalised(ts[0], bound)] + NormalisedAll(ts[1..], bound)
  }

  // ---------- exactly the free lifetimes are replaced ----------

  function Children(t: Syntax): seq<Syntax> {
    match t
    case Lifetime(_) => []
    case Node(_, children) => children
    case Binder(_, _, body) => body
  }

  function At(t: Syntax, path: seq<nat>): Syntax
    decreases |path|
  {
    if |path| == 0 || |Children(t)| <= path[0] then t else At(Children(t)[path[0]], path[1..])
  }

  /** The path exists in the type. */
  predicate Leads(t: Syntax, path: seq<nat>)
    decreases |path|
  {
    |path| == 0 || (path[0] < |Children(t)| && Leads(Children(t)[path[0]], path[1..]))
  }

  /** Some binder that the path enters declares a lifetime of this name. */
  predicate Encloses(t: Syntax, path: seq<nat>, name: string)
    decreases |path|
  {
    |path| > 0 && path[0] < |Children(t)| &&
    ((t.Binder? && Binds(t.params, name)) || Encloses(Children(t)[path[0]], path[1..], name))
  }

  /** The type with every lifetime blanked out. */
  function Skeleton(t: Syntax): Syntax
    decreases t, 1
  {
    match t
    case Lifetime(_) => Lifetime("")
    case Node(kind, children) => Node(kind, SkeletonAll(children))
    case Binder(kind, params, body) => Binder(kind, params, SkeletonAll(body))
  }

  function SkeletonAll(ts: seq<Syntax>): (rs: seq<Syntax>)
    ensures |rs| == |ts|
    decreases ts, 0
  {
    if |ts| == 0 then [] else [Skeleton(ts[0])] + SkeletonAll(ts[1..])
  }

  /** A lifetime keeps its name exactly if a binder around it, or an outer scope, binds
      that name; otherwise it becomes `'static`. */
  lemma {:induction false} FreeLifetimesBecomeStatic(t: Syntax, bound: seq<string>, path: seq<nat>)
    requires Leads(t, path) && At(t, path).Lifetime?
    ensures Leads(Normalised(t, bound), path)
    ensures var name := At(t, path).name;
            At(Normalised(t, bound), path) ==
              Lifetime(if name in bound || Encloses(t, path, name) then name else STATIC)
    decreases |path|
  {
    if |path| > 0 {
      var inner := if t.Binder? then bound + BoundNames(t.params) else bound;
      FreeLifetimesBecomeStatic(Children(t)[path[0]], inner, path[1..]);
      if t.Binder? { BoundNamesAre(t.params, At(t, path).name); }
    }
  }

  lemma {:induction false} NothingElseChanges(t: Syntax, bound: seq<string>)
    ensures Skeleton(Normalised(t, bound)) == Skeleton(t)
    decreases t, 1
  {
    match t
    case Lifetime(_) =>
    case Node(_, children) => NothingElseChangesInAll(children, bound);
    case Binder(_, params, body) => NothingElseChangesInAll(body, bound + BoundNames(params));
  }

  lemma {:induction false} NothingElseChangesInAll(ts: seq<Syntax>, bound: seq<string>)
    ensures SkeletonAll(NormalisedAll(ts, bound)) == SkeletonAll(ts)
    decreases ts, 0
  {
    if |ts| > 0 {
      NothingElseChanges(ts[0], bound);
      NothingElseChangesInAll(ts[1..], bound);
    }
  }

  /** Normalising twice is normalising once. */
  lemma {:induction false} NormalisedTwice(t: Syntax, bound: seq<string>)
    ensures Normalised(Normalised(t, bound), bound) == Normalised(t, bound)
    decreases t, 1
  {
    match t
    case Lifetime(_) =>
    case Node(_, children) => AllNormalisedTwice(children, bound);
    case Binder(_, params, body) => AllNormalisedTwice(body, bound + BoundNames(params));
  }

  lemma {:induction false} AllNormalisedTwice(ts: seq<Syntax>, bound: seq<string>)
    ensures NormalisedAll(NormalisedAll(ts, bound), bound) == NormalisedAll(ts, bound)
    decreases ts, 0
  {
    if |ts| > 0 {
      NormalisedTwice(ts[0], bound);
      AllNormalisedTwice(ts[1..], bound);
    }
  }

  // ---------- bounds inside binder lists ----------

  function ReplacedAll(names: seq<string>, bound: seq<string>): (rs: seq<string>)
    ensures |rs| == |names|
  {
    seq(|names|, i requires 0 <= i < |names| => Replaced(names[i], bound))
  }

  function SubstitutedParams(params: seq<Param>, bound: seq<string>): (ps: seq<Param>)
    ensures |ps| == |params|
  {
    seq(|params|, i requires 0 <= i < |params| =>
      if params[i].LifetimeParam? then params[i].(bounds := ReplacedAll(params[i].bounds, bound)) else params[i])
  }

  /** Full substitution: free lifetimes are replaced everywhere, also in binder lists. */
  function Substituted(t: Syntax, bound: seq<string>): Syntax
    decreases t, 1
  {
    match t
    case Lifetime(name) => Lifetime(Replaced(name, bound))
    case Node(kind, children) => Node(kind, SubstitutedAll(children, bound))
    case Binder(kind, params, body) =>
      var inner := bound + BoundNames(params);
      Binder(kind, SubstitutedParams(params, inner), SubstitutedAll(body, inner))
  }

  function SubstitutedAll(ts: seq<Syntax>, bound: seq<string>): (rs: seq<Syntax>)
    ensures |rs| == |ts|
    decreases ts, 0
  {
    if |ts| == 0 then [] else [Substituted(ts[0], bound)] + SubstitutedAll(ts[1..], bound)
  }

  predicate ClosedParams(params: seq<Param>, bound: seq<string>) {
    forall i, k :: 0 <= i < |params| && params[i].LifetimeParam? && 0 <= k < |params[i].bounds| ==>
      params[i].bounds[k] == STATIC || params[i].bounds[k] in bound
  }

  /** Lifetimes that bound a lifetime of a binder list are bound themselves, or `'static`. */
  predicate BoundsClosed(t: Syntax, bound: seq<string>)
    decreases t, 1
  {
    match t
    case Lifetime(_) => true
    case Node(_, children) => AllBoundsClosed(children, bound)
    case Binder(_, params, body) =>
      var inner := bound + BoundNames(params);
      ClosedParams(params, inner) && AllBoundsClosed(body, inner)
  }

  predicate AllBoundsClosed(ts: seq<Syntax>, bound: seq<string>)
    decreases ts, 0
  {
    |ts| == 0 || (BoundsClosed(ts[0], bound) && AllBoundsClosed(ts[1..], bound))
  }

  lemma ParamsKept(params: seq<Param>, bound: seq<string>)
    ensures SubstitutedParams(params, bound) == params <==> ClosedParams(params, bound)
  {
    var after := SubstitutedParams(params, bound);
    if ClosedParams(params, bound) {
      forall i | 0 <= i < |params| ensures after[i] == params[i] {
        if params[i].LifetimeParam? {
          assert ReplacedAll(params[i].bounds, bound) == params[i].bounds;
        }
      }
    }
    if after == params {
      forall i, k | 0 <= i < |params| && params[i].LifetimeParam? && 0 <= k < |params[i].bounds|
        ensures params[i].bounds[k] == STATIC || params[i].bounds[k] in bound
      {
        assert after[i].bounds[k] == Replaced(params[i].bounds[k], bound);
      }
    }
  }

  /** The visitor skips binder lists: it is the full substitution exactly if no binder
      list mentions a free lifetime other than `'static`. */
  lemma {:induction false} SubstitutesIffBoundsClosed(t: Syntax, bound: seq<string>)
    ensures Normalised(t, bound) == Substituted(t, bound) <==> BoundsClosed(t, bound)
    decreases t, 1
  {
    match t
    case Lifetime(_) =>
    case Node(_, children) => AllSubstituteIffBoundsClosed(children, bound);
    case Binder(_, params, body) =>
      AllSubstituteIffBoundsClosed(body, bound + BoundNames(params));
      ParamsKept(params, bound + BoundNames(params));
  }

  lemma {:induction false} AllSubstituteIffBoundsClosed(ts: seq<Syntax>, bound: seq<string>)
    ensures NormalisedAll(ts, bound) == SubstitutedAll(ts, bound) <==> AllBoundsClosed(ts, bound)
    decreases ts, 0
  {
    if |ts| > 0 {
      SubstitutesIffBoundsClosed(ts[0], bound);
      AllSubstituteIffBoundsClosed(ts[1..], bound);
      var rs, us := NormalisedAll(ts, bound), SubstitutedAll(ts, bound);
      assert rs[1..] == NormalisedAll(ts[1..], bound) && us[1..] == SubstitutedAll(ts[1..], bound);
      assert rs == us <==> rs[0] == us[0] && rs[1..] == us[1..] by {
        if rs[0] == us[0] && rs[1..] == us[1..] {
          assert rs == [rs[0]] + rs[1..] && us == [us[0]] + us[1..];
        }
      }
    }
  }

  /** `for<'b: 'a> fn()` keeps the free lifetime of its binder list. */
  lemma BinderListsKeepFreeLifetimes()
    ensures var t := Binder("fn", [LifetimeParam("b", ["a"])], []);
            Normalised(t, []) == t && Substituted(t, []) != t
  {
    var params := [LifetimeParam("b", ["a"])];
    assert BoundNames(params) == ["b"];
    assert SubstitutedParams(params, ["b"])[0].bounds[0] == STATIC;
  }

  // ---------- the visitor ----------

  /** A lifetime in a syntax tree that is rewritten in place. */
  class Name {
    var text: string

    constructor (text: string)
      ensures this.text == text
    {
      this.text := text;
    }
  }

  datatype Tree =
    | LifetimeTree(name: Name)
    | NodeTree(kind: string, children: seq<Tree>)
    | BinderTree(kind: string, params: seq<Param>, body: seq<Tree>)

  ghost function Names(t: Tree): set<Name>
    decreases t, 1
  {
    match t
    case LifetimeTree(name) => {name}
    case NodeTree(_, children) => NamesAll(children)
    case BinderTree(_, _, body) => NamesAll(body)
  }

  ghost function NamesAll(ts: seq<Tree>): set<Name>
    decreases ts, 0
  {
    if |ts| == 0 then {} else Names(ts[0]) + NamesAll(ts[1..])
  }

  /** Every lifetime of a tree is an object of its own. */
  ghost predicate Owned(t: Tree)
    decreases t, 1
  {
    match t
    case LifetimeTree(_) => true
    case NodeTree(_, children) => OwnedAll(children)
    case BinderTree(_, _, body) => OwnedAll(body)
  }

  ghost predicate OwnedAll(ts: seq<Tree>)
    decreases ts, 0
  {
    |ts| == 0 || (Owned(ts[0]) && OwnedAll(ts[1..]) && Names(ts[0]) !! NamesAll(ts[1..]))
  }

  ghost function Shown(t: Tree): Syntax
    reads Names(t)
    decreases t, 1
  {
    match t
    case LifetimeTree(name) => Lifetime(name.text)
    case NodeTree(kind, children) => Node(kind, ShownAll(children))
    case BinderTree(kind, params, body) => Binder(kind, params, ShownAll(body))
  }

  ghost function ShownAll(ts: seq<Tree>): seq<Syntax>
    reads NamesAll(ts)
    decreases ts, 0
  {
    if |ts| == 0 then [] else [Shown(ts[0])] + ShownAll(ts[1..])
  }

  lemma {:induction false} NamesAllocated(t: Tree)
    ensures forall o :: o in Names(t) ==> allocated(o)
    decreases t, 1
  {
    match t
    case LifetimeTree(_) =>
    case NodeTree(_, children) => AllNamesAllocated(children);
    case BinderTree(_, _, body) => AllNamesAllocated(body);
  }

  lemma {:induction false} AllNamesAllocated(ts: seq<Tree>)
    ensures forall o :: o in NamesAll(ts) ==> allocated(o)
    decreases ts, 0
  {
    if |ts| > 0 {
      NamesAllocated(ts[0]);
      AllNamesAllocated(ts[1..]);
    }
  }

  class StaticLifetimeNormalizer {
    var bound: seq<string>

    constructor ()
      ensures bound == []
    {
      bound := [];
    }

    /** Rewrite a type in place; the stack of bound names is left as it was found. */
    method Visit(t: Tree)
      requires Owned(t)
      modifies this, Names(t)
      ensures bound == old(bound) && Shown(t) == Normalised(old(Shown(t)), old(bound))
      decreases t, 1
    {
      match t
      case LifetimeTree(name) =>
        if name.text !in bound {
          name.text := STATIC;
        }
      case NodeTree(_, children) => VisitAll(children);
      case BinderTree(_, params, body) =>
        var previous := |bound|;
        bound := bound + BoundNames(params);
        VisitAll(body);
        bound := bound[..previous];
    }

    method VisitAll(ts: seq<Tree>)
      requires OwnedAll(ts)
      modifies this, NamesAll(ts)
      ensures bound == old(bound) && ShownAll(ts) == NormalisedAll(old(ShownAll(ts)), old(bound))
      decreases ts, 0
    {
      if |ts| > 0 {
        var head, tail := ts[0], ts[1..];
        NamesAllocated(head);
        AllNamesAllocated(tail);
        Visit(head);
        VisitAll(tail);
      }
    }
  }
}
