/** Packing: impls are moved into the declarations of the types they belong to, and
    every type ends up with at most one `Drop`. */
module Packing {
  import opened Wrappers

  /** A bound of a trait object; `plain` if it has no `?` and binds no lifetimes. */
  datatype Bound = TraitBound(plain: bool, segments: seq<string>) | LifetimeBound

  datatype Type =
    | Path(qualified: bool, global: bool, segments: seq<string>, arguments: bool)
    | TraitObject(bounds: seq<Bound>)
    | OtherType

  /** One dispatch group: parameters and, per target, its arguments (`None` for one that is no type). */
  datatype Dispatch = Dispatch(params: seq<string>, targets: seq<seq<Option<Type>>>)

  /** `id` tells otherwise equal impls apart. */
  datatype Impl = Impl(id: nat, isDrop: bool, selfTy: Type, typeParams: seq<string>, dispatch: seq<Dispatch>)

  /** `open` says that the type has generics other than lifetimes. */
  datatype Item =
    | TypeItem(ident: string, open: bool, drop: Option<Impl>, selfImpls: seq<Impl>)
    | ImplItem(impl: Impl)
    | OtherItem(id: nat)

  // ---------- which type an impl belongs to ----------

  function SingleSegment(segments: seq<string>): Option<string> {
    if |segments| == 1 then Some(segments[0]) else None
  }

  /** The one-segment name of the self type, or of its single plain trait bound. */
  function SelfIdent(x: Impl): Option<string> {
    match x.selfTy
    case Path(qualified, _, segments, _) => if qualified then None else SingleSegment(segments)
    case TraitObject(bounds) =>
      if |bounds| == 1 && bounds[0].TraitBound? && bounds[0].plain then SingleSegment(bounds[0].segments) else None
    case OtherType => None
  }

  function FindGroup(dispatch: seq<Dispatch>, param: string): Option<Dispatch> {
    if |dispatch| == 0 then None
    else if param in dispatch[0].params then Some(dispatch[0])
    else FindGroup(dispatch[1..], param)
  }

  function Position(params: seq<string>, param: string): nat {
    if |params| == 0 || params[0] == param then 0 else 1 + Position(params[1..], param)
  }

  function TargetIdent(target: seq<Option<Type>>, index: nat): Option<string> {
    if index < |target| && target[index].Some? && target[index].value.Path? && !target[index].value.qualified
    then SingleSegment(target[index].value.segments)
    else None
  }

  function TargetIdents(targets: seq<seq<Option<Type>>>, index: nat): set<string> {
    set i | 0 <= i < |targets| && TargetIdent(targets[i], index).Some? :: TargetIdent(targets[i], index).value
  }

  /** A drop impl for a bound type parameter selects the targets of that parameter. */
  function Selects(x: Impl): Option<set<string>> {
    if !x.isDrop || !x.selfTy.Path? || x.selfTy.global || x.selfTy.arguments || |x.selfTy.segments| != 1 then None
    else
      var param := x.selfTy.segments[0];
      var g := FindGroup(x.dispatch, param);
      if param !in x.typeParams || g.None? then None
      else Some(TargetIdents(g.value.targets, Position(g.value.params, param)))
  }

  // ---------- what the names mean ----------

  /** An impl belongs to `ident` if its self type is that path of one segment, or a trait
      object whose only bound is that trait of one segment. */
  lemma SelfIdentIs(x: Impl, ident: string)
    ensures SelfIdent(x) == Some(ident) <==>
      || (x.selfTy.Path? && !x.selfTy.qualified && x.selfTy.segments == [ident])
      || (x.selfTy.TraitObject? && x.selfTy.bounds == [TraitBound(true, [ident])])
  {
    if x.selfTy.TraitObject? && SelfIdent(x) == Some(ident) {
      assert x.selfTy.bounds == [x.selfTy.bounds[0]] && x.selfTy.bounds[0].segments == [ident];
    }
  }

  /** The position of a parameter is that of its first occurrence. */
  lemma {:induction false} PositionIs(params: seq<string>, param: string)
    requires param in params
    ensures var i := Position(params, param); i < |params| && params[i] == param && param !in params[..i]
  {
    if params[0] != param {
      PositionIs(params[1..], param);
      var i := Position(params[1..], param);
      assert params[..i + 1] == [params[0]] + params[1..][..i];
    }
  }

  /** The first group that has the parameter. */
  predicate FirstGroup(dispatch: seq<Dispatch>, k: nat, param: string) {
    k < |dispatch| && param in dispatch[k].params && forall j :: 0 <= j < k ==> param !in dispatch[j].params
  }

  lemma {:induction false} FindGroupIs(dispatch: seq<Dispatch>, param: string) returns (k: nat)
    ensures FindGroup(dispatch, param).Some? ==>
      FirstGroup(dispatch, k, param) && FindGroup(dispatch, param).value == dispatch[k]
    ensures FindGroup(dispatch, param).None? ==> forall j :: 0 <= j < |dispatch| ==> param !in dispatch[j].params
  {
    k := 0;
    if |dispatch| > 0 && param !in dispatch[0].params {
      var i := FindGroupIs(dispatch[1..], param);
      k := i + 1;
      assert forall j :: 0 < j < |dispatch| ==> dispatch[j] == dispatch[1..][j - 1];
    }
  }

  /** The argument of the target at `i` is the type `ident`, unqualified. */
  predicate Targets(target: seq<Option<Type>>, i: nat, ident: string) {
    i < |target| && target[i].Some? && target[i].value.Path? && !target[i].value.qualified
    && target[i].value.segments == [ident]
  }

  /** An impl is a selecting one if it implements `Drop` for one of its own type parameters
      that some group dispatches. */
  predicate SelectsBy(x: Impl, param: string) {
    && x.isDrop && x.selfTy.Path? && !x.selfTy.global && !x.selfTy.arguments && x.selfTy.segments == [param]
    && param in x.typeParams && exists k :: 0 <= k < |x.dispatch| && param in x.dispatch[k].params
  }

  /** The `t`-th target of the first group with the parameter has `ident` at the position
      of that parameter. */
  predicate SelectedThrough(x: Impl, param: string, ident: string, k: nat, i: nat, t: nat) {
    && FirstGroup(x.dispatch, k, param)
    && i < |x.dispatch[k].params| && x.dispatch[k].params[i] == param && param !in x.dispatch[k].params[..i]
    && t < |x.dispatch[k].targets| && Targets(x.dispatch[k].targets[t], i, ident)
  }

  /** A drop impl selects exactly the types that targets of the first group with its
      parameter have at the position of that parameter. */
  lemma SelectsIs(x: Impl, param: string, ident: string)
    requires x.selfTy.Path? && x.selfTy.segments == [param]
    ensures Selects(x).Some? <==> SelectsBy(x, param)
    ensures Selects(x).Some? ==>
      (ident in Selects(x).value <==> exists k: nat, i: nat, t: nat :: SelectedThrough(x, param, ident, k, i, t))
  {
    var k := FindGroupIs(x.dispatch, param);
    if Selects(x).Some? {
      var g, n := x.dispatch[k], Position(x.dispatch[k].params, param);
      PositionIs(g.params, param);
      if ident in TargetIdents(g.targets, n) {
        var t :| 0 <= t < |g.targets| && TargetIdent(g.targets[t], n) == Some(ident);
        assert SelectedThrough(x, param, ident, k, n, t);
      }
      if k': nat, i: nat, t: nat :| SelectedThrough(x, param, ident, k', i, t) {
        assert k' == k && i == n by { SamePosition(x, param, ident, k', i, t, k, n); }
        assert TargetIdent(g.targets[t], n) == Some(ident);
      }
    }
  }

  lemma SamePosition(x: Impl, param: string, ident: string, k: nat, i: nat, t: nat, k': nat, n: nat)
    requires SelectedThrough(x, param, ident, k, i, t) && FirstGroup(x.dispatch, k', param)
    requires n < |x.dispatch[k'].params| && x.dispatch[k'].params[n] == param && param !in x.dispatch[k'].params[..n]
    ensures k == k' && i == n
  {
    assert k == k';
    var params := x.dispatch[k].params;
    forall j | 0 <= j < n ensures params[j] != param { assert params[..n][j] in params[..n]; }
    forall j | 0 <= j < i ensures params[j] != param { assert params[..i][j] in params[..i]; }
  }

  /** Other impls select nothing. */
  lemma SelectsNothing(x: Impl)
    requires !x.selfTy.Path? || |x.selfTy.segments| != 1
    ensures Selects(x) == None
  {
  }

  function Declared(items: seq<Item>): set<string> {
    set i | 0 <= i < |items| && items[i].TypeItem? :: items[i].ident
  }

  // ---------- handing impls to types ----------

  /** An impl with the name of the type that is to take it. */
  type Claim = (string, Impl)

  /** The impls that are handed to the type `ident`, in order. */
  function For(claims: seq<Claim>, ident: string): seq<Impl> {
    if |claims| == 0 then []
    else (if claims[0].0 == ident then [claims[0].1] else []) + For(claims[1..], ident)
  }

  function Impls(claims: seq<Claim>): seq<Impl> {
    if |claims| == 0 then [] else [claims[0].1] + Impls(claims[1..])
  }

  function Occurs(xs: seq<Impl>, x: Impl): nat {
    if |xs| == 0 then 0 else (if xs[0] == x then 1 else 0) + Occurs(xs[1..], x)
  }

  lemma {:induction false} OccursConcat(a: seq<Impl>, b: seq<Impl>, x: Impl)
    ensures Occurs(a + b, x) == Occurs(a, x) + Occurs(b, x)
  {
    if |a| == 0 {
      assert a + b == b;
    } else {
      OccursConcat(a[1..], b, x);
      assert (a + b)[1..] == a[1..] + b;
    }
  }

  /** How often an impl occurs in an item, as the item itself or packed into it. */
  function Holding(item: Item, x: Impl): nat {
    match item
    case TypeItem(_, _, drop, selfImpls) => Occurs(selfImpls, x) + if drop == Some(x) then 1 else 0
    case ImplItem(y) => if y == x then 1 else 0
    case OtherItem(_) => 0
  }

  function HoldingAll(items: seq<Item>, x: Impl): nat {
    if |items| == 0 then 0 else Holding(items[0], x) + HoldingAll(items[1..], x)
  }

  lemma HoldingFirst(item: Item, rest: seq<Item>, x: Impl)
    ensures HoldingAll([item] + rest, x) == Holding(item, x) + HoldingAll(rest, x)
    ensures Declared([item] + rest) == Declared(rest) + (if item.TypeItem? then {item.ident} else {})
  {
    assert ([item] + rest)[1..] == rest;
    DeclaredFirst([item] + rest);
  }

  /** The names of the types that have not been seen before, at their first occurrence. */
  function FirstTypes(items: seq<Item>, seen: set<string>): (idents: seq<string>)
    ensures forall s :: s in idents <==> s in Declared(items) && s !in seen
    ensures forall i, j :: 0 <= i < j < |idents| ==> idents[i] != idents[j]
  {
    if |items| == 0 then []
    else
      assert Declared(items) == Declared(items[1..]) + (if items[0].TypeItem? then {items[0].ident} else {}) by {
        DeclaredFirst(items);
      }
      if items[0].TypeItem? && items[0].ident !in seen
      then [items[0].ident] + FirstTypes(items[1..], seen + {items[0].ident})
      else FirstTypes(items[1..], seen)
  }

  lemma DeclaredFirst(items: seq<Item>)
    requires |items| > 0
    ensures Declared(items) == Declared(items[1..]) + (if items[0].TypeItem? then {items[0].ident} else {})
  {
    forall s | s in Declared(items)
      ensures s in Declared(items[1..]) + (if items[0].TypeItem? then {items[0].ident} else {})
    {
      var i :| 0 <= i < |items| && items[i].TypeItem? && items[i].ident == s;
      assert i > 0 ==> items[1..][i - 1] == items[i];
    }
    forall s | s in Declared(items[1..]) ensures s in Declared(items) {
      var i :| 0 <= i < |items[1..]| && items[1..][i].TypeItem? && items[1..][i].ident == s;
      assert items[i + 1] == items[1..][i];
    }
  }

  /** How often the given types take an impl. */
  function Taken(claims: seq<Claim>, idents: seq<string>, x: Impl): nat {
    if |idents| == 0 then 0 else Occurs(For(claims, idents[0]), x) + Taken(claims, idents[1..], x)
  }

  lemma {:induction false} TakenOneMore(claims: seq<Claim>, idents: seq<string>, x: Impl)
    requires |claims| > 0 && forall i, j :: 0 <= i < j < |idents| ==> idents[i] != idents[j]
    ensures Taken(claims, idents, x) ==
      Taken(claims[1..], idents, x) + if claims[0].0 in idents && claims[0].1 == x then 1 else 0
  {
    if |idents| > 0 {
      TakenOneMore(claims, idents[1..], x);
      assert idents == [idents[0]] + idents[1..];
      assert idents[0] !in idents[1..];
      var more, rest := For(claims, idents[0]), For(claims[1..], idents[0]);
      if claims[0].0 == idents[0] { assert more[1..] == rest; } else { assert more == rest; }
    }
  }

  /** Types with distinct names that are named by every claim take every impl once. */
  lemma {:induction false} TakenIsAll(claims: seq<Claim>, idents: seq<string>, x: Impl)
    requires forall i, j :: 0 <= i < j < |idents| ==> idents[i] != idents[j]
    requires forall i :: 0 <= i < |claims| ==> claims[i].0 in idents
    ensures Taken(claims, idents, x) == Occurs(Impls(claims), x)
  {
    if |claims| == 0 {
      NothingTaken(idents, x);
    } else {
      TakenOneMore(claims, idents, x);
      TakenIsAll(claims[1..], idents, x);
      assert Impls(claims)[1..] == Impls(claims[1..]);
    }
  }

  lemma {:induction false} NothingTaken(idents: seq<string>, x: Impl)
    ensures Taken([], idents, x) == 0
  {
    if |idents| > 0 { NothingTaken(idents[1..], x); }
  }

  // ---------- self impls ----------

  predicate Moves(x: Impl, declared: set<string>) {
    SelfIdent(x).Some? && SelfIdent(x).value in declared
  }

  function SelfClaims(items: seq<Item>, declared: set<string>): seq<Claim> {
    if |items| == 0 then []
    else
      (if items[0].ImplItem? && Moves(items[0].impl, declared)
       then [(SelfIdent(items[0].impl).value, items[0].impl)] else [])
      + SelfClaims(items[1..], declared)
  }

  function SelfKept(items: seq<Item>, declared: set<string>): seq<Item> {
    if |items| == 0 then []
    else
      (if items[0].ImplItem? && Moves(items[0].impl, declared) then [] else [items[0]]) + SelfKept(items[1..], declared)
  }

  /** The first type of each name takes what is claimed for it, later ones nothing. */
  function FillSelf(items: seq<Item>, seen: set<string>, claims: seq<Claim>): (filled: seq<Item>)
    ensures |filled| == |items|
  {
    if |items| == 0 then []
    else if !items[0].TypeItem? then [items[0]] + FillSelf(items[1..], seen, claims)
    else
      var own := if items[0].ident in seen then [] else For(claims, items[0].ident);
      [items[0].(selfImpls := own)] + FillSelf(items[1..], seen + {items[0].ident}, claims)
  }

  function PackedSelf(items: seq<Item>): seq<Item> {
    var declared := Declared(items);
    FillSelf(SelfKept(items, declared), {}, SelfClaims(items, declared))
  }

  predicate NothingPacked(items: seq<Item>) {
    forall i :: 0 <= i < |items| && items[i].TypeItem? ==> items[i].selfImpls == [] && items[i].drop == None
  }

  /** Every claim names a declared type. */
  predicate NamedIn(claims: seq<Claim>, declared: set<string>) {
    forall i :: 0 <= i < |claims| ==> claims[i].0 in declared
  }

  lemma {:induction false} SelfSplit(items: seq<Item>, declared: set<string>, x: Impl)
    ensures HoldingAll(items, x) ==
      HoldingAll(SelfKept(items, declared), x) + Occurs(Impls(SelfClaims(items, declared)), x)
    ensures Declared(SelfKept(items, declared)) == Declared(items)
    ensures NothingPacked(items) ==> NothingPacked(SelfKept(items, declared))
    ensures NamedIn(SelfClaims(items, declared), declared)
  {
    if |items| > 0 {
      var item, rest := items[0], items[1..];
      SelfSplit(rest, declared, x);
      SelfStep(items, declared);
      assert items == [item] + rest;
      hide *;
      HoldingFirst(item, rest, x);
      if item.ImplItem? && Moves(item.impl, declared) {
        MovedIsClaimed(item.impl, SelfClaims(rest, declared), declared, x);
        NamedMore(SelfIdent(item.impl).value, item.impl, SelfClaims(rest, declared), declared);
      } else {
        HoldingFirst(item, SelfKept(rest, declared), x);
        PackedFirst(item, rest, SelfKept(rest, declared));
      }
    }
  }

  lemma NamedMore(ident: string, y: Impl, claims: seq<Claim>, declared: set<string>)
    requires NamedIn(claims, declared) && ident in declared
    ensures NamedIn([(ident, y)] + claims, declared)
  {
  }

  lemma SelfStep(items: seq<Item>, declared: set<string>)
    requires |items| > 0
    ensures var item, rest := items[0], items[1..];
            if item.ImplItem? && Moves(item.impl, declared) then
              && SelfKept(items, declared) == SelfKept(rest, declared)
              && SelfClaims(items, declared) == [(SelfIdent(item.impl).value, item.impl)] + SelfClaims(rest, declared)
              && (NothingPacked(items) ==> NothingPacked(rest))
            else
              SelfKept(items, declared) == [item] + SelfKept(rest, declared) &&
              SelfClaims(items, declared) == SelfClaims(rest, declared)
  {
  }

  lemma PackedFirst(item: Item, rest: seq<Item>, kept: seq<Item>)
    requires NothingPacked(rest) ==> NothingPacked(kept)
    ensures NothingPacked([item] + rest) ==> NothingPacked([item] + kept)
  {
    if NothingPacked([item] + rest) {
      assert ([item] + rest)[0] == item;
      forall i | 0 <= i < |rest| && rest[i].TypeItem? ensures rest[i].selfImpls == [] && rest[i].drop == None {
        assert ([item] + rest)[i + 1] == rest[i];
      }
    }
  }

  lemma MovedIsClaimed(y: Impl, claims: seq<Claim>, declared: set<string>, x: Impl)
    requires Moves(y, declared)
    ensures Occurs(Impls([(SelfIdent(y).value, y)] + claims), x) == Holding(ImplItem(y), x) + Occurs(Impls(claims), x)
    ensures SelfIdent(y).Some? && SelfIdent(y).value in declared
  {
    assert ([(SelfIdent(y).value, y)] + claims)[1..] == claims;
  }

  lemma {:induction false} FillSelfHolds(items: seq<Item>, seen: set<string>, claims: seq<Claim>, x: Impl)
    requires NothingPacked(items)
    ensures HoldingAll(FillSelf(items, seen, claims), x) ==
      HoldingAll(items, x) + Taken(claims, FirstTypes(items, seen), x)
    ensures Declared(FillSelf(items, seen, claims)) == Declared(items)
  {
    if |items| > 0 {
      assert NothingPacked(items[1..]);
      FillSelfFirst(items, seen, claims, x);
      hide *;
      var item, rest := items[0], items[1..];
      var later := if item.TypeItem? then seen + {item.ident} else seen;
      FillSelfHolds(rest, later, claims, x);
      var filled := FillSelf(items, seen, claims);
      DeclaredFirst(items);
      DeclaredFirst(filled);
      Peel(items, []);
      Peel(filled, []);
      HoldingFirst(item, rest, x);
      HoldingFirst(filled[0], FillSelf(rest, later, claims), x);
      TakenFirst(claims, if item.TypeItem? then item.ident else "", FirstTypes(rest, later), x);
    }
  }

  lemma FillSelfFirst(items: seq<Item>, seen: set<string>, claims: seq<Claim>, x: Impl)
    requires |items| > 0 && NothingPacked(items)
    ensures var item, rest, filled := items[0], items[1..], FillSelf(items, seen, claims);
            var later := if item.TypeItem? then seen + {item.ident} else seen;
            && filled[1..] == FillSelf(rest, later, claims)
            && filled[0].TypeItem? == item.TypeItem? && (item.TypeItem? ==> filled[0].ident == item.ident)
            && Holding(filled[0], x) == Holding(item, x) +
              (if item.TypeItem? && item.ident !in seen then Occurs(For(claims, item.ident), x) else 0)
            && FirstTypes(items, seen) ==
              (if item.TypeItem? && item.ident !in seen then [item.ident] else []) + FirstTypes(rest, later)
  {
    hide For;
    var item := items[0];
    if item.TypeItem? && item.ident in seen {
      assert seen + {item.ident} == seen;
    }
  }

  /** Packing self impls keeps every impl as often as it occurred. */
  lemma PackedSelfConserves(items: seq<Item>, x: Impl)
    requires NothingPacked(items)
    ensures HoldingAll(PackedSelf(items), x) == HoldingAll(items, x)
    ensures Declared(PackedSelf(items)) == Declared(items)
  {
    var declared := Declared(items);
    var kept, claims := SelfKept(items, declared), SelfClaims(items, declared);
    SelfSplit(items, declared, x);
    FillSelfHolds(kept, {}, claims, x);
    TakenIsAll(claims, FirstTypes(kept, {}), x);
  }

  // ---------- drop impls ----------

  /** How many impls that select their types cover `ident`. */
  function Coverage(items: seq<Item>, ident: string): nat {
    if |items| == 0 then 0
    else (if Covers(items[0], ident) then 1 else 0) + Coverage(items[1..], ident)
  }

  predicate Covers(item: Item, ident: string) {
    item.ImplItem? && Selects(item.impl).Some? && ident in Selects(item.impl).value
  }

  function Covering(items: seq<Item>, ident: string): set<nat> {
    set i: nat | i < |items| && Covers(items[i], ident)
  }

  /** Coverage counts the items that cover the type. */
  lemma {:induction false} CoverageCounts(items: seq<Item>, ident: string)
    ensures Coverage(items, ident) == |Covering(items, ident)|
  {
    if |items| > 0 {
      var front, item := items[..|items| - 1], items[|items| - 1];
      assert items == front + [item];
      CoverageCounts(front, ident);
      CoverageOfMore(front, item, ident);
      CoveringMore(front, item, ident);
      hide Coverage, Covering, Covers;
    }
  }

  lemma CoveringMore(items: seq<Item>, item: Item, ident: string)
    ensures |Covering(items + [item], ident)| == |Covering(items, ident)| + if Covers(item, ident) then 1 else 0
  {
    hide Covers;
    var more := Covering(items + [item], ident);
    assert more == Covering(items, ident) + (if Covers(item, ident) then {|items|} else {});
  }

  lemma {:induction false} CoverageOfMore(items: seq<Item>, item: Item, ident: string)
    ensures Coverage(items + [item], ident) == Coverage(items, ident) + if Covers(item, ident) then 1 else 0
  {
    if |items| > 0 {
      CoverageOfMore(items[1..], item, ident);
      assert (items + [item])[0] == items[0] && (items + [item])[1..] == items[1..] + [item];
    } else {
      assert (items + [item])[0] == item && (items + [item])[1..] == [];
    }
  }

  function Filtered(xs: seq<Impl>, drops: bool): seq<Impl> {
    if |xs| == 0 then [] else (if xs[0].isDrop == drops then [xs[0]] else []) + Filtered(xs[1..], drops)
  }

  function Named(ident: string, xs: seq<Impl>): (claims: seq<Claim>)
    ensures |claims| == |xs|
  {
    if |xs| == 0 then [] else [(ident, xs[0])] + Named(ident, xs[1..])
  }

  /** An explicit drop of a declared type that stands on its own. */
  predicate Explicit(x: Impl, declared: set<string>) {
    x.isDrop && Selects(x).None? && Moves(x, declared)
  }

  function ClaimsOf(item: Item, declared: set<string>): seq<Claim> {
    match item
    case TypeItem(ident, _, drop, selfImpls) =>
      (if drop.Some? then [(ident, drop.value)] else []) + Named(ident, Filtered(selfImpls, true))
    case ImplItem(x) => if Explicit(x, declared) then [(SelfIdent(x).value, x)] else []
    case OtherItem(_) => []
  }

  function KeptOf(item: Item, declared: set<string>): seq<Item> {
    match item
    case TypeItem(_, _, _, selfImpls) => [item.(drop := None, selfImpls := Filtered(selfImpls, false))]
    case ImplItem(x) => if Explicit(x, declared) then [] else [item]
    case OtherItem(_) => [item]
  }

  function DropClaims(items: seq<Item>, declared: set<string>): seq<Claim> {
    if |items| == 0 then [] else ClaimsOf(items[0], declared) + DropClaims(items[1..], declared)
  }

  function DropKept(items: seq<Item>, declared: set<string>): seq<Item> {
    if |items| == 0 then [] else KeptOf(items[0], declared) + DropKept(items[1..], declared)
  }

  function LastOf(xs: seq<Impl>): Option<Impl> {
    if |xs| == 0 then None else Some(xs[|xs| - 1])
  }

  /** The first type of each name takes the last drop claimed for it, later ones none. */
  function FillDrop(items: seq<Item>, seen: set<string>, claims: seq<Claim>): (filled: seq<Item>)
    ensures |filled| == |items|
  {
    if |items| == 0 then []
    else if !items[0].TypeItem? then [items[0]] + FillDrop(items[1..], seen, claims)
    else
      var own := if items[0].ident in seen then None else LastOf(For(claims, items[0].ident));
      [items[0].(drop := own)] + FillDrop(items[1..], seen + {items[0].ident}, claims)
  }

  function PackedDrops(items: seq<Item>): seq<Item> {
    var declared := Declared(items);
    FillDrop(DropKept(items, declared), {}, DropClaims(items, declared))
  }

  /** Explicit drops of the type and impls that select it, counted together. */
  function Drops(items: seq<Item>, ident: string): nat {
    |For(DropClaims(items, Declared(items)), ident)| + Coverage(items, ident)
  }

  predicate AtMostOneDrop(items: seq<Item>) {
    forall ident :: ident in Declared(items) ==> Drops(items, ident) <= 1
  }

  lemma FilterStep(xs: seq<Impl>, drops: bool)
    requires |xs| > 0
    ensures var rest := Filtered(xs[1..], drops);
            if xs[0].isDrop == drops then Filtered(xs, drops) == [xs[0]] + rest && Filtered(xs, drops)[1..] == rest
            else Filtered(xs, drops) == rest
  {
  }

  lemma {:induction false} FilteredSplits(xs: seq<Impl>, x: Impl)
    ensures Occurs(xs, x) == Occurs(Filtered(xs, true), x) + Occurs(Filtered(xs, false), x)
  {
    if |xs| > 0 {
      FilteredSplits(xs[1..], x);
      FilterStep(xs, true);
      FilterStep(xs, false);
    }
  }

  lemma {:induction false} NamedImpls(ident: string, xs: seq<Impl>)
    ensures Impls(Named(ident, xs)) == xs
    ensures forall i :: 0 <= i < |xs| ==> Named(ident, xs)[i].0 == ident
  {
    if |xs| > 0 {
      NamedImpls(ident, xs[1..]);
      assert Named(ident, xs)[1..] == Named(ident, xs[1..]);
    }
  }

  lemma {:induction false} ImplsConcat(a: seq<Claim>, b: seq<Claim>)
    ensures Impls(a + b) == Impls(a) + Impls(b)
  {
    if |a| == 0 {
      assert a + b == b;
    } else {
      hide *;
      ImplsConcat(a[1..], b);
      ImplsOne(a[0], a[1..]);
      ImplsOne(a[0], a[1..] + b);
      Peel(a, b);
      Associates([a[0].1], Impls(a[1..]), Impls(b));
    }
  }

  lemma ImplsOne(claim: Claim, rest: seq<Claim>)
    ensures Impls([claim] + rest) == [claim.1] + Impls(rest)
  {
    assert ([claim] + rest)[1..] == rest;
  }

  lemma ForFirst(claim: Claim, rest: seq<Claim>)
    ensures forall ident ::
      For([claim] + rest, ident) == (if ident == claim.0 then [claim.1] else []) + For(rest, ident)
  {
    assert ([claim] + rest)[1..] == rest;
  }

  lemma Peel<T>(a: seq<T>, b: seq<T>)
    requires |a| > 0
    ensures a == [a[0]] + a[1..] && a + b == [a[0]] + (a[1..] + b)
  {
  }

  lemma Associates<T>(a: seq<T>, b: seq<T>, c: seq<T>)
    ensures a + b + c == a + (b + c)
  {
  }

  lemma ForOne(claim: Claim, rest: seq<Claim>, ident: string)
    ensures For([claim] + rest, ident) == if ident == claim.0 then [claim.1] + For(rest, ident) else For(rest, ident)
  {
    assert ([claim] + rest)[1..] == rest;
  }

  lemma {:induction false} ForConcat(a: seq<Claim>, b: seq<Claim>, ident: string)
    ensures For(a + b, ident) == For(a, ident) + For(b, ident)
  {
    if |a| == 0 {
      assert a + b == b;
    } else {
      hide *;
      ForConcat(a[1..], b, ident);
      ForOne(a[0], a[1..], ident);
      ForOne(a[0], a[1..] + b, ident);
      Peel(a, b);
      Associates([a[0].1], For(a[1..], ident), For(b, ident));
    }
  }

  lemma OneItem(item: Item, x: Impl)
    ensures HoldingAll([item], x) == Holding(item, x) && Declared([item]) == if item.TypeItem? then {item.ident} else {}
  {
    HoldingFirst(item, [], x);
    assert [item] + [] == [item];
  }

  lemma ItemSplits(item: Item, declared: set<string>, x: Impl)
    ensures Holding(item, x) == HoldingAll(KeptOf(item, declared), x) + Occurs(Impls(ClaimsOf(item, declared)), x)
    ensures Declared(KeptOf(item, declared)) == if item.TypeItem? then {item.ident} else {}
    ensures (item.TypeItem? ==> item.ident in declared) ==> NamedIn(ClaimsOf(item, declared), declared)
  {
    if item.TypeItem? {
      TypeSplits(item, declared, x);
    } else if item.ImplItem? && Explicit(item.impl, declared) {
      MovedIsClaimed(item.impl, [], declared, x);
      assert ClaimsOf(item, declared) + [] == ClaimsOf(item, declared);
    } else {
      OneItem(item, x);
    }
  }

  lemma TypeSplits(item: Item, declared: set<string>, x: Impl)
    requires item.TypeItem?
    ensures Holding(item, x) == HoldingAll(KeptOf(item, declared), x) + Occurs(Impls(ClaimsOf(item, declared)), x)
    ensures Declared(KeptOf(item, declared)) == {item.ident}
    ensures forall i :: 0 <= i < |ClaimsOf(item, declared)| ==> ClaimsOf(item, declared)[i].0 == item.ident
  {
    var drops := Filtered(item.selfImpls, true);
    var own: seq<Claim> := if item.drop.Some? then [(item.ident, item.drop.value)] else [];
    var kept := item.(drop := None, selfImpls := Filtered(item.selfImpls, false));
    FilteredSplits(item.selfImpls, x);
    NamedImpls(item.ident, drops);
    ImplsConcat(own, Named(item.ident, drops));
    OccursConcat(Impls(own), drops, x);
    OneItem(kept, x);
    assert Occurs(Impls(own), x) == if item.drop == Some(x) then 1 else 0;
  }

  lemma KeptConcat(kept: seq<Item>, rest: seq<Item>, x: Impl)
    requires |kept| <= 1
    ensures HoldingAll(kept + rest, x) == HoldingAll(kept, x) + HoldingAll(rest, x)
    ensures Declared(kept + rest) == Declared(kept) + Declared(rest)
  {
    if |kept| == 0 {
      assert kept + rest == rest;
    } else {
      assert kept == [kept[0]];
      OneItem(kept[0], x);
      HoldingFirst(kept[0], rest, x);
    }
  }

  lemma {:induction false} DropSplit(items: seq<Item>, declared: set<string>, x: Impl)
    requires Declared(items) <= declared
    ensures HoldingAll(items, x) ==
      HoldingAll(DropKept(items, declared), x) + Occurs(Impls(DropClaims(items, declared)), x)
    ensures Declared(DropKept(items, declared)) == Declared(items)
    ensures NamedIn(DropClaims(items, declared), declared)
  {
    hide *;
    if |items| > 0 {
      var item, rest := items[0], items[1..];
      var claims, more := ClaimsOf(item, declared), DropClaims(rest, declared);
      DeclaredFirst(items);
      DropStep(items, declared);
      DropSplit(rest, declared, x);
      ItemSplits(item, declared, x);
      Peel(items, []);
      HoldingFirst(item, rest, x);
      KeptConcat(KeptOf(item, declared), DropKept(rest, declared), x);
      ImplsConcat(claims, more);
      NamedConcat(claims, more, declared);
      OccursConcat(Impls(claims), Impls(more), x);
    } else {
      NothingSplit(declared, x);
    }
  }

  lemma NamedConcat(a: seq<Claim>, b: seq<Claim>, declared: set<string>)
    requires NamedIn(a, declared) && NamedIn(b, declared)
    ensures NamedIn(a + b, declared)
  {
  }

  lemma NothingSplit(declared: set<string>, x: Impl)
    ensures NamedIn(DropClaims([], declared), declared) && Declared(DropKept([], declared)) == Declared([])
    ensures HoldingAll([], x) == HoldingAll(DropKept([], declared), x) + Occurs(Impls(DropClaims([], declared)), x)
  {
  }

  lemma DropStep(items: seq<Item>, declared: set<string>)
    requires |items| > 0
    ensures DropKept(items, declared) == KeptOf(items[0], declared) + DropKept(items[1..], declared)
    ensures DropClaims(items, declared) == ClaimsOf(items[0], declared) + DropClaims(items[1..], declared)
    ensures |KeptOf(items[0], declared)| <= 1
  {
  }

  predicate NoDrops(items: seq<Item>) {
    forall i :: 0 <= i < |items| && items[i].TypeItem? ==> items[i].drop == None
  }

  lemma {:induction false} KeptHasNoDrops(items: seq<Item>, declared: set<string>)
    ensures NoDrops(DropKept(items, declared))
  {
    if |items| > 0 { KeptHasNoDrops(items[1..], declared); }
  }

  lemma FillDropFirst(items: seq<Item>, seen: set<string>, claims: seq<Claim>, x: Impl)
    requires |items| > 0 && NoDrops(items) && (forall ident :: ident in Declared(items) ==> |For(claims, ident)| <= 1)
    ensures var item, rest := items[0], items[1..];
            var later := if item.TypeItem? then seen + {item.ident} else seen;
            var own := if item.TypeItem? && item.ident !in seen then For(claims, item.ident) else [];
            && FillDrop(items, seen, claims)[1..] == FillDrop(rest, later, claims)
            && Holding(FillDrop(items, seen, claims)[0], x) == Holding(item, x) + Occurs(own, x)
            && FirstTypes(items, seen) ==
              (if item.TypeItem? && item.ident !in seen then [item.ident] else []) + FirstTypes(rest, later)
  {
    DeclaredFirst(items);
    var item := items[0];
    if item.TypeItem? && item.ident in seen { assert seen + {item.ident} == seen; }
    if item.TypeItem? && item.ident !in seen {
      var own := For(claims, item.ident);
      assert own == [] || own == [own[0]];
    }
  }

  lemma {:induction false} FillDropHolds(items: seq<Item>, seen: set<string>, claims: seq<Claim>, x: Impl)
    requires NoDrops(items) && forall ident :: ident in Declared(items) ==> |For(claims, ident)| <= 1
    ensures HoldingAll(FillDrop(items, seen, claims), x) ==
      HoldingAll(items, x) + Taken(claims, FirstTypes(items, seen), x)
  {
    if |items| > 0 {
      hide *;
      var item, rest := items[0], items[1..];
      var later := if item.TypeItem? then seen + {item.ident} else seen;
      DeclaredFirst(items);
      RestHasNoDrops(items);
      FillDropHolds(rest, later, claims, x);
      FillDropFirst(items, seen, claims, x);
      var filled := FillDrop(items, seen, claims);
      Peel(items, []);
      Peel(filled, []);
      HoldingFirst(item, rest, x);
      HoldingFirst(filled[0], FillDrop(rest, later, claims), x);
      TakenFirst(claims, if item.TypeItem? then item.ident else "", FirstTypes(rest, later), x);
    }
  }

  lemma RestHasNoDrops(items: seq<Item>)
    requires |items| > 0 && NoDrops(items)
    ensures NoDrops(items[1..])
  {
  }

  lemma TakenFirst(claims: seq<Claim>, ident: string, rest: seq<string>, x: Impl)
    ensures Taken(claims, [ident] + rest, x) == Occurs(For(claims, ident), x) + Taken(claims, rest, x)
    ensures Occurs([], x) == 0 && [] + rest == rest
  {
    assert ([ident] + rest)[1..] == rest;
  }

  /** Packing drop impls keeps every impl as often as it occurred, unless a type has two. */
  lemma PackedDropsConserves(items: seq<Item>, x: Impl)
    requires AtMostOneDrop(items)
    ensures HoldingAll(PackedDrops(items), x) == HoldingAll(items, x)
  {
    var declared := Declared(items);
    var kept, claims := DropKept(items, declared), DropClaims(items, declared);
    DropSplit(items, declared, x);
    KeptHasNoDrops(items, declared);
    forall ident | ident in Declared(kept) ensures |For(claims, ident)| <= 1 {
      assert Drops(items, ident) <= 1;
    }
    FillDropHolds(kept, {}, claims, x);
    TakenIsAll(claims, FirstTypes(kept, {}), x);
  }

  /** Both packings together keep every impl as often as it occurred. */
  lemma PackingConserves(items: seq<Item>, x: Impl)
    requires NothingPacked(items) && AtMostOneDrop(PackedSelf(items))
    ensures HoldingAll(PackedDrops(PackedSelf(items)), x) == HoldingAll(items, x)
  {
    PackedSelfConserves(items, x);
    PackedDropsConserves(PackedSelf(items), x);
  }

  // ---------- when packing succeeds ----------

  predicate NoneMoves(items: seq<Item>, declared: set<string>) {
    forall i :: 0 <= i < |items| && items[i].ImplItem? ==> !Moves(items[i].impl, declared)
  }

  lemma {:induction false} KeptDoesNotMove(items: seq<Item>, declared: set<string>)
    ensures NoneMoves(SelfKept(items, declared), declared)
  {
    if |items| > 0 { KeptDoesNotMove(items[1..], declared); }
  }

  lemma {:induction false} ForNamed(ident: string, other: string, xs: seq<Impl>)
    ensures For(Named(other, xs), ident) == if ident == other then xs else []
  {
    if |xs| > 0 {
      ForNamed(ident, other, xs[1..]);
      assert Named(other, xs)[1..] == Named(other, xs[1..]);
    }
  }

  lemma {:induction false} DropsOfFilled(items: seq<Item>, seen: set<string>, claims: seq<Claim>,
      declared: set<string>, ident: string)
    requires NothingPacked(items) && NoneMoves(items, declared)
    ensures For(DropClaims(FillSelf(items, seen, claims), declared), ident) ==
      if ident in FirstTypes(items, seen) then Filtered(For(claims, ident), true) else []
    ensures Coverage(FillSelf(items, seen, claims), ident) == Coverage(items, ident)
  {
    if |items| > 0 {
      var item, rest := items[0], items[1..];
      var later := if item.TypeItem? then seen + {item.ident} else seen;
      assert NothingPacked(rest) && NoneMoves(rest, declared);
      DropsOfFilled(rest, later, claims, declared, ident);
      FilledFirst(items, seen, claims, declared, ident);
      var filled := FillSelf(items, seen, claims);
      hide *;
      ForConcat(ClaimsOf(filled[0], declared), DropClaims(filled[1..], declared), ident);
    }
  }

  /** What the first item contributes once it is filled. */
  lemma FilledFirst(items: seq<Item>, seen: set<string>, claims: seq<Claim>, declared: set<string>, ident: string)
    requires |items| > 0 && NothingPacked(items) && NoneMoves(items, declared)
    ensures var item, rest, filled := items[0], items[1..], FillSelf(items, seen, claims);
            var later := if item.TypeItem? then seen + {item.ident} else seen;
            var first := item.TypeItem? && item.ident == ident && ident !in seen;
            && |filled| > 0 && filled[1..] == FillSelf(rest, later, claims)
            && DropClaims(filled, declared) == ClaimsOf(filled[0], declared) + DropClaims(filled[1..], declared)
            && For(ClaimsOf(filled[0], declared), ident) == (if first then Filtered(For(claims, ident), true) else [])
            && (ident in FirstTypes(items, seen) <==> first || ident in FirstTypes(rest, later))
            && (first ==> ident !in FirstTypes(rest, later))
            && Coverage(filled, ident) == (if Covers(item, ident) then 1 else 0) + Coverage(filled[1..], ident)
            && Coverage(items, ident) == (if Covers(item, ident) then 1 else 0) + Coverage(rest, ident)
  {
    var item := items[0];
    DeclaredFirst(items);
    if item.TypeItem? {
      var own := if item.ident in seen then [] else For(claims, item.ident);
      var filled := FillSelf(items, seen, claims);
      if item.ident in seen { assert seen + {item.ident} == seen; }
      hide For, DropClaims, FirstTypes, Coverage;
      assert ClaimsOf(filled[0], declared) == Named(item.ident, Filtered(own, true)) by {
        assert [] + Named(item.ident, Filtered(own, true)) == Named(item.ident, Filtered(own, true));
      }
      ForNamed(ident, item.ident, Filtered(own, true));
    }
  }

  /** Once self impls are packed, the drops of a type are the drop impls with its name
      and the selecting impls that were not packed themselves. */
  lemma DropsAfterSelf(items: seq<Item>, ident: string)
    requires NothingPacked(items) && ident in Declared(items)
    ensures var declared := Declared(items);
            Drops(PackedSelf(items), ident) ==
              |Filtered(For(SelfClaims(items, declared), ident), true)| + Coverage(SelfKept(items, declared), ident)
  {
    var declared := Declared(items);
    var kept, claims := SelfKept(items, declared), SelfClaims(items, declared);
    SelfSplit(items, declared, Impl(0, false, OtherType, [], []));
    KeptDoesNotMove(items, declared);
    DropsOfFilled(kept, {}, claims, declared, ident);
    PackedSelfConserves(items, Impl(0, false, OtherType, [], []));
  }

  // ---------- the input as written ----------

  /** How many selecting impls are packed as self impls of `ident`. */
  function SelectorsInto(items: seq<Item>, declared: set<string>, ident: string): nat {
    if |items| == 0 then 0
    else
      (if items[0].ImplItem? && Selects(items[0].impl).Some? && Moves(items[0].impl, declared) &&
        Names(items[0].impl, ident)
       then 1 else 0)
      + SelectorsInto(items[1..], declared, ident)
  }

  /** How many impls that cover `ident` are packed as self impls of any type. */
  function CoverageMoved(items: seq<Item>, declared: set<string>, ident: string): nat {
    if |items| == 0 then 0
    else
      (if Covers(items[0], ident) && Moves(items[0].impl, declared) then 1 else 0) +
        CoverageMoved(items[1..], declared, ident)
  }

  lemma {:induction false} CoverageSplits(items: seq<Item>, declared: set<string>, ident: string)
    ensures Coverage(items, ident) == Coverage(SelfKept(items, declared), ident) + CoverageMoved(items, declared, ident)
  {
    if |items| > 0 {
      CoverageSplits(items[1..], declared, ident);
      SelfStep(items, declared);
      var kept, rest := SelfKept(items, declared), SelfKept(items[1..], declared);
      hide SelfKept, Covers, Moves, SelfClaims, Selects;
      if !(items[0].ImplItem? && Moves(items[0].impl, declared)) {
        assert kept[0] == items[0] && kept[1..] == rest;
      }
    }
  }

  /** What one declaration of the input contributes to the drops of a type. */
  lemma ClaimsSplit(item: Item, declared: set<string>, ident: string)
    requires item.TypeItem? ==> item.selfImpls == [] && item.drop == None
    ensures For(ClaimsOf(item, declared), ident) ==
      if item.ImplItem? && Explicit(item.impl, declared) && Names(item.impl, ident) then [item.impl] else []
  {
    if item.ImplItem? && Explicit(item.impl, declared) {
      ForSingle((SelfIdent(item.impl).value, item.impl), ident);
    }
  }

  lemma {:induction false} ExplicitSplits(items: seq<Item>, declared: set<string>, ident: string)
    requires NothingPacked(items)
    ensures |Filtered(For(SelfClaims(items, declared), ident), true)| ==
      |For(DropClaims(items, declared), ident)| + SelectorsInto(items, declared, ident)
  {
    if |items| > 0 {
      var item, rest := items[0], items[1..];
      assert NothingPacked(rest);
      ExplicitSplits(rest, declared, ident);
      SelfStep(items, declared);
      ClaimsSplit(item, declared, ident);
      ForConcat(ClaimsOf(item, declared), DropClaims(rest, declared), ident);
      var more := For(SelfClaims(rest, declared), ident);
      if item.ImplItem? && Moves(item.impl, declared) {
        ForOne((SelfIdent(item.impl).value, item.impl), SelfClaims(rest, declared), ident);
        FilterStep([item.impl] + more, true);
        assert ([item.impl] + more)[1..] == more;
        SelectorsAreDrops(item.impl);
      }
      hide For, SelfClaims, Filtered, Selects;
    }
  }

  lemma SelectorsAreDrops(x: Impl)
    ensures Selects(x).Some? ==> x.isDrop
  {
  }

  /** Packing self impls changes the drops of a type by the selecting impls that are
      packed into it and by those that covered it and are packed anywhere. */
  lemma DropsOfInput(items: seq<Item>, ident: string)
    requires NothingPacked(items) && ident in Declared(items)
    ensures var declared := Declared(items);
            Drops(PackedSelf(items), ident) ==
              Drops(items, ident) + SelectorsInto(items, declared, ident) - CoverageMoved(items, declared, ident)
  {
    var declared := Declared(items);
    DropsAfterSelf(items, ident);
    CoverageSplits(items, declared, ident);
    ExplicitSplits(items, declared, ident);
  }

  /** No impl that selects types through a parameter has a declared type's name for it. */
  predicate SelectorsStay(items: seq<Item>, declared: set<string>) {
    forall i :: 0 <= i < |items| && items[i].ImplItem? && Selects(items[i].impl).Some? ==>
      !Moves(items[i].impl, declared)
  }

  lemma {:induction false} NoSelectorMoves(items: seq<Item>, declared: set<string>, ident: string)
    requires SelectorsStay(items, declared)
    ensures SelectorsInto(items, declared, ident) == 0 && CoverageMoved(items, declared, ident) == 0
  {
    if |items| > 0 {
      assert SelectorsStay(items[1..], declared);
      NoSelectorMoves(items[1..], declared, ident);
    }
  }

  /** If no selecting impl is packed itself, packing accepts exactly the declarations in
      which every declared type has at most one drop. */
  lemma PackingJudgesInput(items: seq<Item>)
    requires NothingPacked(items) && SelectorsStay(items, Declared(items))
    ensures AtMostOneDrop(PackedSelf(items)) <==> AtMostOneDrop(items)
  {
    PackedSelfConserves(items, DefaultDrop(""));
    hide AtMostOneDrop, Drops, PackedSelf, Declared;
    forall ident | ident in Declared(items) ensures Drops(PackedSelf(items), ident) == Drops(items, ident) {
      DropsOfInput(items, ident);
      NoSelectorMoves(items, Declared(items), ident);
    }
    SameDrops(items, PackedSelf(items));
  }

  lemma SameDrops(a: seq<Item>, b: seq<Item>)
    requires Declared(a) == Declared(b) && forall ident :: ident in Declared(a) ==> Drops(b, ident) == Drops(a, ident)
    ensures AtMostOneDrop(a) <==> AtMostOneDrop(b)
  {
    hide Drops, Declared;
  }

  /** The condition of packing, in terms of the declarations as written. */
  lemma AcceptedInput(items: seq<Item>)
    requires NothingPacked(items)
    ensures AtMostOneDrop(PackedSelf(items)) <==> forall ident :: ident in Declared(items) ==>
      Drops(items, ident) + SelectorsInto(items, Declared(items), ident) <=
        1 + CoverageMoved(items, Declared(items), ident)
  {
    PackedSelfConserves(items, DefaultDrop(""));
    hide Drops, PackedSelf, Declared;
    forall ident | ident in Declared(items)
      ensures Drops(PackedSelf(items), ident) ==
        Drops(items, ident) + SelectorsInto(items, Declared(items), ident) -
          CoverageMoved(items, Declared(items), ident)
    {
      DropsOfInput(items, ident);
    }
  }

  function TypeNamed(ident: string): Type {
    Path(false, false, [ident], false)
  }

  function Selecting(): Impl {
    Impl(0, true, TypeNamed("T"), ["T"], [Dispatch(["T"], [[Some(TypeNamed("U"))]])])
  }

  function ExplicitDrop(): Impl {
    Impl(1, true, TypeNamed("U"), [], [])
  }

  /** `type T; type U;` with an impl of `Drop` for a parameter `T` that selects `U`, and
      an impl of `Drop` for `U`. */
  function TwoDrops(): seq<Item> {
    [TypeItem("T", false, None, []), TypeItem("U", false, None, []), ImplItem(Selecting()), ImplItem(ExplicitDrop())]
  }

  lemma WhatTheySelect()
    ensures Selects(Selecting()) == Some({"U"}) && Selects(ExplicitDrop()) == None
    ensures SelfIdent(Selecting()) == Some("T") && SelfIdent(ExplicitDrop()) == Some("U")
    ensures Selecting().isDrop && ExplicitDrop().isDrop
  {
    var targets := Selecting().dispatch[0].targets;
    assert TargetIdents(targets, 0) == {"U"} by {
      assert TargetIdent(targets[0], 0) == Some("U") && TargetIdents(targets, 0) == {TargetIdent(targets[0], 0).value};
    }
    assert Selecting().dispatch[0].params == ["T"] && Position(["T"], "T") == 0;
  }

  lemma Tails(items: seq<Item>)
    requires |items| == 4
    ensures items[1..] == [items[1], items[2], items[3]] && items[1..][1..] == [items[2], items[3]]
    ensures items[1..][1..][1..] == [items[3]] && items[1..][1..][1..][1..] == []
  {
  }

  lemma CountsOfTwoDrops(ident: string)
    ensures Coverage(TwoDrops(), ident) == CoverageMoved(TwoDrops(), {"T", "U"}, ident) == if ident == "U" then 1 else 0
    ensures SelectorsInto(TwoDrops(), {"T", "U"}, ident) == if ident == "T" then 1 else 0
  {
    WhatTheySelect();
    Tails(TwoDrops());
    hide Selects, SelfIdent, Selecting, ExplicitDrop;
    var items, declared := TwoDrops(), {"T", "U"};
    var two, one := items[1..][1..], items[1..][1..][1..];
    assert !Covers(items[0], ident) && !Covers(items[1], ident) && !Covers(items[3], ident);
    assert Covers(items[2], ident) <==> ident == "U";
    assert Coverage(one, ident) == 0 && CoverageMoved(one, declared, ident) == 0 &&
      SelectorsInto(one, declared, ident) == 0;
    assert Coverage(two, ident) == CoverageMoved(two, declared, ident) == if ident == "U" then 1 else 0;
    assert SelectorsInto(two, declared, ident) == if ident == "T" then 1 else 0;
  }

  lemma ClaimsOfTwoDrops(ident: string)
    ensures For(DropClaims(TwoDrops(), {"T", "U"}), ident) == if ident == "U" then [ExplicitDrop()] else []
  {
    WhatTheySelect();
    Tails(TwoDrops());
    ForSingle(("U", ExplicitDrop()), ident);
    hide Selects, SelfIdent, Selecting, ExplicitDrop, For;
    assert DropClaims([], {"T", "U"}) == [];
    assert DropClaims(TwoDrops()[1..][1..][1..], {"T", "U"}) == [("U", ExplicitDrop())];
    assert DropClaims(TwoDrops()[1..][1..], {"T", "U"}) == [("U", ExplicitDrop())];
    assert DropClaims(TwoDrops()[1..], {"T", "U"}) == [("U", ExplicitDrop())];
  }

  /** There `U` has two drops, and packing accepts the declarations all the same: the
      selecting impl has become the drop of `T`. */
  lemma AcceptsTwoDrops()
    ensures NothingPacked(TwoDrops()) && Declared(TwoDrops()) == {"T", "U"} && Drops(TwoDrops(), "U") == 2
    ensures !AtMostOneDrop(TwoDrops()) && AtMostOneDrop(PackedSelf(TwoDrops()))
  {
    hide *;
    var items := TwoDrops();
    NamesOfTwoDrops();
    PackedSelfConserves(items, DefaultDrop(""));
    forall ident | ident in {"T", "U"}
      ensures Drops(PackedSelf(items), ident) == 1 && Drops(items, ident) == if ident == "U" then 2 else 0
    {
      CountsOfTwoDrops(ident);
      ClaimsOfTwoDrops(ident);
      DropsOfInput(items, ident);
      DropsAre(items, ident);
    }
    Judged(items);
    Judged(PackedSelf(items));
    assert Drops(items, "U") == 2;
  }

  lemma NamesOfTwoDrops()
    ensures NothingPacked(TwoDrops()) && Declared(TwoDrops()) == {"T", "U"}
  {
    var items := TwoDrops();
    assert items[0].ident == "T" && items[1].ident == "U";
  }

  lemma DropsAre(items: seq<Item>, ident: string)
    ensures Drops(items, ident) == |For(DropClaims(items, Declared(items)), ident)| + Coverage(items, ident)
  {
  }

  lemma Judged(items: seq<Item>)
    ensures AtMostOneDrop(items) <==> forall ident :: ident in Declared(items) ==> Drops(items, ident) <= 1
  {
  }

  // ---------- where impls end up ----------

  /** The impl names the type. */
  predicate Names(x: Impl, ident: string) {
    SelfIdent(x) == Some(ident)
  }

  predicate AllName(xs: seq<Impl>, ident: string) {
    forall i :: 0 <= i < |xs| ==> Names(xs[i], ident)
  }

  /** Everything packed into a type names the type, and nothing that names a declared
      type is left on its own. */
  predicate SelfPlaced(item: Item, declared: set<string>) {
    match item
    case TypeItem(ident, _, drop, selfImpls) => drop == None && AllName(selfImpls, ident)
    case ImplItem(x) => !Moves(x, declared)
    case OtherItem(_) => true
  }

  /** Drops are no longer among the self impls, and the drop of a type is a drop. */
  predicate Placed(item: Item, declared: set<string>) {
    match item
    case TypeItem(ident, _, drop, selfImpls) =>
      && AllName(selfImpls, ident) && (forall i :: 0 <= i < |selfImpls| ==> !selfImpls[i].isDrop)
      && (drop.Some? ==> drop.value.isDrop && Names(drop.value, ident))
    case ImplItem(x) => !Moves(x, declared)
    case OtherItem(_) => true
  }

  predicate ClaimsNamed(claims: seq<Claim>) {
    forall i :: 0 <= i < |claims| ==> Names(claims[i].1, claims[i].0)
  }

  lemma {:induction false} SelfClaimsNamed(items: seq<Item>, declared: set<string>)
    ensures ClaimsNamed(SelfClaims(items, declared))
  {
    if |items| > 0 { SelfClaimsNamed(items[1..], declared); }
  }

  lemma {:induction false} ForIsNamed(claims: seq<Claim>, ident: string)
    requires ClaimsNamed(claims)
    ensures AllName(For(claims, ident), ident)
  {
    if |claims| > 0 { ForIsNamed(claims[1..], ident); }
  }

  lemma {:induction false} SelfFilledIsPlaced(items: seq<Item>, seen: set<string>, claims: seq<Claim>,
      declared: set<string>, i: nat)
    requires i < |items| && NothingPacked(items) && NoneMoves(items, declared) && ClaimsNamed(claims)
    ensures SelfPlaced(FillSelf(items, seen, claims)[i], declared)
  {
    if i > 0 {
      var later := if items[0].TypeItem? then seen + {items[0].ident} else seen;
      assert NothingPacked(items[1..]) && NoneMoves(items[1..], declared);
      SelfFilledIsPlaced(items[1..], later, claims, declared, i - 1);
    } else if items[0].TypeItem? {
      ForIsNamed(claims, items[0].ident);
    }
  }

  lemma PackedSelfIsPlaced(items: seq<Item>, i: nat)
    requires NothingPacked(items) && i < |PackedSelf(items)|
    ensures SelfPlaced(PackedSelf(items)[i], Declared(items))
  {
    var declared := Declared(items);
    SelfSplit(items, declared, DefaultDrop(""));
    KeptDoesNotMove(items, declared);
    SelfClaimsNamed(items, declared);
    SelfFilledIsPlaced(SelfKept(items, declared), {}, SelfClaims(items, declared), declared, i);
  }

  predicate AllSelfPlaced(items: seq<Item>, declared: set<string>) {
    forall i :: 0 <= i < |items| ==> SelfPlaced(items[i], declared)
  }

  predicate DropClaimsNamed(claims: seq<Claim>) {
    forall i :: 0 <= i < |claims| ==> Names(claims[i].1, claims[i].0) && claims[i].1.isDrop
  }

  lemma {:induction false} FilteredKeeps(xs: seq<Impl>, drops: bool, ident: string)
    requires AllName(xs, ident)
    ensures AllName(Filtered(xs, drops), ident)
    ensures forall i :: 0 <= i < |Filtered(xs, drops)| ==> Filtered(xs, drops)[i].isDrop == drops
  {
    if |xs| > 0 { FilteredKeeps(xs[1..], drops, ident); }
  }

  lemma {:induction false} NamedAre(ident: string, xs: seq<Impl>, i: nat)
    requires i < |xs|
    ensures Named(ident, xs)[i] == (ident, xs[i])
  {
    if i > 0 { NamedAre(ident, xs[1..], i - 1); }
  }

  lemma ItemIsPlaced(item: Item, declared: set<string>)
    requires SelfPlaced(item, declared)
    ensures DropClaimsNamed(ClaimsOf(item, declared))
    ensures forall i :: 0 <= i < |KeptOf(item, declared)| ==> Placed(KeptOf(item, declared)[i], declared)
  {
    if item.TypeItem? {
      var drops := Filtered(item.selfImpls, true);
      FilteredKeeps(item.selfImpls, true, item.ident);
      FilteredKeeps(item.selfImpls, false, item.ident);
      assert ClaimsOf(item, declared) == Named(item.ident, drops) by {
        assert [] + Named(item.ident, drops) == Named(item.ident, drops);
      }
      forall i | 0 <= i < |drops|
        ensures Named(item.ident, drops)[i] == (item.ident, drops[i])
      {
        NamedAre(item.ident, drops, i);
      }
    }
  }

  lemma {:induction false} DropKeptIsPlaced(items: seq<Item>, declared: set<string>)
    requires AllSelfPlaced(items, declared)
    ensures DropClaimsNamed(DropClaims(items, declared))
    ensures forall i :: 0 <= i < |DropKept(items, declared)| ==> Placed(DropKept(items, declared)[i], declared)
  {
    if |items| > 0 {
      hide SelfPlaced, Placed, Names, KeptOf, ClaimsOf;
      assert SelfPlaced(items[0], declared);
      DropKeptIsPlaced(items[1..], declared);
      ItemIsPlaced(items[0], declared);
    }
  }

  lemma {:induction false} ForIsDrop(claims: seq<Claim>, ident: string)
    requires DropClaimsNamed(claims)
    ensures forall i :: 0 <= i < |For(claims, ident)| ==>
      Names(For(claims, ident)[i], ident) && For(claims, ident)[i].isDrop
  {
    if |claims| > 0 { ForIsDrop(claims[1..], ident); }
  }

  lemma {:induction false} DropFilledIsPlaced(items: seq<Item>, seen: set<string>, claims: seq<Claim>,
      declared: set<string>, i: nat)
    requires i < |items| && Placed(items[i], declared) && DropClaimsNamed(claims)
    ensures Placed(FillDrop(items, seen, claims)[i], declared)
  {
    if i > 0 {
      var later := if items[0].TypeItem? then seen + {items[0].ident} else seen;
      DropFilledIsPlaced(items[1..], later, claims, declared, i - 1);
    } else if items[0].TypeItem? {
      ForIsDrop(claims, items[0].ident);
    }
  }

  /** After both packings everything packed into a type names that type, its drop is a
      drop impl, its self impls are not, and no impl that names a declared type is left
      outside. */
  lemma EveryImplIsPlaced(items: seq<Item>, i: nat)
    requires NothingPacked(items) && i < |PackedDrops(PackedSelf(items))|
    ensures Placed(PackedDrops(PackedSelf(items))[i], Declared(items))
  {
    var declared, packed := Declared(items), PackedSelf(items);
    PackedSelfConserves(items, DefaultDrop(""));
    forall k | 0 <= k < |packed| ensures SelfPlaced(packed[k], declared) { PackedSelfIsPlaced(items, k); }
    DropKeptIsPlaced(packed, declared);
    DropFilledIsPlaced(DropKept(packed, declared), {}, DropClaims(packed, declared), declared, i);
  }

  // ---------- defaults ----------

  function DefaultDrop(ident: string): Impl {
    Impl(0, true, Path(false, false, [ident], false), [], [])
  }

  /** The default is a drop impl of the type it is given to, and selects nothing. */
  lemma DefaultDropIs(ident: string)
    ensures var x := DefaultDrop(ident); x.isDrop && SelfIdent(x) == Some(ident) && Selects(x) == None
  {
    SelfIdentIs(DefaultDrop(ident), ident);
  }

  /** A type without any drop gets the default one, unless it is generic. */
  function WithDefault(item: Item, items: seq<Item>): Item {
    if item.TypeItem? && item.drop.None? && Coverage(items, item.ident) == 0 && !item.open
    then item.(drop := Some(DefaultDrop(item.ident)))
    else item
  }

  function Defaulted(items: seq<Item>): (filled: seq<Item>)
    ensures |filled| == |items|
  {
    seq(|items|, i requires 0 <= i < |items| => WithDefault(items[i], items))
  }

  // ---------- the other declarations ----------

  /** The declarations without the impls: types with their names, and everything else. */
  function Frame(items: seq<Item>): seq<Item> {
    if |items| == 0 then []
    else
      var rest := Frame(items[1..]);
      match items[0]
      case TypeItem(ident, open, _, _) => [TypeItem(ident, open, None, [])] + rest
      case ImplItem(_) => rest
      case OtherItem(_) => [items[0]] + rest
  }

  lemma FrameFirst(item: Item, rest: seq<Item>)
    ensures Frame([item] + rest) == Frame([item]) + Frame(rest)
    ensures item.TypeItem? ==> Frame([item]) == [TypeItem(item.ident, item.open, None, [])]
    ensures item.ImplItem? ==> Frame([item]) == []
    ensures Frame([]) == []
  {
    assert ([item] + rest)[1..] == rest && [item][1..] == [];
  }

  lemma {:induction false} FrameOfKept(items: seq<Item>, declared: set<string>)
    ensures Frame(SelfKept(items, declared)) == Frame(items)
    ensures Frame(DropKept(items, declared)) == Frame(items)
  {
    if |items| > 0 {
      var item, rest := items[0], items[1..];
      FrameOfKept(rest, declared);
      SelfStep(items, declared);
      DropStep(items, declared);
      FrameOfOneKept(item, declared);
      hide *;
      Peel(items, []);
      FrameFirst(item, rest);
      FrameFirst(item, SelfKept(rest, declared));
      FrameOfConcat(KeptOf(item, declared), DropKept(rest, declared));
    }
  }

  lemma FrameOfOneKept(item: Item, declared: set<string>)
    ensures |KeptOf(item, declared)| <= 1 && Frame(KeptOf(item, declared)) == Frame([item])
  {
    FrameFirst(item, []);
  }

  lemma FrameOfConcat(kept: seq<Item>, rest: seq<Item>)
    requires |kept| <= 1
    ensures Frame(kept + rest) == Frame(kept) + Frame(rest)
  {
    if |kept| == 0 {
      assert kept + rest == rest;
    } else {
      assert kept == [kept[0]];
      FrameFirst(kept[0], rest);
    }
  }

  /** Same declaration but for its impls. */
  predicate SameFrame(a: Item, b: Item) {
    if a.TypeItem? then b.TypeItem? && b.ident == a.ident && b.open == a.open else a == b
  }

  lemma {:induction false} FrameOfFilled(a: seq<Item>, b: seq<Item>)
    requires |a| == |b| && forall i :: 0 <= i < |a| ==> SameFrame(a[i], b[i])
    ensures Frame(a) == Frame(b)
  {
    if |a| > 0 {
      assert forall i :: 0 < i < |a| ==> a[i] == a[1..][i - 1] && b[i] == b[1..][i - 1];
      assert SameFrame(a[0], b[0]);
      FrameOfFilled(a[1..], b[1..]);
    }
  }

  lemma {:induction false} FillingKeepsFrames(items: seq<Item>, seen: set<string>, claims: seq<Claim>, i: nat)
    requires i < |items|
    ensures SameFrame(items[i], FillSelf(items, seen, claims)[i])
    ensures SameFrame(items[i], FillDrop(items, seen, claims)[i])
  {
    if i > 0 {
      FillingKeepsFrames(items[1..], if items[0].TypeItem? then seen + {items[0].ident} else seen, claims, i - 1);
    }
  }

  /** Packing and defaulting keep all other declarations, and the types, in their order. */
  lemma FrameIsKept(items: seq<Item>)
    ensures Frame(PackedSelf(items)) == Frame(items)
    ensures Frame(PackedDrops(items)) == Frame(items)
    ensures Frame(Defaulted(items)) == Frame(items)
  {
    var declared := Declared(items);
    FrameOfKept(items, declared);
    var kept, selfClaims := SelfKept(items, declared), SelfClaims(items, declared);
    var dropless, dropClaims := DropKept(items, declared), DropClaims(items, declared);
    forall i | 0 <= i < |kept| ensures SameFrame(kept[i], FillSelf(kept, {}, selfClaims)[i]) {
      FillingKeepsFrames(kept, {}, selfClaims, i);
    }
    forall i | 0 <= i < |dropless| ensures SameFrame(dropless[i], FillDrop(dropless, {}, dropClaims)[i]) {
      FillingKeepsFrames(dropless, {}, dropClaims, i);
    }
    hide Frame, FillSelf, FillDrop, SelfKept, DropKept, Coverage;
    FrameOfFilled(kept, FillSelf(kept, {}, selfClaims));
    FrameOfFilled(dropless, FillDrop(dropless, {}, dropClaims));
    FrameOfFilled(items, Defaulted(items));
  }

  /** Defaulting changes exactly the types that have no drop, that no impl selects and that
      are not generic, and gives each of them the default drop and nothing else. */
  lemma DefaultsExactly(items: seq<Item>, i: nat)
    requires i < |items|
    ensures var item, now := items[i], Defaulted(items)[i];
            if item.TypeItem? && item.drop.None? && !item.open
              && (forall k :: 0 <= k < |items| ==> !Covers(items[k], item.ident))
            then now == item.(drop := Some(DefaultDrop(item.ident)))
            else now == item
  {
    if items[i].TypeItem? { CoveredIffSome(items, items[i].ident); }
  }

  lemma {:induction false} CoveredIffSome(items: seq<Item>, ident: string)
    ensures Coverage(items, ident) == 0 <==> forall k :: 0 <= k < |items| ==> !Covers(items[k], ident)
  {
    if |items| > 0 {
      CoveredIffSome(items[1..], ident);
      assert forall k :: 0 < k < |items| ==> items[k] == items[1..][k - 1];
      assert Covers(items[0], ident) ==> Coverage(items, ident) > 0;
    }
  }

  lemma {:induction false} SameCoverage(a: seq<Item>, b: seq<Item>, ident: string)
    requires |a| == |b| && forall i :: 0 <= i < |a| ==> Covers(a[i], ident) == Covers(b[i], ident)
    ensures Coverage(a, ident) == Coverage(b, ident)
  {
    if |a| > 0 { SameCoverage(a[1..], b[1..], ident); }
  }

  lemma {:induction false} CoverageOfKept(items: seq<Item>, declared: set<string>, ident: string)
    ensures Coverage(DropKept(items, declared), ident) == Coverage(items, ident)
  {
    if |items| > 0 {
      CoverageOfKept(items[1..], declared, ident);
      var kept := KeptOf(items[0], declared);
      assert DropKept(items, declared) == kept + DropKept(items[1..], declared);
      if |kept| == 1 {
        assert DropKept(items, declared)[1..] == DropKept(items[1..], declared);
      } else {
        assert DropKept(items, declared) == DropKept(items[1..], declared);
      }
    }
  }

  lemma {:induction false} FilledTypes(items: seq<Item>, seen: set<string>, claims: seq<Claim>, i: nat)
    requires i < |items| && NoDrops(items)
    ensures var filled := FillDrop(items, seen, claims)[i];
            && (items[i].TypeItem? <==> filled.TypeItem?) && (!items[i].TypeItem? ==> filled == items[i])
            && (items[i].TypeItem? ==>
              filled.ident == items[i].ident && (filled.drop.Some? ==> For(claims, filled.ident) != []))
  {
    if i > 0 {
      var later := if items[0].TypeItem? then seen + {items[0].ident} else seen;
      assert NoDrops(items[1..]);
      FilledTypes(items[1..], later, claims, i - 1);
    }
  }

  /** After packing and defaulting every declared type without non-lifetime generics
      has exactly one drop: its own, or one impl that selects it. */
  lemma ExactlyOneDrop(items: seq<Item>, i: nat)
    requires AtMostOneDrop(items) && i < |Defaulted(PackedDrops(items))|
    ensures var packed := Defaulted(PackedDrops(items));
            packed[i].TypeItem? && !packed[i].open ==>
              (if packed[i].drop.Some? then 1 else 0) + Coverage(packed, packed[i].ident) == 1
  {
    var declared, out := Declared(items), PackedDrops(items);
    var kept, claims := DropKept(items, declared), DropClaims(items, declared);
    var packed := Defaulted(out);
    if packed[i].TypeItem? {
      var ident := packed[i].ident;
      KeptHasNoDrops(items, declared);
      FilledTypes(kept, {}, claims, i);
      forall k | 0 <= k < |kept|
        ensures Covers(out[k], ident) == Covers(kept[k], ident)
      {
        FilledTypes(kept, {}, claims, k);
      }
      SameCoverage(out, kept, ident);
      SameCoverage(packed, out, ident);
      CoverageOfKept(items, declared, ident);
      DropSplit(items, declared, DefaultDrop(ident));
      assert ident in Declared(kept) by { assert kept[i].TypeItem? && kept[i].ident == ident; }
      assert Drops(items, ident) <= 1;
    }
  }

  // ---------- the algorithms ----------

  /** What the map still holds for the types that have not been reached. */
  ghost predicate Pending(dispatch: map<string, seq<Impl>>, claims: seq<Claim>, declared: set<string>,
      seen: set<string>)
  {
    dispatch.Keys == declared - seen && forall ident :: ident in dispatch ==> dispatch[ident] == For(claims, ident)
  }

  /** What the map holds while some claims are still to come. */
  ghost predicate Dispatching(dispatch: map<string, seq<Impl>>, rest: seq<Claim>, claims: seq<Claim>,
      declared: set<string>)
  {
    dispatch.Keys == declared && forall ident :: ident in dispatch ==>
      dispatch[ident] + For(rest, ident) == For(claims, ident)
  }

  method PackTypeSelfImpls(decls: seq<Item>) returns (packed: seq<Item>)
    ensures packed == PackedSelf(decls)
  {
    var declared := Declared(decls);
    var dispatch: map<string, seq<Impl>> := map ident | ident in declared :: [];
    var kept: seq<Item> := [];
    ghost var claims := SelfClaims(decls, declared);
    assert Dispatching(dispatch, claims, claims, declared);
    assert decls[0..] == decls;
    SelfSplit(decls, declared, DefaultDrop(""));
    hide Dispatching, Declared, SelfKept, SelfClaims, Pending, FillSelf, For, HoldingAll;
    for i := 0 to |decls|
      invariant kept + SelfKept(decls[i..], declared) == SelfKept(decls, declared)
      invariant Dispatching(dispatch, SelfClaims(decls[i..], declared), claims, declared)
    {
      var decl := decls[i];
      assert decls[i..][0] == decl && decls[i..][1..] == decls[i + 1..];
      SelfStep(decls[i..], declared);
      KeysAreDeclared(dispatch, SelfClaims(decls[i..], declared), claims, declared);
      if decl.ImplItem? && SelfIdent(decl.impl).Some? && SelfIdent(decl.impl).value in dispatch {
        var ident := SelfIdent(decl.impl).value;
        DispatchStep(dispatch, ident, decl.impl, SelfClaims(decls[i + 1..], declared), claims, declared);
        dispatch := dispatch[ident := dispatch[ident] + [decl.impl]];
      } else {
        kept := kept + [decl];
      }
    }
    AllDispatched(decls[|decls|..], dispatch, claims, declared);
    assert kept + [] == kept;
    packed := GiveSelfImpls(kept, dispatch, claims, declared);
  }

  lemma KeysAreDeclared(dispatch: map<string, seq<Impl>>, rest: seq<Claim>, claims: seq<Claim>, declared: set<string>)
    requires Dispatching(dispatch, rest, claims, declared)
    ensures dispatch.Keys == declared
  {
  }

  lemma DispatchStep(dispatch: map<string, seq<Impl>>, ident: string, x: Impl, rest: seq<Claim>, claims: seq<Claim>,
      declared: set<string>)
    requires Dispatching(dispatch, [(ident, x)] + rest, claims, declared) && ident in dispatch
    ensures Dispatching(dispatch[ident := dispatch[ident] + [x]], rest, claims, declared)
  {
    ForFirst((ident, x), rest);
    hide For;
    assert dispatch[ident] + [x] + For(rest, ident) == dispatch[ident] + ([x] + For(rest, ident));
  }

  lemma AllDispatched(none: seq<Item>, dispatch: map<string, seq<Impl>>, claims: seq<Claim>, declared: set<string>)
    requires none == [] && Dispatching(dispatch, SelfClaims(none, declared), claims, declared)
    ensures SelfKept(none, declared) == [] && Pending(dispatch, claims, declared, {})
  {
  }

  method GiveSelfImpls(kept: seq<Item>, dispatch: map<string, seq<Impl>>, ghost claims: seq<Claim>,
      ghost declared: set<string>)
      returns (packed: seq<Item>)
    requires Pending(dispatch, claims, declared, {}) && Declared(kept) <= declared
    ensures packed == FillSelf(kept, {}, claims)
  {
    hide *;
    packed := [];
    var left := dispatch;
    ghost var seen := {};
    for i := 0 to |kept|
      invariant Pending(left, claims, declared, seen)
      invariant packed + FillSelf(kept[i..], seen, claims) == FillSelf(kept, {}, claims)
    {
      assert kept[i..][0] == kept[i] && kept[i..][1..] == kept[i + 1..];
      var item := kept[i];
      FillSelfStep(kept[i..], seen, claims);
      if item.TypeItem? {
        DeclaredAt(kept, i);
        PendingStep(left, claims, declared, seen, item.ident);
        item := item.(selfImpls := if item.ident in left then left[item.ident] else []);
        left := left - {kept[i].ident};
        seen := seen + {kept[i].ident};
      }
      packed := packed + [item];
    }
    FillSelfStep([], seen, claims);
    assert kept[|kept|..] == [];
  }

  lemma DeclaredAt(items: seq<Item>, i: nat)
    requires i < |items| && items[i].TypeItem?
    ensures items[i].ident in Declared(items)
  {
  }

  lemma FillSelfStep(items: seq<Item>, seen: set<string>, claims: seq<Claim>)
    ensures |items| == 0 ==> FillSelf(items, seen, claims) == []
    ensures |items| > 0 ==>
      FillSelf(items, seen, claims) ==
        if items[0].TypeItem? then
          [items[0].(selfImpls := if items[0].ident in seen then [] else For(claims, items[0].ident))]
          + FillSelf(items[1..], seen + {items[0].ident}, claims)
        else [items[0]] + FillSelf(items[1..], seen, claims)
  {
  }

  lemma PendingStep(left: map<string, seq<Impl>>, claims: seq<Claim>, declared: set<string>, seen: set<string>,
      ident: string)
    requires Pending(left, claims, declared, seen) && ident in declared
    ensures (if ident in left then left[ident] else []) == if ident in seen then [] else For(claims, ident)
    ensures Pending(left - {ident}, claims, declared, seen + {ident})
  {
  }

  datatype Error = DuplicateExplicit(ident: string) | DuplicateDrop(ident: string) | UnknownDrop(x: Impl)

  /** How many selecting impls cover each name. */
  method DropCoverage(decls: seq<Item>) returns (coverage: map<string, nat>)
    ensures forall ident :: CountOf(coverage, ident) == Coverage(decls, ident)
  {
    coverage := map[];
    for i := 0 to |decls|
      invariant forall ident :: CountOf(coverage, ident) + Coverage(decls[i..], ident) == Coverage(decls, ident)
    {
      assert decls[i..][0] == decls[i] && decls[i..][1..] == decls[i + 1..];
      if decls[i].ImplItem? && Selects(decls[i].impl).Some? {
        ghost var before := coverage;
        var targets := Selects(decls[i].impl).value;
        var rest := targets;
        while rest != {}
          invariant rest <= targets
          invariant forall ident ::
            CountOf(coverage, ident) == CountOf(before, ident) + if ident in targets && ident !in rest then 1 else 0
          decreases |rest|
        {
          var target :| target in rest;
          coverage := coverage[target := CountOf(coverage, target) + 1];
          rest := rest - {target};
        }
      }
    }
  }

  function CountOf(coverage: map<string, nat>, ident: string): nat {
    if ident in coverage then coverage[ident] else 0
  }

  /** The map holds the last claim for each name that has one and was not seen yet. */
  ghost predicate Tracks(explicit: map<string, Impl>, claims: seq<Claim>, seen: set<string>) {
    forall ident ::
      && (ident in explicit <==> For(claims, ident) != [] && ident !in seen)
      && (ident in explicit ==> LastOf(For(claims, ident)) == Some(explicit[ident]))
  }

  ghost predicate NoDuplicates(claims: seq<Claim>) {
    forall ident :: |For(claims, ident)| <= 1
  }

  lemma ForSingle(claim: Claim, ident: string)
    ensures For([claim], ident) == if ident == claim.0 then [claim.1] else []
  {
  }

  /** The map and the errors after these claims were inserted. */
  ghost predicate Inserted(explicit: map<string, Impl>, errors: seq<Error>, claims: seq<Claim>) {
    Tracks(explicit, claims, {}) && (errors == [] <==> NoDuplicates(claims)) && NoneUnknown(errors)
  }

  method InsertDrop(explicit: map<string, Impl>, errors: seq<Error>, ident: string, x: Impl, ghost claims: seq<Claim>)
      returns (explicit': map<string, Impl>, errors': seq<Error>)
    requires Inserted(explicit, errors, claims)
    ensures Inserted(explicit', errors', claims + [(ident, x)])
  {
    hide For;
    explicit', errors' := explicit[ident := x], errors;
    if ident in explicit {
      errors' := errors + [DuplicateExplicit(ident)];
    }
    ghost var more := claims + [(ident, x)];
    forall other ensures For(more, other) == if other == ident then For(claims, other) + [x] else For(claims, other) {
      ForConcat(claims, [(ident, x)], other);
      ForSingle((ident, x), other);
    }
    if NoDuplicates(more) {
      forall other ensures |For(claims, other)| <= 1 { assert |For(more, other)| <= 1; }
    }
    assert |For(more, ident)| == |For(claims, ident)| + 1;
  }

  predicate NoneUnknown(errors: seq<Error>) {
    forall i :: 0 <= i < |errors| ==> !errors[i].UnknownDrop?
  }

  /** Take the drop impls out of one type declaration. */
  method TakeDrops(item: Item, explicit: map<string, Impl>, errors: seq<Error>, ghost claims: seq<Claim>,
      ghost declared: set<string>)
      returns (item': Item, explicit': map<string, Impl>, errors': seq<Error>)
    requires item.TypeItem? && Inserted(explicit, errors, claims)
    ensures [item'] == KeptOf(item, declared) && Inserted(explicit', errors', claims + ClaimsOf(item, declared))
  {
    hide Inserted, Filtered, For;
    explicit', errors' := explicit, errors;
    var kept: seq<Impl> := [];
    ghost var claimed := claims;
    if item.drop.Some? {
      explicit', errors' := InsertDrop(explicit', errors', item.ident, item.drop.value, claimed);
      claimed := claimed + [(item.ident, item.drop.value)];
    }
    ghost var all := claims + ClaimsOf(item, declared);
    for k := 0 to |item.selfImpls|
      invariant kept + Filtered(item.selfImpls[k..], false) == Filtered(item.selfImpls, false)
      invariant claimed + Named(item.ident, Filtered(item.selfImpls[k..], true)) == all
      invariant Inserted(explicit', errors', claimed)
    {
      var x := item.selfImpls[k];
      assert item.selfImpls[k..][0] == x && item.selfImpls[k..][1..] == item.selfImpls[k + 1..];
      FilterStep(item.selfImpls[k..], true);
      FilterStep(item.selfImpls[k..], false);
      if x.isDrop {
        NamedFirst(item.ident, x, Filtered(item.selfImpls[k + 1..], true), claimed);
        explicit', errors' := InsertDrop(explicit', errors', item.ident, x, claimed);
        claimed := claimed + [(item.ident, x)];
      } else {
        kept := kept + [x];
      }
    }
    NothingFiltered();
    assert item.selfImpls[|item.selfImpls|..] == [];
    assert kept + [] == kept && claimed + [] == claimed && claimed == all;
    item' := item.(drop := None, selfImpls := kept);
  }

  lemma NamedFirst(ident: string, x: Impl, rest: seq<Impl>, before: seq<Claim>)
    ensures before + Named(ident, [x] + rest) == before + [(ident, x)] + Named(ident, rest)
  {
    assert ([x] + rest)[1..] == rest;
  }

  lemma NothingFiltered()
    ensures Filtered([], true) == [] && Filtered([], false) == [] && forall ident :: Named(ident, []) == []
  {
  }

  /** Whether one declared type has at most one drop. */
  predicate TypeOk(item: Item, decls: seq<Item>) {
    item.TypeItem? ==> Coverage(decls, item.ident) + (if item.drop.Some? then 1 else 0) <= 1
  }

  /** Split the declarations into what is kept and the claimed drops. */
  method TakeAllDrops(decls: seq<Item>, declared: set<string>)
      returns (kept: seq<Item>, explicit: map<string, Impl>, errors: seq<Error>)
    ensures kept == DropKept(decls, declared) && Inserted(explicit, errors, DropClaims(decls, declared))
  {
    hide *;
    kept, explicit, errors := [], map[], [];
    ghost var claimed: seq<Claim> := [];
    NothingInserted(declared);
    assert decls[0..] == decls;
    for i := 0 to |decls|
      invariant kept + DropKept(decls[i..], declared) == DropKept(decls, declared)
      invariant claimed + DropClaims(decls[i..], declared) == DropClaims(decls, declared)
      invariant Inserted(explicit, errors, claimed)
    {
      var decl := decls[i];
      assert decls[i..][0] == decl && decls[i..][1..] == decls[i + 1..];
      DropStep(decls[i..], declared);
      if decl.TypeItem? {
        var item;
        item, explicit, errors := TakeDrops(decl, explicit, errors, claimed, declared);
        kept := kept + [item];
      } else {
        ClaimOfOther(decl, declared);
        if decl.ImplItem? && decl.impl.isDrop && Selects(decl.impl).None? && SelfIdent(decl.impl).Some?
          && SelfIdent(decl.impl).value in declared
        {
          explicit, errors := InsertDrop(explicit, errors, SelfIdent(decl.impl).value, decl.impl, claimed);
        } else {
          kept := kept + [decl];
          assert claimed + [] == claimed;
        }
      }
      claimed := claimed + ClaimsOf(decl, declared);
    }
    assert decls[|decls|..] == [] && kept + [] == kept && claimed + [] == claimed;
  }

  lemma NothingInserted(declared: set<string>)
    ensures Inserted(map[], [], []) && DropKept([], declared) == [] && DropClaims([], declared) == []
  {
  }

  lemma ClaimOfOther(item: Item, declared: set<string>)
    requires !item.TypeItem?
    ensures
      if item.ImplItem? && item.impl.isDrop && Selects(item.impl).None? && SelfIdent(item.impl).Some? &&
        SelfIdent(item.impl).value in declared
      then ClaimsOf(item, declared) == [(SelfIdent(item.impl).value, item.impl)] && KeptOf(item, declared) == []
      else ClaimsOf(item, declared) == [] && KeptOf(item, declared) == [item]
  {
  }

  /** The types that were given their drop are fine and no drop was claimed twice. */
  ghost predicate Given(packed: seq<Item>, decls: seq<Item>, claims: seq<Claim>) {
    NoDuplicates(claims) && forall k :: 0 <= k < |packed| ==> TypeOk(packed[k], decls)
  }

  method GiveDrops(kept: seq<Item>, explicit: map<string, Impl>, found: seq<Error>, coverage: map<string, nat>,
      ghost claims: seq<Claim>, ghost decls: seq<Item>)
      returns (packed: seq<Item>, left: map<string, Impl>, errors: seq<Error>)
    requires Inserted(explicit, found, claims) && NoDrops(kept)
    requires forall ident :: CountOf(coverage, ident) == Coverage(decls, ident)
    ensures packed == FillDrop(kept, {}, claims) && Tracks(left, claims, Declared(kept))
    ensures (errors == [] <==> Given(packed, decls, claims)) && NoneUnknown(errors)
  {
    hide *;
    packed, left, errors := [], explicit, found;
    ghost var seen := {};
    NothingGiven(kept, explicit, found, claims, decls);
    assert kept[0..] == kept;
    for i := 0 to |kept|
      invariant Tracks(left, claims, seen) && seen + Declared(kept[i..]) == Declared(kept)
      invariant packed + FillDrop(kept[i..], seen, claims) == FillDrop(kept, {}, claims)
      invariant (errors == [] <==> Given(packed, decls, claims)) && NoneUnknown(errors)
    {
      var item := kept[i];
      RestFirst(kept, i);
      FillDropStep(kept[i..], seen, claims);
      DeclaredFirst(kept[i..]);
      if item.TypeItem? {
        TracksStep(left, claims, seen, item.ident);
        var fine;
        item, left, fine := GiveDrop(item, left, coverage, decls);
        seen := seen + {item.ident};
        if !fine {
          UnknownStays(errors, item.ident);
          errors := errors + [DuplicateDrop(item.ident)];
        }
      } else {
        NoTypeIsOk(item, decls);
      }
      GivenStep(packed, item, decls, claims);
      ghost var later := FillDrop(kept[i + 1..], seen, claims);
      Associates(packed, [item], later);
      packed := packed + [item];
    }
    FillDropStep(kept[|kept|..], seen, claims);
    NoneDeclared(kept[|kept|..]);
  }

  /** Hand one type its drop; too many drops of the type are an error. */
  method GiveDrop(item: Item, explicit: map<string, Impl>, coverage: map<string, nat>, ghost decls: seq<Item>)
      returns (given: Item, left: map<string, Impl>, fine: bool)
    requires item.TypeItem? && forall ident :: CountOf(coverage, ident) == Coverage(decls, ident)
    ensures given == item.(drop := if item.ident in explicit then Some(explicit[item.ident]) else None)
    ensures left == explicit - {item.ident} && (fine <==> TypeOk(given, decls))
  {
    var ident := item.ident;
    given := item.(drop := if ident in explicit then Some(explicit[ident]) else None);
    left := explicit - {ident};
    var dynamicCount := CountOf(coverage, ident);
    fine := !(dynamicCount > 1 || (dynamicCount == 1 && given.drop.Some?));
  }

  lemma NothingGiven(kept: seq<Item>, explicit: map<string, Impl>, found: seq<Error>, claims: seq<Claim>,
      decls: seq<Item>)
    requires Inserted(explicit, found, claims)
    ensures Tracks(explicit, claims, {}) && (found == [] <==> Given([], decls, claims)) && NoneUnknown(found)
  {
  }

  lemma NoTypeIsOk(item: Item, decls: seq<Item>)
    requires !item.TypeItem?
    ensures TypeOk(item, decls)
  {
  }

  lemma UnknownStays(errors: seq<Error>, ident: string)
    requires NoneUnknown(errors)
    ensures NoneUnknown(errors + [DuplicateDrop(ident)])
  {
  }

  lemma RestFirst<T>(xs: seq<T>, i: nat)
    requires i < |xs|
    ensures xs[i..][0] == xs[i] && xs[i..][1..] == xs[i + 1..]
  {
  }

  lemma NoneDeclared(items: seq<Item>)
    requires items == []
    ensures Declared(items) == {}
  {
  }

  lemma GivenStep(packed: seq<Item>, item: Item, decls: seq<Item>, claims: seq<Claim>)
    ensures Given(packed + [item], decls, claims) <==> Given(packed, decls, claims) && TypeOk(item, decls)
  {
    var more := packed + [item];
    hide TypeOk, NoDuplicates;
    if Given(more, decls, claims) {
      forall k | 0 <= k < |packed| ensures TypeOk(packed[k], decls) { assert more[k] == packed[k]; }
      assert more[|packed|] == item;
    }
  }

  lemma FillDropStep(items: seq<Item>, seen: set<string>, claims: seq<Claim>)
    ensures |items| == 0 ==> FillDrop(items, seen, claims) == []
    ensures |items| > 0 ==>
      FillDrop(items, seen, claims) ==
        if items[0].TypeItem? then
          [items[0].(drop := if items[0].ident in seen then None else LastOf(For(claims, items[0].ident)))]
          + FillDrop(items[1..], seen + {items[0].ident}, claims)
        else [items[0]] + FillDrop(items[1..], seen, claims)
  {
  }

  lemma TracksStep(left: map<string, Impl>, claims: seq<Claim>, seen: set<string>, ident: string)
    requires Tracks(left, claims, seen)
    ensures (if ident in left then Some(left[ident]) else None) ==
      if ident in seen then None else LastOf(For(claims, ident))
    ensures Tracks(left - {ident}, claims, seen + {ident})
  {
  }

  /** Report the drops that no type has taken. */
  method ReportUnknown(left: map<string, Impl>) returns (errors: seq<Error>)
    ensures |errors| == |left|
  {
    errors := [];
    var rest := left.Keys;
    while rest != {}
      invariant rest <= left.Keys && |errors| + |rest| == |left.Keys|
      decreases |rest|
    {
      var ident :| ident in rest;
      errors := errors + [UnknownDrop(left[ident])];
      rest := rest - {ident};
    }
    assert |left| == |left.Keys|;
  }

  /** `pack_type_drop_impls`: it succeeds exactly if every declared type has at most one
      drop, counting explicit ones and impls that select the type; no drop is ever
      reported as unknown. */
  method PackTypeDropImpls(decls: seq<Item>) returns (r: Result<seq<Item>, seq<Error>>)
    ensures r.Ok? <==> AtMostOneDrop(decls)
    ensures r.Ok? ==> r.value == PackedDrops(decls)
    ensures r.Err? ==> NoneUnknown(r.error)
  {
    var declared := Declared(decls);
    var coverage := DropCoverage(decls);
    var kept, explicit, found := TakeAllDrops(decls, declared);
    ghost var claims := DropClaims(decls, declared);
    KeptHasNoDrops(decls, declared);
    DropSplit(decls, declared, DefaultDrop(""));
    var packed, left, errors := GiveDrops(kept, explicit, found, coverage, claims, decls);
    var unknown := ReportUnknown(left);
    NothingLeft(left, claims, declared);
    GivenIsOk(decls, packed);
    errors := errors + unknown;
    if errors != [] {
      return Err(errors);
    }
    r := Ok(packed);
  }

  lemma {:induction false} ForNothing(claims: seq<Claim>, ident: string)
    requires forall i :: 0 <= i < |claims| ==> claims[i].0 != ident
    ensures For(claims, ident) == []
  {
    if |claims| > 0 { ForNothing(claims[1..], ident); }
  }

  lemma NothingLeft(left: map<string, Impl>, claims: seq<Claim>, declared: set<string>)
    requires Tracks(left, claims, declared) && NamedIn(claims, declared)
    ensures left == map[]
  {
    forall ident | ident in left ensures false {
      ForNothing(claims, ident);
    }
  }

  // ---------- self impls keep their order ----------

  /** The impls with the name `ident` are exactly those at these positions. */
  predicate Positions(items: seq<Item>, ident: string, ps: seq<nat>) {
    && (forall j, k :: 0 <= j < k < |ps| ==> ps[j] < ps[k])
    && (forall j :: 0 <= j < |ps| ==> ps[j] < |items|)
    && (forall i :: 0 <= i < |items| ==> (i in ps <==> items[i].ImplItem? && Names(items[i].impl, ident)))
  }

  /** The impls are those at the positions, in that order. */
  predicate Picked(items: seq<Item>, ps: seq<nat>, xs: seq<Impl>) {
    |xs| == |ps| && forall j :: 0 <= j < |ps| ==> ps[j] < |items| && items[ps[j]] == ImplItem(xs[j])
  }

  function Shifted(ps: seq<nat>): (qs: seq<nat>)
    ensures |qs| == |ps|
  {
    seq(|ps|, j requires 0 <= j < |ps| => ps[j] + 1)
  }

  lemma InShifted(ps: seq<nat>, i: nat)
    ensures i in Shifted(ps) <==> i > 0 && i - 1 in ps
  {
    if i > 0 && i - 1 in ps {
      var j :| 0 <= j < |ps| && ps[j] == i - 1;
      assert Shifted(ps)[j] == i;
    }
  }

  lemma PositionsShift(items: seq<Item>, ident: string, ps: seq<nat>, xs: seq<Impl>)
    requires |items| > 0 && Positions(items[1..], ident, ps) && Picked(items[1..], ps, xs)
    ensures items[0].ImplItem? && Names(items[0].impl, ident) ==>
      Positions(items, ident, [0] + Shifted(ps)) && Picked(items, [0] + Shifted(ps), [items[0].impl] + xs)
    ensures !(items[0].ImplItem? && Names(items[0].impl, ident)) ==>
      Positions(items, ident, Shifted(ps)) && Picked(items, Shifted(ps), xs)
  {
    hide *;
    if items[0].ImplItem? && Names(items[0].impl, ident) {
      HerePosition(items, ident, ps);
      HerePicked(items, ps, xs);
    } else {
      LaterPosition(items, ident, ps);
      LaterPicked(items, ps, xs);
    }
  }

  lemma LaterPosition(items: seq<Item>, ident: string, ps: seq<nat>)
    requires |items| > 0 && Positions(items[1..], ident, ps) && !(items[0].ImplItem? && Names(items[0].impl, ident))
    ensures Positions(items, ident, Shifted(ps))
  {
    var qs := Shifted(ps);
    hide Names;
    forall i | 0 <= i < |items| ensures i in qs <==> items[i].ImplItem? && Names(items[i].impl, ident) {
      InShifted(ps, i);
      assert i > 0 ==> items[i] == items[1..][i - 1];
    }
  }

  lemma HerePosition(items: seq<Item>, ident: string, ps: seq<nat>)
    requires |items| > 0 && Positions(items[1..], ident, ps) && items[0].ImplItem? && Names(items[0].impl, ident)
    ensures Positions(items, ident, [0] + Shifted(ps))
  {
    var qs := [0] + Shifted(ps);
    hide Names;
    forall i | 0 <= i < |items| ensures i in qs <==> items[i].ImplItem? && Names(items[i].impl, ident) {
      InShifted(ps, i);
      assert i > 0 ==> items[i] == items[1..][i - 1];
    }
  }

  lemma LaterPicked(items: seq<Item>, ps: seq<nat>, xs: seq<Impl>)
    requires |items| > 0 && Picked(items[1..], ps, xs)
    ensures Picked(items, Shifted(ps), xs)
  {
  }

  lemma HerePicked(items: seq<Item>, ps: seq<nat>, xs: seq<Impl>)
    requires |items| > 0 && Picked(items[1..], ps, xs) && items[0].ImplItem?
    ensures Picked(items, [0] + Shifted(ps), [items[0].impl] + xs)
  {
  }

  lemma {:induction false} ClaimsInOrder(items: seq<Item>, declared: set<string>, ident: string) returns (ps: seq<nat>)
    requires ident in declared
    ensures Positions(items, ident, ps) && Picked(items, ps, For(SelfClaims(items, declared), ident))
  {
    ps := [];
    if |items| > 0 {
      var qs := ClaimsInOrder(items[1..], declared, ident);
      SelfStep(items, declared);
      hide *;
      var more := For(SelfClaims(items[1..], declared), ident);
      PositionsShift(items, ident, qs, more);
      NamesAre(items[0], declared, ident);
      if items[0].ImplItem? && Moves(items[0].impl, declared) {
        ForOne((SelfIdent(items[0].impl).value, items[0].impl), SelfClaims(items[1..], declared), ident);
      }
      ps := if items[0].ImplItem? && Names(items[0].impl, ident) then [0] + Shifted(qs) else Shifted(qs);
    }
  }

  lemma NamesAre(item: Item, declared: set<string>, ident: string)
    requires ident in declared
    ensures item.ImplItem? ==>
      (Names(item.impl, ident) <==> Moves(item.impl, declared) && SelfIdent(item.impl) == Some(ident))
    ensures item.ImplItem? && Moves(item.impl, declared) ==> SelfIdent(item.impl).Some?
  {
  }

  lemma {:induction false} FirstTakesSelf(items: seq<Item>, seen: set<string>, claims: seq<Claim>, ident: string)
      returns (k: nat)
    requires ident in Declared(items) && ident !in seen
    ensures k < |items| && items[k].TypeItem? && items[k].ident == ident
    ensures FillSelf(items, seen, claims)[k] == items[k].(selfImpls := For(claims, ident))
  {
    assert |items| > 0;
    hide *;
    DeclaredFirst(items);
    FirstFilledSelf(items, seen, claims);
    if items[0].TypeItem? && items[0].ident == ident {
      k := 0;
    } else {
      SeenOther(items[0], seen, ident);
      k := FirstTakesSelf(items[1..], SeenAfter(items[0], seen), claims, ident);
      InTail(FillSelf(items, seen, claims), k);
      k := k + 1;
    }
  }

  lemma FirstFilledSelf(items: seq<Item>, seen: set<string>, claims: seq<Claim>)
    requires |items| > 0
    ensures var filled, item := FillSelf(items, seen, claims), items[0];
            && filled[1..] == FillSelf(items[1..], SeenAfter(item, seen), claims)
            && (item.TypeItem? && item.ident !in seen ==> filled[0] == item.(selfImpls := For(claims, item.ident)))
  {
    hide For;
  }

  /** A declared type takes all impls with its name, in the order of their declarations. */
  lemma SelfImplsInOrder(items: seq<Item>, ident: string) returns (k: nat, ps: seq<nat>)
    requires NothingPacked(items) && ident in Declared(items)
    ensures k < |PackedSelf(items)|
    ensures PackedSelf(items)[k].TypeItem? && PackedSelf(items)[k].ident == ident
    ensures Positions(items, ident, ps) && Picked(items, ps, PackedSelf(items)[k].selfImpls)
  {
    var declared := Declared(items);
    SelfSplit(items, declared, DefaultDrop(""));
    ps := ClaimsInOrder(items, declared, ident);
    hide SelfKept, SelfClaims, Declared, For, FillSelf, Positions, Picked;
    k := FirstTakesSelf(SelfKept(items, declared), {}, SelfClaims(items, declared), ident);
  }

  lemma {:induction false} FirstTakes(items: seq<Item>, seen: set<string>, claims: seq<Claim>, ident: string)
      returns (k: nat)
    requires ident in Declared(items) && ident !in seen
    ensures k < |items| && var filled := FillDrop(items, seen, claims)[k];
            filled.TypeItem? && filled.ident == ident && filled.drop == LastOf(For(claims, ident))
  {
    assert |items| > 0;
    hide *;
    DeclaredFirst(items);
    FirstFilled(items, seen, claims);
    if items[0].TypeItem? && items[0].ident == ident {
      k := 0;
    } else {
      SeenOther(items[0], seen, ident);
      k := FirstTakes(items[1..], SeenAfter(items[0], seen), claims, ident);
      InTail(FillDrop(items, seen, claims), k);
      k := k + 1;
    }
  }

  function SeenAfter(item: Item, seen: set<string>): set<string> {
    if item.TypeItem? then seen + {item.ident} else seen
  }

  lemma FirstFilled(items: seq<Item>, seen: set<string>, claims: seq<Claim>)
    requires |items| > 0
    ensures var filled, item := FillDrop(items, seen, claims), items[0];
            && filled[1..] == FillDrop(items[1..], SeenAfter(item, seen), claims)
            && (item.TypeItem? && item.ident !in seen ==> filled[0] == item.(drop := LastOf(For(claims, item.ident))))
  {
    hide For, LastOf;
  }

  lemma InTail<T>(a: seq<T>, k: nat)
    requires k + 1 < |a|
    ensures a[1..][k] == a[k + 1]
  {
  }

  lemma SeenOther(item: Item, seen: set<string>, ident: string)
    requires ident !in seen && !(item.TypeItem? && item.ident == ident)
    ensures ident !in SeenAfter(item, seen)
  {
  }

  lemma GivenIsOk(decls: seq<Item>, packed: seq<Item>)
    requires packed == PackedDrops(decls)
    ensures Given(packed, decls, DropClaims(decls, Declared(decls))) <==> AtMostOneDrop(decls)
  {
    var declared := Declared(decls);
    var kept, claims := DropKept(decls, declared), DropClaims(decls, declared);
    DropSplit(decls, declared, DefaultDrop(""));
    KeptHasNoDrops(decls, declared);
    if Given(packed, decls, claims) {
      forall ident | ident in declared ensures Drops(decls, ident) <= 1 {
        var k := FirstTakes(kept, {}, claims, ident);
        assert TypeOk(packed[k], decls);
      }
    }
    if AtMostOneDrop(decls) {
      forall ident ensures |For(claims, ident)| <= 1 {
        if ident in declared { assert Drops(decls, ident) <= 1; } else { ForNothing(claims, ident); }
      }
      forall k | 0 <= k < |packed| ensures TypeOk(packed[k], decls) {
        FilledTypes(kept, {}, claims, k);
        if packed[k].TypeItem? {
          assert kept[k].ident in Declared(kept);
          assert Drops(decls, packed[k].ident) <= 1;
        }
      }
    }
  }

  /** Both packings in the order of the program. */
  method PackItems(decls: seq<Item>) returns (r: Result<seq<Item>, seq<Error>>)
    requires NothingPacked(decls)
    ensures r.Ok? <==> forall ident :: ident in Declared(decls) ==>
      Drops(decls, ident) + SelectorsInto(decls, Declared(decls), ident) <=
        1 + CoverageMoved(decls, Declared(decls), ident)
    ensures SelectorsStay(decls, Declared(decls)) ==> (r.Ok? <==> AtMostOneDrop(decls))
    ensures r.Ok? ==> r.value == PackedDrops(PackedSelf(decls))
    ensures r.Ok? ==> forall x :: HoldingAll(r.value, x) == HoldingAll(decls, x)
  {
    hide *;
    var packed := PackTypeSelfImpls(decls);
    r := PackTypeDropImpls(packed);
    AcceptedInput(decls);
    if SelectorsStay(decls, Declared(decls)) { PackingJudgesInput(decls); }
    if r.Ok? {
      forall x ensures HoldingAll(r.value, x) == HoldingAll(decls, x) { PackingConserves(decls, x); }
    }
  }

  function SelectedTypes(items: seq<Item>): set<string> {
    if |items| == 0 then {}
    else
      var here := if items[0].ImplItem? && Selects(items[0].impl).Some? then Selects(items[0].impl).value else {};
      here + SelectedTypes(items[1..])
  }

  lemma {:induction false} SelectedIffCovered(items: seq<Item>, ident: string)
    ensures ident in SelectedTypes(items) <==> Coverage(items, ident) > 0
  {
    if |items| > 0 { SelectedIffCovered(items[1..], ident); }
  }

  method SynthesizeDefaultDropImpls(items: seq<Item>) returns (filled: seq<Item>)
    ensures filled == Defaulted(items)
  {
    var selected := SelectedTypes(items);
    filled := [];
    for i := 0 to |items|
      invariant filled == Defaulted(items)[..i]
    {
      var item := items[i];
      if item.TypeItem? {
        SelectedIffCovered(items, item.ident);
        if !(item.drop.Some? || item.ident in selected) {
          if !item.open {
            item := item.(drop := Some(DefaultDrop(item.ident)));
          }
        }
      }
      filled := filled + [item];
    }
  }
}
