/** Vectors in foreign memory that Rust code mutably borrows: elements are decoded
    through their own stores and cloned into a Rust vector, which is written back
    through pointers into those stores. */
module DecodedVectors {
  import opened Wrappers
  import opened Types
  import opened Codec

  /** The store of one borrowed value: a whole-value store, or the store of a vector
      with the capacity it was given and the stores of its elements. The memory that
      foreign code lends is a carrier. */
  datatype Tree = Whole(value: Value) | Elements(value: Value, capacity: nat, fields: seq<Tree>)

  /** `Clone` of a vector keeps the elements and drops the spare capacity. */
  function Clone(v: Value): (c: Value)
    decreases v
  {
    match v
    case VVec(elems, _) => VVec(seq(|elems|, i requires 0 <= i < |elems| => Clone(elems[i])), |elems|)
    case VSeq(items) => VSeq(seq(|items|, i requires 0 <= i < |items| => Clone(items[i])))
    case VSome(inner) => VSome(Clone(inner))
    case VOk(inner) => VOk(Clone(inner))
    case VErr(inner) => VErr(Clone(inner))
    case _ => v
  }

  /** The same value, whatever the capacities of the vectors inside it. */
  predicate Same(a: Value, b: Value)
    decreases a
  {
    match a
    case VVec(elems, _) =>
      b.VVec? && |b.elems| == |elems| && forall i :: 0 <= i < |elems| ==> Same(elems[i], b.elems[i])
    case VSeq(items) =>
      b.VSeq? && |b.items| == |items| && forall i :: 0 <= i < |items| ==> Same(items[i], b.items[i])
    case VSome(inner) => b.VSome? && Same(inner, b.inner)
    case VOk(inner) => b.VOk? && Same(inner, b.inner)
    case VErr(inner) => b.VErr? && Same(inner, b.inner)
    case _ => a == b
  }

  /** Every vector inside the value is as long as its capacity. */
  predicate NoSpare(v: Value)
    decreases v
  {
    match v
    case VVec(elems, capacity) => capacity == |elems| && forall i :: 0 <= i < |elems| ==> NoSpare(elems[i])
    case VSeq(items) => forall i :: 0 <= i < |items| ==> NoSpare(items[i])
    case VSome(inner) => NoSpare(inner)
    case VOk(inner) => NoSpare(inner)
    case VErr(inner) => NoSpare(inner)
    case _ => true
  }

  /** A clone is the same value without spare capacity. */
  lemma {:induction false} CloneIsSame(v: Value)
    ensures Same(v, Clone(v)) && NoSpare(Clone(v))
  {
    match v
    case VVec(elems, _) => forall i | 0 <= i < |elems| { CloneIsSame(elems[i]); }
    case VSeq(items) => forall i | 0 <= i < |items| { CloneIsSame(items[i]); }
    case VSome(inner) => CloneIsSame(inner);
    case VOk(inner) => CloneIsSame(inner);
    case VErr(inner) => CloneIsSame(inner);
    case _ =>
  }

  /** Without spare capacity there is only one value that is the same. */
  lemma {:induction false} SameWithoutSpare(a: Value, b: Value)
    requires Same(a, b) && NoSpare(a) && NoSpare(b)
    ensures a == b
  {
    match a
    case VVec(elems, _) => forall i | 0 <= i < |elems| { SameWithoutSpare(elems[i], b.elems[i]); }
    case VSeq(items) => forall i | 0 <= i < |items| { SameWithoutSpare(items[i], b.items[i]); }
    case VSome(inner) => SameWithoutSpare(inner, b.inner);
    case VOk(inner) => SameWithoutSpare(inner, b.inner);
    case VErr(inner) => SameWithoutSpare(inner, b.inner);
    case _ =>
  }

  lemma {:induction false} SameIsSymmetric(a: Value, b: Value)
    requires Same(a, b)
    ensures Same(b, a)
  {
    match a
    case VVec(elems, _) => forall i | 0 <= i < |elems| { SameIsSymmetric(elems[i], b.elems[i]); }
    case VSeq(items) => forall i | 0 <= i < |items| { SameIsSymmetric(items[i], b.items[i]); }
    case VSome(inner) => SameIsSymmetric(inner, b.inner);
    case VOk(inner) => SameIsSymmetric(inner, b.inner);
    case VErr(inner) => SameIsSymmetric(inner, b.inner);
    case _ =>
  }

  lemma {:induction false} SameIsTransitive(a: Value, b: Value, c: Value)
    requires Same(a, b) && Same(b, c)
    ensures Same(a, c)
  {
    match a
    case VVec(elems, _) => forall i | 0 <= i < |elems| { SameIsTransitive(elems[i], b.elems[i], c.elems[i]); }
    case VSeq(items) => forall i | 0 <= i < |items| { SameIsTransitive(items[i], b.items[i], c.items[i]); }
    case VSome(inner) => SameIsTransitive(inner, b.inner, c.inner);
    case VOk(inner) => SameIsTransitive(inner, b.inner, c.inner);
    case VErr(inner) => SameIsTransitive(inner, b.inner, c.inner);
    case _ =>
  }

  /** Two values are the same exactly if their clones are equal. */
  lemma SameIffClones(a: Value, b: Value)
    ensures Same(a, b) <==> Clone(a) == Clone(b)
  {
    hide *;
    CloneIsSame(a);
    CloneIsSame(b);
    if Same(a, b) {
      SameIsSymmetric(a, Clone(a));
      SameIsTransitive(Clone(a), a, b);
      SameIsTransitive(Clone(a), b, Clone(b));
      SameWithoutSpare(Clone(a), Clone(b));
    }
    if Clone(a) == Clone(b) {
      SameIsSymmetric(b, Clone(b));
      SameIsTransitive(a, Clone(a), b);
    }
  }

  function Collected(trees: seq<Option<Tree>>): Option<seq<Tree>> {
    if forall i :: 0 <= i < |trees| ==> trees[i].Some?
    then Some(seq(|trees|, i requires 0 <= i < |trees| => trees[i].value))
    else None
  }

  /** The builder: null pointers, lengths above capacity and invalid elements are refused.
      A value that is not itself a vector is decoded as a whole, the vectors inside it
      through references that are then cloned. */
  function Build(t: Ty, c: Carrier): Option<Tree>
    decreases c, t
  {
    if !t.Vec? then
      var value := Decode(Checked, t, c);
      if value.Some? then Some(Whole(Clone(value.value))) else None
    else if !c.CVec? || c.isNull || c.capacity < c.len then None
    else
      var fields := Collected(seq(|c.data|, i requires 0 <= i < |c.data| => Build(t.elem, c.data[i])));
      if fields.Some?
      then Some(Elements(VVec(Clones(fields.value), c.capacity), c.capacity, fields.value))
      else None
  }

  function Clones(fields: seq<Tree>): (vs: seq<Value>)
    ensures |vs| == |fields|
  {
    seq(|fields|, i requires 0 <= i < |fields| => Clone(fields[i].value))
  }

  /** Whether the edited vector still has the shape it was lent with. */
  predicate SameShape(s: Tree) {
    s.Elements? ==> s.value.VVec? && |s.value.elems| == |s.fields| && s.value.capacity == s.capacity
  }

  /** The fields after the vector has been written back through its destinations. */
  function Written(s: Tree): (fields: seq<Tree>)
    requires s.Elements?
    ensures |fields| == |s.fields|
  {
    if SameShape(s) then seq(|s.fields|, i requires 0 <= i < |s.fields| => s.fields[i].(value := s.value.elems[i]))
    else s.fields
  }

  function Height(s: Tree): nat {
    if s.Whole? then 0 else 1 + HeightAll(s.fields)
  }

  function HeightAll(ss: seq<Tree>): (h: nat)
    ensures forall i :: 0 <= i < |ss| ==> Height(ss[i]) <= h
  {
    if |ss| == 0 then 0
    else
      var rest := HeightAll(ss[1..]);
      if Height(ss[0]) < rest then rest else Height(ss[0])
  }

  lemma WrittenIsLower(s: Tree)
    requires s.Elements?
    ensures forall i :: 0 <= i < |s.fields| ==> Height(Written(s)[i]) < Height(s)
  {
    forall i | 0 <= i < |s.fields| ensures Height(Written(s)[i]) < Height(s) {
      assert Height(Written(s)[i]) == Height(s.fields[i]);
    }
  }

  /** Synchronise: the foreign memory after it, and whether it succeeded. Destinations
      are written before the stores they point into are synchronised, and those are
      synchronised even if nothing was written. */
  function Sync(t: Ty, s: Tree, c: Carrier): (Carrier, bool)
    decreases Height(s)
  {
    if s.Whole? then (if HasType(t, s.value) then Encode(t, s.value) else c, true)
    else if !t.Vec? || !c.CVec? || |c.data| != |s.fields| then (c, false)
    else
      WrittenIsLower(s);
      var fields := Written(s);
      var synced := seq(|fields|, i requires 0 <= i < |fields| => Sync(t.elem, fields[i], c.data[i]));
      (CVec(c.isNull, seq(|synced|, i requires 0 <= i < |synced| => synced[i].0), c.len, c.capacity),
       SameShape(s) && forall i :: 0 <= i < |synced| ==> synced[i].1)
  }

  // ---------- what synchronising means for foreign memory ----------

  /** Types without vectors inside: cloning keeps their values. */
  predicate Plain(t: Ty) {
    match t
    case Vec(_) => false
    case Tuple(_, fields) => forall i :: 0 <= i < |fields| ==> Plain(fields[i])
    case Array(elem, _) => Plain(elem)
    case Opt(_, some) => Plain(some)
    case Res(_, ok, err) => Plain(ok) && Plain(err)
    case _ => true
  }

  /** `part` is the type or occurs in it. */
  predicate Occurs(part: Ty, t: Ty)
    decreases t
  {
    || part == t
    || match t
       case Tuple(_, fields) => exists i :: 0 <= i < |fields| && Occurs(part, fields[i])
       case Array(elem, _) => Occurs(part, elem)
       case Vec(elem) => Occurs(part, elem)
       case Opt(_, some) => Occurs(part, some)
       case Res(_, ok, err) => Occurs(part, ok) || Occurs(part, err)
       case _ => false
  }

  /** Plain types are those in which no vector occurs. */
  lemma PlainTypesAre(t: Ty)
    ensures Plain(t) <==> forall part :: Occurs(part, t) ==> !part.Vec?
  {
    if Plain(t) {
      forall part | Occurs(part, t) ensures !part.Vec? { NoVectorInPlain(part, t); }
    } else {
      var part := VectorInside(t);
    }
  }

  lemma {:induction false} NoVectorInPlain(part: Ty, t: Ty)
    requires Plain(t) && Occurs(part, t)
    ensures !part.Vec?
    decreases t
  {
    if part != t {
      match t
      case Tuple(_, fields) =>
        var i :| 0 <= i < |fields| && Occurs(part, fields[i]);
        NoVectorInPlain(part, fields[i]);
      case Array(elem, _) => NoVectorInPlain(part, elem);
      case Opt(_, some) => NoVectorInPlain(part, some);
      case Res(_, ok, err) => NoVectorInPlain(part, if Occurs(part, ok) then ok else err);
    }
  }

  lemma {:induction false} VectorInside(t: Ty) returns (part: Ty)
    requires !Plain(t)
    ensures Occurs(part, t) && part.Vec?
  {
    match t
    case Tuple(_, fields) =>
      var i :| 0 <= i < |fields| && !Plain(fields[i]);
      part := VectorInside(fields[i]);
    case Array(elem, _) => part := VectorInside(elem);
    case Vec(_) => part := t;
    case Opt(_, some) => part := VectorInside(some);
    case Res(_, ok, err) => part := VectorInside(if Plain(ok) then err else ok);
  }

  /** Vectors of vectors, to any depth, of plain elements. */
  predicate Nested(t: Ty) {
    if t.Vec? then Nested(t.elem) else Plain(t)
  }

  /** The edited vector has the length and the capacity of the foreign one, and so
      have its elements. */
  predicate Matches(t: Ty, edited: Value, c: Carrier)
    decreases t
  {
    t.Vec? ==>
      && edited.VVec? && c.CVec? && |edited.elems| == |c.data| && edited.capacity == c.capacity
      && forall i :: 0 <= i < |c.data| ==> Matches(t.elem, edited.elems[i], c.data[i])
  }

  /** The edited value, except that a vector of another length or capacity, at any
      depth, leaves the foreign vector as it was. */
  function Merged(t: Ty, edited: Value, c: Carrier): Value
    decreases t
  {
    if !t.Vec? || !c.CVec? then edited
    else if edited.VVec? && |edited.elems| == |c.data| && edited.capacity == c.capacity then
      VVec(seq(|c.data|, i requires 0 <= i < |c.data| => Merged(t.elem, edited.elems[i], c.data[i])), c.capacity)
    else
      var before := Decode(ByParts, t, c);
      if before.Some? then before.value else edited
  }

  lemma {:induction false} CloneTwice(v: Value)
    ensures Clone(Clone(v)) == Clone(v)
  {
    match v
    case VVec(elems, _) =>
      forall i | 0 <= i < |elems| ensures Clone(Clone(elems[i])) == Clone(elems[i]) { CloneTwice(elems[i]); }
    case VSeq(items) =>
      forall i | 0 <= i < |items| ensures Clone(Clone(items[i])) == Clone(items[i]) { CloneTwice(items[i]); }
    case VSome(inner) => CloneTwice(inner);
    case VOk(inner) => CloneTwice(inner);
    case VErr(inner) => CloneTwice(inner);
    case _ =>
  }

  lemma {:induction false} ClonePlain(t: Ty, v: Value)
    requires Plain(t) && HasType(t, v)
    ensures Clone(v) == v
  {
    match t
    case Tuple(_, fields) =>
      forall i | 0 <= i < |fields| ensures Clone(v.items[i]) == v.items[i] { ClonePlain(fields[i], v.items[i]); }
    case Array(elem, len) =>
      forall i | 0 <= i < len ensures Clone(v.items[i]) == v.items[i] { ClonePlain(elem, v.items[i]); }
    case Opt(_, some) => if v.VSome? { ClonePlain(some, v.inner); }
    case Res(_, ok, err) => if v.VOk? { ClonePlain(ok, v.inner); } else { ClonePlain(err, v.inner); }
    case _ =>
  }

  lemma {:induction false} CloneTyped(t: Ty, v: Value)
    requires HasType(t, v)
    ensures HasType(t, Clone(v))
  {
    match t
    case Vec(elem) =>
      forall i | 0 <= i < |v.elems| ensures HasType(elem, Clone(v.elems[i])) { CloneTyped(elem, v.elems[i]); }
    case Tuple(_, fields) =>
      forall i | 0 <= i < |fields| ensures HasType(fields[i], Clone(v.items[i])) {
        CloneTyped(fields[i], v.items[i]);
      }
    case Array(elem, len) =>
      forall i | 0 <= i < len ensures HasType(elem, Clone(v.items[i])) { CloneTyped(elem, v.items[i]); }
    case Opt(_, some) => if v.VSome? { CloneTyped(some, v.inner); }
    case Res(_, ok, err) => if v.VOk? { CloneTyped(ok, v.inner); } else { CloneTyped(err, v.inner); }
    case _ =>
  }

  /** Building succeeds exactly if the memory decodes, and yields a value of the type. */
  lemma {:induction false} BuildSucceeds(t: Ty, c: Carrier)
    requires Shaped(t, c)
    ensures Build(t, c).Some? <==> Decode(ByParts, t, c).Some?
    ensures Build(t, c).Some? ==> HasType(t, Build(t, c).value.value)
    decreases t
  {
    if !t.Vec? {
      FastPathRefinesParts(t, c);
      DecodeSound(t, c);
      if Build(t, c).Some? { CloneTyped(t, Decode(Checked, t, c).value); }
    } else if !c.isNull && c.len <= c.capacity {
      var n := |c.data|;
      var built := seq(n, i requires 0 <= i < n => Build(t.elem, c.data[i]));
      var decoded := seq(n, i requires 0 <= i < n => Decode(ByParts, t.elem, c.data[i]));
      forall i | 0 <= i < n
        ensures built[i].Some? <==> decoded[i].Some?
        ensures built[i].Some? ==> HasType(t.elem, Clone(built[i].value.value))
      {
        BuildSucceeds(t.elem, c.data[i]);
        if built[i].Some? { CloneTyped(t.elem, built[i].value.value); }
      }
      assert Collected(built).Some? <==> AllOf(decoded).Some?;
    }
  }

  /** The store of a vector that decodes: its parts. */
  lemma BuiltVector(t: Ty, c: Carrier)
    requires t.Vec? && Shaped(t, c) && Build(t, c).Some?
    ensures !c.isNull && c.len <= c.capacity && |c.data| == c.len
    ensures var s := Build(t, c).value;
            && s.Elements? && |s.fields| == |c.data| && s.capacity == c.capacity
            && s.value == VVec(Clones(s.fields), c.capacity)
            && (forall i :: 0 <= i < |c.data| ==>
              Shaped(t.elem, c.data[i]) && Build(t.elem, c.data[i]) == Some(s.fields[i]))
    ensures Decode(ByParts, t, c).Some? && Decode(ByParts, t, c).value.VVec?
    ensures var v := Decode(ByParts, t, c).value;
            && |v.elems| == |c.data| && v.capacity == c.capacity
            && forall i :: 0 <= i < |c.data| ==> Decode(ByParts, t.elem, c.data[i]) == Some(v.elems[i])
  {
    BuildSucceeds(t, c);
    var n := |c.data|;
    var built := seq(n, i requires 0 <= i < n => Build(t.elem, c.data[i]));
    assert Collected(built).Some?;
    var s := Build(t, c).value;
    forall i | 0 <= i < n ensures Build(t.elem, c.data[i]) == Some(s.fields[i]) {
      assert built[i].Some?;
    }
    DecodedElements(t, c);
  }

  lemma DecodedElements(t: Ty, c: Carrier)
    requires t.Vec? && c.CVec? && Decode(ByParts, t, c).Some?
    ensures var v := Decode(ByParts, t, c).value;
            && v.VVec? && |v.elems| == |c.data| && v.capacity == c.capacity
            && forall i :: 0 <= i < |c.data| ==> Decode(ByParts, t.elem, c.data[i]) == Some(v.elems[i])
  {
    var decoded := seq(|c.data|, i requires 0 <= i < |c.data| => Decode(ByParts, t.elem, c.data[i]));
    assert AllOf(decoded).Some?;
    forall i | 0 <= i < |c.data| ensures decoded[i].Some? {}
  }

  /** Writing back what was decoded, or a clone of it, merges to what was decoded. */
  lemma {:induction false} MergedOwn(t: Ty, c: Carrier)
    requires Nested(t) && Shaped(t, c) && Build(t, c).Some?
    ensures Decode(ByParts, t, c).Some?
    ensures var s, v := Build(t, c).value, Decode(ByParts, t, c).value;
            Merged(t, s.value, c) == v && Merged(t, Clone(s.value), c) == v
    decreases t
  {
    BuildSucceeds(t, c);
    if !t.Vec? {
      FastPathRefinesParts(t, c);
      DecodeSound(t, c);
      ClonePlain(t, Decode(ByParts, t, c).value);
    } else {
      BuiltVector(t, c);
      var s, v := Build(t, c).value, Decode(ByParts, t, c).value;
      forall i | 0 <= i < |c.data|
        ensures Merged(t.elem, Clone(s.fields[i].value), c.data[i]) == v.elems[i] &&
          Clone(Clone(s.fields[i].value)) == Clone(s.fields[i].value)
      {
        MergedOwn(t.elem, c.data[i]);
        CloneTwice(s.fields[i].value);
      }
      assert Merged(t, s.value, c).elems == v.elems;
      if |c.data| == c.capacity {
        assert Clone(s.value).elems == s.value.elems;
      }
    }
  }

  lemma EncodedParts(elem: Ty, carriers: seq<Carrier>, values: seq<Value>, capacity: nat)
    requires |carriers| == |values| <= capacity
    requires forall i :: 0 <= i < |values| ==>
      Shaped(elem, carriers[i]) && Decode(ByParts, elem, carriers[i]) == Some(values[i])
    ensures var c := CVec(false, carriers, |carriers|, capacity);
            Shaped(Vec(elem), c) && Decode(ByParts, Vec(elem), c) == Some(VVec(values, capacity))
  {
    CollectRun(seq(|carriers|, i requires 0 <= i < |carriers| => Decode(ByParts, elem, carriers[i])), values);
  }

  /** The value that a store holds before any edit. */
  function Own(t: Ty, c: Carrier): Value {
    var s := Build(t, c);
    if s.Some? then s.value.value else VUnit
  }

  /** What synchronising writes: a vector whose shape was kept takes the edited elements,
      any other gets back the values that its element stores hold. */
  function WrittenBack(t: Ty, edited: Value, c: Carrier): Value
    decreases t
  {
    if !t.Vec? || !c.CVec? then edited
    else
      var kept := edited.VVec? && |edited.elems| == |c.data| && edited.capacity == c.capacity;
      VVec(seq(|c.data|, i requires 0 <= i < |c.data| =>
        WrittenBack(t.elem, if kept then edited.elems[i] else Own(t.elem, c.data[i]), c.data[i])), c.capacity)
  }

  /** Before any edit a store holds a clone of what its memory decodes to, or that itself. */
  lemma {:induction false} OwnIsClone(t: Ty, c: Carrier)
    requires Shaped(t, c) && Build(t, c).Some?
    ensures Decode(ByParts, t, c).Some? && Clone(Own(t, c)) == Clone(Decode(ByParts, t, c).value)
    decreases t
  {
    if !t.Vec? {
      FastPathRefinesParts(t, c);
      CloneTwice(Decode(ByParts, t, c).value);
    } else {
      BuiltVector(t, c);
      var s, v := Build(t, c).value, Decode(ByParts, t, c).value;
      forall i | 0 <= i < |c.data| ensures Clone(s.value.elems[i]) == Clone(v.elems[i]) {
        OwnIsClone(t.elem, c.data[i]);
        CloneTwice(s.fields[i].value);
      }
      SameClones(s.value, v);
    }
  }

  /** Building succeeds exactly if the memory decodes, and the store then holds the
      decoded value, capacities aside. */
  lemma BuildDecodes(t: Ty, c: Carrier)
    requires Shaped(t, c)
    ensures Build(t, c).Some? <==> Decode(Checked, t, c).Some?
    ensures Build(t, c).Some? ==>
      HasType(t, Build(t, c).value.value) && Same(Decode(Checked, t, c).value, Build(t, c).value.value)
  {
    BuildSucceeds(t, c);
    FastPathRefinesParts(t, c);
    if Build(t, c).Some? {
      OwnIsClone(t, c);
      SameIffClones(Decode(ByParts, t, c).value, Own(t, c));
    }
  }

  lemma SameClones(a: Value, b: Value)
    requires a.VVec? && b.VVec? && |a.elems| == |b.elems|
    requires forall i :: 0 <= i < |a.elems| ==> Clone(a.elems[i]) == Clone(b.elems[i])
    ensures Clone(a) == Clone(b)
  {
    assert Clone(a).elems == Clone(b).elems;
  }

  lemma ClonedElements(a: Value, b: Value)
    requires a.VVec? && Clone(a) == Clone(b)
    ensures b.VVec? && |a.elems| == |b.elems|
    ensures forall i :: 0 <= i < |a.elems| ==> Clone(a.elems[i]) == Clone(b.elems[i])
  {
    assert b.VVec?;
    var x, y := Clone(a).elems, Clone(b).elems;
    assert |x| == |a.elems| && |y| == |b.elems| && x == y;
    forall i | 0 <= i < |a.elems| ensures Clone(a.elems[i]) == Clone(b.elems[i]) {
      assert x[i] == Clone(a.elems[i]) && y[i] == Clone(b.elems[i]);
    }
  }

  /** Writing back the decoded value, or a clone of it, is a clone of it again. */
  lemma {:induction false} WrittenOwnIsClone(t: Ty, x: Value, c: Carrier)
    requires Shaped(t, c) && Build(t, c).Some? && Decode(ByParts, t, c).Some?
    requires Clone(x) == Clone(Decode(ByParts, t, c).value)
    ensures Clone(WrittenBack(t, x, c)) == Clone(Decode(ByParts, t, c).value)
    decreases t
  {
    if t.Vec? {
      BuiltVector(t, c);
      var v, written := Decode(ByParts, t, c).value, WrittenBack(t, x, c);
      ClonedElements(v, x);
      forall i | 0 <= i < |c.data| ensures Clone(written.elems[i]) == Clone(v.elems[i]) {
        OwnIsClone(t.elem, c.data[i]);
        WrittenOwnIsClone(t.elem, if x.capacity == c.capacity then x.elems[i] else Own(t.elem, c.data[i]), c.data[i]);
      }
      SameClones(written, v);
    }
  }

  /** What is written has the clone of the merged value. */
  lemma {:induction false} WrittenIsMerged(t: Ty, edited: Value, c: Carrier)
    requires Shaped(t, c) && Build(t, c).Some?
    ensures Clone(WrittenBack(t, edited, c)) == Clone(Merged(t, edited, c))
    decreases t
  {
    if t.Vec? {
      BuiltVector(t, c);
      var v, written := Decode(ByParts, t, c).value, WrittenBack(t, edited, c);
      if edited.VVec? && |edited.elems| == |c.data| && edited.capacity == c.capacity {
        var merged := Merged(t, edited, c);
        forall i | 0 <= i < |c.data| ensures Clone(written.elems[i]) == Clone(merged.elems[i]) {
          WrittenIsMerged(t.elem, edited.elems[i], c.data[i]);
        }
        SameClones(written, merged);
      } else {
        forall i | 0 <= i < |c.data| ensures Clone(written.elems[i]) == Clone(v.elems[i]) {
          OwnIsClone(t.elem, c.data[i]);
          WrittenOwnIsClone(t.elem, Own(t.elem, c.data[i]), c.data[i]);
        }
        SameClones(written, v);
      }
    }
  }

  /** With plain elements what is written is the merged value itself. */
  lemma {:induction false} NestedIsMerged(t: Ty, edited: Value, c: Carrier)
    requires Nested(t) && Shaped(t, c) && Build(t, c).Some?
    ensures WrittenBack(t, edited, c) == Merged(t, edited, c)
    decreases t
  {
    if t.Vec? {
      BuiltVector(t, c);
      var written, merged := WrittenBack(t, edited, c), Merged(t, edited, c);
      var kept := edited.VVec? && |edited.elems| == |c.data| && edited.capacity == c.capacity;
      forall i | 0 <= i < |c.data| ensures written.elems[i] == merged.elems[i] {
        MergedOwn(t.elem, c.data[i]);
        NestedIsMerged(t.elem, if kept then edited.elems[i] else Own(t.elem, c.data[i]), c.data[i]);
      }
      assert written.elems == merged.elems;
    }
  }

  /** After any edit of the borrowed value, synchronising leaves foreign memory that
      decodes to what was written, and succeeds exactly if every edited length and
      capacity matches. */
  lemma {:induction false} SyncWrites(t: Ty, c: Carrier, edited: Value)
    requires Shaped(t, c) && Build(t, c).Some? && HasType(t, edited)
    ensures var (after, ok) := Sync(t, Build(t, c).value.(value := edited), c);
            && Shaped(t, after) && Decode(ByParts, t, after) == Some(WrittenBack(t, edited, c))
            && (ok <==> Matches(t, edited, c))
    decreases t, 1
  {
    if !t.Vec? {
      PartsRoundTrip(t, edited);
    } else {
      SyncWritesVector(t, c, edited);
    }
  }

  lemma SyncWritesVector(t: Ty, c: Carrier, edited: Value)
    requires t.Vec? && Shaped(t, c) && Build(t, c).Some? && HasType(t, edited)
    ensures var (after, ok) := Sync(t, Build(t, c).value.(value := edited), c);
            && Shaped(t, after) && Decode(ByParts, t, after) == Some(WrittenBack(t, edited, c))
            && (ok <==> Matches(t, edited, c))
    decreases t, 0
  {
    BuiltVector(t, c);
    var s := Build(t, c).value.(value := edited);
    var n, fields, after, written := |c.data|, Written(s), Sync(t, s, c).0, WrittenBack(t, edited, c);
    var same := SameShape(s);
    forall i | 0 <= i < n
      ensures var (a, k) := Sync(t.elem, fields[i], c.data[i]);
              && Shaped(t.elem, a) && Decode(ByParts, t.elem, a) == Some(written.elems[i])
              && (same ==> (k <==> Matches(t.elem, edited.elems[i], c.data[i])))
    {
      BuildSucceeds(t.elem, c.data[i]);
      SyncWrites(t.elem, c.data[i], if same then edited.elems[i] else s.fields[i].value);
    }
    EncodedParts(t.elem, after.data, written.elems, c.capacity);
  }

  /** After any edit foreign memory decodes to the merged value, capacities aside, and
      exactly for vectors of plain elements; synchronising succeeds exactly if every
      edited length and capacity matches, and then it decodes to exactly the edit. */
  lemma SyncMerges(t: Ty, c: Carrier, edited: Value)
    requires Shaped(t, c) && Build(t, c).Some? && HasType(t, edited)
    ensures var (after, ok) := Sync(t, Build(t, c).value.(value := edited), c);
            && Shaped(t, after) && Decode(ByParts, t, after).Some?
            && Same(Merged(t, edited, c), Decode(ByParts, t, after).value)
            && (Nested(t) ==> Decode(ByParts, t, after).value == Merged(t, edited, c))
            && (ok <==> Matches(t, edited, c))
            && (ok ==> Decode(ByParts, t, after).value == edited)
  {
    SyncWrites(t, c, edited);
    WrittenIsMerged(t, edited, c);
    SameIffClones(Merged(t, edited, c), WrittenBack(t, edited, c));
    if Nested(t) { NestedIsMerged(t, edited, c); }
    if Matches(t, edited, c) { MatchingIsWritten(t, edited, c); }
  }

  lemma {:induction false} MatchingIsWritten(t: Ty, edited: Value, c: Carrier)
    requires Matches(t, edited, c)
    ensures WrittenBack(t, edited, c) == edited
    decreases t
  {
    if t.Vec? {
      forall i | 0 <= i < |c.data| ensures WrittenBack(t.elem, edited.elems[i], c.data[i]) == edited.elems[i] {
        MatchingIsWritten(t.elem, edited.elems[i], c.data[i]);
      }
      assert WrittenBack(t, edited, c).elems == edited.elems;
    }
  }

  /** A mutably borrowed foreign vector: synchronisation succeeds exactly if the edit
      kept every length and capacity, and then foreign memory decodes to the edited
      vector; if the outer length or capacity changed it decodes as before, capacities
      aside and, for plain elements, exactly. */
  lemma EditedVector(t: Ty, c: Carrier, edited: Value)
    requires t.Vec? && Shaped(t, c) && Build(t, c).Some? && HasType(t, edited)
    ensures var (after, ok) := Sync(t, Build(t, c).value.(value := edited), c);
            var was, now := Decode(Checked, t, c), Decode(Checked, t, after);
            && (ok <==> Matches(t, edited, c))
            && (ok ==> now == Some(edited))
            && was.Some? && now.Some?
            && (|edited.elems| != c.len || edited.capacity != c.capacity ==>
              Same(was.value, now.value) && (Nested(t) ==> now == was))
  {
    BuiltVector(t, c);
    SyncMerges(t, c, edited);
    FastPathRefinesParts(t, c);
    FastPathRefinesParts(t, Sync(t, Build(t, c).value.(value := edited), c).0);
  }

  // ---------- vectors that were not edited ----------

  /** No vector in this memory has spare capacity. */
  predicate Tight(t: Ty, c: Carrier)
    decreases t
  {
    t.Vec? && c.CVec? ==> c.capacity == |c.data| && forall i :: 0 <= i < |c.data| ==> Tight(t.elem, c.data[i])
  }

  lemma {:induction false} CloneMatchesIffTight(t: Ty, c: Carrier)
    requires Shaped(t, c) && Build(t, c).Some?
    ensures Matches(t, Clone(Build(t, c).value.value), c) <==> Tight(t, c)
    decreases t
  {
    if t.Vec? {
      BuiltVector(t, c);
      var s := Build(t, c).value;
      forall i | 0 <= i < |c.data|
        ensures Matches(t.elem, Clone(Clone(s.fields[i].value)), c.data[i]) <==> Tight(t.elem, c.data[i])
      {
        CloneTwice(s.fields[i].value);
        CloneMatchesIffTight(t.elem, c.data[i]);
      }
    }
  }

  /** Cloning the elements loses their spare capacity, so a vector that nobody
      edited synchronises exactly if no vector inside it has any. */
  lemma UneditedSyncsIffTight(t: Ty, c: Carrier)
    requires t.Vec? && Shaped(t, c) && Build(t, c).Some?
    ensures Sync(t, Build(t, c).value, c).1 <==> forall i :: 0 <= i < |c.data| ==> Tight(t.elem, c.data[i])
    ensures var was, now := Decode(Checked, t, c), Decode(Checked, t, Sync(t, Build(t, c).value, c).0);
            was.Some? && now.Some? && Same(was.value, now.value) && (Nested(t) ==> now == was)
  {
    var s := Build(t, c).value;
    BuiltVector(t, c);
    BuildSucceeds(t, c);
    SyncWrites(t, c, s.value);
    OwnIsClone(t, c);
    WrittenOwnIsClone(t, s.value, c);
    SameIffClones(Decode(ByParts, t, c).value, WrittenBack(t, s.value, c));
    if Nested(t) {
      MergedOwn(t, c);
      NestedIsMerged(t, s.value, c);
    }
    assert s.(value := s.value) == s;
    forall i | 0 <= i < |c.data|
      ensures Matches(t.elem, s.value.elems[i], c.data[i]) <==> Tight(t.elem, c.data[i])
    {
      CloneMatchesIffTight(t.elem, c.data[i]);
    }
    FastPathRefinesParts(t, c);
    FastPathRefinesParts(t, Sync(t, s, c).0);
  }

  /** The smallest vector that fails to synchronise although nobody touched it. */
  lemma SpareCapacityInsideFails()
    ensures var t, c := Vec(Vec(Prim(MAX_BYTE))), CVec(false, [CVec(false, [], 0, 1)], 1, 1);
            Shaped(t, c) && Build(t, c).Some? && !Sync(t, Build(t, c).value, c).1
  {
    var t, c := Vec(Vec(Prim(MAX_BYTE))), CVec(false, [CVec(false, [], 0, 1)], 1, 1);
    assert Nested(t.elem.elem) && Nested(t.elem) && Nested(t);
    assert Shaped(t.elem, c.data[0]) && Shaped(t, c);
    BuildSucceeds(t, c);
    assert Decode(ByParts, t.elem, c.data[0]) == Some(VVec([], 1)) by { EncodedParts(t.elem.elem, [], [], 1); }
    EncodedParts(t.elem, c.data, [VVec([], 1)], 1);
    UneditedSyncsIffTight(t, c);
    assert !Tight(t.elem, c.data[0]);
  }
}
