/** Type descriptors of the convertible Rust types, the Rust values of each
    type and the C carriers of each type. Trait resolution is replaced by
    functions of the descriptor. */
module Types {
  import opened Wrappers

  /** `Prim` and `NonZero` carry the largest word of the integer type.
      `Tuple(true, ..)` is a `TupleN` with C layout, `Tuple(false, ..)` a Rust tuple;
      likewise `Opt(true, ..)` and `Res(true, ..)` are the native `Option` and `Result`,
      `Opt(false, ..)` and `Res(false, ..)` the explicitly tagged ones. */
  datatype Ty =
    | Unit
    | Bool
    | Char
    | Prim(max: nat)
    | NonZero(max: nat)
    | Tuple(fixed: bool, fields: seq<Ty>)
    | Array(elem: Ty, len: nat)
    | Vec(elem: Ty)
    | Opt(native: bool, some: Ty)
    | Res(native: bool, ok: Ty, err: Ty)

  datatype Value =
    | VUnit
    | VBool(b: bool)
    | VNum(n: nat)
    | VSeq(items: seq<Value>)
    | VVec(elems: seq<Value>, capacity: nat)
    | VNone
    | VSome(inner: Value)
    | VOk(inner: Value)
    | VErr(inner: Value)

  /** `CWord` is one integer carrier, `CSeq` a C array or a C tuple, `CTagged`
      the carrier of a tagged option or result. `data` is the memory behind a
      vector's pointer when that is not null. */
  datatype Carrier =
    | CUnit
    | CWord(w: nat)
    | CSeq(items: seq<Carrier>)
    | CVec(isNull: bool, data: seq<Carrier>, len: nat, capacity: nat)
    | CTagged(tag: nat, payload: Carrier)

  /** How a `Result` is carried: with a tag, or in the carrier of one side whose
      niche stands for the other, zero-sized side. */
  datatype ResultForm = WithTag | InOk | InErr

  const MAX_BYTE := 255
  const MAX_CODE := 0xFFFF_FFFF

  predicate IsScalar(n: nat) {
    n < 0xD800 || 0xE000 <= n < 0x11_0000
  }

  predicate IsZst(t: Ty) {
    match t
    case Unit => true
    case Tuple(_, fields) => forall i :: 0 <= i < |fields| ==> IsZst(fields[i])
    case Array(elem, len) => len == 0 || IsZst(elem)
    case _ => false
  }

  /** Whether the type reserves a carrier that encodes no value of it. */
  predicate HasNiche(t: Ty) {
    match t
    case Bool => true
    case Char => true
    case NonZero(_) => true
    case Vec(_) => true
    case Tuple(_, fields) => exists i :: 0 <= i < |fields| && HasNiche(fields[i])
    case Array(elem, len) => len != 0 && HasNiche(elem)
    case Opt(native, some) => !native || !HasNiche(some) || some == Bool || some == Opt(true, Bool)
    case Res(native, ok, err) => !native || IsZst(ok) == IsZst(err)
    case _ => false
  }

  /** A native option whose `None` lies in the niche of its payload. */
  predicate InNiche(native: bool, some: Ty) {
    native && HasNiche(some)
  }

  function Form(native: bool, ok: Ty, err: Ty): ResultForm {
    if native && IsZst(err) && !IsZst(ok) && HasNiche(ok) then InOk
    else if native && IsZst(ok) && !IsZst(err) && HasNiche(err) then InErr
    else WithTag
  }

  /** The Rust values of a type. */
  predicate HasType(t: Ty, v: Value) {
    match t
    case Unit => v == VUnit
    case Bool => v.VBool?
    case Char => v.VNum? && IsScalar(v.n)
    case Prim(max) => v.VNum? && v.n <= max
    case NonZero(max) => v.VNum? && 0 < v.n <= max
    case Tuple(_, fields) =>
      v.VSeq? && |v.items| == |fields| && forall i :: 0 <= i < |fields| ==> HasType(fields[i], v.items[i])
    case Array(elem, len) =>
      v.VSeq? && |v.items| == len && forall i :: 0 <= i < len ==> HasType(elem, v.items[i])
    case Vec(elem) =>
      v.VVec? && |v.elems| <= v.capacity && forall i :: 0 <= i < |v.elems| ==> HasType(elem, v.elems[i])
    case Opt(_, some) => v == VNone || (v.VSome? && HasType(some, v.inner))
    case Res(_, ok, err) => (v.VOk? && HasType(ok, v.inner)) || (v.VErr? && HasType(err, v.inner))
  }

  predicate Tagged(c: Carrier) {
    c.CTagged? && c.tag <= MAX_BYTE
  }

  /** Every bit pattern that foreign code can store in the carrier of a type.
      A payload behind a tag that does not select it may be anything. A vector
      header may be anything, but a usable one points at `len` initialised elements. */
  predicate Shaped(t: Ty, c: Carrier)
    decreases c, t
  {
    match t
    case Unit => c == CUnit
    case Bool => c.CWord? && c.w <= MAX_BYTE
    case Char => c.CWord? && c.w <= MAX_CODE
    case Prim(max) => c.CWord? && c.w <= max
    case NonZero(max) => c.CWord? && c.w <= max
    case Tuple(_, fields) =>
      c.CSeq? && |c.items| == |fields| && forall i :: 0 <= i < |fields| ==> Shaped(fields[i], c.items[i])
    case Array(elem, len) =>
      c.CSeq? && |c.items| == len && forall i :: 0 <= i < len ==> Shaped(elem, c.items[i])
    case Vec(elem) =>
      c.CVec? && (!c.isNull && c.len <= c.capacity ==>
        |c.data| == c.len && forall i :: 0 <= i < c.len ==> Shaped(elem, c.data[i]))
    case Opt(native, some) =>
      if InNiche(native, some) then Shaped(some, c)
      else Tagged(c) && (c.tag == 1 ==> Shaped(some, c.payload))
    case Res(native, ok, err) =>
      var form := Form(native, ok, err);
      if form.InOk? then Shaped(ok, c)
      else if form.InErr? then Shaped(err, c)
      else Tagged(c) && (c.tag == 0 ==> Shaped(ok, c.payload)) && (c.tag == 1 ==> Shaped(err, c.payload))
  }

  /** The carrier whose bytes are all zero. */
  function Zero(t: Ty): Carrier {
    match t
    case Unit => CUnit
    case Tuple(_, fields) => CSeq(seq(|fields|, i requires 0 <= i < |fields| => Zero(fields[i])))
    case Array(elem, len) => CSeq(seq(len, i requires 0 <= i < len => Zero(elem)))
    case Vec(_) => CVec(true, [], 0, 0)
    case Opt(native, some) => if InNiche(native, some) then Zero(some) else CTagged(0, Zero(some))
    case Res(native, ok, err) =>
      var form := Form(native, ok, err);
      if form.InOk? then Zero(ok) else if form.InErr? then Zero(err) else CTagged(0, Zero(ok))
    case _ => CWord(0)
  }

  /** Zeroed memory is a possible carrier of every type. */
  lemma {:induction false} ZeroShaped(t: Ty)
    ensures Shaped(t, Zero(t))
  {
    match t
    case Tuple(_, fields) =>
      forall i | 0 <= i < |fields| ensures Shaped(fields[i], Zero(fields[i])) { ZeroShaped(fields[i]); }
    case Array(elem, _) => ZeroShaped(elem);
    case Opt(_, some) => ZeroShaped(some);
    case Res(_, ok, err) => ZeroShaped(ok); ZeroShaped(err);
    case _ =>
  }

  /** The one value of a zero-sized type. */
  function DefaultOf(t: Ty): Value {
    match t
    case Tuple(_, fields) => VSeq(seq(|fields|, i requires 0 <= i < |fields| => DefaultOf(fields[i])))
    case Array(elem, len) => VSeq(seq(len, i requires 0 <= i < len => DefaultOf(elem)))
    case _ => VUnit
  }

  lemma {:induction false} ZstHasOneValue(t: Ty, v: Value)
    requires IsZst(t)
    ensures HasType(t, v) <==> v == DefaultOf(t)
  {
    match t
    case Tuple(_, fields) =>
      if v.VSeq? && |v.items| == |fields| {
        forall i | 0 <= i < |fields| ensures HasType(fields[i], v.items[i]) <==> v.items[i] == DefaultOf(fields[i]) {
          ZstHasOneValue(fields[i], v.items[i]);
        }
        assert HasType(t, v) <==> v.items == DefaultOf(t).items;
      }
    case Array(elem, len) =>
      if v.VSeq? && |v.items| == len {
        forall i | 0 <= i < len ensures HasType(elem, v.items[i]) <==> v.items[i] == DefaultOf(elem) {
          ZstHasOneValue(elem, v.items[i]);
        }
        assert HasType(t, v) <==> v.items == DefaultOf(t).items;
      }
    case _ =>
  }
}
