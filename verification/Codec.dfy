/** Conversion of values to carriers and back: owned encoding, checked and
    unchecked decoding, and validation before transmutation. */
module Codec {
  import opened Wrappers
  import opened Types
  import opened Niches
  import opened Memory

  function Encode(t: Ty, v: Value): Carrier
    requires HasType(t, v)
  {
    match t
    case Unit => CUnit
    case Bool => CWord(if v.b then 1 else 0)
    case Tuple(_, fields) =>
      CSeq(seq(|fields|, i requires 0 <= i < |fields| => Encode(fields[i], v.items[i])))
    case Array(elem, len) =>
      CSeq(seq(len, i requires 0 <= i < len => Encode(elem, v.items[i])))
    case Vec(elem) =>
      CVec(false, seq(|v.elems|, i requires 0 <= i < |v.elems| => Encode(elem, v.elems[i])), |v.elems|, v.capacity)
    case Opt(native, some) =>
      if InNiche(native, some) then (if v.VSome? then Encode(some, v.inner) else NicheOf(some))
      else if v.VSome? then CTagged(1, Encode(some, v.inner)) else CTagged(0, Zero(some))
    case Res(native, ok, err) =>
      var form := Form(native, ok, err);
      if form.InOk? then (if v.VOk? then Encode(ok, v.inner) else NicheOf(ok))
      else if form.InErr? then (if v.VErr? then Encode(err, v.inner) else NicheOf(err))
      else if v.VOk? then CTagged(0, Encode(ok, v.inner)) else CTagged(1, Encode(err, v.inner))
    case _ => CWord(v.n)
  }

  // ---------- the carriers of values ----------

  /** Scalars are carried as words. */
  lemma ScalarCarriers(n: nat)
    ensures Encode(Bool, VBool(false)) == CWord(0) && Encode(Bool, VBool(true)) == CWord(1)
    ensures IsScalar(n) ==> Encode(Char, VNum(n)) == CWord(n)
    ensures Encode(Prim(n), VNum(n)) == CWord(n)
    ensures n > 0 ==> Encode(NonZero(n), VNum(n)) == CWord(n)
    ensures Zero(Bool) == Zero(Char) == Zero(Prim(n)) == Zero(NonZero(n)) == CWord(0)
  {
  }

  /** The tag is 0 for `None` and `Ok` and 1 for `Some` and `Err`. */
  lemma TaggedCarriers(some: Ty, v: Value, err: Ty, e: Value)
    requires HasType(some, v) && HasType(err, e)
    ensures Encode(Opt(false, some), VSome(v)) == CTagged(1, Encode(some, v))
    ensures Encode(Opt(false, some), VNone) == CTagged(0, Zero(some))
    ensures Encode(Res(false, some, err), VOk(v)) == CTagged(0, Encode(some, v))
    ensures Encode(Res(false, some, err), VErr(e)) == CTagged(1, Encode(err, e))
  {
    hide HasNiche, Zero;
  }

  /** Elements and fields keep their places, and a vector its length and capacity. */
  lemma ElementCarriers(t: Ty, v: Value, i: nat)
    requires HasType(t, v)
    ensures t.Vec? ==>
      var c := Encode(t, v);
      && c.CVec? && !c.isNull && c.len == |c.data| == |v.elems| && c.capacity == v.capacity
      && (i < c.len ==> c.data[i] == Encode(t.elem, v.elems[i]))
    ensures t.Tuple? && i < |t.fields| ==> Encode(t, v).items[i] == Encode(t.fields[i], v.items[i])
    ensures t.Array? && i < t.len ==> Encode(t, v).items[i] == Encode(t.elem, v.items[i])
  {
  }

  /** The types that a native option lays its `None` into, and the carrier of that `None`. */
  function NoneOf(some: Ty): Option<Carrier> {
    match some
    case Bool => Some(CWord(2))
    case Char => Some(CWord(0x11_0000))
    case NonZero(_) => Some(CWord(0))
    case Vec(_) => Some(CVec(true, [], 0, 0))
    case Opt(native, inner) =>
      if !native then Some(CTagged(2, Zero(inner)))
      else if inner == Bool then Some(CWord(3))
      else if inner == Opt(true, Bool) then Some(CWord(4))
      else None
    case Res(native, ok, err) =>
      if !native || (ok.Prim? && err.Prim?) || (ok.Unit? && err.Unit?) then Some(CTagged(2, Zero(ok))) else None
    case _ => None
  }

  /** A native option of such a type is carried like its payload; one of an integer or of
      a unit has a tag. */
  lemma NativeOptions(some: Ty, v: Value)
    requires HasType(some, v)
    ensures NoneOf(some).Some? ==>
      Encode(Opt(true, some), VSome(v)) == Encode(some, v) && Encode(Opt(true, some), VNone) == NoneOf(some).value
    ensures some.Prim? || some.Unit? ==>
      Encode(Opt(true, some), VSome(v)) == CTagged(1, Encode(some, v)) && Encode(Opt(true, some), VNone).CTagged?
  {
  }

  /** A native result with a zero-sized side is carried like its other side, if that type
      is one into which a native option lays its `None`; that carrier stands for the side
      without contents. Otherwise it has a tag. */
  lemma NativeResults(t: Ty, v: Value, z: Ty, e: Value)
    requires HasType(t, v) && HasType(z, e) && !IsZst(t)
    requires z.Unit? || (z.Tuple? && z.fields == []) || (z.Array? && z.len == 0)
    ensures NoneOf(t).Some? ==>
      && Encode(Res(true, t, z), VOk(v)) == Encode(t, v) && Encode(Res(true, t, z), VErr(e)) == NoneOf(t).value
      && Encode(Res(true, z, t), VErr(v)) == Encode(t, v) && Encode(Res(true, z, t), VOk(e)) == NoneOf(t).value
    ensures t.Prim? ==>
      Encode(Res(true, t, z), VOk(v)) == CTagged(0, Encode(t, v)) &&
      Encode(Res(true, z, t), VErr(v)) == CTagged(1, Encode(t, v))
  {
    OwnCarrier(t);
    assert IsZst(z);
  }

  /** Such a type reserves that carrier. */
  lemma OwnCarrier(t: Ty)
    ensures NoneOf(t).Some? ==> HasNiche(t) && NicheOf(t) == NoneOf(t).value && !IsZst(t)
    ensures t.Prim? || t.Unit? ==> !HasNiche(t)
  {
  }

  /** An array of such elements reserves the array of their carriers, unless it is empty. */
  lemma NativeOptionsOfArrays(elem: Ty, len: nat)
    requires NoneOf(elem).Some?
    ensures len > 0 ==>
      Encode(Opt(true, Array(elem, len)), VNone) == CSeq(seq(len, i => NoneOf(elem).value))
    ensures len == 0 ==> Encode(Opt(true, Array(elem, len)), VNone).CTagged?
  {
    OwnCarrier(elem);
    hide NoneOf, HasNiche, NicheOf;
    if len > 0 {
      ArrayNiche(elem, len);
    } else {
      EmptyArray(elem);
    }
  }

  lemma ArrayNiche(elem: Ty, len: nat)
    requires HasNiche(elem) && len > 0
    ensures HasNiche(Array(elem, len)) && NicheOf(Array(elem, len)) == CSeq(seq(len, i => NicheOf(elem)))
  {
    assert seq(len, i => NicheOf(elem)) == seq(len, i requires 0 <= i < len => NicheOf(elem));
  }

  lemma EmptyArray(elem: Ty)
    ensures !HasNiche(Array(elem, 0))
  {
  }

  /** Where a tuple with a niche lays the `None` of a native option. */
  lemma NativeOptionsOfTuples(fixed: bool, fields: seq<Ty>)
    requires AnyNiche(fields)
    ensures Encode(Opt(true, Tuple(fixed, fields)), VNone) == CSeq(DocumentedNiche(fields))
  {
    HalvingIsFirstField(Tuple(fixed, fields), fields);
    assert HasNiche(fields[FirstNiche(fields)]);
  }

  function MapSome(v: Option<Value>): Option<Value> { if v.Some? then Some(VSome(v.value)) else None }
  function MapOk(v: Option<Value>): Option<Value> { if v.Some? then Some(VOk(v.value)) else None }
  function MapErr(v: Option<Value>): Option<Value> { if v.Some? then Some(VErr(v.value)) else None }

  function AllOf(vs: seq<Option<Value>>): Option<seq<Value>> {
    if forall i :: 0 <= i < |vs| ==> vs[i].Some?
    then Some(seq(|vs|, i requires 0 <= i < |vs| => vs[i].value))
    else None
  }

  function MapSeq(vs: Option<seq<Value>>): Option<Value> { if vs.Some? then Some(VSeq(vs.value)) else None }
  function MapVec(vs: Option<seq<Value>>, capacity: nat): Option<Value> {
    if vs.Some? then Some(VVec(vs.value, capacity)) else None
  }

  /** Types without trap values: arrays of them are decoded without a check. */
  predicate Robust(t: Ty) {
    match t
    case Unit => true
    case Prim(_) => true
    case Tuple(_, fields) => forall i :: 0 <= i < |fields| ==> Robust(fields[i])
    case Array(elem, _) => Robust(elem)
    case Opt(native, some) => native && some.NonZero?
    case Res(native, ok, err) =>
      var form := Form(native, ok, err);
      (form.InOk? && ok.NonZero?) || (form.InErr? && err.NonZero?)
    case _ => false
  }

  /** The check that precedes transmutation of a stable type. */
  predicate IsValid(t: Ty, c: Carrier)
    decreases c, t
  {
    match t
    case Bool => c.CWord? && (c.w == 0 || c.w == 1)
    case Char => c.CWord? && IsScalar(c.w)
    case NonZero(_) => c.CWord? && c.w != 0
    case Tuple(_, fields) =>
      c.CSeq? && |c.items| == |fields| && forall i :: 0 <= i < |fields| ==> IsValid(fields[i], c.items[i])
    case Array(elem, _) => c.CSeq? && forall i :: 0 <= i < |c.items| ==> IsValid(elem, c.items[i])
    case Vec(elem) =>
      c.CVec? && !c.isNull && c.len <= c.capacity && forall i :: 0 <= i < |c.data| ==> IsValid(elem, c.data[i])
    case Opt(native, some) =>
      if native then IsNiche(some, c) || IsValid(some, c)
      else c.CTagged? && (c.tag == 0 || (c.tag == 1 && IsValid(some, c.payload)))
    case Res(native, ok, err) =>
      var form := Form(native, ok, err);
      if form.InOk? then IsNiche(ok, c) || IsValid(ok, c)
      else if form.InErr? then IsNiche(err, c) || IsValid(err, c)
      else c.CTagged? && ((c.tag == 0 && IsValid(ok, c.payload)) || (c.tag == 1 && IsValid(err, c.payload)))
    case _ => true
  }

  /** `Checked` decoding selects paths as the program does: robust stable array
      elements are transmuted without a check, stable vectors are validated and
      transmuted, everything else is decoded part by part. `ByParts` never takes
      those short cuts. `Unchecked` trusts the caller; a tag or a header that it
      cannot trust has no defined result (`None`). */
  datatype Mode = Checked | ByParts | Unchecked

  function Decode(mode: Mode, t: Ty, c: Carrier): Option<Value>
    decreases c, t
  {
    match t
    case Unit => Some(VUnit)
    case Bool => if c.CWord? && (mode.Unchecked? || c.w <= 1) then Some(VBool(c.w == 1)) else None
    case Char => if c.CWord? && (mode.Unchecked? || IsScalar(c.w)) then Some(VNum(c.w)) else None
    case Prim(_) => if c.CWord? then Some(VNum(c.w)) else None
    case NonZero(_) => if c.CWord? && (mode.Unchecked? || c.w != 0) then Some(VNum(c.w)) else None
    case Tuple(_, fields) =>
      if c.CSeq? && |c.items| == |fields|
      then MapSeq(AllOf(seq(|fields|, i requires 0 <= i < |fields| => Decode(mode, fields[i], c.items[i]))))
      else None
    case Array(elem, _) =>
      if !mode.ByParts? && Stable(elem) && Robust(elem) then Some(Transmute(t, c))
      else if c.CSeq?
      then MapSeq(AllOf(seq(|c.items|, i requires 0 <= i < |c.items| => Decode(mode, elem, c.items[i]))))
      else None
    case Vec(elem) =>
      if !mode.ByParts? && Stable(elem) then
        (if mode.Unchecked? || IsValid(t, c) then Some(Transmute(t, c)) else None)
      else if !c.CVec? || c.isNull || c.capacity < c.len then None
      else MapVec(AllOf(seq(|c.data|, i requires 0 <= i < |c.data| => Decode(mode, elem, c.data[i]))), c.capacity)
    case Opt(native, some) =>
      if InNiche(native, some) then (if IsNiche(some, c) then Some(VNone) else MapSome(Decode(mode, some, c)))
      else if !c.CTagged? then None
      else if c.tag == 0 then Some(VNone)
      else if c.tag == 1 then MapSome(Decode(mode, some, c.payload))
      else None
    case Res(native, ok, err) =>
      var form := Form(native, ok, err);
      if form.InOk? then (if IsNiche(ok, c) then Some(VErr(DefaultOf(err))) else MapOk(Decode(mode, ok, c)))
      else if form.InErr? then (if IsNiche(err, c) then Some(VOk(DefaultOf(ok))) else MapErr(Decode(mode, err, c)))
      else if !c.CTagged? then None
      else if c.tag == 0 then MapOk(Decode(mode, ok, c.payload))
      else if c.tag == 1 then MapErr(Decode(mode, err, c.payload))
      else None
  }

  // ---------- which carriers decode ----------

  /** Foreign code may store any bits; these words decode, to these values, and no others. */
  lemma WordsThatDecode(w: nat)
    ensures w <= 255 ==> Shaped(Bool, CWord(w))
    ensures Decode(Checked, Bool, CWord(w)) ==
      if w == 0 then Some(VBool(false)) else if w == 1 then Some(VBool(true)) else None
    ensures w <= 0xFFFF_FFFF ==> Shaped(Char, CWord(w))
    ensures Decode(Checked, Char, CWord(w)) ==
      if w < 0xD800 || 0xE000 <= w <= 0x10_FFFF then Some(VNum(w)) else None
    ensures Shaped(Prim(w), CWord(w)) && Decode(Checked, Prim(w), CWord(w)) == Some(VNum(w))
    ensures Shaped(NonZero(w), CWord(w))
    ensures Decode(Checked, NonZero(w), CWord(w)) == if w == 0 then None else Some(VNum(w))
  {
  }

  /** Any tag may be stored; 0 and 1 select a side, whose payload must decode. */
  lemma TagsThatDecode(tag: nat, payload: Carrier, ok: Ty, err: Ty)
    requires tag <= 255
    ensures Shaped(Opt(false, ok), CTagged(tag, payload)) <==> (tag == 1 ==> Shaped(ok, payload))
    ensures Decode(Checked, Opt(false, ok), CTagged(tag, payload)) ==
      if tag == 0 then Some(VNone) else if tag == 1 then MapSome(Decode(Checked, ok, payload)) else None
    ensures Decode(Checked, Res(false, ok, err), CTagged(tag, payload)) ==
      if tag == 0 then MapOk(Decode(Checked, ok, payload))
      else if tag == 1 then MapErr(Decode(Checked, err, payload))
      else None
  {
    hide HasNiche, IsNiche;
  }

  /** A vector decodes exactly if its pointer is not null, its length fits its capacity
      and every element decodes. */
  lemma VectorsThatDecode(elem: Ty, c: Carrier)
    requires Shaped(Vec(elem), c)
    ensures Decode(Checked, Vec(elem), c).Some? <==>
      !c.isNull && c.len <= c.capacity && forall i :: 0 <= i < |c.data| ==> Decode(Checked, elem, c.data[i]).Some?
    ensures Decode(Checked, Vec(elem), c).Some? ==>
      var v := Decode(Checked, Vec(elem), c).value;
      && v.VVec? && |v.elems| == |c.data| == c.len && v.capacity == c.capacity
      && forall i :: 0 <= i < |c.data| ==> Decode(Checked, elem, c.data[i]) == Some(v.elems[i])
  {
    FastPathRefinesParts(Vec(elem), c);
    if !c.isNull && c.len <= c.capacity {
      var decoded := seq(|c.data|, i requires 0 <= i < |c.data| => Decode(ByParts, elem, c.data[i]));
      forall i | 0 <= i < |c.data| ensures decoded[i] == Decode(Checked, elem, c.data[i]) {
        FastPathRefinesParts(elem, c.data[i]);
      }
      assert AllOf(decoded).Some? <==> forall i :: 0 <= i < |decoded| ==> decoded[i].Some?;
    }
  }

  /** Which words, tags and headers a native option takes for its `None`. */
  lemma AbsentCarriers(w: nat, tag: nat, c: Carrier, some: Ty)
    requires c.CVec?
    ensures Decode(Checked, Opt(true, Bool), CWord(w)) == Some(VNone) <==> w == 2
    ensures Decode(Checked, Opt(true, Opt(true, Bool)), CWord(w)) == Some(VNone) <==> w == 3
    ensures Decode(Checked, Opt(true, Char), CWord(w)) == Some(VNone) <==> w == 0x11_0000
    ensures Decode(Checked, Opt(true, NonZero(tag)), CWord(w)) == Some(VNone) <==> w == 0
    ensures Decode(Checked, Opt(true, Vec(some)), c) == Some(VNone) <==> c.isNull
  {
    AbsentIffNiche(Bool, CWord(w));
    AbsentIffNiche(Opt(true, Bool), CWord(w));
    AbsentIffNiche(Char, CWord(w));
    AbsentIffNiche(NonZero(tag), CWord(w));
    AbsentIffNiche(Vec(some), c);
    hide Decode;
  }

  /** The same for options and results that carry their own tag. */
  lemma AbsentTags(tag: nat, payload: Carrier, some: Ty, err: Ty)
    ensures Decode(Checked, Opt(true, Opt(false, some)), CTagged(tag, payload)) == Some(VNone) <==> tag == 2
    ensures Decode(Checked, Opt(true, Res(false, some, err)), CTagged(tag, payload)) == Some(VNone) <==> tag == 2
  {
    AbsentIffNiche(Opt(false, some), CTagged(tag, payload));
    AbsentIffNiche(Res(false, some, err), CTagged(tag, payload));
    hide Decode;
  }

  /** A native option of an array is absent exactly if each of its elements would be. */
  lemma AbsentArrays(elem: Ty, len: nat, items: seq<Carrier>)
    requires HasNiche(elem) && len == |items| > 0
    ensures Decode(Checked, Opt(true, Array(elem, len)), CSeq(items)) == Some(VNone) <==>
      forall i :: 0 <= i < len ==> Decode(Checked, Opt(true, elem), items[i]) == Some(VNone)
  {
    forall i | 0 <= i < len
      ensures Decode(Checked, Opt(true, elem), items[i]) == Some(VNone) <==> IsNiche(elem, items[i])
    {
      AbsentIffNiche(elem, items[i]);
    }
    AbsentIffNiche(Array(elem, len), CSeq(items));
    hide Decode, HasNiche;
  }

  lemma AbsentIffNiche(some: Ty, c: Carrier)
    requires HasNiche(some)
    ensures Decode(Checked, Opt(true, some), c) == Some(VNone) <==> IsNiche(some, c)
  {
    hide HasNiche, IsNiche;
  }

  // ---------- niches ----------

  /** A carrier that the niche test recognises never decodes to a value. */
  lemma {:induction false} NicheNeverDecodes(t: Ty, c: Carrier)
    requires HasNiche(t) && Shaped(t, c) && IsNiche(t, c)
    ensures Decode(ByParts, t, c) == None
    decreases c, t
  {
    match t
    case Tuple(_, fields) => NicheTupleNeverDecodes(t, c);
    case Array(elem, len) =>
      NicheNeverDecodes(elem, c.items[0]);
      var decoded := seq(len, i requires 0 <= i < len => Decode(ByParts, elem, c.items[i]));
      assert decoded[0].None?;
    case Opt(native, some) =>
      if InNiche(native, some) {
        assert Shaped(some, c);
        if some == Bool {
          assert Decode(ByParts, Bool, c).None?;
        } else {
          assert Shaped(Bool, c);
          assert Decode(ByParts, Bool, c).None?;
          assert Decode(ByParts, some, c).None?;
        }
      }
    case _ =>
  }

  lemma NicheTupleNeverDecodes(t: Ty, c: Carrier)
    requires t.Tuple? && HasNiche(t) && Shaped(t, c) && IsNiche(t, c)
    ensures Decode(ByParts, t, c) == None
    decreases c, t, 0
  {
    var k := FirstNiche(t.fields);
    HalvingTestsFirstField(t, t.fields, c.items);
    NicheNeverDecodes(t.fields[k], c.items[k]);
    var n := |t.fields|;
    var decoded := seq(n, i requires 0 <= i < n => Decode(ByParts, t.fields[i], c.items[i]));
    assert decoded[k].None?;
  }

  // ---------- validation, transmutation and decoding agree ----------

  lemma {:induction false} RobustIsValid(t: Ty, c: Carrier)
    requires Stable(t) && Robust(t) && Shaped(t, c)
    ensures IsValid(t, c)
    decreases c, t
  {
    match t
    case Tuple(_, fields) =>
      forall i | 0 <= i < |fields| ensures IsValid(fields[i], c.items[i]) { RobustIsValid(fields[i], c.items[i]); }
    case Array(elem, len) =>
      forall i | 0 <= i < len ensures IsValid(elem, c.items[i]) { RobustIsValid(elem, c.items[i]); }
    case _ =>
  }

  /** The type has no array without elements, at any depth. */
  predicate NoEmptyArrays(t: Ty) {
    match t
    case Tuple(_, fields) => forall i :: 0 <= i < |fields| ==> NoEmptyArrays(fields[i])
    case Array(elem, len) => len > 0 && NoEmptyArrays(elem)
    case Vec(elem) => NoEmptyArrays(elem)
    case Opt(_, some) => NoEmptyArrays(some)
    case Res(_, ok, err) => NoEmptyArrays(ok) && NoEmptyArrays(err)
    case _ => true
  }

  /** Every other stable type has trap values, so skipping the check would be wrong. */
  lemma {:induction false} OthersHaveTraps(t: Ty) returns (c: Carrier)
    requires Stable(t) && !Robust(t) && NoEmptyArrays(t)
    ensures Shaped(t, c) && !IsValid(t, c)
  {
    match t
    case Bool => c := CWord(2);
    case Char => c := CWord(0xD800);
    case NonZero(_) => c := CWord(0);
    case Tuple(_, fields) =>
      var i :| 0 <= i < |fields| && !Robust(fields[i]);
      var trap := OthersHaveTraps(fields[i]);
      ZeroShaped(t);
      c := CSeq(Zero(t).items[i := trap]);
    case Array(elem, len) =>
      var trap := OthersHaveTraps(elem);
      c := CSeq(seq(len, i => trap));
      assert c.items[0] == trap;
    case Vec(_) => c := CVec(true, [], 0, 0);
    case Opt(native, some) =>
      ZeroShaped(some);
      c := if native then CVec(false, [], 1, 0) else CTagged(2, Zero(some));
    case Res(native, ok, err) =>
      ZeroShaped(ok);
      c := if Form(native, ok, err).WithTag? then CTagged(2, Zero(ok)) else CVec(false, [], 1, 0);
  }

  lemma NicheInMemory(t: Ty, c: Carrier)
    requires StableNiche(t) && Stable(t) && Shaped(t, c)
    ensures HoldsNiche(t, Flatten(t, c)) <==> IsNiche(t, c)
  {
  }

  /** Validation accepts exactly what decoding part by part accepts, and on accepted
      carriers the memory read as the Rust type holds the decoded value. */
  lemma {:induction false} ValidateThenTransmute(t: Ty, c: Carrier)
    ensures Stable(t) && Shaped(t, c) ==>
      Decode(ByParts, t, c) == if IsValid(t, c) then Some(Transmute(t, c)) else None
    decreases c, t, 2
  {
    if Stable(t) && Shaped(t, c) {
      TransmuteStable(t, c);
    }
  }

  lemma TransmuteStable(t: Ty, c: Carrier)
    requires Stable(t) && Shaped(t, c)
    ensures Decode(ByParts, t, c) == if IsValid(t, c) then Some(Transmute(t, c)) else None
    decreases c, t, 1
  {
    match t
    case Tuple(_, fields) => TransmuteTuple(t, c);
    case Array(_, _) => TransmuteArray(t, c);
    case Vec(_) => TransmuteVec(t, c);
    case Opt(native, some) =>
      if native {
        ValidateThenTransmute(some, c);
        NicheInMemory(some, c);
      } else if c.tag == 1 {
        ValidateThenTransmute(some, c.payload);
      }
    case Res(_, _, _) => TransmuteResult(t, c);
    case _ =>
  }

  lemma TransmuteResult(t: Ty, c: Carrier)
    requires t.Res? && Stable(t) && Shaped(t, c)
    ensures Decode(ByParts, t, c) == if IsValid(t, c) then Some(Transmute(t, c)) else None
    decreases c, t, 0
  {
    var form := Form(t.native, t.ok, t.err);
    if form.InOk? {
      ValidateThenTransmute(t.ok, c);
      NicheInMemory(t.ok, c);
    } else if form.InErr? {
      ValidateThenTransmute(t.err, c);
      NicheInMemory(t.err, c);
    } else if c.tag == 0 {
      ValidateThenTransmute(t.ok, c.payload);
      FlattenSize(t.ok, c.payload);
      FilledSlice(0, Flatten(t.ok, c.payload), Max(Size(t.ok), Size(t.err)));
    } else if c.tag == 1 {
      ValidateThenTransmute(t.err, c.payload);
      FlattenSize(t.err, c.payload);
      FilledSlice(1, Flatten(t.err, c.payload), Max(Size(t.ok), Size(t.err)));
    }
  }

  lemma FilledSlice(tag: nat, cells: seq<Cell>, room: nat)
    requires |cells| <= room
    ensures Slice([Word(tag)] + Fill(cells, room), 1, |cells|) == cells
  {
  }

  lemma TransmuteTuple(t: Ty, c: Carrier)
    requires t.Tuple? && Stable(t) && Shaped(t, c)
    ensures Decode(ByParts, t, c) == if IsValid(t, c) then Some(Transmute(t, c)) else None
    decreases c, t, 0
  {
    var n := |t.fields|;
    var parts := seq(n, i requires 0 <= i < n => Flatten(t.fields[i], c.items[i]));
    var sizes := seq<nat>(n, i requires 0 <= i < n => Size(t.fields[i]));
    var decoded := seq(n, i requires 0 <= i < n => Decode(ByParts, t.fields[i], c.items[i]));
    forall i | 0 <= i < n ensures |parts[i]| == sizes[i] { FlattenSize(t.fields[i], c.items[i]); }
    forall i | 0 <= i < n
      ensures decoded[i].Some? == IsValid(t.fields[i], c.items[i])
      ensures decoded[i].Some? ==>
        decoded[i].value == Read(t.fields[i], Slice(Concat(parts), Sum(sizes[..i]), sizes[i]))
    {
      ConcatSlice(parts, sizes, i);
      ValidateThenTransmute(t.fields[i], c.items[i]);
    }
    if IsValid(t, c) {
      assert AllOf(decoded).value == Transmute(t, c).items;
    }
  }

  function DecodeRun(mode: Mode, elem: Ty, items: seq<Carrier>): seq<Option<Value>> {
    seq(|items|, i requires 0 <= i < |items| => Decode(mode, elem, items[i]))
  }

  predicate RunValid(elem: Ty, items: seq<Carrier>) {
    forall i :: 0 <= i < |items| ==> IsValid(elem, items[i])
  }

  /** A run of elements of one type: each is valid iff it decodes, and the run
      read from memory holds the decoded elements. */
  lemma TransmuteRun(elem: Ty, parent: Carrier, items: seq<Carrier>)
    requires Stable(elem) && RunShaped(elem, items)
    requires forall i :: 0 <= i < |items| ==> items[i] < parent
    ensures AllOf(DecodeRun(ByParts, elem, items)) ==
      if RunValid(elem, items) then Some(ReadRun(elem, |items|, Concat(FlattenRun(elem, items)))) else None
    decreases parent, elem, 1
  {
    var decoded, run := DecodeRun(ByParts, elem, items), ReadRun(elem, |items|, Concat(FlattenRun(elem, items)));
    RunSlices(elem, items);
    forall i | 0 <= i < |items| ensures decoded[i] == if IsValid(elem, items[i]) then Some(run[i]) else None {
      ValidateThenTransmute(elem, items[i]);
    }
    CollectRun(decoded, run);
  }

  lemma CollectRun(decoded: seq<Option<Value>>, run: seq<Value>)
    requires |decoded| == |run| && forall i :: 0 <= i < |run| ==> decoded[i].None? || decoded[i].value == run[i]
    ensures AllOf(decoded) == if forall i :: 0 <= i < |run| ==> decoded[i].Some? then Some(run) else None
  {
    if forall i :: 0 <= i < |run| ==> decoded[i].Some? {
      assert AllOf(decoded).value == run;
    }
  }

  lemma TransmuteArray(t: Ty, c: Carrier)
    requires t.Array? && Stable(t) && Shaped(t, c)
    ensures Decode(ByParts, t, c) == if IsValid(t, c) then Some(Transmute(t, c)) else None
    decreases c, t, 0
  {
    TransmuteRun(t.elem, c, c.items);
    assert DecodeRun(ByParts, t.elem, c.items) ==
      seq(|c.items|, i requires 0 <= i < |c.items| => Decode(ByParts, t.elem, c.items[i]));
    assert FlattenRun(t.elem, c.items) == seq(|c.items|, i requires 0 <= i < |c.items| => Flatten(t.elem, c.items[i]));
  }

  lemma TransmuteVec(t: Ty, c: Carrier)
    requires t.Vec? && Stable(t) && Shaped(t, c)
    ensures Decode(ByParts, t, c) == if IsValid(t, c) then Some(Transmute(t, c)) else None
    decreases c, t, 0
  {
    if !c.isNull && c.len <= c.capacity {
      TransmuteRun(t.elem, c, c.data);
      assert DecodeRun(ByParts, t.elem, c.data) ==
        seq(|c.data|, i requires 0 <= i < |c.data| => Decode(ByParts, t.elem, c.data[i]));
      assert FlattenRun(t.elem, c.data) == seq(|c.data|, i requires 0 <= i < |c.data| => Flatten(t.elem, c.data[i]));
    }
  }

  /** The short cuts change no result: checked decoding is decoding part by part. */
  lemma {:induction false} FastPathRefinesParts(t: Ty, c: Carrier)
    ensures Shaped(t, c) ==> Decode(Checked, t, c) == Decode(ByParts, t, c)
    decreases c, t
  {
    if Shaped(t, c) {
      match t
      case Tuple(_, fields) =>
        var n := |fields|;
        forall i | 0 <= i < n ensures Decode(Checked, fields[i], c.items[i]) == Decode(ByParts, fields[i], c.items[i]) {
          FastPathRefinesParts(fields[i], c.items[i]);
        }
        assert seq(n, i requires 0 <= i < n => Decode(Checked, fields[i], c.items[i])) ==
               seq(n, i requires 0 <= i < n => Decode(ByParts, fields[i], c.items[i]));
      case Array(elem, _) =>
        if Stable(elem) && Robust(elem) {
          RobustIsValid(t, c);
          ValidateThenTransmute(t, c);
        } else {
          FastRunRefinesParts(elem, c, c.items);
        }
      case Vec(elem) =>
        if Stable(elem) {
          ValidateThenTransmute(t, c);
        } else if !c.isNull && c.len <= c.capacity {
          FastRunRefinesParts(elem, c, c.data);
        }
      case Opt(native, some) =>
        if InNiche(native, some) { FastPathRefinesParts(some, c); } else { FastPathRefinesParts(some, c.payload); }
      case Res(native, ok, err) =>
        var form := Form(native, ok, err);
        if form.InOk? { FastPathRefinesParts(ok, c); }
        else if form.InErr? { FastPathRefinesParts(err, c); }
        else { FastPathRefinesParts(ok, c.payload); FastPathRefinesParts(err, c.payload); }
      case _ =>
    }
  }

  lemma FastRunRefinesParts(elem: Ty, parent: Carrier, items: seq<Carrier>)
    requires RunShaped(elem, items) && forall i :: 0 <= i < |items| ==> items[i] < parent
    ensures var n := |items|;
            seq(n, i requires 0 <= i < n => Decode(Checked, elem, items[i])) ==
            seq(n, i requires 0 <= i < n => Decode(ByParts, elem, items[i]))
    decreases parent, elem
  {
    forall i | 0 <= i < |items| ensures Decode(Checked, elem, items[i]) == Decode(ByParts, elem, items[i]) {
      FastPathRefinesParts(elem, items[i]);
    }
  }

  /** On every accepted carrier unchecked decoding yields the checked value. */
  lemma {:induction false} UncheckedAgrees(t: Ty, c: Carrier)
    ensures Shaped(t, c) && Decode(ByParts, t, c).Some? ==> Decode(Unchecked, t, c) == Decode(ByParts, t, c)
    decreases c, t
  {
    if Shaped(t, c) && Decode(ByParts, t, c).Some? {
      match t
      case Tuple(_, fields) =>
        var n := |fields|;
        var parts := seq(n, i requires 0 <= i < n => Decode(ByParts, fields[i], c.items[i]));
        assert AllOf(parts).Some?;
        forall i | 0 <= i < n ensures Decode(Unchecked, fields[i], c.items[i]) == parts[i] {
          assert parts[i].Some?;
          UncheckedAgrees(fields[i], c.items[i]);
        }
        assert seq(n, i requires 0 <= i < n => Decode(Unchecked, fields[i], c.items[i])) == parts;
      case Array(elem, _) =>
        if Stable(elem) && Robust(elem) { ValidateThenTransmute(t, c); } else { UncheckedRunAgrees(elem, c, c.items); }
      case Vec(elem) =>
        if Stable(elem) { ValidateThenTransmute(t, c); } else { UncheckedRunAgrees(elem, c, c.data); }
      case Opt(native, some) =>
        if InNiche(native, some) { UncheckedAgrees(some, c); } else { UncheckedAgrees(some, c.payload); }
      case Res(native, ok, err) =>
        var form := Form(native, ok, err);
        if form.InOk? { UncheckedAgrees(ok, c); }
        else if form.InErr? { UncheckedAgrees(err, c); }
        else if c.tag == 0 { UncheckedAgrees(ok, c.payload); }
        else { UncheckedAgrees(err, c.payload); }
      case _ =>
    }
  }

  lemma UncheckedRunAgrees(elem: Ty, parent: Carrier, items: seq<Carrier>)
    requires RunShaped(elem, items) && forall i :: 0 <= i < |items| ==> items[i] < parent
    requires AllOf(seq(|items|, i requires 0 <= i < |items| => Decode(ByParts, elem, items[i]))).Some?
    ensures var n := |items|;
            seq(n, i requires 0 <= i < n => Decode(Unchecked, elem, items[i])) ==
            seq(n, i requires 0 <= i < n => Decode(ByParts, elem, items[i]))
    decreases parent, elem
  {
    var parts := seq(|items|, i requires 0 <= i < |items| => Decode(ByParts, elem, items[i]));
    forall i | 0 <= i < |items| ensures Decode(Unchecked, elem, items[i]) == parts[i] {
      assert parts[i].Some?;
      UncheckedAgrees(elem, items[i]);
    }
  }

  // ---------- round trips ----------

  lemma {:induction false} PartsRoundTrip(t: Ty, v: Value)
    requires HasType(t, v)
    ensures Shaped(t, Encode(t, v)) && Decode(ByParts, t, Encode(t, v)) == Some(v)
    decreases t, 1
  {
    var c := Encode(t, v);
    match t
    case Tuple(_, fields) =>
      forall i | 0 <= i < |fields|
        ensures Shaped(fields[i], c.items[i]) && Decode(ByParts, fields[i], c.items[i]) == Some(v.items[i])
      {
        PartsRoundTrip(fields[i], v.items[i]);
      }
      CollectRun(seq(|fields|, i requires 0 <= i < |fields| => Decode(ByParts, fields[i], c.items[i])), v.items);
    case Array(elem, len) =>
      RunRoundTrip(elem, v.items, c.items);
    case Vec(elem) =>
      RunRoundTrip(elem, v.elems, c.data);
    case Opt(native, some) =>
      if v.VSome? { PartsRoundTrip(some, v.inner); EncodedIsNoNiche(some, Encode(some, v.inner)); }
      else if InNiche(native, some) { NicheRecognised(some); }
      else { ZeroShaped(some); }
    case Res(native, ok, err) => ResultRoundTrip(t, v);
    case _ =>
  }

  lemma EncodedIsNoNiche(t: Ty, c: Carrier)
    requires Shaped(t, c) && Decode(ByParts, t, c).Some?
    ensures HasNiche(t) ==> !IsNiche(t, c)
  {
    if HasNiche(t) && IsNiche(t, c) {
      NicheNeverDecodes(t, c);
    }
  }

  lemma RunRoundTrip(elem: Ty, vs: seq<Value>, cs: seq<Carrier>)
    requires |vs| == |cs| && forall i :: 0 <= i < |vs| ==> HasType(elem, vs[i]) && cs[i] == Encode(elem, vs[i])
    ensures RunShaped(elem, cs)
    ensures AllOf(seq(|cs|, i requires 0 <= i < |cs| => Decode(ByParts, elem, cs[i]))) == Some(vs)
    decreases elem, 2
  {
    forall i | 0 <= i < |vs| ensures Shaped(elem, cs[i]) && Decode(ByParts, elem, cs[i]) == Some(vs[i]) {
      PartsRoundTrip(elem, vs[i]);
    }
    CollectRun(seq(|cs|, i requires 0 <= i < |cs| => Decode(ByParts, elem, cs[i])), vs);
  }

  lemma ResultRoundTrip(t: Ty, v: Value)
    requires t.Res? && HasType(t, v)
    ensures Shaped(t, Encode(t, v)) && Decode(ByParts, t, Encode(t, v)) == Some(v)
    decreases t, 0
  {
    var form := Form(t.native, t.ok, t.err);
    if v.VOk? {
      PartsRoundTrip(t.ok, v.inner);
      EncodedIsNoNiche(t.ok, Encode(t.ok, v.inner));
      if form.InErr? {
        NicheRecognised(t.err);
        ZstHasOneValue(t.ok, v.inner);
      }
    } else {
      PartsRoundTrip(t.err, v.inner);
      EncodedIsNoNiche(t.err, Encode(t.err, v.inner));
      if form.InOk? {
        NicheRecognised(t.ok);
        ZstHasOneValue(t.err, v.inner);
      }
    }
  }

  /** Every value survives encoding and each way of decoding. */
  lemma RoundTrip(mode: Mode, t: Ty, v: Value)
    requires HasType(t, v)
    ensures Shaped(t, Encode(t, v)) && Decode(mode, t, Encode(t, v)) == Some(v)
  {
    PartsRoundTrip(t, v);
    FastPathRefinesParts(t, Encode(t, v));
    UncheckedAgrees(t, Encode(t, v));
  }

  /** The niche law: the reserved carrier is recognised and encodes no value. */
  lemma NicheLaw(t: Ty, v: Value)
    requires HasNiche(t) && HasType(t, v)
    ensures IsNiche(t, NicheOf(t)) && !IsNiche(t, Encode(t, v))
  {
    NicheRecognised(t);
    PartsRoundTrip(t, v);
    EncodedIsNoNiche(t, Encode(t, v));
  }

  /** Checked decoding never produces an invalid value. */
  lemma {:induction false} DecodeSound(t: Ty, c: Carrier)
    ensures Shaped(t, c) && Decode(ByParts, t, c).Some? ==> HasType(t, Decode(ByParts, t, c).value)
    decreases c, t
  {
    if Shaped(t, c) && Decode(ByParts, t, c).Some? {
      match t
      case Tuple(_, fields) =>
        var parts := seq(|fields|, i requires 0 <= i < |fields| => Decode(ByParts, fields[i], c.items[i]));
        forall i | 0 <= i < |fields| ensures parts[i].Some? && HasType(fields[i], parts[i].value) {
          assert AllOf(parts).Some?;
          DecodeSound(fields[i], c.items[i]);
        }
      case Array(elem, _) => RunSound(elem, c, c.items);
      case Vec(elem) => RunSound(elem, c, c.data);
      case Opt(native, some) =>
        if InNiche(native, some) { DecodeSound(some, c); } else { DecodeSound(some, c.payload); }
      case Res(native, ok, err) =>
        var form := Form(native, ok, err);
        if form.InOk? { DecodeSound(ok, c); ZstHasOneValue(err, DefaultOf(err)); }
        else if form.InErr? { DecodeSound(err, c); ZstHasOneValue(ok, DefaultOf(ok)); }
        else if c.tag == 0 { DecodeSound(ok, c.payload); }
        else { DecodeSound(err, c.payload); }
      case _ =>
    }
  }

  lemma RunSound(elem: Ty, parent: Carrier, items: seq<Carrier>)
    requires RunShaped(elem, items) && forall i :: 0 <= i < |items| ==> items[i] < parent
    ensures var decoded := AllOf(seq(|items|, i requires 0 <= i < |items| => Decode(ByParts, elem, items[i])));
            decoded.Some? ==> forall i :: 0 <= i < |items| ==> HasType(elem, decoded.value[i])
    decreases parent, elem
  {
    var parts := seq(|items|, i requires 0 <= i < |items| => Decode(ByParts, elem, items[i]));
    if AllOf(parts).Some? {
      forall i | 0 <= i < |items| ensures parts[i].Some? && HasType(elem, parts[i].value) {
        DecodeSound(elem, items[i]);
      }
    }
  }
}
