/** The stores of mutably borrowed foreign vectors, built and synchronised in place. */
module VectorStores {
  import opened Wrappers
  import opened Types
  import opened SharedMemory
  import opened Codec
  import opened DecodedVectors

  /** Foreign memory: one carrier, or a vector header over the memory of its elements. */
  datatype Lent = LentOne(target: Target) | LentVector(isNull: bool, len: nat, capacity: nat, elems: seq<Lent>)

  datatype Store = WholeStore(slot: Place, target: Target) | VectorStore(slot: Place, capacity: nat, fields: seq<Store>)

  ghost function Targets(x: Lent): set<Target>
    decreases x, 1
  {
    match x
    case LentOne(target) => {target}
    case LentVector(_, _, _, elems) => TargetsAll(elems)
  }

  ghost function TargetsAll(xs: seq<Lent>): (targets: set<Target>)
    ensures forall i :: 0 <= i < |xs| ==> Targets(xs[i]) <= targets
    decreases xs, 0
  {
    if |xs| == 0 then {} else Targets(xs[0]) + TargetsAll(xs[1..])
  }

  /** Elements do not overlap. */
  ghost predicate Distinct(x: Lent)
    decreases x, 1
  {
    x.LentVector? ==> DistinctAll(x.elems)
  }

  ghost predicate DistinctAll(xs: seq<Lent>)
    decreases xs, 0
  {
    |xs| == 0 || (Distinct(xs[0]) && DistinctAll(xs[1..]) && Targets(xs[0]) !! TargetsAll(xs[1..]))
  }

  ghost function Memory(x: Lent): Carrier
    reads Targets(x)
    decreases x, 1
  {
    match x
    case LentOne(target) => target.c
    case LentVector(isNull, len, capacity, elems) => CVec(isNull, MemoryAll(elems), len, capacity)
  }

  ghost function MemoryAll(xs: seq<Lent>): (cs: seq<Carrier>)
    reads TargetsAll(xs)
    ensures |cs| == |xs| && forall i :: 0 <= i < |xs| ==> cs[i] == Memory(xs[i])
    decreases xs, 0
  {
    if |xs| == 0 then [] else [Memory(xs[0])] + MemoryAll(xs[1..])
  }

  ghost function Slots(s: Store): (slots: set<Place>)
    ensures s.slot in slots
    decreases s, 1
  {
    match s
    case WholeStore(slot, _) => {slot}
    case VectorStore(slot, _, fields) => {slot} + SlotsAll(fields)
  }

  ghost function SlotsAll(ss: seq<Store>): (slots: set<Place>)
    ensures forall i :: 0 <= i < |ss| ==> Slots(ss[i]) <= slots
    decreases ss, 0
  {
    if |ss| == 0 then {} else Slots(ss[0]) + SlotsAll(ss[1..])
  }

  ghost predicate Valid(s: Store)
    decreases s, 1
  {
    s.VectorStore? ==> ValidAll(s.fields) && s.slot !in SlotsAll(s.fields)
  }

  ghost predicate ValidAll(ss: seq<Store>)
    decreases ss, 0
  {
    |ss| == 0 || (Valid(ss[0]) && ValidAll(ss[1..]) && Slots(ss[0]) !! SlotsAll(ss[1..]))
  }

  ghost function Contents(s: Store): (tree: Tree)
    reads Slots(s)
    ensures tree.value == s.slot.value
    decreases s, 1
  {
    match s
    case WholeStore(slot, _) => Whole(slot.value)
    case VectorStore(slot, capacity, fields) => Elements(slot.value, capacity, ContentsAll(fields))
  }

  ghost function ContentsAll(ss: seq<Store>): (trees: seq<Tree>)
    reads SlotsAll(ss)
    ensures |trees| == |ss| && forall i :: 0 <= i < |ss| ==> trees[i] == Contents(ss[i])
    decreases ss, 0
  {
    if |ss| == 0 then [] else [Contents(ss[0])] + ContentsAll(ss[1..])
  }

  /** The store was built over this memory of type `t`. */
  ghost predicate Over(t: Ty, s: Store, x: Lent)
    decreases s, 1
  {
    match s
    case WholeStore(_, target) => !t.Vec? && x == LentOne(target)
    case VectorStore(_, _, fields) => t.Vec? && x.LentVector? && OverAll(t.elem, fields, x.elems)
  }

  ghost predicate OverAll(t: Ty, ss: seq<Store>, xs: seq<Lent>)
    decreases ss, 0
  {
    |ss| == |xs| && (|ss| == 0 || (Over(t, ss[0], xs[0]) && OverAll(t, ss[1..], xs[1..])))
  }

  /** Every whole value that would be written is a value of its type. */
  ghost predicate Typed(t: Ty, s: Tree)
    decreases Height(s)
  {
    if s.Whole? then HasType(t, s.value)
    else
      WrittenIsLower(s);
      t.Vec? && forall i :: 0 <= i < |s.fields| ==> Typed(t.elem, Written(s)[i])
  }

  lemma {:induction false} Independent(ss: seq<Store>, i: nat, j: nat)
    requires ValidAll(ss) && i < j < |ss|
    ensures Slots(ss[i]) !! Slots(ss[j])
  {
    if i > 0 { Independent(ss[1..], i - 1, j - 1); }
  }

  lemma {:induction false} ValidAt(ss: seq<Store>, i: nat)
    requires ValidAll(ss) && i < |ss|
    ensures Valid(ss[i])
  {
    if i > 0 { ValidAt(ss[1..], i - 1); }
  }

  lemma {:induction false} Apart(xs: seq<Lent>, i: nat, j: nat)
    requires DistinctAll(xs) && i < j < |xs|
    ensures Targets(xs[i]) !! Targets(xs[j])
  {
    if i > 0 { Apart(xs[1..], i - 1, j - 1); }
  }

  lemma {:induction false} OverAt(t: Ty, ss: seq<Store>, xs: seq<Lent>, i: nat)
    requires OverAll(t, ss, xs) && i < |ss|
    ensures |xs| == |ss| && Over(t, ss[i], xs[i]) && (DistinctAll(xs) ==> Distinct(xs[i]))
  {
    if i > 0 {
      OverAt(t, ss[1..], xs[1..], i - 1);
      SameCount(t, ss, xs);
    }
  }

  lemma SameCount(t: Ty, ss: seq<Store>, xs: seq<Lent>)
    ensures OverAll(t, ss, xs) ==> |ss| == |xs|
  {
  }

  lemma {:induction false} SlotsAllocated(s: Store)
    ensures forall o :: o in Slots(s) ==> allocated(o)
    decreases s, 1
  {
    if s.VectorStore? { AllSlotsAllocated(s.fields); }
  }

  lemma {:induction false} AllSlotsAllocated(ss: seq<Store>)
    ensures forall o :: o in SlotsAll(ss) ==> allocated(o)
    decreases ss, 0
  {
    if |ss| > 0 {
      SlotsAllocated(ss[0]);
      AllSlotsAllocated(ss[1..]);
    }
  }

  lemma {:induction false} TargetsAllocated(x: Lent)
    ensures forall o :: o in Targets(x) ==> allocated(o)
    decreases x, 1
  {
    if x.LentVector? { AllTargetsAllocated(x.elems); }
  }

  lemma {:induction false} AllTargetsAllocated(xs: seq<Lent>)
    ensures forall o :: o in TargetsAll(xs) ==> allocated(o)
    decreases xs, 0
  {
    if |xs| > 0 {
      TargetsAllocated(xs[0]);
      AllTargetsAllocated(xs[1..]);
    }
  }

  // ---------- synchronisation ----------

  /** `**destination = value` for every element. */
  method WriteElements(fields: seq<Store>, values: seq<Value>)
    requires ValidAll(fields) && |values| == |fields|
    modifies SlotsAll(fields)
    ensures forall i :: 0 <= i < |fields| ==> Contents(fields[i]) == old(Contents(fields[i])).(value := values[i])
  {
    for i := 0 to |fields|
      invariant forall k :: 0 <= k < i ==> Contents(fields[k]) == old(Contents(fields[k])).(value := values[k])
      invariant forall k :: i <= k < |fields| ==> Contents(fields[k]) == old(Contents(fields[k]))
    {
      WriteElement(fields, i, values[i]);
    }
  }

  method WriteElement(fields: seq<Store>, i: nat, value: Value)
    requires ValidAll(fields) && i < |fields|
    modifies SlotsAll(fields)
    ensures Contents(fields[i]) == old(Contents(fields[i])).(value := value)
    ensures forall k :: 0 <= k < |fields| && k != i ==> Contents(fields[k]) == old(Contents(fields[k]))
  {
    ValidAt(fields, i);
    assert Slots(fields[i]) <= SlotsAll(fields);
    fields[i].slot.value := value;
    forall k | 0 <= k < |fields| && k != i ensures Contents(fields[k]) == old(Contents(fields[k])) {
      Independent(fields, if i < k then i else k, if i < k then k else i);
    }
  }

  /** The outcome of synchronising one field, from what it and its memory held. */
  predicate Outcome(t: Ty, tree: Tree, before: Carrier, after: Carrier, ok: bool) {
    (after, ok) == Sync(t, tree, before)
  }

  /** Synchronise one of several fields; the others and their memory keep what they hold. */
  method SyncField(t: Ty, ss: seq<Store>, xs: seq<Lent>, i: nat) returns (ok: bool)
    requires ValidAll(ss) && DistinctAll(xs) && OverAll(t, ss, xs) && i < |ss| == |xs| && Typed(t, Contents(ss[i]))
    modifies SlotsAll(ss), TargetsAll(xs)
    ensures Outcome(t, old(Contents(ss[i])), old(Memory(xs[i])), Memory(xs[i]), ok)
    ensures forall k :: 0 <= k < |ss| && k != i ==>
      Contents(ss[k]) == old(Contents(ss[k])) && Memory(xs[k]) == old(Memory(xs[k]))
    decreases ss, 0
  {
    ValidAt(ss, i);
    OverAt(t, ss, xs, i);
    AllSlotsAllocated(ss);
    AllTargetsAllocated(xs);
    hide Contents, Memory, Slots, Targets, Valid, Distinct, Over, OverAll, Typed, Sync, SlotsAll, TargetsAll,
      ValidAll, DistinctAll;
    assert Slots(ss[i]) <= SlotsAll(ss) && Targets(xs[i]) <= TargetsAll(xs);
    ok := SyncStore(t, ss[i], xs[i]);
    forall k | 0 <= k < |ss| && k != i
      ensures Contents(ss[k]) == old(Contents(ss[k])) && Memory(xs[k]) == old(Memory(xs[k]))
    {
      Independent(ss, if i < k then i else k, if i < k then k else i);
      Apart(xs, if i < k then i else k, if i < k then k else i);
    }
  }

  /** Boxed slices of stores synchronise every store. */
  method SyncFields(t: Ty, ss: seq<Store>, xs: seq<Lent>) returns (ok: bool)
    requires ValidAll(ss) && DistinctAll(xs) && OverAll(t, ss, xs) && |ss| == |xs|
    requires forall i :: 0 <= i < |ss| ==> Typed(t, Contents(ss[i]))
    modifies SlotsAll(ss), TargetsAll(xs)
    ensures forall i :: 0 <= i < |ss| ==> Memory(xs[i]) == Sync(t, old(Contents(ss[i])), old(Memory(xs[i]))).0
    ensures ok <==> forall i :: 0 <= i < |ss| ==> Sync(t, old(Contents(ss[i])), old(Memory(xs[i]))).1
    decreases ss, 1
  {
    hide Contents, Memory, Slots, Targets, Valid, Distinct, Over, OverAll, Typed, Sync, SlotsAll, TargetsAll,
      ValidAll, DistinctAll;
    ok := true;
    for i := 0 to |ss|
      invariant forall k :: 0 <= k < i ==> Memory(xs[k]) == Sync(t, old(Contents(ss[k])), old(Memory(xs[k]))).0
      invariant ok <==> forall k :: 0 <= k < i ==> Sync(t, old(Contents(ss[k])), old(Memory(xs[k]))).1
      invariant forall k :: i <= k < |ss| ==>
        Contents(ss[k]) == old(Contents(ss[k])) && Memory(xs[k]) == old(Memory(xs[k]))
    {
      var synced := SyncField(t, ss, xs, i);
      if !synced {
        ok := false;
      }
    }
  }

  /** Synchronise the store of a mutably borrowed foreign value in place. */
  method SyncStore(t: Ty, s: Store, x: Lent) returns (ok: bool)
    requires Valid(s) && Distinct(x) && Over(t, s, x) && Typed(t, Contents(s))
    modifies Slots(s), Targets(x)
    ensures (Memory(x), ok) == Sync(t, old(Contents(s)), old(Memory(x)))
    decreases s, 2
  {
    match s
    case WholeStore(slot, target) =>
      target.c := Encode(t, slot.value);
      ok := true;
    case VectorStore(_, _, _) =>
      ok := SyncVector(t, s, x);
  }

  method SyncVector(t: Ty, s: Store, x: Lent) returns (ok: bool)
    requires s.VectorStore? && Valid(s) && Distinct(x) && Over(t, s, x) && Typed(t, Contents(s))
    modifies Slots(s), Targets(x)
    ensures (Memory(x), ok) == Sync(t, old(Contents(s)), old(Memory(x)))
    decreases s, 1
  {
    hide *;
    var fields, edited := s.fields, s.slot.value;
    ghost var tree, before := Contents(s), Memory(x);
    VectorUnfolds(t, s, x);
    AllTargetsAllocated(x.elems);
    var written := edited.VVec? && |edited.elems| == |fields| && edited.capacity == s.capacity;
    if written {
      WriteElements(fields, edited.elems);
    }
    ShapeOf(tree);
    WrittenInPlace(tree, fields);
    TypedFields(t, tree);
    ok := SyncFields(t.elem, fields, x.elems);
    ok := ok && written;
    VectorUnfolds(t, s, x);
    SyncUnfolds(t, tree, before, MemoryAll(x.elems));
  }

  lemma VectorUnfolds(t: Ty, s: Store, x: Lent)
    requires s.VectorStore? && Valid(s) && Distinct(x) && Over(t, s, x)
    ensures x.LentVector? && t.Vec? && |s.fields| == |x.elems|
    ensures ValidAll(s.fields) && DistinctAll(x.elems) && OverAll(t.elem, s.fields, x.elems)
    ensures Slots(s) == {s.slot} + SlotsAll(s.fields) && Targets(x) == TargetsAll(x.elems)
    ensures Contents(s) == Elements(s.slot.value, s.capacity, ContentsAll(s.fields))
    ensures Memory(x) == CVec(x.isNull, MemoryAll(x.elems), x.len, x.capacity)
  {
    SameCount(t.elem, s.fields, x.elems);
    hide ValidAll, DistinctAll, OverAll, SlotsAll, TargetsAll, ContentsAll, MemoryAll;
  }

  lemma ShapeOf(tree: Tree)
    ensures tree.Elements? ==>
      (SameShape(tree) <==>
        tree.value.VVec? && |tree.value.elems| == |tree.fields| && tree.value.capacity == tree.capacity)
  {
  }

  lemma WrittenInPlace(tree: Tree, fields: seq<Store>)
    requires tree.Elements? && |tree.fields| == |fields|
    requires SameShape(tree) ==> forall i :: 0 <= i < |fields| ==>
      Contents(fields[i]) == tree.fields[i].(value := tree.value.elems[i])
    requires !SameShape(tree) ==> forall i :: 0 <= i < |fields| ==> Contents(fields[i]) == tree.fields[i]
    ensures forall i :: 0 <= i < |fields| ==> Contents(fields[i]) == Written(tree)[i]
  {
    hide Contents;
  }

  lemma TypedFields(t: Ty, tree: Tree)
    requires tree.Elements? && Typed(t, tree)
    ensures t.Vec? && forall i :: 0 <= i < |tree.fields| ==> Typed(t.elem, Written(tree)[i])
  {
    hide Written;
  }

  lemma SyncUnfolds(t: Ty, tree: Tree, before: Carrier, after: seq<Carrier>)
    requires t.Vec? && tree.Elements? && before.CVec? && |before.data| == |tree.fields| == |after|
    requires forall i :: 0 <= i < |after| ==> after[i] == Sync(t.elem, Written(tree)[i], before.data[i]).0
    ensures Sync(t, tree, before).0 == CVec(before.isNull, after, before.len, before.capacity)
    ensures Sync(t, tree, before).1 <==>
      SameShape(tree) && forall i :: 0 <= i < |after| ==> Sync(t.elem, Written(tree)[i], before.data[i]).1
  {
    hide Written;
    assert Sync(t, tree, before).0.data == after;
  }

  // ---------- decoding ----------

  /** The memory has the layout of its type; headers may hold anything, but usable
      ones point at `len` elements. */
  predicate Fits(t: Ty, x: Lent)
    decreases x, 1
  {
    if t.Vec? then x.LentVector? && (!x.isNull && x.len <= x.capacity ==> |x.elems| == x.len) &&
      FitsAll(t.elem, x.elems)
    else x.LentOne?
  }

  predicate FitsAll(t: Ty, xs: seq<Lent>)
    decreases xs, 0
  {
    |xs| == 0 || (Fits(t, xs[0]) && FitsAll(t, xs[1..]))
  }

  lemma {:induction false} FitsAt(t: Ty, xs: seq<Lent>, i: nat)
    requires FitsAll(t, xs) && i < |xs|
    ensures Fits(t, xs[i])
  {
    if i > 0 { FitsAt(t, xs[1..], i - 1); }
  }

  lemma {:induction false} MoreValid(ss: seq<Store>, s: Store)
    requires ValidAll(ss) && Valid(s) && SlotsAll(ss) !! Slots(s)
    ensures ValidAll(ss + [s]) && SlotsAll(ss + [s]) == SlotsAll(ss) + Slots(s)
  {
    if |ss| > 0 {
      MoreValid(ss[1..], s);
      assert (ss + [s])[1..] == ss[1..] + [s];
    } else {
      assert ss + [s] == [s] && (ss + [s])[1..] == [];
      assert ValidAll([]) && SlotsAll([]) == {};
    }
  }

  lemma {:induction false} MoreOver(t: Ty, ss: seq<Store>, xs: seq<Lent>, s: Store, x: Lent)
    requires OverAll(t, ss, xs) && Over(t, s, x)
    ensures OverAll(t, ss + [s], xs + [x])
  {
    if |ss| > 0 {
      MoreOver(t, ss[1..], xs[1..], s, x);
      assert (ss + [s])[1..] == ss[1..] + [s] && (xs + [x])[1..] == xs[1..] + [x];
    }
  }

  /** A store for this memory was built, holding these trees. */
  ghost predicate BuiltOver(t: Ty, s: Store, x: Lent, tree: Option<Tree>)
    reads Slots(s)
  {
    Valid(s) && Over(t, s, x) && tree == Some(Contents(s))
  }

  ghost predicate AllBuiltOver(t: Ty, ss: seq<Store>, xs: seq<Lent>)
    reads SlotsAll(ss), TargetsAll(xs)
  {
    && ValidAll(ss) && OverAll(t, ss, xs) && |ss| == |xs|
    && forall i :: 0 <= i < |ss| ==> Build(t, Memory(xs[i])) == Some(Contents(ss[i]))
  }

  /** Build the store of foreign memory, or refuse it. */
  method DecodeStore(t: Ty, x: Lent) returns (s: Option<Store>)
    requires Fits(t, x)
    ensures s.Some? <==> Build(t, Memory(x)).Some?
    ensures s.Some? ==> fresh(Slots(s.value)) && BuiltOver(t, s.value, x, Build(t, Memory(x)))
    decreases x, 1
  {
    if x.LentOne? {
      var value := Decode(Checked, t, x.target.c);
      if value.None? {
        return None;
      }
      var slot := new Place(Clone(value.value));
      s := Some(WholeStore(slot, x.target));
    } else {
      s := DecodeVector(t, x);
    }
  }

  method DecodeVector(t: Ty, x: Lent) returns (s: Option<Store>)
    requires Fits(t, x) && x.LentVector?
    ensures s.Some? <==> Build(t, Memory(x)).Some?
    ensures s.Some? ==> fresh(Slots(s.value)) && BuiltOver(t, s.value, x, Build(t, Memory(x)))
    ensures Shaped(t, Memory(x)) ==> (s.Some? <==> Decode(Checked, t, Memory(x)).Some?)
    ensures Shaped(t, Memory(x)) && s.Some? ==>
      Same(Decode(Checked, t, Memory(x)).value, Contents(s.value).value)
    decreases x, 0
  {
    hide *;
    if Shaped(t, Memory(x)) { BuildDecodes(t, Memory(x)); }
    VectorMemory(t, x);
    if x.isNull || x.len > x.capacity {
      return None;
    }
    var fields, values := [], [];
    TargetsAllocated(x);
    AllTargetsAllocated(x.elems);
    NoneBuilt(t.elem);
    assert x.elems[..0] == [];
    for i := 0 to |x.elems|
      invariant |fields| == i && fresh(SlotsAll(fields)) && AllBuiltOver(t.elem, fields, x.elems[..i])
      invariant values == Clones(ContentsAll(fields))
    {
      FitsAt(t.elem, x.elems, i);
      AllSlotsAllocated(fields);
      AllTargetsAllocated(x.elems[..i]);
      TargetsAllocated(x.elems[i]);
      var field := DecodeStore(t.elem, x.elems[i]);
      if field.None? {
        NotBuilt(t, x, i);
        return None;
      }
      AppendBuilt(t.elem, fields, x.elems[..i], field.value, x.elems[i]);
      values := values + [Clone(field.value.slot.value)];
      fields := fields + [field.value];
      assert x.elems[..i + 1] == x.elems[..i] + [x.elems[i]];
    }
    assert x.elems[..|x.elems|] == x.elems;
    AllSlotsAllocated(fields);
    var slot := new Place(VVec(values, x.capacity));
    s := Some(VectorStore(slot, x.capacity, fields));
    AllBuilt(t, x, slot, fields);
    BuiltParts(t, s.value, x, Memory(x));
  }

  lemma VectorMemory(t: Ty, x: Lent)
    requires Fits(t, x) && x.LentVector?
    ensures t.Vec? && FitsAll(t.elem, x.elems) && Targets(x) == TargetsAll(x.elems)
    ensures x.isNull || x.len > x.capacity ==> Build(t, Memory(x)).None?
  {
    hide FitsAll, TargetsAll, MemoryAll;
  }

  lemma NoneBuilt(t: Ty)
    ensures AllBuiltOver(t, [], []) && Clones(ContentsAll([])) == [] && SlotsAll([]) == {}
  {
  }

  lemma NotBuilt(t: Ty, x: Lent, i: nat)
    requires Fits(t, x) && x.LentVector? && i < |x.elems| && Build(t.elem, Memory(x.elems[i])).None?
    ensures Build(t, Memory(x)).None?
  {
    var c := Memory(x);
    var built := seq(|c.data|, k requires 0 <= k < |c.data| => Build(t.elem, c.data[k]));
    assert built[i].None?;
  }

  lemma AppendBuilt(t: Ty, ss: seq<Store>, xs: seq<Lent>, s: Store, x: Lent)
    requires AllBuiltOver(t, ss, xs) && BuiltOver(t, s, x, Build(t, Memory(x))) && SlotsAll(ss) !! Slots(s)
    ensures AllBuiltOver(t, ss + [s], xs + [x]) && SlotsAll(ss + [s]) == SlotsAll(ss) + Slots(s)
    ensures Clones(ContentsAll(ss + [s])) == Clones(ContentsAll(ss)) + [Clone(s.slot.value)]
  {
    hide Build, Memory, Contents, Slots, SlotsAll, Valid, ValidAll, Over, OverAll, Clone, ContentsAll, Targets,
      TargetsAll, Clones;
    MoreValid(ss, s);
    MoreOver(t, ss, xs, s, x);
    MoreClones(ss, s);
    var more := ss + [s];
    forall i | 0 <= i < |more| ensures Build(t, Memory((xs + [x])[i])) == Some(Contents(more[i])) {
      assert i < |ss| ==> more[i] == ss[i] && (xs + [x])[i] == xs[i];
    }
  }

  lemma MoreClones(ss: seq<Store>, s: Store)
    ensures Clones(ContentsAll(ss + [s])) == Clones(ContentsAll(ss)) + [Clone(s.slot.value)]
  {
    hide Contents, Slots, SlotsAll, Clone, ContentsAll;
  }

  lemma AllBuilt(t: Ty, x: Lent, slot: Place, fields: seq<Store>)
    requires Fits(t, x) && x.LentVector? && !x.isNull && x.len <= x.capacity
    requires AllBuiltOver(t.elem, fields, x.elems) && slot !in SlotsAll(fields)
    requires slot.value == VVec(Clones(ContentsAll(fields)), x.capacity)
    ensures Slots(VectorStore(slot, x.capacity, fields)) == {slot} + SlotsAll(fields)
    ensures Build(t, Memory(x)).Some? && BuiltOver(t, VectorStore(slot, x.capacity, fields), x, Build(t, Memory(x)))
  {
    hide Valid, ValidAll, OverAll, SlotsAll, Clones, FitsAll;
    var c := Memory(x);
    var built := seq(|c.data|, k requires 0 <= k < |c.data| => Build(t.elem, c.data[k]));
    forall k | 0 <= k < |c.data| ensures built[k] == Some(ContentsAll(fields)[k]) {
      assert c.data[k] == Memory(x.elems[k]);
    }
    assert Collected(built).value == ContentsAll(fields);
    assert Valid(VectorStore(slot, x.capacity, fields)) by { ValidVector(slot, x.capacity, fields); }
  }

  lemma ValidVector(slot: Place, capacity: nat, fields: seq<Store>)
    ensures Valid(VectorStore(slot, capacity, fields)) <==> ValidAll(fields) && slot !in SlotsAll(fields)
  {
  }

  /** Rust code mutably borrows foreign memory, leaves `edited` in it and ends the
      borrow: the memory then decodes, capacities aside, to the edited value as far as every
      length and capacity was kept; the borrow ends well exactly if all of them were, and
      then the memory decodes to exactly the edited value. */
  method Borrow(t: Ty, x: Lent, edited: Value) returns (r: Option<bool>)
    requires t.Vec? && Fits(t, x) && Distinct(x) && Shaped(t, Memory(x)) && HasType(t, edited)
    modifies Targets(x)
    ensures r.Some? <==> old(Decode(Checked, t, Memory(x))).Some?
    ensures r.None? ==> Memory(x) == old(Memory(x))
    ensures r.Some? ==> (r.value <==> Matches(t, edited, old(Memory(x))))
    ensures r.Some? ==> Decode(Checked, t, Memory(x)).Some?
    ensures r.Some? ==> Same(Merged(t, edited, old(Memory(x))), Decode(Checked, t, Memory(x)).value)
    ensures r.Some? && Nested(t) ==> Decode(Checked, t, Memory(x)) == Some(Merged(t, edited, old(Memory(x))))
    ensures r == Some(true) ==> Decode(Checked, t, Memory(x)) == Some(edited)
  {
    hide *;
    ghost var before := Memory(x);
    BuildDecodes(t, before);
    FastPathRefinesParts(t, before);
    TargetsAllocated(x);
    var s := DecodeStore(t, x);
    if s.None? {
      return None;
    }
    BuiltParts(t, s.value, x, before);
    EditTop(s.value, edited);
    TypedEdit(t, before, edited);
    var ok := SyncStore(t, s.value, x);
    SyncMerges(t, before, edited);
    FastPathRefinesParts(t, Memory(x));
    r := Some(ok);
  }

  lemma BuiltParts(t: Ty, s: Store, x: Lent, c: Carrier)
    requires BuiltOver(t, s, x, Build(t, c))
    ensures Valid(s) && Over(t, s, x) && Build(t, c) == Some(Contents(s))
  {
    hide Valid, Over, Contents, Build;
  }

  method EditTop(s: Store, edited: Value)
    requires Valid(s)
    modifies s.slot
    ensures Contents(s) == old(Contents(s)).(value := edited)
  {
    s.slot.value := edited;
  }

  lemma {:induction false} TypedEdit(t: Ty, c: Carrier, edited: Value)
    requires Shaped(t, c) && Build(t, c).Some? && HasType(t, edited)
    ensures Typed(t, Build(t, c).value.(value := edited))
    decreases t
  {
    if t.Vec? {
      BuiltVector(t, c);
      var s := Build(t, c).value.(value := edited);
      forall i | 0 <= i < |s.fields| ensures Typed(t.elem, Written(s)[i]) {
        BuildDecodes(t.elem, c.data[i]);
        TypedEdit(t.elem, c.data[i], if SameShape(s) then edited.elems[i] else s.fields[i].value);
      }
    }
  }
}
