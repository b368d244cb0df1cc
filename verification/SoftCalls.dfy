/** The driver of a call that lends Rust memory to foreign code: encode every
    mutable argument, call, synchronise every store and decode the result. */
module SoftCalls {
  import opened Wrappers
  import opened Types
  import opened SharedMemory
  import opened Codec
  import opened SoftStores
  import opened Lending

  lemma {:induction false} BorrowedAllocated(m: Mem)
    ensures forall p :: p in Borrowed(m) ==> allocated(p)
    decreases m, 1
  {
    match m
    case One(_, _, _) =>
    case Many(items) => AllBorrowedAllocated(items);
    case Growable(items, _, _) => AllBorrowedAllocated(items);
  }

  lemma {:induction false} AllBorrowedAllocated(ms: seq<Mem>)
    ensures forall p :: p in BorrowedAll(ms) ==> allocated(p)
    decreases ms, 0
  {
    if |ms| > 0 {
      BorrowedAllocated(ms[0]);
      AllBorrowedAllocated(ms[1..]);
    }
  }

  /** A store holds the encoding of borrowed memory: `e` is what foreign code finds
      there, so storing `e` again changes nothing. */
  ghost predicate Holds(s: Store, pointer: Slot, m: Mem, e: Edit)
    reads Cells(s)
  {
    && Valid(s) && Armed(s) && pointer == SlotOf(s)
    && Mirrors(m, Contents(s)) && Foreign(Contents(s), e) == Contents(s) && Places(s) == Borrowed(m)
  }

  ghost predicate HoldAll(ss: seq<Store>, pointers: seq<Slot>, ms: seq<Mem>, es: seq<Edit>)
    reads CellsAll(ss)
  {
    && ValidAll(ss) && PointAt(pointers, ss)
    && MirrorsAll(ms, ContentsAll(ss)) && ForeignAll(ContentsAll(ss), es) == ContentsAll(ss)
    && PlacesAll(ss) == BorrowedAll(ms)
  }

  // ---------- lists grow at their end ----------

  lemma {:induction false} MirrorsMore(ms: seq<Mem>, ss: seq<Snap>, m: Mem, s: Snap)
    requires MirrorsAll(ms, ss) && Mirrors(m, s)
    ensures MirrorsAll(ms + [m], ss + [s])
  {
    if |ms| > 0 {
      MirrorsMore(ms[1..], ss[1..], m, s);
      assert (ms + [m])[1..] == ms[1..] + [m] && (ss + [s])[1..] == ss[1..] + [s];
    }
  }

  lemma {:induction false} ForeignMore(ss: seq<Snap>, es: seq<Edit>, s: Snap, e: Edit)
    requires |ss| == |es|
    ensures ForeignAll(ss + [s], es + [e]) == ForeignAll(ss, es) + [Foreign(s, e)]
  {
    if |ss| > 0 {
      ForeignMore(ss[1..], es[1..], s, e);
      assert (ss + [s])[1..] == ss[1..] + [s] && (es + [e])[1..] == es[1..] + [e];
    }
  }

  lemma {:induction false} PlacesMore(ss: seq<Snap>, s: Snap)
    ensures PlacesInAll(ss + [s]) == PlacesInAll(ss) + PlacesIn(s)
  {
    if |ss| > 0 {
      PlacesMore(ss[1..], s);
      assert (ss + [s])[1..] == ss[1..] + [s];
    }
  }

  lemma {:induction false} BorrowedSplit(ms: seq<Mem>, i: nat)
    requires i <= |ms|
    ensures BorrowedAll(ms) == BorrowedAll(ms[..i]) + BorrowedAll(ms[i..])
    ensures LendableAll(ms) ==>
      LendableAll(ms[..i]) && LendableAll(ms[i..]) && BorrowedAll(ms[..i]) !! BorrowedAll(ms[i..])
  {
    if i == 0 {
      assert ms[0..] == ms;
    } else {
      BorrowedSplit(ms[1..], i - 1);
      assert ms[..i][1..] == ms[1..][..i - 1] && ms[1..][i - 1..] == ms[i..];
    }
  }

  lemma {:induction false} TakenMore(ms: seq<Mem>, m: Mem)
    ensures TakenAll(ms + [m]) == TakenAll(ms) + Taken(m)
  {
    if |ms| > 0 {
      TakenMore(ms[1..], m);
      assert (ms + [m])[1..] == ms[1..] + [m];
      assert Taken(ms[0]) + (TakenAll(ms[1..]) + Taken(m)) == (Taken(ms[0]) + TakenAll(ms[1..])) + Taken(m);
    } else {
      assert Taken(m) + map[] == Taken(m) && map[] + Taken(m) == Taken(m);
    }
  }

  lemma {:induction false} CellsMore(ss: seq<Store>, s: Store)
    ensures CellsAll(ss + [s]) == CellsAll(ss) + Cells(s)
  {
    if |ss| > 0 {
      CellsMore(ss[1..], s);
      assert (ss + [s])[1..] == ss[1..] + [s];
    }
  }

  lemma ValidMore(ss: seq<Store>, s: Store)
    requires ValidAll(ss) && Valid(s) && CellsAll(ss) !! Cells(s) && PlacesAll(ss) !! Places(s)
    ensures ValidAll(ss + [s])
  {
    ValidIsSeparate(ss);
    hide Valid, ValidAll, Cells, CellsAll, Contents, PlacesIn;
    var more := ss + [s];
    forall i, j | 0 <= i < j < |more| ensures Cells(more[i]) !! Cells(more[j]) && Places(more[i]) !! Places(more[j]) {
      if j == |ss| {
        assert Cells(more[i]) <= CellsAll(ss) && Places(more[i]) <= PlacesAll(ss);
      }
    }
    ValidIsSeparate(more);
  }

  lemma PointMore(pointers: seq<Slot>, ss: seq<Store>, pointer: Slot, s: Store)
    requires PointAt(pointers, ss) && Armed(s) && pointer == SlotOf(s)
    ensures PointAt(pointers + [pointer], ss + [s])
  {
    hide Armed, SlotOf, Cells, CellsAll;
  }

  lemma ContentsMore(ss: seq<Store>, s: Store)
    ensures ContentsAll(ss + [s]) == ContentsAll(ss) + [Contents(s)]
  {
    hide Contents, ContentsAll, Cells, CellsAll;
  }

  lemma BorrowedMore(ms: seq<Mem>, m: Mem)
    ensures BorrowedAll(ms + [m]) == BorrowedAll(ms) + Borrowed(m)
  {
    BorrowedSplit(ms + [m], |ms|);
    assert (ms + [m])[..|ms|] == ms && (ms + [m])[|ms|..] == [m];
    assert BorrowedAll([m]) == Borrowed(m) + BorrowedAll([]);
  }

  lemma HoldMore(ss: seq<Store>, pointers: seq<Slot>, ms: seq<Mem>, es: seq<Edit>, s: Store, pointer: Slot, m: Mem,
      e: Edit)
    requires HoldAll(ss, pointers, ms, es) && Holds(s, pointer, m, e) && |es| == |ss|
    requires CellsAll(ss) !! Cells(s) && BorrowedAll(ms) !! Borrowed(m)
    ensures HoldAll(ss + [s], pointers + [pointer], ms + [m], es + [e])
    ensures CellsAll(ss + [s]) == CellsAll(ss) + Cells(s)
  {
    hide *;
    var snaps, snap := ContentsAll(ss), Contents(s);
    HoldAllParts(ss, pointers, ms, es);
    HoldsParts(s, pointer, m, e);
    ValidMore(ss, s);
    PointMore(pointers, ss, pointer, s);
    ContentsMore(ss, s);
    MirrorsMore(ms, snaps, m, snap);
    ForeignMore(snaps, es, snap, e);
    PlacesMore(snaps, snap);
    BorrowedMore(ms, m);
    CellsMore(ss, s);
    HoldAllParts(ss + [s], pointers + [pointer], ms + [m], es + [e]);
  }

  lemma HoldAllParts(ss: seq<Store>, pointers: seq<Slot>, ms: seq<Mem>, es: seq<Edit>)
    ensures HoldAll(ss, pointers, ms, es) <==>
      && ValidAll(ss) && PointAt(pointers, ss) && MirrorsAll(ms, ContentsAll(ss))
      && ForeignAll(ContentsAll(ss), es) == ContentsAll(ss) && PlacesInAll(ContentsAll(ss)) == BorrowedAll(ms)
    ensures PlacesAll(ss) == PlacesInAll(ContentsAll(ss))
  {
    hide Mirrors, MirrorsAll, Valid, ValidAll, Cells, CellsAll, Contents, PlacesInAll, BorrowedAll, Foreign, ForeignAll;
  }

  lemma HoldsParts(s: Store, pointer: Slot, m: Mem, e: Edit)
    ensures Holds(s, pointer, m, e) ==>
      && Valid(s) && Armed(s) && pointer == SlotOf(s) && Mirrors(m, Contents(s))
      && Foreign(Contents(s), e) == Contents(s) && PlacesIn(Contents(s)) == Borrowed(m)
    ensures Places(s) == PlacesIn(Contents(s))
  {
    hide Mirrors, Valid, Cells, Contents, PlacesIn, Borrowed, Foreign;
  }

  // ---------- encoding ----------

  /** A slot that storing `raw` would not change holds `raw`. */
  lemma HeldRaw(m: Mem, s: Snap, e: Edit)
    requires Mirrors(m, s) && Foreign(s, e) == s && Fits(m, e)
    ensures s.SSized? ==> s.ctype.Some? && RawOf(e) == Leaf(s.ctype.value)
    ensures s.SWide? ==> s.buffer.Some? && RawOf(e) == Items(s.buffer.value)
    ensures s.SVector? ==> s.value.Some? && RawOf(e) == s.value.value
    ensures s.SDirect? ==> m.One? && m.access.InPlace? && s.place == m.place
    ensures s.SDirect? || s.SSized? || s.SWide? || s.SVector?
  {
    hide ReachAll, RawsOf, MirrorsAll, FitsAll;
  }

  /** Read `*pointer`: the carrier that an element pointer addresses. */
  method Load(pointer: Slot, m: Mem, ghost s: Store, ghost e: Edit) returns (raw: Raw)
    requires Holds(s, pointer, m, e) && Fits(m, e)
    requires m.One? && m.access.InPlace? ==> HasType(m.ty, m.place.value) && e == EditOne(Encode(m.ty, m.place.value))
    ensures raw == RawOf(e)
  {
    HeldRaw(m, Contents(s), e);
    hide Valid, Mirrors, Foreign, PlacesIn, Borrowed, Encode, HasType, Fits;
    match pointer
    case AtPlace(place, _) => raw := Leaf(Encode(m.ty, place.value));
    case AtSized(sized) => raw := Leaf(sized.ctype.value);
    case AtWide(wide) => raw := Items(wide.buffer.value);
    case AtHeader(header) => raw := header.value.value;
  }

  /** `encode_mut`: lend one piece of memory through a fresh store. */
  method EncodeMut(m: Mem, ghost log: Log, ghost universe: set<Place>) returns (s: Store, pointer: Slot)
    requires WellTyped(m) && Lendable(m) && Borrowed(m) <= universe
    modifies Borrowed(m)
    ensures fresh(Cells(s)) && Holds(s, pointer, m, old(Shown(m)))
    ensures Now(universe, log) == Apply(Effect(true, Taken(m), []), old(Now(universe, log)))
    decreases m, 1
  {
    match m
    case One(access, place, ty) =>
      if access.InPlace? {
        s := Direct(place, CheckedDecoder(ty));
      } else {
        s := EncodeOne(m, log, universe);
      }
      pointer := SlotOf(s);
    case Many(items) =>
      s := EncodeBuffer(items, log, universe);
      pointer := SlotOf(s);
    case Growable(items, capacity, address) =>
      s := EncodeVector(m, log, universe);
      pointer := SlotOf(s);
  }

  /** `RefMutSizedEncodeStore::encode` on a fresh store: build the carrier from a copy
      of the value, or from the value itself, leaving the default in its place. */
  method EncodeOne(m: Mem, ghost log: Log, ghost universe: set<Place>) returns (s: Store)
    requires m.One? && !m.access.InPlace? && WellTyped(m) && Lendable(m) && Borrowed(m) <= universe
    modifies Borrowed(m)
    ensures s.Sized? && fresh(Cells(s)) && Holds(s, SlotOf(s), m, old(Shown(m)))
    ensures Now(universe, log) == Apply(Effect(true, Taken(m), []), old(Now(universe, log)))
    decreases m, 0
  {
    var place := m.place;
    var value := place.value;
    var cell := new SizedCell(CheckedDecoder(m.ty));
    if m.access.ByMove? {
      place.value := VNone;
    }
    cell.ctype := Some(Encode(m.ty, value));
    cell.original := place;
    s := Sized(cell, Empty);
  }

  /** The builder shared by slices, arrays and vectors: encode every element into
      its own store, collect the carriers and remember where they came from. */
  method EncodeElements(items: seq<Mem>, ghost log: Log, ghost universe: set<Place>)
      returns (stores: seq<Store>, values: seq<Raw>, pointers: seq<Slot>)
    requires WellTypedAll(items) && LendableAll(items) && BorrowedAll(items) <= universe
    modifies BorrowedAll(items)
    ensures fresh(CellsAll(stores)) && HoldAll(stores, pointers, items, old(ShownAll(items)))
    ensures |stores| == |items| && values == RawsOf(old(ShownAll(items)))
    ensures Now(universe, log) == Apply(Effect(true, TakenAll(items), []), old(Now(universe, log)))
    decreases items, 2
  {
    hide *;
    stores, values, pointers := [], [], [];
    ghost var es, start := ShownAll(items), Now(universe, log);
    NoneHeld(start);
    assert items[0..] == items && items[..0] == [] && es[0..] == es && es[..0] == [];
    for i := 0 to |items|
      invariant |stores| == i && fresh(CellsAll(stores))
      invariant HoldAll(stores, pointers, items[..i], es[..i]) && values == RawsOf(es[..i])
      invariant WellTypedAll(items[i..]) && ShownAll(items[i..]) == es[i..]
      invariant Now(universe, log) == Apply(Effect(true, TakenAll(items[..i]), []), start)
    {
      BorrowedIn(items, i);
      stores, values, pointers := EncodeNext(items, i, stores, values, pointers, es, log, universe);
      TakenStep(items, i, start);
    }
    assert items[..|items|] == items && es[..|items|] == es;
  }

  lemma NoneHeld(start: World)
    ensures HoldAll([], [], [], []) && RawsOf([]) == [] && CellsAll([]) == {}
    ensures start == Apply(Effect(true, TakenAll([]), []), start)
  {
    ApplyNothing(start);
  }

  lemma TakenStep(items: seq<Mem>, i: nat, start: World)
    requires i < |items|
    ensures Apply(Effect(true, Taken(items[i]), []), Apply(Effect(true, TakenAll(items[..i]), []), start)) ==
            Apply(Effect(true, TakenAll(items[..i + 1]), []), start)
  {
    assert items[..i + 1] == items[..i] + [items[i]];
    TakenMore(items[..i], items[i]);
    hide Taken, TakenAll;
    ApplyThen(Effect(true, TakenAll(items[..i]), []), Effect(true, Taken(items[i]), []), start);
  }

  method EncodeNext(items: seq<Mem>, i: nat, stores: seq<Store>, values: seq<Raw>, pointers: seq<Slot>,
      ghost es: seq<Edit>, ghost log: Log, ghost universe: set<Place>)
      returns (stores': seq<Store>, values': seq<Raw>, pointers': seq<Slot>)
    requires i < |items| == |es| && |stores| == i && LendableAll(items) && BorrowedAll(items) <= universe
    requires HoldAll(stores, pointers, items[..i], es[..i]) && values == RawsOf(es[..i])
    requires WellTypedAll(items[i..]) && ShownAll(items[i..]) == es[i..]
    modifies Borrowed(items[i])
    ensures |stores'| == i + 1 && fresh(CellsAll(stores') - CellsAll(stores))
    ensures HoldAll(stores', pointers', items[..i + 1], es[..i + 1]) && values' == RawsOf(es[..i + 1])
    ensures WellTypedAll(items[i + 1..]) && ShownAll(items[i + 1..]) == es[i + 1..]
    ensures Now(universe, log) == Apply(Effect(true, Taken(items[i]), []), old(Now(universe, log)))
    decreases items, 1
  {
    hide *;
    NextItem(items, i, es);
    CellsAllAllocated(stores);
    AllBorrowedAllocated(items[i + 1..]);
    BorrowedIn(items, i);
    NoCells(items[i], stores);
    var s, pointer, value := EncodeAndLoad(items[i], log, universe);
    assert HoldAll(stores, pointers, items[..i], es[..i]);
    assert WellTypedAll(items[i + 1..]) && ShownAll(items[i + 1..]) == es[i + 1..];
    HoldMore(stores, pointers, items[..i], es[..i], s, pointer, items[i], es[i]);
    stores', values', pointers' := stores + [s], values + [value], pointers + [pointer];
    assert items[..i + 1] == items[..i] + [items[i]] && es[..i + 1] == es[..i] + [es[i]];
    assert values' == RawsOf(es[..i + 1]);
  }

  lemma BorrowedIn(items: seq<Mem>, i: nat)
    requires i < |items|
    ensures Borrowed(items[i]) <= BorrowedAll(items)
  {
  }

  lemma NoCells(m: Mem, ss: seq<Store>)
    ensures forall o :: o in CellsAll(ss) ==> o !in Borrowed(m)
  {
    hide Borrowed, CellsAll;
  }

  lemma CurrentValue(m: Mem, universe: set<Place>, log: Log)
    requires Borrowed(m) <= universe
    ensures m.One? ==> m.place in Now(universe, log).values && Now(universe, log).values[m.place] == m.place.value
  {
  }

  lemma KeptInPlace(m: Mem, w: World)
    requires m.One? && m.access.InPlace? ==> m.place in w.values
    ensures m.One? && m.access.InPlace? ==> Apply(Effect(true, Taken(m), []), w).values[m.place] == w.values[m.place]
  {
  }

  method EncodeAndLoad(m: Mem, ghost log: Log, ghost universe: set<Place>) returns (s: Store, pointer: Slot, value: Raw)
    requires WellTyped(m) && Lendable(m) && Borrowed(m) <= universe
    modifies Borrowed(m)
    ensures fresh(Cells(s)) && Holds(s, pointer, m, old(Shown(m))) && value == RawOf(old(Shown(m)))
    ensures Now(universe, log) == Apply(Effect(true, Taken(m), []), old(Now(universe, log)))
    decreases m, 2
  {
    hide *;
    ghost var e := Shown(m);
    Unedited(m);
    ShownOne(m);
    ghost var start := Now(universe, log);
    CurrentValue(m, universe, log);
    s, pointer := EncodeMut(m, log, universe);
    CellsAllocated(s);
    CurrentValue(m, universe, log);
    KeptInPlace(m, start);
    value := Load(pointer, m, s, e);
  }

  lemma NextItem(items: seq<Mem>, i: nat, es: seq<Edit>)
    requires i < |items| == |es| && LendableAll(items) && WellTypedAll(items[i..]) && ShownAll(items[i..]) == es[i..]
    ensures WellTyped(items[i]) && Lendable(items[i]) && es[i] == Shown(items[i])
    ensures WellTypedAll(items[i + 1..]) && ShownAll(items[i + 1..]) == es[i + 1..]
    ensures Borrowed(items[i]) !! BorrowedAll(items[i + 1..]) && Borrowed(items[i]) !! BorrowedAll(items[..i])
  {
    BorrowedSplit(items, i);
    assert items[i..][0] == items[i] && items[i..][1..] == items[i + 1..] && es[i..][1..] == es[i + 1..] &&
      es[i..][0] == es[i];
    hide Lendable, WellTyped, Shown;
  }

  lemma ShownOne(m: Mem)
    requires WellTyped(m)
    ensures m.One? ==> HasType(m.ty, m.place.value) && Shown(m) == EditOne(Encode(m.ty, m.place.value))
  {
  }

  lemma WideHolds(wide: WideCell, stores: seq<Store>, items: seq<Mem>, es: seq<Edit>)
    requires wide !in CellsAll(stores) && wide.buffer == Some(RawsOf(es)) && wide.writeback.Some?
    requires HoldAll(stores, wide.writeback.value, items, es) && |stores| == |es|
    ensures Cells(Wide(wide, stores)) == {wide} + CellsAll(stores)
    ensures Holds(Wide(wide, stores), AtWide(wide), Many(items), EditMany(es)) &&
      SlotOf(Wide(wide, stores)) == AtWide(wide)
  {
    hide *;
    HoldAllParts(stores, wide.writeback.value, items, es);
    WideParts(wide, stores);
    WideMirrors(items, SWide(wide.buffer, true, ContentsAll(stores)), es);
    HoldsFrom(Wide(wide, stores), AtWide(wide), Many(items), EditMany(es));
  }

  lemma WideParts(wide: WideCell, stores: seq<Store>)
    requires wide !in CellsAll(stores) && wide.buffer.Some? && wide.writeback.Some?
    requires ValidAll(stores) && PointAt(wide.writeback.value, stores)
    ensures var s := Wide(wide, stores);
            && Cells(s) == {wide} + CellsAll(stores) && Valid(s) && Armed(s) && SlotOf(s) == AtWide(wide)
            && Contents(s) == SWide(wide.buffer, true, ContentsAll(stores))
  {
    hide ValidAll, CellsAll, ContentsAll, PointAt;
  }

  lemma WideMirrors(items: seq<Mem>, s: Snap, es: seq<Edit>)
    requires s.SWide? && s.armed && s.buffer == Some(RawsOf(es))
    requires MirrorsAll(items, s.fields) && ForeignAll(s.fields, es) == s.fields &&
      PlacesInAll(s.fields) == BorrowedAll(items)
    ensures Mirrors(Many(items), s) && Foreign(s, EditMany(es)) == s && PlacesIn(s) == Borrowed(Many(items))
  {
    hide MirrorsAll, PlacesInAll, BorrowedAll;
    ReachedSame(s.fields, es);
  }

  lemma HoldsFrom(s: Store, pointer: Slot, m: Mem, e: Edit)
    requires Valid(s) && Armed(s) && pointer == SlotOf(s) && Mirrors(m, Contents(s))
    requires Foreign(Contents(s), e) == Contents(s) && PlacesIn(Contents(s)) == Borrowed(m)
    ensures Holds(s, pointer, m, e)
  {
    hide Valid, Armed, SlotOf, Mirrors, Contents, Foreign, PlacesIn, Borrowed;
  }

  /** Storing in every slot what it holds reaches nothing new either. */
  lemma {:induction false} ReachedSame(ss: seq<Snap>, es: seq<Edit>)
    requires ForeignAll(ss, es) == ss
    ensures ReachAll(ss, es) == ss
  {
    if |ss| > 0 && |es| > 0 {
      ReachedSame(ss[1..], es[1..]);
    }
  }

  method EncodeBuffer(items: seq<Mem>, ghost log: Log, ghost universe: set<Place>) returns (s: Store)
    requires WellTypedAll(items) && LendableAll(items) && BorrowedAll(items) <= universe
    modifies BorrowedAll(items)
    ensures s.Wide? && fresh(Cells(s)) && Holds(s, SlotOf(s), Many(items), EditMany(old(ShownAll(items))))
    ensures Now(universe, log) == Apply(Effect(true, TakenAll(items), []), old(Now(universe, log)))
    decreases items, 3
  {
    hide *;
    ghost var es := ShownAll(items);
    var stores, values, pointers := EncodeElements(items, log, universe);
    CellsAllAllocated(stores);
    var wide := new WideCell();
    wide.buffer := Some(values);
    wide.writeback := Some(pointers);
    s := Wide(wide, stores);
    WideHolds(wide, stores, items, es);
  }

  /** Vectors also lend a header over the buffer and remember what it was. */
  method EncodeVector(m: Mem, ghost log: Log, ghost universe: set<Place>) returns (s: Store)
    requires m.Growable? && WellTyped(m) && Lendable(m) && Borrowed(m) <= universe
    modifies Borrowed(m)
    ensures s.Vector? && fresh(Cells(s)) && Holds(s, SlotOf(s), m, old(Shown(m)))
    ensures Now(universe, log) == Apply(Effect(true, Taken(m), []), old(Now(universe, log)))
    decreases m, 0
  {
    ghost var es := ShownAll(m.items);
    hide *;
    VectorUnfolds(m);
    var inner := EncodeBuffer(m.items, log, universe);
    CellsAllocated(inner);
    var header := new HeaderCell();
    header.original := Some(Header(m.address, |m.items|, m.capacity));
    header.value := header.original;
    s := Vector(header, inner);
    VectorHolds(header, inner, m, es);
  }

  lemma VectorHolds(header: HeaderCell, inner: Store, m: Mem, es: seq<Edit>)
    requires m.Growable? && inner.Wide? && header !in Cells(inner)
    requires Holds(inner, SlotOf(inner), Many(m.items), EditMany(es))
    requires header.value == header.original == Some(Header(m.address, |m.items|, m.capacity))
    ensures var s := Vector(header, inner);
            Cells(s) == {header} + Cells(inner) && Holds(s, SlotOf(s), m, EditGrowable(header.value.value, es))
  {
    hide *;
    var s := Vector(header, inner);
    HoldsParts(inner, SlotOf(inner), Many(m.items), EditMany(es));
    VectorParts(header, inner);
    VectorMirrors(m, Contents(s), es);
    HoldsFrom(s, SlotOf(s), m, EditGrowable(header.value.value, es));
  }

  lemma VectorUnfolds(m: Mem)
    requires m.Growable? && WellTyped(m) && Lendable(m)
    ensures WellTypedAll(m.items) && LendableAll(m.items) && Borrowed(m) == BorrowedAll(m.items) &&
      Taken(m) == TakenAll(m.items)
    ensures Shown(m) == EditGrowable(Header(m.address, |m.items|, m.capacity), ShownAll(m.items))
  {
    hide WellTypedAll, LendableAll, BorrowedAll, TakenAll, ShownAll;
  }

  lemma VectorParts(header: HeaderCell, inner: Store)
    requires header !in Cells(inner) && header.value.Some? && Valid(inner)
    ensures var s := Vector(header, inner);
            && Cells(s) == {header} + Cells(inner) && Valid(s) && Armed(s)
            && Contents(s) == SVector(header.value, header.original, Contents(inner))
  {
    hide ValidAll, CellsAll, ContentsAll;
  }

  lemma VectorMirrors(m: Mem, s: Snap, es: seq<Edit>)
    requires m.Growable? && s.SVector? && s.value == s.header == Some(Header(m.address, |m.items|, m.capacity))
    requires Mirrors(Many(m.items), s.inner) && Foreign(s.inner, EditMany(es)) == s.inner &&
      PlacesIn(s.inner) == Borrowed(Many(m.items))
    ensures Mirrors(m, s) && Foreign(s, EditGrowable(s.value.value, es)) == s && PlacesIn(s) == Borrowed(m)
  {
    hide MirrorsAll, PlacesInAll, BorrowedAll;
  }

  // ---------- the edits of foreign code ----------

  lemma {:induction false} ReachKeepsPlaces(s: Snap, e: Edit)
    ensures PlacesIn(Reach(s, e)) == PlacesIn(s)
    decreases e, 2
  {
    match e
    case EditOne(_) =>
    case EditMany(edits) => if s.SWide? { ReachAllKeepsPlaces(s.fields, edits); }
    case EditGrowable(_, edits) => if s.SVector? && s.inner.SWide? { ReachAllKeepsPlaces(s.inner.fields, edits); }
  }

  lemma {:induction false} ReachAllKeepsPlaces(ss: seq<Snap>, es: seq<Edit>)
    ensures PlacesInAll(ReachAll(ss, es)) == PlacesInAll(ss)
    decreases es, 1
  {
    if |ss| > 0 && |es| > 0 {
      ReachKeepsPlaces(ss[0], es[0]);
      ReachAllKeepsPlaces(ss[1..], es[1..]);
    }
  }

  method ReachStore(s: Store, e: Edit)
    requires Valid(s)
    modifies Cells(s)
    ensures Valid(s) && (old(Armed(s)) ==> Armed(s)) && Contents(s) == Reach(old(Contents(s)), e)
    decreases e, 2
  {
    if s.Wide? && e.EditMany? {
      ReachFields(s, e.edits);
    } else if s.Vector? && s.inner.Wide? && e.EditGrowable? {
      var inner := s.inner;
      ReachFields(inner, e.edits);
      OverwriteBuffer(inner, RawsOf(e.edits));
    }
  }

  /** The fields of a buffer are edited behind its back. */
  method ReachFields(s: Store, es: seq<Edit>)
    requires s.Wide? && Valid(s)
    modifies Cells(s)
    ensures Valid(s) && (old(Armed(s)) ==> Armed(s)) && Places(s) == old(Places(s))
    ensures Contents(s) == old(Contents(s)).(fields := ReachAll(old(Contents(s)).fields, es))
    decreases es, 2
  {
    hide ReachAll, ValidAll, ContentsAll, PlacesInAll, CellsAll;
    ReachStores(s.fields, es);
  }

  method OverwriteBuffer(s: Store, raws: seq<Raw>)
    requires s.Wide? && Valid(s)
    modifies Cells(s)
    ensures Valid(s) && Places(s) == old(Places(s)) && Contents(s) == Overwrite(old(Contents(s)), Items(raws))
  {
    hide ValidAll, ContentsAll, PlacesInAll;
    s.wide.buffer := Some(raws);
  }

  method ReachStores(ss: seq<Store>, es: seq<Edit>)
    requires ValidAll(ss)
    modifies CellsAll(ss)
    ensures ValidAll(ss) && ContentsAll(ss) == ReachAll(old(ContentsAll(ss)), es) && PlacesAll(ss) == old(PlacesAll(ss))
    ensures forall i :: 0 <= i < |ss| && old(Armed(ss[i])) ==> Armed(ss[i])
    decreases es, 1
  {
    if |ss| > 0 && |es| > 0 {
      var head, tail := ss[0], ss[1..];
      ghost var snaps := ContentsAll(ss);
      CellsAllocated(head);
      CellsAllAllocated(tail);
      ReachKeepsPlaces(snaps[0], es[0]);
      ReachStore(head, es[0]);
      assert ValidAll(tail) && ContentsAll(tail) == snaps[1..];
      ReachStores(tail, es[1..]);
      assert Valid(head) && Contents(head) == Reach(snaps[0], es[0]);
    }
  }

  /** Foreign code edits everything that one argument gives it access to. */
  method EditStore(s: Store, e: Edit, ghost log: Log, ghost universe: set<Place>)
    requires Valid(s) && Armed(s) && Places(s) <= universe
    modifies Cells(s), Places(s)
    ensures Valid(s) && Armed(s) && Places(s) == old(Places(s)) && Contents(s) == Foreign(old(Contents(s)), e)
    ensures Now(universe, log) == Apply(OverwriteEffect(old(Contents(s)), RawOf(e)), old(Now(universe, log)))
  {
    hide *;
    ghost var before := Contents(s);
    ReachFacts(s, before, e, universe, log);
    ReachStore(s, e);
    ReachFacts(s, before, e, universe, log);
    OverwriteSlot(SlotOf(s), RawOf(e), s, log, universe);
    OverwriteKeepsPlaces(Reach(before, e), RawOf(e));
    ReachFacts(s, before, e, universe, log);
  }

  lemma ReachFacts(s: Store, before: Snap, e: Edit, universe: set<Place>, log: Log)
    ensures Places(s) == PlacesIn(Contents(s)) && PlacesIn(Reach(before, e)) == PlacesIn(before)
    ensures OverwriteEffect(Reach(before, e), RawOf(e)) == OverwriteEffect(before, RawOf(e))
    ensures Foreign(before, e) == Overwrite(Reach(before, e), RawOf(e))
    ensures forall o :: o in Cells(s) ==> IsCell(o) && o !in universe && o != log
    ensures Armed(s) ==> s.Direct? || s.Sized? || s.Wide? || s.Vector?
  {
    ReachKeepsPlaces(before, e);
    hide Cells, PlacesIn, Contents;
  }

  method EditStores(ss: seq<Store>, es: seq<Edit>, ghost log: Log, ghost universe: set<Place>)
    requires ValidAll(ss) && (forall i :: 0 <= i < |ss| ==> Armed(ss[i])) && PlacesAll(ss) <= universe && |es| == |ss|
    modifies CellsAll(ss), PlacesAll(ss)
    ensures ValidAll(ss) && PlacesAll(ss) == old(PlacesAll(ss)) &&
      ContentsAll(ss) == ForeignAll(old(ContentsAll(ss)), es)
    ensures Now(universe, log) == Apply(AtOnceAll(old(ContentsAll(ss)), es), old(Now(universe, log)))
  {
    ApplyNothing(Now(universe, log));
    if |ss| > 0 {
      var head, tail := ss[0], ss[1..];
      ghost var snaps, start := ContentsAll(ss), Now(universe, log);
      CellsAllocated(head);
      CellsAllAllocated(tail);
      EditStore(head, es[0], log, universe);
      assert ValidAll(tail) && ContentsAll(tail) == snaps[1..];
      EditStores(tail, es[1..], log, universe);
      assert Valid(head) && Contents(head) == Foreign(snaps[0], es[0]);
      ApplyThen(OverwriteEffect(snaps[0], RawOf(es[0])), AtOnceAll(snaps[1..], es[1..]), start);
    }
  }

  // ---------- the call ----------

  /** What a borrowed value becomes when only valid carriers among `w` are written back. */
  ghost function After(w: map<Place, Value>, taken: map<Place, Value>, p: Place, before: Value): Value {
    if p in w then w[p] else if p in taken then taken[p] else before
  }

  lemma CallWrites(args: seq<Mem>, snaps: seq<Snap>, edits: seq<Edit>, start: World)
    requires MirrorsAll(args, snaps) && LendableAll(args) && FitsAll(args, edits)
    ensures
      var lent := Apply(AtOnceAll(snaps, edits), Apply(Effect(true, TakenAll(args), []), start));
      var done := Apply(SyncAll(ForeignAll(snaps, edits)), lent);
      && done.values.Keys == start.values.Keys
      && forall p :: p in start.values ==>
        done.values[p] == After(EditedAll(args, edits), TakenAll(args), p, start.values[p])
  {
    SyncOfEdits(args, snaps, edits);
    hide SyncAll, ForeignAll, AtOnceAll, EditedAll, TakenAll, MirrorsAll, LendableAll, FitsAll;
  }

  lemma AbandonedWrites(args: seq<Mem>, snaps: seq<Snap>, edits: seq<Edit>, start: World)
    requires MirrorsAll(args, snaps) && FitsAll(args, edits)
    ensures
      var lent := Apply(AtOnceAll(snaps, edits), Apply(Effect(true, TakenAll(args), []), start));
      var done := Apply(DropAll(ForeignAll(snaps, edits)), lent);
      && done.values.Keys == start.values.Keys
      && forall p :: p in start.values ==>
           done.values[p] == After(EditedDirectly(args, edits), TakenAll(args), p, start.values[p])
  {
    DropOfEdits(args, snaps, edits);
    hide DropAll, ForeignAll, AtOnceAll, EditedDirectly, TakenAll, MirrorsAll, FitsAll;
  }

  lemma CurrentValues(universe: set<Place>, log: Log)
    ensures Now(universe, log).values.Keys == universe
    ensures forall p :: p in universe ==> Now(universe, log).values[p] == p.value
  {
  }

  /** Stores that hold encodings can be edited and synchronised. */
  lemma LentStores(stores: seq<Store>, pointers: seq<Slot>, args: seq<Mem>, es: seq<Edit>)
    requires HoldAll(stores, pointers, args, es)
    ensures ValidAll(stores) && MirrorsAll(args, ContentsAll(stores)) && PlacesAll(stores) == BorrowedAll(args)
    ensures forall i :: 0 <= i < |stores| ==> Armed(stores[i])
  {
    HoldAllParts(stores, pointers, args, es);
    hide Armed, ValidAll, MirrorsAll, ContentsAll, PlacesInAll, BorrowedAll, ForeignAll;
  }

  /** `soft_call`: lend every argument, call, synchronise every store even after a
      failure, and return the decoded result only if every synchronisation succeeded. */
  method SoftCall(args: seq<Mem>, edits: seq<Edit>, result: Carrier, ret: Ty, log: Log, ghost universe: set<Place>)
      returns (r: Option<Value>)
    requires WellTypedAll(args) && LendableAll(args) && FitsAll(args, edits) && BorrowedAll(args) <= universe
    modifies BorrowedAll(args), log
    ensures r == if AcceptedAll(args, edits) then Decode(Checked, ret, result) else None
    ensures forall p :: p in universe ==> p.value == After(EditedAll(args, edits), TakenAll(args), p, old(p.value))
  {
    hide *;
    ghost var start, shown := Now(universe, log), ShownAll(args);
    CurrentValues(universe, log);
    SameLength(args, edits);
    var stores, _, pointers := EncodeElements(args, log, universe);
    ghost var snaps := ContentsAll(stores);
    LentStores(stores, pointers, args, shown);
    EditStores(stores, edits, log, universe);
    var syncOk := SyncAllStores(stores, log, universe);
    SyncOfEdits(args, snaps, edits);
    CallWrites(args, snaps, edits, start);
    var decoded := Decode(Checked, ret, result);
    r := if syncOk then decoded else None;
    CurrentValues(universe, log);
  }

  /** A call that never returns to its driver: the stores are dropped instead of
      synchronised. Only arguments that are themselves lent in place keep their edits. */
  method AbandonCall(args: seq<Mem>, edits: seq<Edit>, log: Log, ghost universe: set<Place>)
    requires WellTypedAll(args) && LendableAll(args) && FitsAll(args, edits) && BorrowedAll(args) <= universe
    modifies BorrowedAll(args), log
    ensures forall p :: p in universe ==>
      p.value == After(EditedDirectly(args, edits), TakenAll(args), p, old(p.value))
  {
    hide *;
    ghost var start, shown := Now(universe, log), ShownAll(args);
    CurrentValues(universe, log);
    SameLength(args, edits);
    var stores, _, pointers := EncodeElements(args, log, universe);
    ghost var snaps := ContentsAll(stores);
    LentStores(stores, pointers, args, shown);
    EditStores(stores, edits, log, universe);
    DropAllStores(stores, log, universe);
    AbandonedWrites(args, snaps, edits, start);
    CurrentValues(universe, log);
  }
}
