/** Stores that hold the C copies of mutably borrowed Rust values and write the
    edited copies back. `Store` is the tree of stores that one argument owns;
    its nodes refer to the objects that foreign code and `sync` update in place. */
module SoftStores {
  import opened Wrappers
  import opened Types
  import opened SharedMemory

  /** Checked decoding of one element type. */
  type Decoder = Carrier -> Option<Value>

  /** What one slot of C memory holds: a carrier, an array of slots or a vector
      header, whose pointer is 0 when null. */
  datatype Raw = Leaf(c: Carrier) | Items(raws: seq<Raw>) | Header(pointer: nat, len: nat, capacity: nat)

  /** State of a `RefMutSizedEncodeStore`. */
  class SizedCell {
    const decode: Decoder
    var ctype: Option<Carrier>
    var original: Place?

    constructor (decode: Decoder)
      ensures this.decode == decode && ctype == None && original == null
    {
      this.decode := decode;
      ctype := None;
      original := null;
    }
  }

  /** State of a `RefMutWideEncodeStore`: the converted elements and the slots they came from. */
  class WideCell {
    var buffer: Option<seq<Raw>>
    var writeback: Option<seq<Slot>>

    constructor ()
      ensures buffer == None && writeback == None
    {
      buffer := None;
      writeback := None;
    }
  }

  /** State of a `RefMutReferenceEncodeStore` over a vector header. */
  class HeaderCell {
    var value: Option<Raw>
    var original: Option<Raw>

    constructor ()
      ensures value == None && original == None
    {
      value := None;
      original := None;
    }
  }

  /** The memory that an element pointer addresses. */
  datatype Slot =
    | AtPlace(place: Place, decode: Decoder)
    | AtSized(sized: SizedCell)
    | AtWide(wide: WideCell)
    | AtHeader(header: HeaderCell)

  /** `Direct` is the empty store of a robust value: its pointer addresses the
      value itself. The store of an option or a result is the store of the side
      it holds, `Empty` if it holds none. `All` is a boxed slice or an array of stores. */
  datatype Store =
    | Empty
    | Direct(place: Place, decode: Decoder)
    | Sized(sized: SizedCell, inner: Store)
    | Wide(wide: WideCell, fields: seq<Store>)
    | Vector(header: HeaderCell, inner: Store)
    | All(stores: seq<Store>)
    | Tuple(stores: seq<Store>)

  function SlotOf(s: Store): Slot
    requires s.Direct? || s.Sized? || s.Wide? || s.Vector?
  {
    match s
    case Direct(place, decode) => AtPlace(place, decode)
    case Sized(sized, _) => AtSized(sized)
    case Wide(wide, _) => AtWide(wide)
    case Vector(header, _) => AtHeader(header)
  }

  // ---------- what synchronising a tree does ----------

  /** The contents of a store tree. */
  datatype Snap =
    | SEmpty
    | SDirect(place: Place, decode: Decoder)
    | SSized(cell: SizedCell, ctype: Option<Carrier>, original: Place?, inner: Snap)
    | SWide(buffer: Option<seq<Raw>>, armed: bool, fields: seq<Snap>)
    | SVector(value: Option<Raw>, header: Option<Raw>, inner: Snap)
    | SAll(stores: seq<Snap>)
    | STuple(stores: seq<Snap>)

  /** What happened: whether every step succeeded, the last value written to each
      place and the carriers that were decoded, in order. */
  datatype Effect = Effect(ok: bool, writes: map<Place, Value>, decoded: seq<(SizedCell, Carrier)>)

  const NOTHING := Effect(true, map[], [])

  function Then(first: Effect, second: Effect): Effect {
    Effect(first.ok && second.ok, first.writes + second.writes, first.decoded + second.decoded)
  }

  /** The store after its slot has been overwritten. */
  function Overwrite(s: Snap, raw: Raw): Snap {
    match s
    case SSized(_, _, _, _) => if raw.Leaf? then s.(ctype := Some(raw.c)) else s
    case SWide(_, _, _) => if raw.Items? then s.(buffer := Some(raw.raws)) else s
    case SVector(_, _, _) => if raw.Header? then s.(value := Some(raw)) else s
    case _ => s
  }

  /** Overwriting the slot of a robust value changes the value at once. */
  function OverwriteEffect(s: Snap, raw: Raw): Effect {
    if s.SDirect? && raw.Leaf? && s.decode(raw.c).Some?
    then Effect(true, map[s.place := s.decode(raw.c).value], [])
    else NOTHING
  }

  /** Elements and pointers are zipped: surplus ones are left alone. */
  function OverwriteAll(fields: seq<Snap>, raws: seq<Raw>): seq<Snap> {
    seq(|fields|, i requires 0 <= i < |fields| => if i < |raws| then Overwrite(fields[i], raws[i]) else fields[i])
  }

  function Shorter(a: nat, b: nat): nat {
    if a < b then a else b
  }

  function OverwriteFirst(fields: seq<Snap>, raws: seq<Raw>, n: nat): (e: Effect)
    requires n <= |fields| && n <= |raws|
    ensures e.ok && e.decoded == []
  {
    if n == 0 then NOTHING
    else Then(OverwriteFirst(fields, raws, n - 1), OverwriteEffect(fields[n - 1], raws[n - 1]))
  }

  predicate SameHeader(a: Option<Raw>, b: Option<Raw>) {
    a.Some? && a == b && a.value.Header? && a.value.pointer != 0
  }

  function Height(s: Snap): nat {
    match s
    case SSized(_, _, _, inner) => 1 + Height(inner)
    case SVector(_, _, inner) => 1 + Height(inner)
    case SWide(_, _, fields) => 1 + HeightAll(fields)
    case SAll(stores) => 1 + HeightAll(stores)
    case STuple(stores) => 1 + HeightAll(stores)
    case _ => 0
  }

  function HeightAll(ss: seq<Snap>): (h: nat)
    ensures forall i :: 0 <= i < |ss| ==> Height(ss[i]) <= h
  {
    if |ss| == 0 then 0
    else
      var rest := HeightAll(ss[1..]);
      if Height(ss[0]) < rest then rest else Height(ss[0])
  }

  lemma {:induction false} OverwriteAllKeepsHeight(fields: seq<Snap>, raws: seq<Raw>)
    ensures HeightAll(OverwriteAll(fields, raws)) == HeightAll(fields)
  {
    if |fields| > 0 {
      var rest := if |raws| == 0 then [] else raws[1..];
      OverwriteAllKeepsHeight(fields[1..], rest);
      assert OverwriteAll(fields, raws)[1..] == OverwriteAll(fields[1..], rest);
    }
  }

  /** `Store::sync` of a whole tree. */
  function Sync(s: Snap): Effect
    decreases Height(s), 0, 0
  {
    match s
    case SEmpty => NOTHING
    case SDirect(_, _) => NOTHING
    case SSized(cell, ctype, original, inner) =>
      if ctype.None? then Drop(inner).(ok := false)
      else
        var value := cell.decode(ctype.value);
        var done := Then(Effect(true, map[], [(cell, ctype.value)]), Sync(inner));
        if done.ok && original != null && value.Some?
        then Then(done, Effect(true, map[original := value.value], []))
        else done.(ok := false)
    case SWide(buffer, armed, fields) =>
      if !armed then SyncAll(fields)
      else if buffer.None? then DropAll(fields).(ok := false)
      else
        assert HeightAll(OverwriteAll(fields, buffer.value)) == HeightAll(fields) by {
          OverwriteAllKeepsHeight(fields, buffer.value);
        }
        Then(OverwriteFirst(fields, buffer.value, Shorter(|fields|, |buffer.value|)),
          SyncAll(OverwriteAll(fields, buffer.value)))
    case SVector(value, header, inner) =>
      var done := Sync(inner);
      done.(ok := done.ok && SameHeader(value, header))
    case SAll(stores) => SyncAll(stores)
    case STuple(stores) => SyncTuple(stores)
  }

  /** Boxed slices and arrays of stores synchronise every element. */
  function SyncAll(ss: seq<Snap>): Effect
    decreases HeightAll(ss), 1, |ss|
  {
    if |ss| == 0 then NOTHING else Then(Sync(ss[0]), SyncAll(ss[1..]))
  }

  /** Tuples of stores stop at the first failure and drop the later stores, last first. */
  function SyncTuple(ss: seq<Snap>): Effect
    decreases HeightAll(ss), 1, |ss|
  {
    if |ss| == 0 then NOTHING
    else
      var first := Sync(ss[0]);
      if first.ok then Then(first, SyncTuple(ss[1..])) else Then(first, DropReversed(ss[1..]))
  }

  /** Dropping a tree that is not synchronised: an armed carrier is decoded and
      thrown away, but the stores that hold its parts are synchronised. */
  function Drop(s: Snap): Effect
    decreases Height(s), 0, 0
  {
    match s
    case SEmpty => NOTHING
    case SDirect(_, _) => NOTHING
    case SSized(cell, ctype, _, inner) =>
      if ctype.None? then Drop(inner)
      else Then(Effect(true, map[], [(cell, ctype.value)]), Sync(inner))
    case SWide(_, _, fields) => DropAll(fields)
    case SVector(_, _, inner) => Drop(inner)
    case SAll(stores) => DropAll(stores)
    case STuple(stores) => DropAll(stores)
  }

  function DropAll(ss: seq<Snap>): Effect
    decreases HeightAll(ss), 1, |ss|
  {
    if |ss| == 0 then NOTHING else Then(Drop(ss[0]), DropAll(ss[1..]))
  }

  function DropReversed(ss: seq<Snap>): Effect
    decreases HeightAll(ss), 1, |ss|
  {
    if |ss| == 0 then NOTHING else Then(DropReversed(ss[1..]), Drop(ss[0]))
  }

  /** The borrowed values that a tree may write. */
  function PlacesIn(s: Snap): set<Place>
    decreases s, 1
  {
    match s
    case SEmpty => {}
    case SDirect(place, _) => {place}
    case SSized(_, _, original, inner) => (if original == null then {} else {original}) + PlacesIn(inner)
    case SWide(_, _, fields) => PlacesInAll(fields)
    case SVector(_, _, inner) => PlacesIn(inner)
    case SAll(stores) => PlacesInAll(stores)
    case STuple(stores) => PlacesInAll(stores)
  }

  function PlacesInAll(ss: seq<Snap>): (places: set<Place>)
    ensures forall i :: 0 <= i < |ss| ==> PlacesIn(ss[i]) <= places
    decreases ss, 0
  {
    if |ss| == 0 then {} else PlacesIn(ss[0]) + PlacesInAll(ss[1..])
  }

  lemma OverwriteKeepsPlaces(s: Snap, raw: Raw)
    ensures PlacesIn(Overwrite(s, raw)) == PlacesIn(s)
  {
  }

  lemma {:induction false} OverwriteAllKeepsPlaces(fields: seq<Snap>, raws: seq<Raw>)
    ensures PlacesInAll(OverwriteAll(fields, raws)) == PlacesInAll(fields)
  {
    if |fields| > 0 {
      var rest := if |raws| == 0 then [] else raws[1..];
      OverwriteAllKeepsPlaces(fields[1..], rest);
      assert OverwriteAll(fields, raws)[1..] == OverwriteAll(fields[1..], rest);
    }
  }

  /** Synchronising and dropping write only places of the tree. */
  lemma {:induction false} WritesWithin(s: Snap)
    ensures Sync(s).writes.Keys <= PlacesIn(s) && Drop(s).writes.Keys <= PlacesIn(s)
    decreases Height(s), 0, 0
  {
    match s
    case SEmpty =>
    case SDirect(_, _) =>
    case SSized(_, _, _, inner) => WritesWithin(inner);
    case SWide(buffer, armed, fields) =>
      WritesWithinAll(fields);
      if armed && buffer.Some? {
        OverwriteAllKeepsHeight(fields, buffer.value);
        OverwriteAllKeepsPlaces(fields, buffer.value);
        WritesWithinAll(OverwriteAll(fields, buffer.value));
        OverwriteWithin(fields, buffer.value, Shorter(|fields|, |buffer.value|));
      }
    case SVector(_, _, inner) => WritesWithin(inner);
    case SAll(stores) => WritesWithinAll(stores);
    case STuple(stores) => WritesWithinAll(stores);
  }

  lemma {:induction false} OverwriteWithin(fields: seq<Snap>, raws: seq<Raw>, n: nat)
    requires n <= |fields| && n <= |raws|
    ensures OverwriteFirst(fields, raws, n).writes.Keys <= PlacesInAll(fields)
  {
    if n > 0 {
      OverwriteWithin(fields, raws, n - 1);
      assert OverwriteEffect(fields[n - 1], raws[n - 1]).writes.Keys <= PlacesIn(fields[n - 1]);
    }
  }

  lemma {:induction false} WritesWithinAll(ss: seq<Snap>)
    ensures SyncAll(ss).writes.Keys <= PlacesInAll(ss) && SyncTuple(ss).writes.Keys <= PlacesInAll(ss)
    ensures DropAll(ss).writes.Keys <= PlacesInAll(ss) && DropReversed(ss).writes.Keys <= PlacesInAll(ss)
    decreases HeightAll(ss), 1, |ss|
  {
    if |ss| > 0 {
      WritesWithin(ss[0]);
      WritesWithinAll(ss[1..]);
    }
  }

  // ---------- the objects of a tree ----------

  /** Records, for specification only, which carriers have been decoded. */
  class Log {
    ghost var events: seq<(SizedCell, Carrier)>

    constructor ()
      ensures events == []
    {
      events := [];
    }
  }

  predicate IsCell(o: object) {
    !(o is Place) && !(o is Log)
  }

  ghost function Cells(s: Store): (cells: set<object>)
    ensures forall o :: o in cells ==> IsCell(o)
    decreases s, 1
  {
    match s
    case Empty => {}
    case Direct(_, _) => {}
    case Sized(sized, inner) => {sized} + Cells(inner)
    case Wide(wide, fields) => {wide} + CellsAll(fields)
    case Vector(header, inner) => {header} + Cells(inner)
    case All(stores) => CellsAll(stores)
    case Tuple(stores) => CellsAll(stores)
  }

  ghost function CellsAll(ss: seq<Store>): (cells: set<object>)
    ensures forall o :: o in cells ==> IsCell(o)
    ensures forall i :: 0 <= i < |ss| ==> Cells(ss[i]) <= cells
    decreases ss, 0
  {
    if |ss| == 0 then {} else Cells(ss[0]) + CellsAll(ss[1..])
  }

  ghost function Contents(s: Store): Snap
    reads Cells(s)
    decreases s, 1
  {
    match s
    case Empty => SEmpty
    case Direct(place, decode) => SDirect(place, decode)
    case Sized(sized, inner) => SSized(sized, sized.ctype, sized.original, Contents(inner))
    case Wide(wide, fields) => SWide(wide.buffer, wide.writeback.Some?, ContentsAll(fields))
    case Vector(header, inner) => SVector(header.value, header.original, Contents(inner))
    case All(stores) => SAll(ContentsAll(stores))
    case Tuple(stores) => STuple(ContentsAll(stores))
  }

  ghost function ContentsAll(ss: seq<Store>): (snaps: seq<Snap>)
    reads CellsAll(ss)
    ensures |snaps| == |ss| && forall i :: 0 <= i < |ss| ==> snaps[i] == Contents(ss[i])
    decreases ss, 0
  {
    if |ss| == 0 then [] else [Contents(ss[0])] + ContentsAll(ss[1..])
  }

  ghost function Places(s: Store): set<Place>
    reads Cells(s)
  {
    PlacesIn(Contents(s))
  }

  ghost function PlacesAll(ss: seq<Store>): set<Place>
    reads CellsAll(ss)
  {
    PlacesInAll(ContentsAll(ss))
  }

  /** The slot of a store can be read and written. */
  ghost predicate Armed(s: Store)
    reads Cells(s)
  {
    match s
    case Direct(_, _) => true
    case Sized(sized, _) => sized.ctype.Some?
    case Wide(wide, _) => wide.buffer.Some?
    case Vector(header, _) => header.value.Some?
    case _ => false
  }

  /** No object or place is shared between the parts of a tree, and the retained
      element pointers of an armed buffer address the armed slots of its fields. */
  ghost predicate Valid(s: Store)
    reads Cells(s)
    decreases s, 1
  {
    match s
    case Empty => true
    case Direct(_, _) => true
    case Sized(sized, inner) =>
      && sized !in Cells(inner) && Valid(inner)
      && (sized.ctype.Some? ==> sized.original != null)
      && sized.original !in Places(inner)
    case Wide(wide, fields) =>
      && wide !in CellsAll(fields) && ValidAll(fields)
      && (wide.writeback.Some? ==> wide.buffer.Some? && PointAt(wide.writeback.value, fields))
    case Vector(header, inner) => header !in Cells(inner) && Valid(inner)
    case All(stores) => ValidAll(stores)
    case Tuple(stores) => ValidAll(stores)
  }

  ghost predicate ValidAll(ss: seq<Store>)
    reads CellsAll(ss)
    decreases ss, 0
  {
    |ss| == 0 ||
    (Valid(ss[0]) && ValidAll(ss[1..]) && Cells(ss[0]) !! CellsAll(ss[1..]) && Places(ss[0]) !! PlacesAll(ss[1..]))
  }

  ghost predicate PointAt(pointers: seq<Slot>, fields: seq<Store>)
    reads CellsAll(fields)
  {
    && |pointers| == |fields|
    && forall i :: 0 <= i < |fields| ==> Armed(fields[i]) && pointers[i] == SlotOf(fields[i])
  }

  // ---------- synchronisation in place ----------

  /** The values of the borrowed places and the carriers decoded so far. */
  datatype World = World(values: map<Place, Value>, events: seq<(SizedCell, Carrier)>)

  ghost function Now(places: set<Place>, log: Log): World
    reads places, log
  {
    World(map p | p in places :: p.value, log.events)
  }

  function Final(e: Effect, p: Place, before: Value): Value {
    if p in e.writes then e.writes[p] else before
  }

  ghost function Apply(e: Effect, w: World): World {
    World(map p | p in w.values :: Final(e, p, w.values[p]), w.events + e.decoded)
  }

  lemma ApplyThen(a: Effect, b: Effect, w: World)
    ensures Apply(Then(a, b), w) == Apply(b, Apply(a, w))
  {
    assert w.events + (a.decoded + b.decoded) == w.events + a.decoded + b.decoded;
  }

  lemma ApplyNothing(w: World)
    ensures Apply(NOTHING, w) == w
  {
  }

  lemma SizedEffect(s: Snap)
    requires s.SSized? && s.ctype.Some? && s.original != null
    ensures Sync(s).ok <==> Sync(s.inner).ok && s.cell.decode(s.ctype.value).Some?
    ensures Drop(s) == Then(Effect(true, map[], [(s.cell, s.ctype.value)]), Sync(s.inner))
  {
  }

  /** Read back `*pointer = *value`: store a raw value in the memory of a slot. */
  method OverwriteSlot(slot: Slot, raw: Raw, ghost s: Store, ghost log: Log, ghost universe: set<Place>)
    requires Valid(s) && Armed(s) && slot == SlotOf(s) && Places(s) <= universe
    modifies Cells(s), Places(s)
    ensures Contents(s) == Overwrite(old(Contents(s)), raw) && Valid(s) && Armed(s)
    ensures Now(universe, log) == Apply(OverwriteEffect(old(Contents(s)), raw), old(Now(universe, log)))
  {
    hide Sync, SyncAll, SyncTuple, Drop, DropAll, DropReversed, Height, HeightAll;
    match slot
    case AtPlace(place, decode) =>
      if raw.Leaf? {
        var value := decode(raw.c);
        if value.Some? {
          place.value := value.value;
        }
      }
    case AtSized(sized) => if raw.Leaf? { sized.ctype := Some(raw.c); }
    case AtWide(wide) => if raw.Items? { wide.buffer := Some(raw.raws); }
    case AtHeader(header) => if raw.Header? { header.value := Some(raw); }
  }

  /** Consume a tree of stores: write every edited value back. */
  method SyncStore(s: Store, log: Log, ghost universe: set<Place>) returns (ok: bool)
    requires Valid(s) && Places(s) <= universe
    modifies Cells(s), Places(s), log
    ensures ok == Sync(old(Contents(s))).ok
    ensures Now(universe, log) == Apply(Sync(old(Contents(s))), old(Now(universe, log)))
    decreases s, 2
  {
    ApplyNothing(Now(universe, log));
    match s
    case Empty => ok := true;
    case Direct(_, _) => ok := true;
    case Sized(_, _) =>
      ok := SyncSized(s, log, universe);
    case Wide(_, _) =>
      ok := SyncWide(s, log, universe);
    case Vector(header, inner) =>
      var kept := SameHeader(header.value, header.original);
      ok := SyncStore(inner, log, universe);
      ok := ok && kept;
    case All(stores) => ok := SyncAllStores(stores, log, universe);
    case Tuple(stores) => ok := SyncTupleStores(stores, log, universe);
  }

  /** `RefMutSizedEncodeStore::sync`: write the original only if finishing yields a value. */
  method SyncSized(s: Store, log: Log, ghost universe: set<Place>) returns (ok: bool)
    requires s.Sized? && Valid(s) && Places(s) <= universe
    modifies Cells(s), Places(s), log
    ensures ok == Sync(old(Contents(s))).ok
    ensures Now(universe, log) == Apply(Sync(old(Contents(s))), old(Now(universe, log)))
    decreases s, 1
  {
    ghost var before, start := Contents(s), Now(universe, log);
    if s.sized.ctype.None? {
      ok := false;
      DropStore(s.inner, log, universe);
    } else {
      var original, value := FinishSized(s, log, universe);
      ok := value.Some?;
      if ok {
        original.value := value.value;
        ApplyThen(Drop(before), Effect(true, map[original := value.value], []), start);
      }
    }
  }

  /** `RefMutSizedEncodeStore::finish` of an armed store: take the carrier, decode
      it, synchronise the parts, and return the place and the value to write if
      both succeeded. */
  method FinishSized(s: Store, log: Log, ghost universe: set<Place>) returns (original: Place?, value: Option<Value>)
    requires s.Sized? && s.sized.ctype.Some? && Valid(s) && Places(s) <= universe
    modifies Cells(s), Places(s), log
    ensures original != null && original in old(Places(s)) && original == old(s.sized.original)
    ensures value.Some? <==> Sync(old(Contents(s))).ok
    ensures value.Some? ==> value == s.sized.decode(old(s.sized.ctype).value)
    ensures Now(universe, log) == Apply(Drop(old(Contents(s))), old(Now(universe, log)))
    decreases s, 0
  {
    var sized := s.sized;
    var carrier := sized.ctype.value;
    ghost var start, inner, first := Now(universe, log), Contents(s.inner), Effect(true, map[], [(sized, carrier)]);
    SizedEffect(Contents(s));
    ApplyThen(first, Sync(inner), start);
    hide Sync, SyncAll, SyncTuple, Drop, DropAll, DropReversed, Height, HeightAll, Then;
    sized.ctype := None;
    value := sized.decode(carrier);
    log.events := log.events + [(sized, carrier)];
    assert Now(universe, log) == Apply(first, start);
    hide Apply, Now;
    var synced := SyncStore(s.inner, log, universe);
    original := sized.original;
    sized.original := null;
    if !synced {
      value := None;
    }
  }

  lemma {:induction false} CellsAllocated(s: Store)
    ensures forall o :: o in Cells(s) ==> allocated(o)
    decreases s, 1
  {
    match s
    case Empty =>
    case Direct(_, _) =>
    case Sized(_, inner) => CellsAllocated(inner);
    case Wide(_, fields) => CellsAllAllocated(fields);
    case Vector(_, inner) => CellsAllocated(inner);
    case All(stores) => CellsAllAllocated(stores);
    case Tuple(stores) => CellsAllAllocated(stores);
  }

  lemma {:induction false} CellsAllAllocated(ss: seq<Store>)
    ensures forall o :: o in CellsAll(ss) ==> allocated(o)
    decreases ss, 0
  {
    if |ss| > 0 {
      CellsAllocated(ss[0]);
      CellsAllAllocated(ss[1..]);
    }
  }

  /** Synchronise the first of several separate stores; the others keep their contents. */
  method SyncHead(ss: seq<Store>, log: Log, ghost universe: set<Place>) returns (ok: bool)
    requires |ss| > 0 && ValidAll(ss) && PlacesAll(ss) <= universe
    modifies Cells(ss[0]), Places(ss[0]), log
    ensures ValidAll(ss[1..]) && ContentsAll(ss[1..]) == old(ContentsAll(ss))[1..]
    ensures PlacesAll(ss[1..]) == old(PlacesAll(ss[1..]))
    ensures ok == Sync(old(ContentsAll(ss))[0]).ok
    ensures Now(universe, log) == Apply(Sync(old(ContentsAll(ss))[0]), old(Now(universe, log)))
    decreases ss, 0
  {
    ghost var tail := ss[1..];
    assert ValidAll(tail) && ContentsAll(ss)[1..] == ContentsAll(tail);
    CellsAllAllocated(tail);
    ok := SyncStore(ss[0], log, universe);
    assert ValidAll(tail);
  }

  lemma SyncAllStep(snaps: seq<Snap>, w: World)
    requires |snaps| > 0
    ensures Apply(SyncAll(snaps), w) == Apply(SyncAll(snaps[1..]), Apply(Sync(snaps[0]), w))
    ensures SyncAll(snaps).ok <==> Sync(snaps[0]).ok && SyncAll(snaps[1..]).ok
  {
    ApplyThen(Sync(snaps[0]), SyncAll(snaps[1..]), w);
  }

  lemma TailWithin(ss: seq<Store>)
    requires |ss| > 0
    ensures CellsAll(ss[1..]) <= CellsAll(ss) && PlacesAll(ss[1..]) <= PlacesAll(ss)
    ensures Cells(ss[0]) <= CellsAll(ss) && Places(ss[0]) <= PlacesAll(ss)
  {
  }

  method SyncAllStores(ss: seq<Store>, log: Log, ghost universe: set<Place>) returns (ok: bool)
    requires ValidAll(ss) && PlacesAll(ss) <= universe
    modifies CellsAll(ss), PlacesAll(ss), log
    ensures ok == SyncAll(old(ContentsAll(ss))).ok
    ensures Now(universe, log) == Apply(SyncAll(old(ContentsAll(ss))), old(Now(universe, log)))
    decreases ss, 1
  {
    hide Sync, Drop, SyncTuple, DropAll, DropReversed, Height, HeightAll, Contents, Cells, Valid, PlacesIn, Apply, Now;
    hide PlacesInAll, CellsAll, ValidAll, ContentsAll, Places, Then;
    var rest := ss;
    ok := true;
    while |rest| > 0
      invariant |rest| <= |ss| && rest == ss[|ss| - |rest|..]
      invariant ValidAll(rest) && PlacesAll(rest) <= old(PlacesAll(ss)) && CellsAll(rest) <= CellsAll(ss)
      invariant SyncAll(old(ContentsAll(ss))).ok <==> ok && SyncAll(ContentsAll(rest)).ok
      invariant Apply(SyncAll(ContentsAll(rest)), Now(universe, log)) ==
                Apply(SyncAll(old(ContentsAll(ss))), old(Now(universe, log)))
      decreases |rest|
    {
      TailWithin(rest);
      SyncAllStep(ContentsAll(rest), Now(universe, log));
      var synced := SyncHead(rest, log, universe);
      if !synced {
        ok := false;
      }
      rest := rest[1..];
    }
    ApplyNothing(Now(universe, log));
  }

  lemma WideEffect(buffer: Option<seq<Raw>>, armed: bool, fields: seq<Snap>)
    ensures !armed ==> Sync(SWide(buffer, armed, fields)) == SyncAll(fields)
    ensures armed && buffer.Some? ==>
      Sync(SWide(buffer, armed, fields)) ==
        Then(OverwriteFirst(fields, buffer.value, Shorter(|fields|, |buffer.value|)),
          SyncAll(OverwriteAll(fields, buffer.value)))
    ensures armed && buffer.Some? ==>
      (Sync(SWide(buffer, armed, fields)).ok <==> SyncAll(OverwriteAll(fields, buffer.value)).ok)
  {
    hide SyncAll;
  }

  /** `RefMutWideEncodeStore::sync`: copy every element of the buffer back to the
      slot it came from, then synchronise the stores of the elements. */
  method SyncWide(s: Store, log: Log, ghost universe: set<Place>) returns (ok: bool)
    requires s.Wide? && Valid(s) && Places(s) <= universe
    modifies Cells(s), Places(s), log
    ensures ok == Sync(old(Contents(s))).ok
    ensures Now(universe, log) == Apply(Sync(old(Contents(s))), old(Now(universe, log)))
    decreases s, 1
  {
    var wide, fields := s.wide, s.fields;
    ghost var before, start := ContentsAll(fields), Now(universe, log);
    assert Places(s) == PlacesAll(fields);
    WideEffect(wide.buffer, wide.writeback.Some?, before);
    hide Sync, SyncAll, Drop, SyncTuple, DropAll, DropReversed, Then, OverwriteFirst, OverwriteAll;
    hide Height, HeightAll, PlacesIn, PlacesInAll, Apply, Now, ValidAll;
    if wide.writeback.Some? {
      var values := wide.buffer.value;
      OverwriteAllKeepsPlaces(before, values);
      CopyBack(values, wide.writeback.value, fields, log, universe);
      ApplyThen(OverwriteFirst(before, values, Shorter(|before|, |values|)), SyncAll(OverwriteAll(before, values)),
        start);
    }
    ok := SyncAllStores(fields, log, universe);
  }

  /** The parts of a sequence of stores are valid and pairwise share nothing. */
  ghost predicate Separate(ss: seq<Store>)
    reads CellsAll(ss)
  {
    && (forall i :: 0 <= i < |ss| ==> Valid(ss[i]))
    && (forall i, j :: 0 <= i < j < |ss| ==> Cells(ss[i]) !! Cells(ss[j]) && Places(ss[i]) !! Places(ss[j]))
  }

  lemma {:induction false} OwnerOf(ss: seq<Store>)
    ensures forall o :: o in CellsAll(ss) ==> exists i :: 0 <= i < |ss| && o in Cells(ss[i])
    ensures forall p :: p in PlacesAll(ss) ==> exists i :: 0 <= i < |ss| && p in Places(ss[i])
  {
    if |ss| > 0 {
      OwnerOf(ss[1..]);
      assert ContentsAll(ss)[1..] == ContentsAll(ss[1..]);
      forall o | o in CellsAll(ss[1..]) ensures exists i :: 0 <= i < |ss| && o in Cells(ss[i]) {
        var i :| 0 <= i < |ss[1..]| && o in Cells(ss[1..][i]);
        assert ss[1..][i] == ss[i + 1];
      }
      forall p | p in PlacesAll(ss) ensures exists i :: 0 <= i < |ss| && p in Places(ss[i]) {
        if p in PlacesAll(ss[1..]) {
          var i :| 0 <= i < |ss[1..]| && p in Places(ss[1..][i]);
          assert ss[1..][i] == ss[i + 1];
        } else {
          assert p in Places(ss[0]);
        }
      }
    }
  }

  lemma {:induction false} ValidIsSeparate(ss: seq<Store>)
    ensures ValidAll(ss) <==> Separate(ss)
  {
    if |ss| > 0 {
      var tail := ss[1..];
      ValidIsSeparate(tail);
      OwnerOf(tail);
      if ValidAll(ss) {
        forall i, j | 0 <= i < j < |ss| ensures Cells(ss[i]) !! Cells(ss[j]) && Places(ss[i]) !! Places(ss[j]) {
          assert ss[j] == tail[j - 1];
          assert i > 0 ==> ss[i] == tail[i - 1];
        }
        forall i | 0 <= i < |ss| ensures Valid(ss[i]) {
          assert i > 0 ==> ss[i] == tail[i - 1];
        }
      }
      if Separate(ss) {
        assert forall i :: 0 <= i < |tail| ==> tail[i] == ss[i + 1];
      }
    }
  }

  /** Overwrite the slot of one of several stores; the others keep their contents. */
  method OverwriteAt(ghost ss: seq<Store>, k: nat, slot: Slot, raw: Raw, ghost log: Log, ghost universe: set<Place>)
    requires k < |ss| && ValidAll(ss) && Armed(ss[k]) && slot == SlotOf(ss[k]) && PlacesAll(ss) <= universe
    modifies CellsAll(ss), PlacesAll(ss)
    ensures ValidAll(ss) && (forall i :: 0 <= i < |ss| && old(Armed(ss[i])) ==> Armed(ss[i]))
    ensures ContentsAll(ss) == old(ContentsAll(ss))[k := Overwrite(old(ContentsAll(ss))[k], raw)]
    ensures Now(universe, log) == Apply(OverwriteEffect(old(ContentsAll(ss))[k], raw), old(Now(universe, log)))
  {
    ValidIsSeparate(ss);
    CellsAllAllocated(ss);
    hide Sync, SyncAll, Drop, DropAll, Height, HeightAll, Apply, Now, ValidAll, Valid, Contents, PlacesIn, Overwrite;
    OverwriteSlot(slot, raw, ss[k], log, universe);
    OverwriteKeepsPlaces(old(Contents(ss[k])), raw);
    forall i | 0 <= i < |ss| && i != k
      ensures Valid(ss[i]) && Contents(ss[i]) == old(Contents(ss[i])) && Armed(ss[i]) == old(Armed(ss[i]))
    {
      assert Cells(ss[i]) !! Cells(ss[k]);
    }
    ValidIsSeparate(ss);
  }

  /** The first `n` elements of the buffer have been copied back. */
  ghost predicate Copied(n: nat, before: seq<Snap>, values: seq<Raw>, pointers: seq<Slot>, fields: seq<Store>)
    requires n <= |values|
    reads CellsAll(fields)
  {
    && ContentsAll(fields) == OverwriteAll(before, values[..n])
    && ValidAll(fields) && PointAt(pointers, fields) && PlacesAll(fields) == PlacesInAll(before)
  }

  method CopyOne(i: nat, ghost before: seq<Snap>, values: seq<Raw>, pointers: seq<Slot>, ghost fields: seq<Store>,
      ghost log: Log, ghost universe: set<Place>)
    requires i < |pointers| && i < |values| && Copied(i, before, values, pointers, fields)
    requires PlacesInAll(before) <= universe
    modifies CellsAll(fields), PlacesInAll(before)
    ensures |before| == |pointers| && Copied(i + 1, before, values, pointers, fields)
    ensures Now(universe, log) == Apply(OverwriteEffect(before[i], values[i]), old(Now(universe, log)))
  {
    hide *;
    CopiedParts(i, before, values, pointers, fields);
    ArmedAreSlots(fields);
    OverwriteAt(fields, i, pointers[i], values[i], log, universe);
    OverwriteOneMore(before, values, i);
    OverwriteAllKeepsPlaces(before, values[..i + 1]);
    ArmedAreSlots(fields);
    CopiedParts(i + 1, before, values, pointers, fields);
  }

  lemma CopiedParts(n: nat, before: seq<Snap>, values: seq<Raw>, pointers: seq<Slot>, fields: seq<Store>)
    requires n <= |values|
    ensures Copied(n, before, values, pointers, fields) <==>
      && ContentsAll(fields) == OverwriteAll(before, values[..n]) && ValidAll(fields)
      && |pointers| == |fields|
      && (forall i :: 0 <= i < |fields| ==> Armed(fields[i]) && pointers[i] == SlotOf(fields[i]))
      && PlacesInAll(ContentsAll(fields)) == PlacesInAll(before)
    ensures PlacesAll(fields) == PlacesInAll(ContentsAll(fields)) && |OverwriteAll(before, values[..n])| == |before|
  {
    hide ContentsAll, ValidAll, Armed, SlotOf, PlacesInAll;
  }

  lemma ArmedAreSlots(fields: seq<Store>)
    ensures forall i :: 0 <= i < |fields| && Armed(fields[i]) ==>
      fields[i].Direct? || fields[i].Sized? || fields[i].Wide? || fields[i].Vector?
  {
  }

  lemma OverwriteOneMore(before: seq<Snap>, values: seq<Raw>, i: nat)
    requires i < |before| && i < |values|
    ensures var done := OverwriteAll(before, values[..i]);
            |done| == |before| && done[i] == before[i] &&
              done[i := Overwrite(before[i], values[i])] == OverwriteAll(before, values[..i + 1])
  {
    hide Overwrite;
  }

  /** The retained copy-back function of a wide store. */
  method CopyBack(values: seq<Raw>, pointers: seq<Slot>, ghost fields: seq<Store>, ghost log: Log,
      ghost universe: set<Place>)
    requires ValidAll(fields) && PointAt(pointers, fields) && PlacesAll(fields) <= universe
    modifies CellsAll(fields), PlacesAll(fields)
    ensures ValidAll(fields) && ContentsAll(fields) == OverwriteAll(old(ContentsAll(fields)), values)
    ensures Now(universe, log) ==
      Apply(OverwriteFirst(old(ContentsAll(fields)), values, Shorter(|fields|, |values|)), old(Now(universe, log)))
  {
    hide *;
    var n := Shorter(|pointers|, |values|);
    ghost var before, start := ContentsAll(fields), Now(universe, log);
    NothingCopied(before, values, pointers, fields, start);
    for i := 0 to n
      invariant Copied(i, before, values, pointers, fields)
      invariant Now(universe, log) == Apply(OverwriteFirst(before, values, i), start)
    {
      CopyOne(i, before, values, pointers, fields, log, universe);
      CopyStep(before, values, i, start);
    }
    AllCopied(n, before, values, pointers, fields);
  }

  lemma NothingCopied(before: seq<Snap>, values: seq<Raw>, pointers: seq<Slot>, fields: seq<Store>, start: World)
    requires ValidAll(fields) && PointAt(pointers, fields) && before == ContentsAll(fields)
    ensures Copied(0, before, values, pointers, fields) && Apply(OverwriteFirst(before, values, 0), start) == start
    ensures |before| == |fields| == |pointers| && PlacesInAll(before) == PlacesAll(fields)
    ensures Shorter(|pointers|, |values|) == Shorter(|fields|, |values|) <= |values|
    ensures Shorter(|pointers|, |values|) <= |pointers|
  {
    hide ValidAll, ContentsAll, PlacesInAll;
    ApplyNothing(start);
    assert OverwriteAll(before, values[..0]) == before;
  }

  lemma AllCopied(n: nat, before: seq<Snap>, values: seq<Raw>, pointers: seq<Slot>, fields: seq<Store>)
    requires n == Shorter(|before|, |values|) && Copied(n, before, values, pointers, fields)
    ensures ValidAll(fields) && ContentsAll(fields) == OverwriteAll(before, values)
  {
    hide ValidAll, ContentsAll, PlacesInAll, Overwrite;
    assert OverwriteAll(before, values[..n]) == OverwriteAll(before, values);
  }

  lemma CopyStep(before: seq<Snap>, values: seq<Raw>, i: nat, start: World)
    requires i < |before| && i < |values|
    ensures Apply(OverwriteEffect(before[i], values[i]), Apply(OverwriteFirst(before, values, i), start)) ==
            Apply(OverwriteFirst(before, values, i + 1), start)
  {
    ApplyThen(OverwriteFirst(before, values, i), OverwriteEffect(before[i], values[i]), start);
  }

  /** Tuples synchronise field by field; on a failure the remaining fields go out
      of scope, the last one first. */
  method SyncTupleStores(ss: seq<Store>, log: Log, ghost universe: set<Place>) returns (ok: bool)
    requires ValidAll(ss) && PlacesAll(ss) <= universe
    modifies CellsAll(ss), PlacesAll(ss), log
    ensures ok == SyncTuple(old(ContentsAll(ss))).ok
    ensures Now(universe, log) == Apply(SyncTuple(old(ContentsAll(ss))), old(Now(universe, log)))
    decreases ss, 1
  {
    ghost var snaps, start := ContentsAll(ss), Now(universe, log);
    ApplyNothing(start);
    if |ss| == 0 {
      return true;
    }
    TailWithin(ss);
    ok := SyncHead(ss, log, universe);
    if ok {
      ok := SyncTupleStores(ss[1..], log, universe);
      ApplyThen(Sync(snaps[0]), SyncTuple(snaps[1..]), start);
    } else {
      DropReversedStores(ss[1..], log, universe);
      ApplyThen(Sync(snaps[0]), DropReversed(snaps[1..]), start);
    }
  }

  method DropStore(s: Store, log: Log, ghost universe: set<Place>)
    requires Valid(s) && Places(s) <= universe
    modifies Cells(s), Places(s), log
    ensures Now(universe, log) == Apply(Drop(old(Contents(s))), old(Now(universe, log)))
    decreases s, 2
  {
    ApplyNothing(Now(universe, log));
    match s
    case Empty =>
    case Direct(_, _) =>
    case Sized(sized, inner) =>
      if sized.ctype.None? {
        DropStore(inner, log, universe);
      } else {
        var _, _ := FinishSized(s, log, universe);
      }
    case Wide(_, fields) => DropAllStores(fields, log, universe);
    case Vector(_, inner) => DropStore(inner, log, universe);
    case All(stores) => DropAllStores(stores, log, universe);
    case Tuple(stores) => DropAllStores(stores, log, universe);
  }

  method DropAllStores(ss: seq<Store>, log: Log, ghost universe: set<Place>)
    requires ValidAll(ss) && PlacesAll(ss) <= universe
    modifies CellsAll(ss), PlacesAll(ss), log
    ensures Now(universe, log) == Apply(DropAll(old(ContentsAll(ss))), old(Now(universe, log)))
    decreases ss, 1
  {
    ghost var snaps, start := ContentsAll(ss), Now(universe, log);
    ApplyNothing(start);
    if |ss| > 0 {
      ghost var tail := ss[1..];
      assert ValidAll(tail) && snaps[1..] == ContentsAll(tail);
      CellsAllAllocated(tail);
      TailWithin(ss);
      DropStore(ss[0], log, universe);
      DropAllStores(ss[1..], log, universe);
      ApplyThen(Drop(snaps[0]), DropAll(snaps[1..]), start);
    }
  }

  method DropReversedStores(ss: seq<Store>, log: Log, ghost universe: set<Place>)
    requires ValidAll(ss) && PlacesAll(ss) <= universe
    modifies CellsAll(ss), PlacesAll(ss), log
    ensures Now(universe, log) == Apply(DropReversed(old(ContentsAll(ss))), old(Now(universe, log)))
    decreases ss, 1
  {
    ghost var snaps, start := ContentsAll(ss), Now(universe, log);
    ApplyNothing(start);
    if |ss| > 0 {
      ghost var head := ss[0];
      assert Valid(head) && snaps[0] == Contents(head) && snaps[1..] == ContentsAll(ss[1..]);
      CellsAllocated(head);
      TailWithin(ss);
      DropReversedStores(ss[1..], log, universe);
      assert Valid(head);
      DropStore(ss[0], log, universe);
      ApplyThen(DropReversed(snaps[1..]), Drop(snaps[0]), start);
    }
  }
}
