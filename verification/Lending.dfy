/** Rust memory that is mutably lent to foreign code, everything foreign code can
    leave in its carriers, and what synchronising the edited carriers means. */
module Lending {
  import opened Wrappers
  import opened Types
  import opened SharedMemory
  import opened Memory
  import opened Codec
  import opened SoftStores

  function CheckedDecoder(t: Ty): Decoder {
    c => Decode(Checked, t, c)
  }

  /** How foreign code gets at one borrowed value: through a pointer to the value
      itself, through a carrier made of a copy, or through a carrier that the value
      is moved into, which leaves the default behind. */
  datatype Access = InPlace | ByCopy | ByMove

  /** Mutably borrowed memory: one value, an array or slice, or a vector whose
      carriers live in a buffer at `address`. */
  datatype Mem =
    | One(access: Access, place: Place, ty: Ty)
    | Many(items: seq<Mem>)
    | Growable(items: seq<Mem>, capacity: nat, address: nat)

  /** Everything that foreign code can leave behind in the carriers of borrowed memory. */
  datatype Edit =
    | EditOne(c: Carrier)
    | EditMany(edits: seq<Edit>)
    | EditGrowable(header: Raw, edits: seq<Edit>)

  // ---------- borrowed memory ----------

  function Borrowed(m: Mem): set<Place>
    decreases m, 1
  {
    match m
    case One(_, place, _) => {place}
    case Many(items) => BorrowedAll(items)
    case Growable(items, _, _) => BorrowedAll(items)
  }

  function BorrowedAll(ms: seq<Mem>): (places: set<Place>)
    ensures forall i :: 0 <= i < |ms| ==> Borrowed(ms[i]) <= places
    decreases ms, 0
  {
    if |ms| == 0 then {} else Borrowed(ms[0]) + BorrowedAll(ms[1..])
  }

  /** What the type checker and the allocator guarantee: exclusive borrows never
      overlap, only types that accept every bit pattern are lent in place, only
      tagged options are moved out, and buffers have an address. */
  predicate Lendable(m: Mem)
    decreases m, 1
  {
    match m
    case One(access, _, ty) =>
      && (access.InPlace? ==> Stable(ty) && Robust(ty))
      && (access.ByMove? ==> ty.Opt? && !ty.native)
    case Many(items) => LendableAll(items)
    case Growable(items, _, address) => address != 0 && LendableAll(items)
  }

  predicate LendableAll(ms: seq<Mem>)
    decreases ms, 0
  {
    |ms| == 0 || (Lendable(ms[0]) && LendableAll(ms[1..]) && Borrowed(ms[0]) !! BorrowedAll(ms[1..]))
  }

  ghost predicate WellTyped(m: Mem)
    reads Borrowed(m)
    decreases m, 1
  {
    match m
    case One(_, place, ty) => HasType(ty, place.value)
    case Many(items) => WellTypedAll(items)
    case Growable(items, _, _) => WellTypedAll(items)
  }

  ghost predicate WellTypedAll(ms: seq<Mem>)
    reads BorrowedAll(ms)
    decreases ms, 0
  {
    |ms| == 0 || (WellTyped(ms[0]) && WellTypedAll(ms[1..]))
  }

  /** An edit has the shape of the memory; its carriers may hold any bit pattern. */
  predicate Fits(m: Mem, e: Edit)
    decreases m, 1
  {
    match m
    case One(_, _, ty) => e.EditOne? && Shaped(ty, e.c)
    case Many(items) => e.EditMany? && FitsAll(items, e.edits)
    case Growable(items, _, _) => e.EditGrowable? && e.header.Header? && FitsAll(items, e.edits)
  }

  predicate FitsAll(ms: seq<Mem>, es: seq<Edit>)
    decreases ms, 0
  {
    |ms| == |es| && (|ms| == 0 || (Fits(ms[0], es[0]) && FitsAll(ms[1..], es[1..])))
  }

  /** A list of memory can be lent exactly if each item can and no two share a value. */
  lemma {:induction false} LendableApart(ms: seq<Mem>)
    ensures LendableAll(ms) <==>
      && (forall i :: 0 <= i < |ms| ==> Lendable(ms[i]))
      && (forall i, j :: 0 <= i < j < |ms| ==> Borrowed(ms[i]) !! Borrowed(ms[j]))
  {
    hide Lendable, Borrowed;
    if |ms| > 0 {
      var rest := ms[1..];
      LendableApart(rest);
      assert forall i :: 0 < i < |ms| ==> ms[i] == rest[i - 1];
      if Borrowed(ms[0]) !! BorrowedAll(rest) {
        assert forall j :: 0 <= j < |rest| ==> Borrowed(ms[0]) !! Borrowed(rest[j]);
      } else {
        var p :| p in Borrowed(ms[0]) && p in BorrowedAll(rest);
        var j := Borrower(rest, p);
        assert p in Borrowed(ms[j + 1]);
        assert !(Borrowed(ms[0]) !! Borrowed(ms[j + 1]));
      }
    }
  }

  lemma {:induction false} Borrower(ms: seq<Mem>, p: Place) returns (i: nat)
    requires p in BorrowedAll(ms)
    ensures i < |ms| && p in Borrowed(ms[i])
  {
    if p in Borrowed(ms[0]) {
      i := 0;
    } else {
      i := Borrower(ms[1..], p);
      i := i + 1;
    }
  }

  /** Foreign code may leave any bits in each carrier and any header, whatever it was given. */
  lemma {:induction false} AnyEditFits(ms: seq<Mem>, es: seq<Edit>, header: Raw, capacity: nat, address: nat)
    ensures FitsAll(ms, es) <==> |ms| == |es| && forall i :: 0 <= i < |ms| ==> Fits(ms[i], es[i])
    ensures Fits(Many(ms), EditMany(es)) <==> FitsAll(ms, es)
    ensures header.Header? ==> (Fits(Growable(ms, capacity, address), EditGrowable(header, es)) <==> FitsAll(ms, es))
  {
    if |ms| > 0 && |ms| == |es| {
      AnyEditFits(ms[1..], es[1..], header, capacity, address);
      assert forall i :: 0 < i < |ms| ==> ms[i] == ms[1..][i - 1] && es[i] == es[1..][i - 1];
    }
  }

  /** The carriers that foreign code is shown. */
  ghost function Shown(m: Mem): (e: Edit)
    requires WellTyped(m)
    reads Borrowed(m)
    decreases m, 1
  {
    match m
    case One(_, place, ty) => EditOne(Encode(ty, place.value))
    case Many(items) => EditMany(ShownAll(items))
    case Growable(items, capacity, address) => EditGrowable(Header(address, |items|, capacity), ShownAll(items))
  }

  ghost function ShownAll(ms: seq<Mem>): (es: seq<Edit>)
    requires WellTypedAll(ms)
    reads BorrowedAll(ms)
    ensures |es| == |ms|
    decreases ms, 0
  {
    if |ms| == 0 then [] else [Shown(ms[0])] + ShownAll(ms[1..])
  }

  // ---------- what a call means ----------

  /** The values that are left in borrowed memory while foreign code runs. */
  function Taken(m: Mem): map<Place, Value>
    decreases m, 1
  {
    match m
    case One(access, place, _) => if access.ByMove? then map[place := VNone] else map[]
    case Many(items) => TakenAll(items)
    case Growable(items, _, _) => TakenAll(items)
  }

  function TakenAll(ms: seq<Mem>): map<Place, Value>
    decreases ms, 0
  {
    if |ms| == 0 then map[] else Taken(ms[0]) + TakenAll(ms[1..])
  }

  /** The values that an edit gives to borrowed memory: every edited carrier that is
      valid gives its place the decoded value. */
  function Edited(m: Mem, e: Edit): map<Place, Value>
    requires Fits(m, e)
    decreases m, 1
  {
    match m
    case One(_, place, ty) =>
      var decoded := Decode(Checked, ty, e.c);
      if decoded.Some? then map[place := decoded.value] else map[]
    case Many(items) => EditedAll(items, e.edits)
    case Growable(items, _, _) => EditedAll(items, e.edits)
  }

  function EditedAll(ms: seq<Mem>, es: seq<Edit>): map<Place, Value>
    requires FitsAll(ms, es)
    decreases ms, 0
  {
    if |ms| == 0 then map[] else Edited(ms[0], es[0]) + EditedAll(ms[1..], es[1..])
  }

  /** Every edited carrier is valid and no vector header was replaced. */
  predicate Accepted(m: Mem, e: Edit)
    requires Fits(m, e)
    decreases m, 1
  {
    match m
    case One(_, _, ty) => Decode(Checked, ty, e.c).Some?
    case Many(items) => AcceptedAll(items, e.edits)
    case Growable(items, capacity, address) =>
      e.header == Header(address, |items|, capacity) && AcceptedAll(items, e.edits)
  }

  predicate AcceptedAll(ms: seq<Mem>, es: seq<Edit>)
    requires FitsAll(ms, es)
    decreases ms, 0
  {
    |ms| == 0 || (Accepted(ms[0], es[0]) && AcceptedAll(ms[1..], es[1..]))
  }

  lemma {:induction false} EditedWithin(m: Mem, e: Edit)
    requires Fits(m, e)
    ensures Edited(m, e).Keys <= Borrowed(m)
    decreases m, 1
  {
    match m
    case One(_, _, _) =>
    case Many(items) => EditedAllWithin(items, e.edits);
    case Growable(items, _, _) => EditedAllWithin(items, e.edits);
  }

  lemma {:induction false} EditedAllWithin(ms: seq<Mem>, es: seq<Edit>)
    requires FitsAll(ms, es)
    ensures EditedAll(ms, es).Keys <= BorrowedAll(ms)
    decreases ms, 0
  {
    if |ms| > 0 {
      EditedWithin(ms[0], es[0]);
      EditedAllWithin(ms[1..], es[1..]);
    }
  }

  /** One borrowed value inside borrowed memory, with its edited carrier. */
  datatype Lent = Lent(access: Access, place: Place, ty: Ty, c: Carrier)

  function Values(m: Mem, e: Edit): seq<Lent>
    requires Fits(m, e)
    decreases m, 1
  {
    match m
    case One(access, place, ty) => [Lent(access, place, ty, e.c)]
    case Many(items) => ValuesAll(items, e.edits)
    case Growable(items, _, _) => ValuesAll(items, e.edits)
  }

  function ValuesAll(ms: seq<Mem>, es: seq<Edit>): seq<Lent>
    requires FitsAll(ms, es)
    decreases ms, 0
  {
    if |ms| == 0 then [] else Values(ms[0], es[0]) + ValuesAll(ms[1..], es[1..])
  }

  /** `w` writes to the place of a lent value exactly what its carrier decodes to. */
  predicate Obeys(w: map<Place, Value>, x: Lent) {
    var decoded := Decode(Checked, x.ty, x.c);
    (x.place in w <==> decoded.Some?) && (decoded.Some? ==> w[x.place] == decoded.value)
  }

  /** The value is left with the default while foreign code runs exactly if it was moved out. */
  predicate Leaves(w: map<Place, Value>, x: Lent) {
    (x.place in w <==> x.access.ByMove?) && (x.place in w ==> w[x.place] == VNone)
  }

  lemma {:induction false} TakenWithin(m: Mem)
    ensures Taken(m).Keys <= Borrowed(m)
    decreases m, 1
  {
    match m
    case One(_, _, _) =>
    case Many(items) => TakenAllWithin(items);
    case Growable(items, _, _) => TakenAllWithin(items);
  }

  lemma {:induction false} TakenAllWithin(ms: seq<Mem>)
    ensures TakenAll(ms).Keys <= BorrowedAll(ms)
    decreases ms, 0
  {
    if |ms| > 0 {
      TakenWithin(ms[0]);
      TakenAllWithin(ms[1..]);
    }
  }

  lemma {:induction false} ValueIsLent(m: Mem, e: Edit, x: Lent)
    requires Fits(m, e) && Lendable(m) && x in Values(m, e)
    ensures x.place in Borrowed(m) && Obeys(Edited(m, e), x) && Leaves(Taken(m), x)
    decreases m, 1
  {
    match m
    case One(_, _, _) =>
    case Many(items) => ValuesAreLent(items, e.edits, x);
    case Growable(items, _, _) => ValuesAreLent(items, e.edits, x);
  }

  /** Each value lent to a call is set to the decode of its edited carrier if that
      carrier is valid, and otherwise not written. */
  lemma {:induction false} ValuesAreLent(ms: seq<Mem>, es: seq<Edit>, x: Lent)
    requires FitsAll(ms, es) && LendableAll(ms) && x in ValuesAll(ms, es)
    ensures x.place in BorrowedAll(ms) && Obeys(EditedAll(ms, es), x) && Leaves(TakenAll(ms), x)
    decreases ms, 0
  {
    var rest, more := ms[1..], es[1..];
    EditedWithin(ms[0], es[0]);
    EditedAllWithin(rest, more);
    TakenWithin(ms[0]);
    TakenAllWithin(rest);
    if x in Values(ms[0], es[0]) {
      ValueIsLent(ms[0], es[0], x);
    } else {
      ValuesAreLent(rest, more, x);
    }
  }

  // ---------- what foreign code does to a tree of stores ----------

  function RawOf(e: Edit): Raw {
    match e
    case EditOne(c) => Leaf(c)
    case EditMany(edits) => Items(RawsOf(edits))
    case EditGrowable(header, _) => header
  }

  function RawsOf(es: seq<Edit>): (raws: seq<Raw>)
    ensures |raws| == |es| && forall i :: 0 <= i < |es| ==> raws[i] == RawOf(es[i])
  {
    if |es| == 0 then [] else [RawOf(es[0])] + RawsOf(es[1..])
  }

  /** Foreign code edits the buffers behind the vector headers that it can reach. */
  function Reach(s: Snap, e: Edit): (r: Snap)
    ensures s.SDirect? || r.SDirect? ==> r == s
    decreases e, 2
  {
    match e
    case EditOne(_) => s
    case EditMany(edits) => if s.SWide? then s.(fields := ReachAll(s.fields, edits)) else s
    case EditGrowable(_, edits) =>
      if s.SVector? && s.inner.SWide?
      then SVector(s.value, s.header,
        Overwrite(s.inner.(fields := ReachAll(s.inner.fields, edits)), Items(RawsOf(edits))))
      else s
  }

  function ReachAll(ss: seq<Snap>, es: seq<Edit>): (rs: seq<Snap>)
    ensures |rs| == |ss|
    decreases es, 1
  {
    if |ss| == 0 || |es| == 0 then ss else [Reach(ss[0], es[0])] + ReachAll(ss[1..], es[1..])
  }

  /** Foreign code edits everything that a pointer to the slot of a store leads to. */
  function Foreign(s: Snap, e: Edit): Snap {
    Overwrite(Reach(s, e), RawOf(e))
  }

  function ForeignAll(ss: seq<Snap>, es: seq<Edit>): (rs: seq<Snap>)
    ensures |rs| == |ss|
  {
    if |ss| == 0 || |es| == 0 then ss else [Foreign(ss[0], es[0])] + ForeignAll(ss[1..], es[1..])
  }

  /** What editing values in place writes at once. */
  function AtOnceAll(ss: seq<Snap>, es: seq<Edit>): (e: Effect)
    ensures e.ok && e.decoded == []
  {
    if |ss| == 0 || |es| == 0 then NOTHING
    else Then(OverwriteEffect(ss[0], RawOf(es[0])), AtOnceAll(ss[1..], es[1..]))
  }

  lemma {:induction false} OverwriteReached(ss: seq<Snap>, es: seq<Edit>)
    requires |ss| == |es|
    ensures OverwriteAll(ReachAll(ss, es), RawsOf(es)) == ForeignAll(ss, es)
  {
    if |ss| > 0 {
      OverwriteReached(ss[1..], es[1..]);
      var reached, raws := ReachAll(ss, es), RawsOf(es);
      assert reached[1..] == ReachAll(ss[1..], es[1..]) && raws[1..] == RawsOf(es[1..]);
      hide Reach, RawOf, Overwrite, ReachAll, RawsOf;
      assert OverwriteAll(reached, raws)[1..] == OverwriteAll(reached[1..], raws[1..]);
    }
  }

  lemma {:induction false} OverwriteReachedFirst(ss: seq<Snap>, es: seq<Edit>)
    requires |ss| == |es|
    ensures OverwriteFirst(ReachAll(ss, es), RawsOf(es), |ss|) == AtOnceAll(ss, es)
  {
    if |ss| > 0 {
      OverwriteReachedFirst(ss[1..], es[1..]);
      var reached, raws := ReachAll(ss, es), RawsOf(es);
      assert reached[1..] == ReachAll(ss[1..], es[1..]) && raws[1..] == RawsOf(es[1..]);
      assert OverwriteEffect(reached[0], raws[0]) == OverwriteEffect(ss[0], raws[0]);
      hide Reach, RawOf, Overwrite, ReachAll, RawsOf, OverwriteFirst;
      OverwriteFront(reached, raws, |ss|);
    }
  }

  lemma {:induction false} OverwriteFront(fields: seq<Snap>, raws: seq<Raw>, n: nat)
    requires 0 < n <= |fields| && n <= |raws|
    ensures OverwriteFirst(fields, raws, n) ==
      Then(OverwriteEffect(fields[0], raws[0]), OverwriteFirst(fields[1..], raws[1..], n - 1))
  {
    var head := OverwriteEffect(fields[0], raws[0]);
    if n == 1 {
      assert head.writes + map[] == head.writes && map[] + head.writes == head.writes;
    } else {
      OverwriteFront(fields, raws, n - 1);
      hide OverwriteEffect;
      var last := OverwriteEffect(fields[n - 1], raws[n - 1]).writes;
      var middle := OverwriteFirst(fields[1..], raws[1..], n - 2).writes;
      assert (head.writes + middle) + last == head.writes + (middle + last);
    }
  }

  // ---------- freshly encoded stores ----------

  /** The store that encoding the memory leaves behind, whatever its carriers hold. */
  ghost predicate Mirrors(m: Mem, s: Snap)
    decreases m, 1
  {
    match m
    case One(access, place, ty) =>
      if access.InPlace? then s == SDirect(place, CheckedDecoder(ty))
      else
        s.SSized? && s.cell.decode == CheckedDecoder(ty) && s.ctype.Some? && s.original == place && s.inner == SEmpty
    case Many(items) => MirrorsBuffer(items, s)
    case Growable(items, capacity, address) =>
      && s.SVector? && MirrorsBuffer(items, s.inner)
      && s.header == Some(Header(address, |items|, capacity)) && s.value.Some? && s.value.value.Header?
  }

  ghost predicate MirrorsBuffer(items: seq<Mem>, s: Snap)
    decreases items, 1
  {
    s.SWide? && s.armed && s.buffer.Some? && MirrorsAll(items, s.fields)
  }

  ghost predicate MirrorsAll(ms: seq<Mem>, ss: seq<Snap>)
    decreases ms, 0
  {
    |ms| == |ss| && (|ms| == 0 || (Mirrors(ms[0], ss[0]) && MirrorsAll(ms[1..], ss[1..])))
  }

  /** Memory that is lent in place cannot be left invalid. */
  lemma RobustDecodes(t: Ty, c: Carrier)
    requires Stable(t) && Robust(t) && Shaped(t, c)
    ensures Decode(Checked, t, c).Some?
  {
    RobustIsValid(t, c);
    ValidateThenTransmute(t, c);
    FastPathRefinesParts(t, c);
  }

  /** After any edit, synchronising the stores succeeds exactly if the edit is
      acceptable and writes exactly the edited values. */
  lemma {:induction false} SyncOfEdit(m: Mem, s: Snap, e: Edit)
    requires Mirrors(m, s) && Lendable(m) && Fits(m, e)
    ensures Sync(Foreign(s, e)).ok <==> Accepted(m, e)
    ensures OverwriteEffect(s, RawOf(e)).writes + Sync(Foreign(s, e)).writes == Edited(m, e)
    decreases m, 3
  {
    if m.One? {
      SyncOfOne(m, s, e);
    } else if m.Many? {
      hide MirrorsAll, ReachAll, RawsOf, EditedAll, AcceptedAll, LendableAll, FitsAll, SyncAll, DropAll;
      SyncOfBuffer(m.items, Foreign(s, e), s.fields, e.edits);
    } else {
      SyncOfVector(m, s, e);
    }
  }

  lemma SyncOfOne(m: Mem, s: Snap, e: Edit)
    requires m.One? && Mirrors(m, s) && Lendable(m) && Fits(m, e)
    ensures Sync(Foreign(s, e)).ok <==> Accepted(m, e)
    ensures OverwriteEffect(s, RawOf(e)).writes + Sync(Foreign(s, e)).writes == Edited(m, e)
  {
    if m.access.InPlace? {
      RobustDecodes(m.ty, e.c);
    }
  }

  lemma SyncOfVector(m: Mem, s: Snap, e: Edit)
    requires m.Growable? && Mirrors(m, s) && Lendable(m) && Fits(m, e)
    ensures Sync(Foreign(s, e)).ok <==> Accepted(m, e)
    ensures OverwriteEffect(s, RawOf(e)).writes + Sync(Foreign(s, e)).writes == Edited(m, e)
    decreases m, 2
  {
    hide MirrorsAll, ReachAll, RawsOf, EditedAll, AcceptedAll, LendableAll, FitsAll, SyncAll, DropAll;
    SyncOfBuffer(m.items, Foreign(s, e).inner, s.inner.fields, e.edits);
  }

  lemma SyncOfBuffer(items: seq<Mem>, s: Snap, fields: seq<Snap>, es: seq<Edit>)
    requires MirrorsAll(items, fields) && LendableAll(items) && FitsAll(items, es)
    requires s.SWide? && s.armed && s.buffer == Some(RawsOf(es)) && s.fields == ReachAll(fields, es)
    ensures Sync(s).ok <==> AcceptedAll(items, es)
    ensures Sync(s).writes == EditedAll(items, es)
    decreases items, 1
  {
    SyncOfEdits(items, fields, es);
    OverwriteReached(fields, es);
    OverwriteReachedFirst(fields, es);
    SameLength(items, es);
  }

  lemma {:induction false} SameLength(ms: seq<Mem>, es: seq<Edit>)
    requires FitsAll(ms, es)
    ensures |ms| == |es|
  {
  }

  lemma MergeWrites(o: map<Place, Value>, s: map<Place, Value>, os: map<Place, Value>, ss: map<Place, Value>)
    requires s.Keys !! os.Keys
    ensures (o + os) + (s + ss) == (o + s) + (os + ss)
  {
  }

  lemma {:induction false} SyncOfEdits(ms: seq<Mem>, ss: seq<Snap>, es: seq<Edit>)
    requires MirrorsAll(ms, ss) && LendableAll(ms) && FitsAll(ms, es)
    ensures SyncAll(ForeignAll(ss, es)).ok <==> AcceptedAll(ms, es)
    ensures AtOnceAll(ss, es).writes + SyncAll(ForeignAll(ss, es)).writes == EditedAll(ms, es)
    decreases ms, 0
  {
    if |ms| > 0 {
      SyncOfEdit(ms[0], ss[0], es[0]);
      SyncOfEdits(ms[1..], ss[1..], es[1..]);
      EditedWithin(ms[0], es[0]);
      EditedAllWithin(ms[1..], es[1..]);
      hide Sync, Foreign, OverwriteEffect, Edited, Mirrors, Fits, Lendable, Borrowed, Accepted;
      var o, s := OverwriteEffect(ss[0], RawOf(es[0])).writes, Sync(Foreign(ss[0], es[0])).writes;
      var os, more := AtOnceAll(ss[1..], es[1..]).writes, SyncAll(ForeignAll(ss[1..], es[1..])).writes;
      assert s.Keys <= (o + s).Keys && os.Keys <= (os + more).Keys;
      MergeWrites(o, s, os, more);
    }
  }

  /** Dropping stores that were never synchronised writes nothing, whatever foreign
      code left in them. */
  lemma {:induction false} DropOfEdit(m: Mem, s: Snap, e: Edit)
    requires Mirrors(m, s) && Fits(m, e)
    ensures Drop(Foreign(s, e)).writes == map[]
    decreases m, 2
  {
    match m
    case One(_, _, _) =>
    case Many(items) =>
      DropOfReached(items, s.fields, e.edits);
    case Growable(items, _, _) =>
      DropOfReached(items, s.inner.fields, e.edits);
  }

  lemma {:induction false} DropOfReached(ms: seq<Mem>, ss: seq<Snap>, es: seq<Edit>)
    requires MirrorsAll(ms, ss) && FitsAll(ms, es)
    ensures DropAll(ReachAll(ss, es)).writes == map[]
    decreases ms, 0
  {
    if |ms| > 0 {
      DropOfEdit(ms[0], ss[0], es[0]);
      DropOfReached(ms[1..], ss[1..], es[1..]);
      DropIgnoresSlot(ms[0], ss[0], es[0]);
      assert ReachAll(ss, es)[1..] == ReachAll(ss[1..], es[1..]);
    }
  }

  lemma DropIgnoresSlot(m: Mem, s: Snap, e: Edit)
    requires Mirrors(m, s) && Fits(m, e)
    ensures Drop(Foreign(s, e)).writes == Drop(Reach(s, e)).writes
  {
    hide MirrorsAll, FitsAll, ReachAll, RawsOf;
  }

  /** What an edit gives to the arguments that are themselves lent in place; values lent
      in place inside arrays and vectors are edited in a buffer. */
  function EditedDirectly(ms: seq<Mem>, es: seq<Edit>): map<Place, Value>
    requires FitsAll(ms, es)
  {
    if |ms| == 0 then map[]
    else
      (if ms[0].One? && ms[0].access.InPlace? then Edited(ms[0], es[0]) else map[]) +
      EditedDirectly(ms[1..], es[1..])
  }

  lemma {:induction false} DropOfEdits(ms: seq<Mem>, ss: seq<Snap>, es: seq<Edit>)
    requires MirrorsAll(ms, ss) && FitsAll(ms, es)
    ensures DropAll(ForeignAll(ss, es)).writes == map[]
    ensures AtOnceAll(ss, es).writes == EditedDirectly(ms, es)
  {
    if |ms| > 0 {
      DropOfEdit(ms[0], ss[0], es[0]);
      DropOfEdits(ms[1..], ss[1..], es[1..]);
    }
  }

  // ---------- what follows for borrowed memory ----------

  /** Carriers that foreign code left alone are accepted and give every place
      the value it was lent with. */
  lemma {:induction false} Unedited(m: Mem)
    requires WellTyped(m) && Lendable(m)
    ensures Fits(m, Shown(m)) && Accepted(m, Shown(m))
    ensures Edited(m, Shown(m)) == map p | p in Borrowed(m) :: p.value
    decreases m, 1
  {
    match m
    case One(_, place, ty) => RoundTrip(Checked, ty, place.value);
    case Many(items) => UneditedAll(items);
    case Growable(items, _, _) => UneditedAll(items);
  }

  lemma {:induction false} UneditedAll(ms: seq<Mem>)
    requires WellTypedAll(ms) && LendableAll(ms)
    ensures FitsAll(ms, ShownAll(ms)) && AcceptedAll(ms, ShownAll(ms))
    ensures EditedAll(ms, ShownAll(ms)) == map p | p in BorrowedAll(ms) :: p.value
    decreases ms, 0
  {
    if |ms| > 0 {
      Unedited(ms[0]);
      UneditedAll(ms[1..]);
    }
  }

  /** Whatever bits foreign code stores, a lent value is only ever set to a value of its type. */
  lemma {:induction false} EditsAreWellTyped(x: Lent)
    requires Shaped(x.ty, x.c) && Decode(Checked, x.ty, x.c).Some?
    ensures HasType(x.ty, Decode(Checked, x.ty, x.c).value)
  {
    FastPathRefinesParts(x.ty, x.c);
    DecodeSound(x.ty, x.c);
  }
}
