/** Flat memory: how a carrier lies in memory and what Rust reads there. Owned
    transmutation of a value with a stable layout is reading the memory of its
    carrier as the Rust type. */
module Memory {
  import opened Types

  datatype Cell = Word(n: nat) | Address(target: seq<Cell>) | NullAddress | Undefined

  /** Types whose Rust layout is the layout of their carrier. */
  predicate Stable(t: Ty) {
    match t
    case Tuple(fixed, fields) => fixed && forall i :: 0 <= i < |fields| ==> Stable(fields[i])
    case Array(elem, _) => Stable(elem)
    case Vec(elem) => Stable(elem)
    case Opt(native, some) => (native ==> StableNiche(some)) && Stable(some)
    case Res(native, ok, err) =>
      var form := Form(native, ok, err);
      if form.InOk? then StableNiche(ok) && Stable(ok)
      else if form.InErr? then StableNiche(err) && Stable(err)
      else !native && Stable(ok) && Stable(err)
    case _ => true
  }

  /** Types in whose niche Rust itself is bound to store `None`. */
  predicate StableNiche(t: Ty) {
    t.NonZero? || t.Vec?
  }

  function Sum(sizes: seq<nat>): nat {
    if |sizes| == 0 then 0 else sizes[0] + Sum(sizes[1..])
  }

  function Max(a: nat, b: nat): nat {
    if a < b then b else a
  }

  /** Cells that a carrier occupies. */
  function Size(t: Ty): nat {
    match t
    case Unit => 0
    case Tuple(_, fields) => Sum(seq<nat>(|fields|, i requires 0 <= i < |fields| => Size(fields[i])))
    case Array(elem, len) => Sum(seq<nat>(len, i requires 0 <= i < len => Size(elem)))
    case Vec(_) => 3
    case Opt(native, some) => if InNiche(native, some) then Size(some) else 1 + Size(some)
    case Res(native, ok, err) =>
      var form := Form(native, ok, err);
      if form.InOk? then Size(ok) else if form.InErr? then Size(err) else 1 + Max(Size(ok), Size(err))
    case _ => 1
  }

  function Padding(n: nat): (cells: seq<Cell>)
    ensures |cells| == n
  {
    seq(n, i => Undefined)
  }

  function Concat(parts: seq<seq<Cell>>): seq<Cell> {
    if |parts| == 0 then [] else parts[0] + Concat(parts[1..])
  }

  /** The memory of a carrier. A vector header lies in the order data, capacity, length. */
  function Flatten(t: Ty, c: Carrier): seq<Cell>
    decreases c, t
  {
    match t
    case Unit => []
    case Tuple(_, fields) =>
      if c.CSeq? && |c.items| == |fields|
      then Concat(seq(|fields|, i requires 0 <= i < |fields| => Flatten(fields[i], c.items[i]))) else []
    case Array(elem, _) =>
      if c.CSeq?
      then Concat(seq(|c.items|, i requires 0 <= i < |c.items| => Flatten(elem, c.items[i]))) else []
    case Vec(elem) =>
      if !c.CVec? then []
      else
        var data :=
          if c.isNull then NullAddress
          else Address(Concat(seq(|c.data|, i requires 0 <= i < |c.data| => Flatten(elem, c.data[i]))));
        [data, Word(c.capacity), Word(c.len)]
    case Opt(native, some) =>
      if native then Flatten(some, c)
      else if !c.CTagged? then []
      else [Word(c.tag)] + if c.tag == 1 then Flatten(some, c.payload) else Padding(Size(some))
    case Res(native, ok, err) =>
      var form, room := Form(native, ok, err), Max(Size(ok), Size(err));
      if form.InOk? then Flatten(ok, c)
      else if form.InErr? then Flatten(err, c)
      else if !c.CTagged? then []
      else if c.tag == 0 then [Word(c.tag)] + Fill(Flatten(ok, c.payload), room)
      else if c.tag == 1 then [Word(c.tag)] + Fill(Flatten(err, c.payload), room)
      else [Word(c.tag)] + Padding(room)
    case _ => if c.CWord? then [Word(c.w)] else []
  }

  function Fill(cells: seq<Cell>, room: nat): seq<Cell> {
    if |cells| <= room then cells + Padding(room - |cells|) else cells
  }

  function Slice(cells: seq<Cell>, from: nat, size: nat): seq<Cell> {
    if from + size <= |cells| then cells[from..from + size] else []
  }

  /** The value that Rust finds in memory that holds a value of the type. */
  function Read(t: Ty, cells: seq<Cell>): Value
    decreases t, 0
  {
    match t
    case Unit => VUnit
    case Tuple(_, fields) =>
      var sizes := seq<nat>(|fields|, i requires 0 <= i < |fields| => Size(fields[i]));
      VSeq(seq(|fields|, i requires 0 <= i < |fields| => Read(fields[i], Slice(cells, Sum(sizes[..i]), sizes[i]))))
    case Array(elem, len) => VSeq(ReadRun(elem, len, cells))
    case Vec(elem) =>
      if |cells| == 3 && cells[0].Address? && cells[1].Word? && cells[2].Word?
      then VVec(ReadRun(elem, cells[2].n, cells[0].target), cells[1].n) else VUnit
    case Opt(native, some) =>
      if native then (if HoldsNiche(some, cells) then VNone else VSome(Read(some, cells)))
      else if 0 < |cells| && cells[0] == Word(1) then VSome(Read(some, cells[1..])) else VNone
    case Res(native, ok, err) =>
      var form := Form(native, ok, err);
      if form.InOk? then (if HoldsNiche(ok, cells) then VErr(DefaultOf(err)) else VOk(Read(ok, cells)))
      else if form.InErr? then (if HoldsNiche(err, cells) then VOk(DefaultOf(ok)) else VErr(Read(err, cells)))
      else if 0 < |cells| && cells[0] == Word(0) then VOk(Read(ok, Slice(cells, 1, Size(ok))))
      else VErr(Read(err, Slice(cells, 1, Size(err))))
    case Bool => VBool(cells == [Word(1)])
    case _ => if |cells| == 1 && cells[0].Word? then VNum(cells[0].n) else VUnit
  }

  /** Consecutive elements of one type. */
  function ReadRun(elem: Ty, len: nat, cells: seq<Cell>): (vs: seq<Value>)
    ensures |vs| == len
    decreases elem, 1
  {
    var sizes := seq<nat>(len, i requires 0 <= i < len => Size(elem));
    seq(len, i requires 0 <= i < len => Read(elem, Slice(cells, Sum(sizes[..i]), Size(elem))))
  }

  predicate HoldsNiche(t: Ty, cells: seq<Cell>) {
    if t.Vec? then 0 < |cells| && cells[0] == NullAddress else cells == [Word(0)]
  }

  /** Reinterpret an owned carrier as the Rust value. */
  function Transmute(t: Ty, c: Carrier): Value {
    Read(t, Flatten(t, c))
  }

  lemma {:induction false} ConcatSlice(parts: seq<seq<Cell>>, sizes: seq<nat>, i: nat)
    requires |parts| == |sizes| && forall j :: 0 <= j < |parts| ==> |parts[j]| == sizes[j]
    ensures |Concat(parts)| == Sum(sizes)
    ensures i < |parts| ==> Slice(Concat(parts), Sum(sizes[..i]), sizes[i]) == parts[i]
  {
    if |parts| > 0 {
      ConcatSlice(parts[1..], sizes[1..], if i == 0 then 0 else i - 1);
      if 0 < i < |parts| {
        assert sizes[..i][1..] == sizes[1..][..i - 1];
        assert Concat(parts)[sizes[0]..] == Concat(parts[1..]);
      }
    }
  }

  /** A carrier of a stable type occupies as many cells as the type. */
  lemma {:induction false} FlattenSize(t: Ty, c: Carrier)
    requires Stable(t) && Shaped(t, c)
    ensures |Flatten(t, c)| == Size(t)
    decreases c, t
  {
    match t
    case Tuple(_, fields) =>
      var parts := seq(|fields|, i requires 0 <= i < |fields| => Flatten(fields[i], c.items[i]));
      forall i | 0 <= i < |fields| ensures |parts[i]| == Size(fields[i]) { FlattenSize(fields[i], c.items[i]); }
      ConcatSlice(parts, seq(|fields|, i requires 0 <= i < |fields| => Size(fields[i])), 0);
    case Array(elem, len) =>
      var parts := seq(len, i requires 0 <= i < len => Flatten(elem, c.items[i]));
      forall i | 0 <= i < len ensures |parts[i]| == Size(elem) { FlattenSize(elem, c.items[i]); }
      ConcatSlice(parts, seq<nat>(len, i requires 0 <= i < len => Size(elem)), 0);
    case Opt(native, some) => if native { FlattenSize(some, c); } else if c.tag == 1 { FlattenSize(some, c.payload); }
    case Res(native, ok, err) =>
      var form := Form(native, ok, err);
      if form.InOk? { FlattenSize(ok, c); }
      else if form.InErr? { FlattenSize(err, c); }
      else if c.tag == 0 { FlattenSize(ok, c.payload); }
      else if c.tag == 1 { FlattenSize(err, c.payload); }
    case _ =>
  }

  /** The memory of consecutive elements of one type. */
  function FlattenRun(elem: Ty, items: seq<Carrier>): seq<seq<Cell>> {
    seq(|items|, i requires 0 <= i < |items| => Flatten(elem, items[i]))
  }

  predicate RunShaped(elem: Ty, items: seq<Carrier>) {
    forall i :: 0 <= i < |items| ==> Shaped(elem, items[i])
  }

  /** Elements stored one after the other are found again at multiples of their size. */
  lemma RunSlices(elem: Ty, items: seq<Carrier>)
    requires Stable(elem) && RunShaped(elem, items)
    ensures var run := ReadRun(elem, |items|, Concat(FlattenRun(elem, items)));
            forall i :: 0 <= i < |items| ==> run[i] == Transmute(elem, items[i])
  {
    var parts := FlattenRun(elem, items);
    var sizes := seq<nat>(|items|, i requires 0 <= i < |items| => Size(elem));
    forall i | 0 <= i < |items| ensures |parts[i]| == sizes[i] { FlattenSize(elem, items[i]); }
    forall i | 0 <= i < |items| ensures Slice(Concat(parts), Sum(sizes[..i]), Size(elem)) == parts[i] {
      ConcatSlice(parts, sizes, i);
    }
  }
}
