/** What one synchronisation of a tree of stores does, told path by path: which
    carriers are decoded, when it succeeds and which values are written. */
module SyncLaws {
  import opened Wrappers
  import opened Types
  import opened SharedMemory
  import opened SoftStores

  // ---------- every armed carrier is decoded exactly once ----------

  /** The sized stores of a tree that hold a carrier. */
  function ArmedCells(s: Snap): seq<SizedCell>
    decreases s, 1
  {
    match s
    case SSized(cell, ctype, _, inner) => (if ctype.Some? then [cell] else []) + ArmedCells(inner)
    case SWide(_, _, fields) => ArmedCellsAll(fields)
    case SVector(_, _, inner) => ArmedCells(inner)
    case SAll(stores) => ArmedCellsAll(stores)
    case STuple(stores) => ArmedCellsAll(stores)
    case _ => []
  }

  function ArmedCellsAll(ss: seq<Snap>): seq<SizedCell>
    decreases ss, 0
  {
    if |ss| == 0 then [] else ArmedCells(ss[0]) + ArmedCellsAll(ss[1..])
  }

  /** An armed buffer was filled from armed stores. */
  predicate WellArmed(s: Snap)
    decreases s, 1
  {
    match s
    case SSized(_, _, _, inner) => WellArmed(inner)
    case SWide(buffer, armed, fields) =>
      WellArmedAll(fields) &&
      (armed ==> buffer.Some? && forall i :: 0 <= i < |fields| ==> fields[i].SSized? ==> fields[i].ctype.Some?)
    case SVector(_, _, inner) => WellArmed(inner)
    case SAll(stores) => WellArmedAll(stores)
    case STuple(stores) => WellArmedAll(stores)
    case _ => true
  }

  predicate WellArmedAll(ss: seq<Snap>)
    decreases ss, 0
  {
    |ss| == 0 || (WellArmed(ss[0]) && WellArmedAll(ss[1..]))
  }

  function CellsOf(events: seq<(SizedCell, Carrier)>): seq<SizedCell> {
    seq(|events|, i requires 0 <= i < |events| => events[i].0)
  }

  lemma CellsOfConcat(a: seq<(SizedCell, Carrier)>, b: seq<(SizedCell, Carrier)>)
    ensures CellsOf(a + b) == CellsOf(a) + CellsOf(b)
  {
  }

  lemma {:induction false} OverwriteKeepsArmed(fields: seq<Snap>, raws: seq<Raw>)
    requires WellArmedAll(fields)
    requires forall i :: 0 <= i < |fields| ==> fields[i].SSized? ==> fields[i].ctype.Some?
    ensures WellArmedAll(OverwriteAll(fields, raws))
    ensures ArmedCellsAll(OverwriteAll(fields, raws)) == ArmedCellsAll(fields)
  {
    if |fields| > 0 {
      var rest := if |raws| == 0 then [] else raws[1..];
      OverwriteKeepsArmed(fields[1..], rest);
      assert OverwriteAll(fields, raws)[1..] == OverwriteAll(fields[1..], rest);
    }
  }

  /** Whether it is synchronised or dropped, a tree decodes each armed carrier
      exactly once and nothing else. */
  lemma {:induction false} DecodesEachArmedOnce(s: Snap)
    requires WellArmed(s)
    ensures multiset(CellsOf(Sync(s).decoded)) == multiset(ArmedCells(s))
    ensures multiset(CellsOf(Drop(s).decoded)) == multiset(ArmedCells(s))
    decreases Height(s), 0, 0
  {
    match s
    case SEmpty =>
    case SDirect(_, _) =>
    case SSized(cell, ctype, _, inner) =>
      DecodesEachArmedOnce(inner);
      if ctype.Some? {
        var events := [(cell, ctype.value)] + Sync(inner).decoded;
        assert Sync(s).decoded == events && Drop(s).decoded == events;
        CellsOfConcat([(cell, ctype.value)], Sync(inner).decoded);
        assert CellsOf([(cell, ctype.value)]) == [cell];
      }
    case SWide(buffer, armed, fields) =>
      DecodesEachArmedOnceAll(fields);
      if armed {
        OverwriteAllKeepsHeight(fields, buffer.value);
        OverwriteKeepsArmed(fields, buffer.value);
        DecodesEachArmedOnceAll(OverwriteAll(fields, buffer.value));
        assert Sync(s).decoded == SyncAll(OverwriteAll(fields, buffer.value)).decoded;
      }
    case SVector(_, _, inner) => DecodesEachArmedOnce(inner);
    case SAll(stores) => DecodesEachArmedOnceAll(stores);
    case STuple(stores) => DecodesEachArmedOnceAll(stores);
  }

  lemma {:induction false} DecodesEachArmedOnceAll(ss: seq<Snap>)
    requires WellArmedAll(ss)
    ensures multiset(CellsOf(SyncAll(ss).decoded)) == multiset(ArmedCellsAll(ss))
    ensures multiset(CellsOf(SyncTuple(ss).decoded)) == multiset(ArmedCellsAll(ss))
    ensures multiset(CellsOf(DropAll(ss).decoded)) == multiset(ArmedCellsAll(ss))
    ensures multiset(CellsOf(DropReversed(ss).decoded)) == multiset(ArmedCellsAll(ss))
    decreases HeightAll(ss), 1, |ss|
  {
    if |ss| > 0 {
      DecodesEachArmedOnce(ss[0]);
      DecodesEachArmedOnceAll(ss[1..]);
      CellsOfConcat(Sync(ss[0]).decoded, SyncAll(ss[1..]).decoded);
      CellsOfConcat(Sync(ss[0]).decoded, SyncTuple(ss[1..]).decoded);
      CellsOfConcat(Sync(ss[0]).decoded, DropReversed(ss[1..]).decoded);
      CellsOfConcat(Drop(ss[0]).decoded, DropAll(ss[1..]).decoded);
      CellsOfConcat(DropReversed(ss[1..]).decoded, Drop(ss[0]).decoded);
    }
  }

  // ---------- the order of the steps ----------

  /** Lists are worked off from the front, whether they are synchronised or dropped. */
  lemma {:induction false} ListsInOrder(a: seq<Snap>, b: seq<Snap>)
    ensures SyncAll(a + b).decoded == SyncAll(a).decoded + SyncAll(b).decoded
    ensures DropAll(a + b).decoded == DropAll(a).decoded + DropAll(b).decoded
    ensures SyncAll([]).decoded == [] && DropAll([]).decoded == []
  {
    hide *;
    FirstInList(a);
    FirstInList(a + b);
    if |a| == 0 {
      FirstInList(b);
      assert a + b == b;
      assert [] + SyncAll(b).decoded == SyncAll(b).decoded && [] + DropAll(b).decoded == DropAll(b).decoded;
    } else {
      ListsInOrder(a[1..], b);
      assert (a + b)[1..] == a[1..] + b;
      Associates(Sync(a[0]).decoded, SyncAll(a[1..]).decoded, SyncAll(b).decoded);
      Associates(Drop(a[0]).decoded, DropAll(a[1..]).decoded, DropAll(b).decoded);
    }
    FirstInList([]);
  }

  lemma FirstInList(ss: seq<Snap>)
    ensures |ss| == 0 ==> SyncAll(ss).decoded == [] && DropAll(ss).decoded == []
    ensures |ss| > 0 ==> SyncAll(ss).decoded == Sync(ss[0]).decoded + SyncAll(ss[1..]).decoded
    ensures |ss| > 0 ==> DropAll(ss).decoded == Drop(ss[0]).decoded + DropAll(ss[1..]).decoded
  {
    hide Sync, Drop;
  }

  lemma Associates<T>(a: seq<T>, b: seq<T>, c: seq<T>)
    ensures a + b + c == a + (b + c)
  {
  }

  lemma LastInReverse(ss: seq<Snap>)
    ensures |ss| == 0 ==> DropReversed(ss).decoded == []
    ensures |ss| > 0 ==> DropReversed(ss).decoded == DropReversed(ss[1..]).decoded + Drop(ss[0]).decoded
  {
    hide Drop;
  }

  /** The fields of a tuple that are left over after a failure are dropped from the back. */
  lemma {:induction false} LeftOversFromTheBack(a: seq<Snap>, b: seq<Snap>)
    ensures DropReversed(a + b).decoded == DropReversed(b).decoded + DropReversed(a).decoded
    ensures |a| == 1 ==> DropReversed(a).decoded == Drop(a[0]).decoded
    ensures DropReversed([]).decoded == []
  {
    LastInReverse([]);
    LastInReverse(a);
    LastInReverse(a + b);
    if |a| == 0 {
      assert a + b == b;
    } else {
      LeftOversFromTheBack(a[1..], b);
      assert (a + b)[1..] == a[1..] + b;
      Associates(DropReversed(b).decoded, DropReversed(a[1..]).decoded, Drop(a[0]).decoded);
    }
    hide DropReversed, Drop;
  }

  /** The carriers that synchronising a tuple decodes: field by field up to and including
      the first that fails, and then the rest from the back. */
  lemma {:induction false} TuplesUpToFailure(ss: seq<Snap>, k: nat)
    requires k < |ss| && !Sync(ss[k]).ok && forall j :: 0 <= j < k ==> Sync(ss[j]).ok
    ensures SyncTuple(ss).decoded == SyncAll(ss[..k + 1]).decoded + DropReversed(ss[k + 1..]).decoded
    ensures !SyncTuple(ss).ok
  {
    hide Sync, Drop, DropReversed;
    assert ss[..k + 1][1..] == ss[1..][..k];
    if k == 0 {
      assert ss[..1] == [ss[0]] && ss[..1][1..] == [];
    } else {
      TuplesUpToFailure(ss[1..], k - 1);
      assert ss[1..][k..] == ss[k + 1..];
    }
  }

  predicate NoDuplicates<T(==)>(xs: seq<T>) {
    forall i, j :: 0 <= i < j < |xs| ==> xs[i] != xs[j]
  }

  lemma ArmedBuffer(wide: WideCell, fields: seq<Store>)
    requires Valid(Wide(wide, fields)) && WellArmedAll(ContentsAll(fields))
    ensures WellArmed(Contents(Wide(wide, fields)))
    ensures ArmedCells(Contents(Wide(wide, fields))) == ArmedCellsAll(ContentsAll(fields))
  {
    hide ValidAll, CellsAll, PlacesInAll, WellArmedAll, ArmedCellsAll;
  }

  /** In a valid tree no two stores share a cell, so "exactly once" counts stores. */
  lemma {:induction false} ValidTreeIsWellArmed(s: Store)
    requires Valid(s)
    ensures WellArmed(Contents(s))
    ensures NoDuplicates(ArmedCells(Contents(s))) && forall c :: c in ArmedCells(Contents(s)) ==> c in Cells(s)
    decreases s, 1
  {
    match s
    case Empty =>
    case Direct(_, _) =>
    case Sized(_, inner) => ValidTreeIsWellArmed(inner);
    case Wide(wide, fields) =>
      ValidTreesAreWellArmed(fields);
      ArmedBuffer(wide, fields);
    case Vector(_, inner) => ValidTreeIsWellArmed(inner);
    case All(stores) => ValidTreesAreWellArmed(stores);
    case Tuple(stores) => ValidTreesAreWellArmed(stores);
  }

  lemma {:induction false} ValidTreesAreWellArmed(ss: seq<Store>)
    requires ValidAll(ss)
    ensures WellArmedAll(ContentsAll(ss))
    ensures NoDuplicates(ArmedCellsAll(ContentsAll(ss)))
    ensures forall c :: c in ArmedCellsAll(ContentsAll(ss)) ==> c in CellsAll(ss)
    decreases ss, 0
  {
    if |ss| > 0 {
      ValidTreeIsWellArmed(ss[0]);
      ValidTreesAreWellArmed(ss[1..]);
      assert ContentsAll(ss)[1..] == ContentsAll(ss[1..]);
      var head, tail := ArmedCells(Contents(ss[0])), ArmedCellsAll(ContentsAll(ss[1..]));
      forall i, j | 0 <= i < |head| && 0 <= j < |tail| ensures head[i] != tail[j] {
        assert head[i] in head && tail[j] in tail;
        assert head[i] in Cells(ss[0]) && tail[j] in CellsAll(ss[1..]);
      }
    }
  }

  // ---------- when synchronisation succeeds and what it writes ----------

  /** The parts of a node, after the copy-back that synchronising the node performs. */
  function Parts(s: Snap, synced: bool): seq<Snap> {
    match s
    case SSized(_, _, _, inner) => [inner]
    case SWide(buffer, armed, fields) =>
      if synced && armed && buffer.Some? then OverwriteAll(fields, buffer.value) else fields
    case SVector(_, _, inner) => [inner]
    case SAll(stores) => stores
    case STuple(stores) => stores
    case _ => []
  }

  lemma PartsAreLower(s: Snap, synced: bool)
    ensures forall k :: 0 <= k < |Parts(s, synced)| ==> Height(Parts(s, synced)[k]) < Height(s)
    ensures |Parts(s, synced)| > 0 ==> HeightAll(Parts(s, synced)) < Height(s)
  {
    if s.SWide? && s.buffer.Some? {
      OverwriteAllKeepsHeight(s.fields, s.buffer.value);
    }
  }

  /** The store that a path of part numbers leads to when everything before it succeeds. */
  function At(s: Snap, path: seq<nat>): Option<Snap>
    decreases |path|
  {
    if |path| == 0 then Some(s)
    else if path[0] < |Parts(s, true)| then At(Parts(s, true)[path[0]], path[1..])
    else None
  }

  /** A store does its own share: its carrier decodes, its header is unchanged,
      its buffer is there. */
  predicate Sound(s: Snap) {
    match s
    case SSized(cell, ctype, original, _) => ctype.Some? && original != null && cell.decode(ctype.value).Some?
    case SWide(buffer, armed, _) => armed ==> buffer.Some?
    case SVector(value, header, _) => SameHeader(value, header)
    case _ => true
  }

  /** Every store of a tree does its share. */
  ghost predicate AllSound(s: Snap) {
    forall path :: At(s, path).Some? ==> Sound(At(s, path).value)
  }

  lemma AllSoundByParts(s: Snap)
    ensures AllSound(s) <==> Sound(s) && forall k :: 0 <= k < |Parts(s, true)| ==> AllSound(Parts(s, true)[k])
  {
    var parts := Parts(s, true);
    if AllSound(s) {
      assert At(s, []) == Some(s);
      forall k | 0 <= k < |parts| ensures AllSound(parts[k]) {
        forall path | At(parts[k], path).Some? ensures Sound(At(parts[k], path).value) {
          assert ([k] + path)[1..] == path;
          assert At(s, [k] + path) == At(parts[k], path);
        }
      }
    }
    if Sound(s) && forall k :: 0 <= k < |parts| ==> AllSound(parts[k]) {
      forall path | At(s, path).Some? ensures Sound(At(s, path).value) {
        if |path| > 0 {
          assert AllSound(parts[path[0]]);
          assert At(s, path) == At(parts[path[0]], path[1..]);
        }
      }
    }
  }

  /** Synchronisation succeeds exactly if every store in the tree does its share. */
  lemma {:induction false} SucceedsIffAllSound(s: Snap)
    ensures Sync(s).ok <==> AllSound(s)
    decreases Height(s)
  {
    var parts := Parts(s, true);
    PartsAreLower(s, true);
    AllSoundByParts(s);
    forall k | 0 <= k < |parts| ensures Sync(parts[k]).ok <==> AllSound(parts[k]) {
      SucceedsIffAllSound(parts[k]);
    }
    OkOfAll(parts);
  }

  lemma {:induction false} OkOfAll(ss: seq<Snap>)
    ensures SyncAll(ss).ok <==> forall k :: 0 <= k < |ss| ==> Sync(ss[k]).ok
    ensures SyncTuple(ss).ok <==> forall k :: 0 <= k < |ss| ==> Sync(ss[k]).ok
  {
    if |ss| > 0 {
      OkOfAll(ss[1..]);
      assert forall k :: 0 < k < |ss| ==> ss[k] == ss[1..][k - 1];
    }
  }

  /** Whether the k-th part of a node is synchronised rather than dropped. The
      parts of a carrier are synchronised even when the carrier is dropped; a
      field of a tuple only if every earlier field succeeded. */
  ghost predicate PartSynced(s: Snap, synced: bool, k: nat) {
    match s
    case SSized(_, ctype, _, _) => ctype.Some?
    case SWide(buffer, armed, _) => synced && (armed ==> buffer.Some?)
    case STuple(stores) => synced && forall j :: 0 <= j < k && j < |stores| ==> AllSound(stores[j])
    case _ => synced
  }

  /** Following a path writes `v` to `p`: the path leads to a synchronised store
      of `p` that decodes `v` and all of whose parts do their share, or to the
      slot of a robust value that a copy-back overwrites with `v`. */
  ghost predicate WritesAlong(s: Snap, synced: bool, path: seq<nat>, p: Place, v: Value)
    decreases |path|
  {
    if |path| == 0 then
      synced && s.SSized? && s.original == p && AllSound(s) && s.ctype.Some? && s.cell.decode(s.ctype.value) == Some(v)
    else if |Parts(s, synced)| <= path[0] then false
    else
      || (|path| == 1 && CopiesTo(s, synced, path[0], p, v))
      || WritesAlong(Parts(s, synced)[path[0]], PartSynced(s, synced, path[0]), path[1..], p, v)
  }

  predicate CopiesTo(s: Snap, synced: bool, k: nat, p: Place, v: Value) {
    synced && s.SWide? && s.armed && s.buffer.Some? && Copies(s.fields, s.buffer.value, k, p, v)
  }

  function EffectOf(s: Snap, synced: bool): Effect {
    if synced then Sync(s) else Drop(s)
  }

  /** The k-th part, synchronised or dropped as `modes` says, leaves `v` in `p`. */
  ghost predicate Source(parts: seq<Snap>, modes: seq<bool>, k: nat, p: Place, v: Value)
    requires |modes| == |parts|
  {
    k < |parts| && p in EffectOf(parts[k], modes[k]).writes && EffectOf(parts[k], modes[k]).writes[p] == v
  }

  /** The writes `w` are the writes of the parts. */
  ghost predicate Collects(w: map<Place, Value>, parts: seq<Snap>, modes: seq<bool>)
    requires |modes| == |parts|
  {
    && (forall p :: p in w ==> exists k :: Source(parts, modes, k, p, w[p]))
    && (forall k :: 0 <= k < |parts| ==> EffectOf(parts[k], modes[k]).writes.Keys <= w.Keys)
  }

  lemma SourceShifts(head: Snap, mode: bool, parts: seq<Snap>, modes: seq<bool>, k: nat, p: Place, v: Value)
    requires |modes| == |parts| && Source(parts, modes, k, p, v)
    ensures Source([head] + parts, [mode] + modes, k + 1, p, v)
  {
    assert ([head] + parts)[k + 1] == parts[k] && ([mode] + modes)[k + 1] == modes[k];
  }

  lemma SourceOfMore(head: Snap, mode: bool, parts: seq<Snap>, modes: seq<bool>, w: map<Place, Value>,
      all: map<Place, Value>, p: Place)
    requires |modes| == |parts| && Collects(w, parts, modes) && p in all
    requires all == EffectOf(head, mode).writes + w || all == w + EffectOf(head, mode).writes
    ensures exists k :: Source([head] + parts, [mode] + modes, k, p, all[p])
  {
    var h := EffectOf(head, mode).writes;
    hide EffectOf;
    if p in h && h[p] == all[p] {
      assert Source([head] + parts, [mode] + modes, 0, p, all[p]);
    } else {
      assert p in w && w[p] == all[p];
      var k :| Source(parts, modes, k, p, w[p]);
      SourceShifts(head, mode, parts, modes, k, p, w[p]);
    }
  }

  lemma CollectsMore(head: Snap, mode: bool, parts: seq<Snap>, modes: seq<bool>, w: map<Place, Value>,
      all: map<Place, Value>)
    requires |modes| == |parts| && Collects(w, parts, modes)
    requires all == EffectOf(head, mode).writes + w || all == w + EffectOf(head, mode).writes
    ensures Collects(all, [head] + parts, [mode] + modes)
  {
    hide EffectOf, Source;
    var allParts, allModes := [head] + parts, [mode] + modes;
    forall p | p in all ensures exists k :: Source(allParts, allModes, k, p, all[p]) {
      SourceOfMore(head, mode, parts, modes, w, all, p);
    }
    forall k | 0 <= k < |allParts| ensures EffectOf(allParts[k], allModes[k]).writes.Keys <= all.Keys {
      if k > 0 {
        assert allParts[k] == parts[k - 1] && allModes[k] == modes[k - 1];
      }
    }
  }

  function Same(n: nat, mode: bool): (modes: seq<bool>)
    ensures |modes| == n
  {
    seq(n, i => mode)
  }

  /** Fields of a tuple are synchronised up to and including the first failure. */
  function TupleModes(ss: seq<Snap>): (modes: seq<bool>)
    ensures |modes| == |ss|
  {
    if |ss| == 0 then []
    else [true] + if Sync(ss[0]).ok then TupleModes(ss[1..]) else Same(|ss| - 1, false)
  }

  lemma {:induction false} ListsCollect(ss: seq<Snap>)
    ensures Collects(SyncAll(ss).writes, ss, Same(|ss|, true))
    ensures Collects(DropAll(ss).writes, ss, Same(|ss|, false))
    ensures Collects(DropReversed(ss).writes, ss, Same(|ss|, false))
    ensures Collects(SyncTuple(ss).writes, ss, TupleModes(ss))
  {
    if |ss| > 0 {
      var head, rest, n := ss[0], ss[1..], |ss| - 1;
      ListsCollect(rest);
      hide Collects, EffectOf;
      assert ss == [head] + rest && Same(|ss|, true) == [true] + Same(n, true) &&
        Same(|ss|, false) == [false] + Same(n, false);
      assert EffectOf(head, true) == Sync(head) && EffectOf(head, false) == Drop(head) by { HeadEffect(head); }
      CollectsMore(head, true, rest, Same(n, true), SyncAll(rest).writes, SyncAll(ss).writes);
      CollectsMore(head, false, rest, Same(n, false), DropAll(rest).writes, DropAll(ss).writes);
      CollectsMore(head, false, rest, Same(n, false), DropReversed(rest).writes, DropReversed(ss).writes);
      if Sync(head).ok {
        CollectsMore(head, true, rest, TupleModes(rest), SyncTuple(rest).writes, SyncTuple(ss).writes);
      } else {
        CollectsMore(head, true, rest, Same(n, false), DropReversed(rest).writes, SyncTuple(ss).writes);
      }
    }
  }

  lemma HeadEffect(s: Snap)
    ensures EffectOf(s, true) == Sync(s) && EffectOf(s, false) == Drop(s)
  {
  }

  lemma {:induction false} TupleModesArePrefixes(ss: seq<Snap>, k: nat)
    requires k < |ss|
    ensures TupleModes(ss)[k] <==> forall j :: 0 <= j < k ==> Sync(ss[j]).ok
  {
    if k > 0 {
      TupleModesArePrefixes(ss[1..], k - 1);
      assert forall j :: 0 < j < k ==> ss[j] == ss[1..][j - 1];
    }
  }

  predicate Copies(fields: seq<Snap>, raws: seq<Raw>, k: nat, p: Place, v: Value) {
    k < |fields| && k < |raws| && OverwriteEffect(fields[k], raws[k]).writes == map[p := v]
  }

  /** The writes `w` are the values that copying back the first `n` fields overwrites. */
  ghost predicate CopiedFirst(fields: seq<Snap>, raws: seq<Raw>, n: nat, w: map<Place, Value>)
    requires n <= |fields| && n <= |raws|
  {
    && (forall p :: p in w ==> exists k :: Copies(fields, raws, k, p, w[p]))
    && (forall k :: 0 <= k < n ==> OverwriteEffect(fields[k], raws[k]).writes.Keys <= w.Keys)
  }

  lemma {:induction false} CopiesCollect(fields: seq<Snap>, raws: seq<Raw>, n: nat)
    requires n <= |fields| && n <= |raws|
    ensures CopiedFirst(fields, raws, n, OverwriteFirst(fields, raws, n).writes)
  {
    hide *;
    if n == 0 {
      NothingCopied(fields, raws);
    } else {
      LastOverwrite(fields, raws, n);
      CopiesCollect(fields, raws, n - 1);
      CopiesMore(fields, raws, n - 1, OverwriteFirst(fields, raws, n - 1).writes);
    }
  }

  lemma NothingCopied(fields: seq<Snap>, raws: seq<Raw>)
    ensures CopiedFirst(fields, raws, 0, OverwriteFirst(fields, raws, 0).writes)
  {
    assert OverwriteFirst(fields, raws, 0).writes == map[];
  }

  lemma CopiesMore(fields: seq<Snap>, raws: seq<Raw>, n: nat, before: map<Place, Value>)
    requires n < |fields| && n < |raws| && CopiedFirst(fields, raws, n, before)
    ensures CopiedFirst(fields, raws, n + 1, before + OverwriteEffect(fields[n], raws[n]).writes)
  {
    var last := OverwriteEffect(fields[n], raws[n]).writes;
    var all := before + last;
    hide OverwriteEffect, Copies;
    forall p | p in all ensures exists k :: Copies(fields, raws, k, p, all[p]) {
      if p in last {
        CopiedLast(fields, raws, n, p);
        assert Copies(fields, raws, n, p, all[p]);
      } else {
        var k :| Copies(fields, raws, k, p, before[p]);
        assert Copies(fields, raws, k, p, all[p]);
      }
    }
  }

  lemma LastOverwrite(fields: seq<Snap>, raws: seq<Raw>, n: nat)
    requires 0 < n <= |fields| && n <= |raws|
    ensures OverwriteFirst(fields, raws, n).writes ==
      OverwriteFirst(fields, raws, n - 1).writes + OverwriteEffect(fields[n - 1], raws[n - 1]).writes
  {
    hide OverwriteEffect;
  }

  lemma CopiedLast(fields: seq<Snap>, raws: seq<Raw>, k: nat, p: Place)
    requires k < |fields| && k < |raws| && p in OverwriteEffect(fields[k], raws[k]).writes
    ensures Copies(fields, raws, k, p, OverwriteEffect(fields[k], raws[k]).writes[p])
  {
  }

  /** What a node writes besides what its parts write: the values its copy-back
      overwrites at once, and its own original. */
  function CopyWrites(s: Snap, synced: bool): map<Place, Value> {
    if synced && s.SWide? && s.armed && s.buffer.Some?
    then OverwriteFirst(s.fields, s.buffer.value, Shorter(|s.fields|, |s.buffer.value|)).writes
    else map[]
  }

  function OwnWrites(s: Snap, synced: bool): map<Place, Value> {
    if synced && s.SSized? && Sync(s).ok then map[s.original := s.cell.decode(s.ctype.value).value] else map[]
  }

  lemma SinglePart(s: Snap, mode: bool)
    ensures Collects(EffectOf(s, mode).writes, [s], [mode])
  {
    var w := EffectOf(s, mode).writes;
    assert Collects(map[], [], []);
    assert [s] + [] == [s] && [mode] + [] == [mode] && w + map[] == w;
    CollectsMore(s, mode, [], [], map[], w);
  }

  lemma TupleFields(s: Snap, synced: bool) returns (modes: seq<bool>, w: map<Place, Value>)
    requires s.STuple?
    ensures |modes| == |s.stores| && forall k :: 0 <= k < |modes| ==> modes[k] == PartSynced(s, synced, k)
    ensures Collects(w, s.stores, modes) && w == EffectOf(s, synced).writes
  {
    TupleEffect(s);
    hide *;
    ListsCollect(s.stores);
    if synced {
      modes, w := TupleModes(s.stores), SyncTuple(s.stores).writes;
      forall k | 0 <= k < |modes| ensures modes[k] == PartSynced(s, synced, k) {
        TupleModeIsSynced(s, k);
      }
    } else {
      modes, w := Same(|s.stores|, false), DropAll(s.stores).writes;
      forall k | 0 <= k < |modes| ensures modes[k] == PartSynced(s, synced, k) {
        DroppedField(s, k);
      }
    }
  }

  lemma TupleEffect(s: Snap)
    requires s.STuple?
    ensures EffectOf(s, true).writes == SyncTuple(s.stores).writes
    ensures EffectOf(s, false).writes == DropAll(s.stores).writes
  {
    hide SyncTuple, DropAll;
  }

  lemma TupleModeIsSynced(s: Snap, k: nat)
    requires s.STuple? && k < |s.stores|
    ensures TupleModes(s.stores)[k] == PartSynced(s, true, k)
  {
    hide Sync, AllSound, TupleModes;
    TupleModesArePrefixes(s.stores, k);
    forall j | 0 <= j < k ensures Sync(s.stores[j]).ok <==> AllSound(s.stores[j]) {
      SucceedsIffAllSound(s.stores[j]);
    }
  }

  lemma DroppedField(s: Snap, k: nat)
    requires s.STuple? && k < |s.stores|
    ensures Same(|s.stores|, false)[k] == PartSynced(s, false, k)
  {
  }

  lemma SizedPart(s: Snap, synced: bool)
    requires s.SSized?
    ensures Collects(EffectOf(s.inner, s.ctype.Some?).writes, [s.inner], [s.ctype.Some?])
    ensures EffectOf(s, synced).writes == map[] + EffectOf(s.inner, s.ctype.Some?).writes + OwnWrites(s, synced)
  {
    SinglePart(s.inner, s.ctype.Some?);
  }

  lemma Unchanged(w: map<Place, Value>)
    ensures map[] + w == w && w + map[] == w
  {
  }

  lemma WideFields(s: Snap, synced: bool) returns (mode: bool, w: map<Place, Value>)
    requires s.SWide?
    ensures mode == (synced && (s.armed ==> s.buffer.Some?))
    ensures Collects(w, Parts(s, synced), Same(|Parts(s, synced)|, mode))
    ensures EffectOf(s, synced).writes == CopyWrites(s, synced) + w
  {
    var parts := Parts(s, synced);
    ListsCollect(parts);
    hide Collects, SyncAll, DropAll;
    mode := synced && (s.armed ==> s.buffer.Some?);
    w := if mode then SyncAll(parts).writes else DropAll(parts).writes;
    Unchanged(w);
  }

  lemma PartsCollect(s: Snap, synced: bool) returns (modes: seq<bool>, w: map<Place, Value>)
    ensures |modes| == |Parts(s, synced)| && forall k :: 0 <= k < |modes| ==> modes[k] == PartSynced(s, synced, k)
    ensures Collects(w, Parts(s, synced), modes)
    ensures EffectOf(s, synced).writes == CopyWrites(s, synced) + w + OwnWrites(s, synced)
  {
    if s.SSized? {
      SizedPart(s, synced);
      modes, w := [s.ctype.Some?], EffectOf(s.inner, s.ctype.Some?).writes;
    } else {
      modes, w := OtherParts(s, synced);
      Unchanged(EffectOf(s, synced).writes);
    }
  }

  lemma OtherParts(s: Snap, synced: bool) returns (modes: seq<bool>, w: map<Place, Value>)
    requires !s.SSized?
    ensures |modes| == |Parts(s, synced)| && forall k :: 0 <= k < |modes| ==> modes[k] == PartSynced(s, synced, k)
    ensures Collects(w, Parts(s, synced), modes)
    ensures EffectOf(s, synced).writes == CopyWrites(s, synced) + w
  {
    match s
    case SWide(_, _, _) =>
      var mode;
      mode, w := WideFields(s, synced);
      hide Collects, EffectOf, CopyWrites;
      modes := Same(|Parts(s, synced)|, mode);
    case SVector(_, _, inner) =>
      SinglePart(inner, synced);
      modes, w := [synced], EffectOf(inner, synced).writes;
      hide Collects;
      Unchanged(w);
    case SAll(stores) =>
      ListsCollect(stores);
      modes, w := Same(|stores|, synced), if synced then SyncAll(stores).writes else DropAll(stores).writes;
      hide Collects;
      Unchanged(w);
    case STuple(_) =>
      modes, w := TupleFields(s, synced);
      hide Collects;
      Unchanged(w);
    case _ =>
      modes, w := [], map[];
      Unchanged(w);
  }

  lemma OwnPath(s: Snap, synced: bool, p: Place)
    requires p in OwnWrites(s, synced)
    ensures WritesAlong(s, synced, [], p, OwnWrites(s, synced)[p])
  {
    SucceedsIffAllSound(s);
  }

  lemma PartPath(s: Snap, synced: bool, k: nat, rest: seq<nat>, p: Place, v: Value)
    requires k < |Parts(s, synced)| && WritesAlong(Parts(s, synced)[k], PartSynced(s, synced, k), rest, p, v)
    ensures WritesAlong(s, synced, [k] + rest, p, v)
  {
    hide Parts, PartSynced;
    assert ([k] + rest)[1..] == rest;
  }

  lemma CopyPath(s: Snap, synced: bool, p: Place) returns (k: nat)
    requires p in CopyWrites(s, synced)
    ensures WritesAlong(s, synced, [k], p, CopyWrites(s, synced)[p])
  {
    CopiesCollect(s.fields, s.buffer.value, Shorter(|s.fields|, |s.buffer.value|));
    k :| Copies(s.fields, s.buffer.value, k, p, CopyWrites(s, synced)[p]);
  }

  lemma SourceOf(w: map<Place, Value>, parts: seq<Snap>, modes: seq<bool>, p: Place) returns (k: nat)
    requires |modes| == |parts| && Collects(w, parts, modes) && p in w
    ensures k < |parts| && p in EffectOf(parts[k], modes[k]).writes && EffectOf(parts[k], modes[k]).writes[p] == w[p]
  {
    k :| Source(parts, modes, k, p, w[p]);
  }

  /** Everything that synchronising or dropping a tree writes is written along a path. */
  lemma {:induction false} WritesFollowPaths(s: Snap, synced: bool, p: Place) returns (path: seq<nat>)
    requires p in EffectOf(s, synced).writes
    ensures WritesAlong(s, synced, path, p, EffectOf(s, synced).writes[p])
    decreases Height(s)
  {
    hide *;
    var modes, w := PartsCollect(s, synced);
    if p in OwnWrites(s, synced) {
      OwnPath(s, synced, p);
      path := [];
    } else if p in w {
      var k := SourceOf(w, Parts(s, synced), modes, p);
      PartsAreLower(s, synced);
      var rest := WritesFollowPaths(Parts(s, synced)[k], modes[k], p);
      PartPath(s, synced, k, rest, p, w[p]);
      path := [k] + rest;
    } else {
      var k := CopyPath(s, synced, p);
      path := [k];
    }
  }

  /** Every path that writes a place does write it. */
  lemma {:induction false} PathsWrite(s: Snap, synced: bool, path: seq<nat>, p: Place, v: Value)
    requires WritesAlong(s, synced, path, p, v)
    ensures p in EffectOf(s, synced).writes
    decreases |path|
  {
    var modes, w := PartsCollect(s, synced);
    if |path| == 0 {
      SucceedsIffAllSound(s);
    } else if |path| == 1 && CopiesTo(s, synced, path[0], p, v) {
      CopiesCollect(s.fields, s.buffer.value, Shorter(|s.fields|, |s.buffer.value|));
      assert p in OverwriteEffect(s.fields[path[0]], s.buffer.value[path[0]]).writes.Keys;
    } else {
      PathsWrite(Parts(s, synced)[path[0]], PartSynced(s, synced, path[0]), path[1..], p, v);
    }
  }

  /** One synchronisation writes a place exactly if some path of its tree writes
      it, and leaves there a value that such a path writes. */
  lemma WritesExactlyAlongPaths(s: Snap, p: Place)
    ensures p in Sync(s).writes <==> exists path, v :: WritesAlong(s, true, path, p, v)
    ensures p in Sync(s).writes ==> exists path :: WritesAlong(s, true, path, p, Sync(s).writes[p])
  {
    HeadEffect(s);
    if p in Sync(s).writes {
      var path := WritesFollowPaths(s, true, p);
      assert WritesAlong(s, true, path, p, Sync(s).writes[p]);
    }
    forall path, v | WritesAlong(s, true, path, p, v) ensures p in Sync(s).writes {
      PathsWrite(s, true, path, p, v);
    }
  }
}
