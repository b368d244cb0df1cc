/** What dropping a tree of stores writes, and why each place is written along one
    path only. */
module WritePaths {
  import opened Wrappers
  import opened Types
  import opened SharedMemory
  import opened SoftStores
  import opened SyncLaws

  // ---------- dropping ----------

  /** Dropping a tree writes a place exactly if some path of the dropped tree writes
      it, and leaves there a value that such a path writes. */
  lemma DropWritesAlongPaths(s: Snap, p: Place)
    ensures p in Drop(s).writes <==> exists path, v :: WritesAlong(s, false, path, p, v)
    ensures p in Drop(s).writes ==> exists path :: WritesAlong(s, false, path, p, Drop(s).writes[p])
  {
    HeadEffect(s);
    if p in Drop(s).writes {
      var path := WritesFollowPaths(s, false, p);
      assert WritesAlong(s, false, path, p, Drop(s).writes[p]);
    }
    forall path, v | WritesAlong(s, false, path, p, v) ensures p in Drop(s).writes {
      PathsWrite(s, false, path, p, v);
    }
  }

  /** The stores of the parts of the outermost armed carriers. */
  function ArmedParts(s: Snap): seq<Snap>
    decreases s, 1
  {
    match s
    case SSized(_, ctype, _, inner) => if ctype.Some? then [inner] else ArmedParts(inner)
    case SWide(_, _, fields) => ArmedPartsAll(fields)
    case SVector(_, _, inner) => ArmedParts(inner)
    case SAll(stores) => ArmedPartsAll(stores)
    case STuple(stores) => ArmedPartsAll(stores)
    case _ => []
  }

  function ArmedPartsAll(ss: seq<Snap>): seq<Snap>
    decreases ss, 0
  {
    if |ss| == 0 then [] else ArmedParts(ss[0]) + ArmedPartsAll(ss[1..])
  }

  lemma {:induction false} SyncAllConcat(a: seq<Snap>, b: seq<Snap>)
    ensures SyncAll(a + b).writes == SyncAll(a).writes + SyncAll(b).writes
  {
    hide Sync;
    if |a| == 0 {
      assert a + b == b;
    } else {
      SyncAllConcat(a[1..], b);
      assert (a + b)[1..] == a[1..] + b;
      MergeAssociates(Sync(a[0]).writes, SyncAll(a[1..]).writes, SyncAll(b).writes);
    }
  }

  lemma MergeAssociates(a: map<Place, Value>, b: map<Place, Value>, c: map<Place, Value>)
    ensures a + (b + c) == (a + b) + c
  {
  }

  /** A dropped tree writes what synchronising the parts of its outermost armed carriers
      writes, in order: no original of an outermost carrier and no copied-back value. */
  lemma {:induction false} DropSynchronisesParts(s: Snap)
    ensures Drop(s).writes == SyncAll(ArmedParts(s)).writes
    decreases s, 1
  {
    match s
    case SEmpty =>
    case SDirect(_, _) =>
    case SSized(cell, ctype, original, inner) =>
      if ctype.Some? {
        SyncOfOne(inner);
        assert Drop(s).writes == map[] + Sync(inner).writes;
      } else {
        DropSynchronisesParts(inner);
      }
    case SWide(_, _, fields) => DropsSynchroniseParts(fields);
    case SVector(_, _, inner) => DropSynchronisesParts(inner);
    case SAll(stores) => DropsSynchroniseParts(stores);
    case STuple(stores) => DropsSynchroniseParts(stores);
  }

  lemma SyncOfOne(s: Snap)
    ensures SyncAll([s]).writes == Sync(s).writes
  {
    hide Sync;
    assert [s][1..] == [];
    assert Sync(s).writes + map[] == Sync(s).writes;
  }

  lemma {:induction false} DropsSynchroniseParts(ss: seq<Snap>)
    ensures DropAll(ss).writes == SyncAll(ArmedPartsAll(ss)).writes
    decreases ss, 0
  {
    if |ss| > 0 {
      DropSynchronisesParts(ss[0]);
      DropsSynchroniseParts(ss[1..]);
      SyncAllConcat(ArmedParts(ss[0]), ArmedPartsAll(ss[1..]));
    }
  }

  /** Dropping writes nothing exactly if synchronising the parts of each outermost armed
      carrier writes nothing; it certainly does not if those parts refer to no places. */
  lemma DropIsSilent(s: Snap)
    ensures Drop(s).writes == map[] <==> forall i :: 0 <= i < |ArmedParts(s)| ==> Sync(ArmedParts(s)[i]).writes == map[]
    ensures PlacesInAll(ArmedParts(s)) == {} ==> Drop(s).writes == map[]
  {
    hide *;
    DropSynchronisesParts(s);
    SilentIfAllAre(ArmedParts(s));
    WritesWithinAll(ArmedParts(s));
    if PlacesInAll(ArmedParts(s)) == {} {
      assert Drop(s).writes.Keys == {};
    }
  }

  lemma {:induction false} SilentIfAllAre(ss: seq<Snap>)
    ensures SyncAll(ss).writes == map[] <==> forall i :: 0 <= i < |ss| ==> Sync(ss[i]).writes == map[]
  {
    hide Sync;
    if |ss| > 0 {
      SilentIfAllAre(ss[1..]);
      assert SyncAll(ss).writes.Keys == Sync(ss[0]).writes.Keys + SyncAll(ss[1..]).writes.Keys;
      assert forall i :: 0 < i < |ss| ==> ss[i] == ss[1..][i - 1];
      assert SyncAll(ss).writes == map[] <==> Sync(ss[0]).writes == map[] && SyncAll(ss[1..]).writes == map[];
    }
  }

  /** The store of a carrier inside that of another one: dropping both does not touch
      the outer original and writes the inner one. */
  lemma DropWritesInnerPlace(outer: SizedCell, inner: SizedCell, c: Carrier, d: Carrier, p: Place, q: Place, v: Value)
    requires inner.decode(d) == Some(v)
    ensures Drop(SSized(outer, Some(c), p, SSized(inner, Some(d), q, SEmpty))).writes == map[q := v]
  {
    var part := SSized(inner, Some(d), q, SEmpty);
    assert Sync(part).writes == map[q := v];
  }

  // ---------- one path for each place ----------

  /** No two parts of a tree refer to the same place. */
  predicate PlacesApart(s: Snap)
    decreases s, 1
  {
    match s
    case SSized(_, _, original, inner) => PlacesApart(inner) && (original != null ==> original !in PlacesIn(inner))
    case SWide(_, _, fields) => AllApart(fields)
    case SVector(_, _, inner) => PlacesApart(inner)
    case SAll(stores) => AllApart(stores)
    case STuple(stores) => AllApart(stores)
    case _ => true
  }

  predicate AllApart(ss: seq<Snap>)
    decreases ss, 0
  {
    |ss| == 0 || (PlacesApart(ss[0]) && AllApart(ss[1..]) && PlacesIn(ss[0]) !! PlacesInAll(ss[1..]))
  }

  lemma {:induction false} ValidIsApart(s: Store)
    requires Valid(s)
    ensures PlacesApart(Contents(s))
    decreases s, 1
  {
    match s
    case Empty =>
    case Direct(_, _) =>
    case Sized(_, inner) => ValidIsApart(inner);
    case Wide(_, fields) => AllValidAreApart(fields);
    case Vector(_, inner) => ValidIsApart(inner);
    case All(stores) => AllValidAreApart(stores);
    case Tuple(stores) => AllValidAreApart(stores);
  }

  lemma {:induction false} AllValidAreApart(ss: seq<Store>)
    requires ValidAll(ss)
    ensures AllApart(ContentsAll(ss))
    decreases ss, 0
  {
    if |ss| > 0 {
      ValidIsApart(ss[0]);
      AllValidAreApart(ss[1..]);
      assert ContentsAll(ss)[1..] == ContentsAll(ss[1..]);
    }
  }

  lemma {:induction false} OverwriteKeepsApart(fields: seq<Snap>, raws: seq<Raw>)
    requires AllApart(fields)
    ensures AllApart(OverwriteAll(fields, raws))
  {
    if |fields| > 0 {
      var rest := if |raws| == 0 then [] else raws[1..];
      OverwriteKeepsApart(fields[1..], rest);
      OverwriteAllKeepsPlaces(fields[1..], rest);
      assert OverwriteAll(fields, raws)[1..] == OverwriteAll(fields[1..], rest);
    }
  }

  lemma {:induction false} ApartByIndex(ss: seq<Snap>)
    requires AllApart(ss)
    ensures forall i :: 0 <= i < |ss| ==> PlacesApart(ss[i])
    ensures forall i, j :: 0 <= i < j < |ss| ==> PlacesIn(ss[i]) !! PlacesIn(ss[j])
  {
    if |ss| > 0 {
      ApartByIndex(ss[1..]);
      hide PlacesApart, PlacesIn;
      forall i | 0 < i < |ss| ensures ss[i] == ss[1..][i - 1] {}
    }
  }

  /** The parts of a node are apart, and so is its original from them. */
  lemma PartsAreApart(s: Snap, synced: bool)
    requires PlacesApart(s)
    ensures var parts := Parts(s, synced);
            && (forall i :: 0 <= i < |parts| ==> PlacesApart(parts[i]) && PlacesIn(parts[i]) <= PlacesIn(s))
            && (forall i, j :: 0 <= i < j < |parts| ==> PlacesIn(parts[i]) !! PlacesIn(parts[j]))
            && (s.SSized? && s.original != null ==> s.original !in PlacesIn(s.inner))
  {
    var parts := Parts(s, synced);
    if s.SWide? && s.buffer.Some? {
      OverwriteKeepsApart(s.fields, s.buffer.value);
      OverwriteAllKeepsPlaces(s.fields, s.buffer.value);
    }
    if s.SWide? || s.SAll? || s.STuple? {
      ApartByIndex(parts);
    }
  }

  lemma CopiedPart(s: Snap, synced: bool, k: nat, p: Place, v: Value)
    requires CopiesTo(s, synced, k, p, v)
    ensures s.fields[k].SDirect? && s.fields[k].place == p
    ensures k < |Parts(s, synced)| && Parts(s, synced)[k] == s.fields[k]
  {
    assert p in OverwriteEffect(s.fields[k], s.buffer.value[k]).writes;
  }

  lemma {:induction false} PathInside(s: Snap, synced: bool, path: seq<nat>, p: Place, v: Value)
    requires PlacesApart(s) && WritesAlong(s, synced, path, p, v)
    ensures p in PlacesIn(s)
    decreases |path|
  {
    if |path| > 0 {
      var part := Parts(s, synced)[path[0]];
      PartsAreApart(s, synced);
      if |path| == 1 && CopiesTo(s, synced, path[0], p, v) {
        CopiedPart(s, synced, path[0], p, v);
        assert p in PlacesIn(part);
      } else {
        PathInside(part, PartSynced(s, synced, path[0]), path[1..], p, v);
      }
    }
  }

  lemma DirectHasNoPaths(s: Snap, synced: bool, path: seq<nat>, p: Place, v: Value)
    requires s.SDirect?
    ensures !WritesAlong(s, synced, path, p, v)
  {
  }

  lemma SameCopy(s: Snap, synced: bool, k: nat, p: Place, v: Value, u: Value)
    requires CopiesTo(s, synced, k, p, v) && CopiesTo(s, synced, k, p, u)
    ensures v == u
  {
    assert map[p := v][p] == map[p := u][p];
  }

  lemma FirstPart(s: Snap, synced: bool, path: seq<nat>, p: Place, v: Value)
    requires PlacesApart(s) && WritesAlong(s, synced, path, p, v) && |path| > 0
    ensures path[0] < |Parts(s, synced)| && p in PlacesIn(Parts(s, synced)[path[0]])
    ensures (|path| == 1 && CopiesTo(s, synced, path[0], p, v)) ||
      WritesAlong(Parts(s, synced)[path[0]], PartSynced(s, synced, path[0]), path[1..], p, v)
    ensures s.SSized? && s.original != null ==> s.original != p
  {
    var part := Parts(s, synced)[path[0]];
    PartsAreApart(s, synced);
    if |path| == 1 && CopiesTo(s, synced, path[0], p, v) {
      CopiedPart(s, synced, path[0], p, v);
      assert p in PlacesIn(part);
    } else {
      PathInside(part, PartSynced(s, synced, path[0]), path[1..], p, v);
    }
  }

  /** A place is written along one path only. */
  lemma {:induction false} OnePath(s: Snap, synced: bool, a: seq<nat>, v: Value, b: seq<nat>, u: Value, p: Place)
    requires PlacesApart(s) && WritesAlong(s, synced, a, p, v) && WritesAlong(s, synced, b, p, u)
    ensures a == b && v == u
    decreases |a|
  {
    if |a| == 0 && |b| == 0 {
    } else if |a| == 0 {
      FirstPart(s, synced, b, p, u);
      assert false;
    } else if |b| == 0 {
      FirstPart(s, synced, a, p, v);
      assert false;
    } else {
      var parts := Parts(s, synced);
      FirstPart(s, synced, a, p, v);
      FirstPart(s, synced, b, p, u);
      PartsAreApart(s, synced);
      hide *;
      var k := a[0];
      assert k == b[0];
      var part, mode := parts[k], PartSynced(s, synced, k);
      if WritesAlong(part, mode, a[1..], p, v) && WritesAlong(part, mode, b[1..], p, u) {
        OnePath(part, mode, a[1..], v, b[1..], u, p);
        SameTail(a, b);
      } else if !WritesAlong(part, mode, a[1..], p, v) {
        CopiedPart(s, synced, k, p, v);
        DirectHasNoPaths(part, mode, b[1..], p, u);
        SameTail(a, b);
        SameCopy(s, synced, k, p, v, u);
      } else {
        CopiedPart(s, synced, k, p, u);
        DirectHasNoPaths(part, mode, a[1..], p, v);
        assert false;
      }
    }
  }

  lemma SameTail(a: seq<nat>, b: seq<nat>)
    requires |a| > 0 && |b| > 0 && a[0] == b[0] && (a[1..] == b[1..] || |a| == |b| == 1)
    ensures a == b
  {
    assert a == [a[0]] + a[1..] && b == [b[0]] + b[1..];
  }

  /** In a valid tree the written values are exact: synchronising, or dropping, leaves
      `v` in `p` exactly if a path writes `v` to `p`, and each place has one such path. */
  lemma ValidTreesWriteExactly(s: Store, synced: bool, p: Place, v: Value)
    requires Valid(s)
    ensures p in EffectOf(Contents(s), synced).writes && EffectOf(Contents(s), synced).writes[p] == v <==>
      exists path :: WritesAlong(Contents(s), synced, path, p, v)
    ensures forall a, b :: WritesAlong(Contents(s), synced, a, p, v) && WritesAlong(Contents(s), synced, b, p, v) ==>
      a == b
  {
    ValidIsApart(s);
    var c := Contents(s);
    hide *;
    var w := EffectOf(c, synced).writes;
    forall a, b | WritesAlong(c, synced, a, p, v) && WritesAlong(c, synced, b, p, v) ensures a == b {
      OnePath(c, synced, a, v, b, v, p);
    }
    if path :| WritesAlong(c, synced, path, p, v) {
      PathsWrite(c, synced, path, p, v);
      var other := WritesFollowPaths(c, synced, p);
      OnePath(c, synced, path, v, other, w[p], p);
    }
    if p in w {
      var path := WritesFollowPaths(c, synced, p);
    }
  }
}
