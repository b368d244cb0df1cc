/** The reserved carrier (`NICHE`) of each type that has one and the test for it. */
module Niches {
  import opened Types

  /** The first field that has a niche, which the documentation says carries the
      niche of the tuple; the number of fields if none has one. */
  function FirstNiche(fields: seq<Ty>): (k: nat)
    ensures k <= |fields| && (k < |fields| ==> HasNiche(fields[k]))
    ensures forall i :: 0 <= i < k ==> !HasNiche(fields[i])
  {
    if |fields| == 0 || HasNiche(fields[0]) then 0 else 1 + FirstNiche(fields[1..])
  }

  predicate AnyNiche(fields: seq<Ty>) {
    FirstNiche(fields) < |fields|
  }

  lemma {:induction false} FirstNicheOfHalves(fields: seq<Ty>, m: nat)
    requires m <= |fields|
    ensures FirstNiche(fields) == if AnyNiche(fields[..m]) then FirstNiche(fields[..m]) else m + FirstNiche(fields[m..])
  {
    if m == 0 {
      assert fields[0..] == fields;
    } else {
      FirstNicheOfHalves(fields[1..], m - 1);
      assert fields[1..][..m - 1] == fields[..m][1..];
      assert fields[1..][m - 1..] == fields[m..];
    }
  }

  /** The reserved carrier; meaningful only for types that have one. */
  function NicheOf(t: Ty): Carrier
    decreases t, 1, 0
  {
    match t
    case Bool => CWord(2)
    case Char => CWord(0x11_0000)
    case NonZero(_) => CWord(0)
    case Tuple(_, fields) => CSeq(TupleNiche(t, fields))
    case Array(elem, len) => CSeq(seq(len, i requires 0 <= i < len => NicheOf(elem)))
    case Vec(_) => CVec(true, [], 0, 0)
    case Opt(native, some) =>
      if !InNiche(native, some) then CTagged(2, Zero(some))
      else if some == Bool then CWord(3)
      else CWord(4)
    case Res(_, ok, _) => CTagged(2, Zero(ok))
    case _ => Zero(t)
  }

  /** A tuple of two or more fields is a pair of its halves, split at n/2; the
      pair takes the niche of its left half if that has one. */
  function TupleNiche(parent: Ty, fields: seq<Ty>): (cs: seq<Carrier>)
    requires forall i :: 0 <= i < |fields| ==> fields[i] < parent
    ensures |cs| == |fields|
    decreases parent, 0, |fields|
  {
    if |fields| == 0 then []
    else if |fields| == 1 then [NicheOf(fields[0])]
    else
      var left, right := fields[..|fields| / 2], fields[|fields| / 2..];
      if AnyNiche(left) then TupleNiche(parent, left) + ZeroAll(right)
      else ZeroAll(left) + TupleNiche(parent, right)
  }

  function ZeroAll(fields: seq<Ty>): (cs: seq<Carrier>)
    ensures |cs| == |fields| && forall i :: 0 <= i < |fields| ==> cs[i] == Zero(fields[i])
  {
    seq(|fields|, i requires 0 <= i < |fields| => Zero(fields[i]))
  }

  /** The test for the reserved carrier, for every carrier of the type. */
  predicate IsNiche(t: Ty, c: Carrier)
    decreases t, 1, 0
  {
    match t
    case Bool => c == CWord(2)
    case Char => c == CWord(0x11_0000)
    case NonZero(_) => c == CWord(0)
    case Tuple(_, fields) => c.CSeq? && |c.items| == |fields| && TupleIsNiche(t, fields, c.items)
    case Array(elem, len) =>
      len != 0 && c.CSeq? && |c.items| == len && forall i :: 0 <= i < len ==> IsNiche(elem, c.items[i])
    case Vec(_) => c.CVec? && c.isNull
    case Opt(native, some) =>
      if !InNiche(native, some) then c.CTagged? && c.tag == 2
      else if some == Bool then c == CWord(3)
      else some == Opt(true, Bool) && c == CWord(4)
    case Res(_, _, _) => c.CTagged? && c.tag == 2
    case _ => false
  }

  predicate TupleIsNiche(parent: Ty, fields: seq<Ty>, cs: seq<Carrier>)
    requires forall i :: 0 <= i < |fields| ==> fields[i] < parent
    requires |cs| == |fields|
    decreases parent, 0, |fields|
  {
    if |fields| == 0 then false
    else if |fields| == 1 then IsNiche(fields[0], cs[0])
    else
      var k := |fields| / 2;
      if AnyNiche(fields[..k]) then TupleIsNiche(parent, fields[..k], cs[..k])
      else TupleIsNiche(parent, fields[k..], cs[k..])
  }

  /** The niche of a tuple as documented: the niche of the first field that has
      one, every other field zeroed. */
  function DocumentedNiche(fields: seq<Ty>): (cs: seq<Carrier>)
    requires AnyNiche(fields)
    ensures |cs| == |fields|
  {
    ZeroAll(fields)[FirstNiche(fields) := NicheOf(fields[FirstNiche(fields)])]
  }

  lemma DocumentedNicheOfHalves(fields: seq<Ty>, m: nat)
    requires AnyNiche(fields) && m <= |fields|
    ensures var left, right := fields[..m], fields[m..];
            if AnyNiche(left) then DocumentedNiche(fields) == DocumentedNiche(left) + ZeroAll(right)
            else AnyNiche(right) && DocumentedNiche(fields) == ZeroAll(left) + DocumentedNiche(right)
  {
    hide HasNiche, Zero, NicheOf, FirstNiche, ZeroAll;
    FirstNicheOfHalves(fields, m);
    var left, right, k := fields[..m], fields[m..], FirstNiche(fields);
    assert ZeroAll(fields) == ZeroAll(left) + ZeroAll(right);
    if AnyNiche(left) {
      assert left[k] == fields[k];
    } else {
      assert right[k - m] == fields[k];
    }
  }

  /** Splitting a tuple at n/2 puts the niche in the first field that has one
      and zeroes every other field. */
  lemma {:induction false} HalvingIsFirstField(parent: Ty, fields: seq<Ty>)
    requires forall i :: 0 <= i < |fields| ==> fields[i] < parent
    requires AnyNiche(fields)
    ensures TupleNiche(parent, fields) == DocumentedNiche(fields)
    decreases |fields|
  {
    if |fields| > 1 {
      var m := |fields| / 2;
      DocumentedNicheOfHalves(fields, m);
      HalvingIsFirstField(parent, if AnyNiche(fields[..m]) then fields[..m] else fields[m..]);
    }
  }

  /** Only the first field that has a niche decides whether a tuple carrier is one. */
  lemma {:induction false} HalvingTestsFirstField(parent: Ty, fields: seq<Ty>, cs: seq<Carrier>)
    requires forall i :: 0 <= i < |fields| ==> fields[i] < parent
    requires AnyNiche(fields) && |cs| == |fields|
    ensures var k := FirstNiche(fields);
            TupleIsNiche(parent, fields, cs) <==> IsNiche(fields[k], cs[k])
    decreases |fields|
  {
    if |fields| > 1 {
      var m := |fields| / 2;
      FirstNicheOfHalves(fields, m);
      var (half, part) := if AnyNiche(fields[..m]) then (fields[..m], cs[..m]) else (fields[m..], cs[m..]);
      HalvingTestsFirstField(parent, half, part);
    }
  }

  /** The first half of the niche law: the reserved carrier is a carrier of the
      type and the test recognises it. */
  lemma {:induction false} NicheRecognised(t: Ty)
    requires HasNiche(t)
    ensures Shaped(t, NicheOf(t)) && IsNiche(t, NicheOf(t))
  {
    match t
    case Tuple(_, fields) =>
      var k := FirstNiche(fields);
      HalvingIsFirstField(t, fields);
      NicheRecognised(fields[k]);
      var cs := TupleNiche(t, fields);
      forall i | 0 <= i < |fields| ensures Shaped(fields[i], cs[i]) { ZeroShaped(fields[i]); }
      HalvingTestsFirstField(t, fields, cs);
    case Array(elem, len) => NicheRecognised(elem);
    case Opt(_, some) => ZeroShaped(some);
    case Res(_, ok, _) => ZeroShaped(ok);
    case _ =>
  }
}
