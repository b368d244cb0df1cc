/** The loops that convert the elements of owned vectors and arrays. */
module ElementLoops {
  import opened Wrappers
  import opened Types
  import opened Memory
  import opened Codec

  /** Encode every element in order. */
  method EncodeElements(elem: Ty, values: seq<Value>) returns (encoded: seq<Carrier>)
    requires forall i :: 0 <= i < |values| ==> HasType(elem, values[i])
    ensures |encoded| == |values| && forall i :: 0 <= i < |values| ==> encoded[i] == Encode(elem, values[i])
    ensures AllOf(DecodeRun(Checked, elem, encoded)) == Some(values)
  {
    encoded := [];
    for i := 0 to |values|
      invariant |encoded| == i && forall k :: 0 <= k < i ==> encoded[k] == Encode(elem, values[k])
    {
      encoded := encoded + [Encode(elem, values[i])];
    }
    forall i | 0 <= i < |values| ensures Decode(Checked, elem, encoded[i]) == Some(values[i]) {
      RoundTrip(Checked, elem, values[i]);
    }
    CollectRun(DecodeRun(Checked, elem, encoded), values);
  }

  /** Decode every element, also after one has failed; `reached` are the carriers that
      were handed to a decoder and so are never leaked. */
  method DecodeVecElements(elem: Ty, source: seq<Carrier>) returns (decoded: Option<seq<Value>>, reached: seq<Carrier>)
    ensures decoded == AllOf(DecodeRun(Checked, elem, source))
    ensures reached == source
  {
    var isValid, values := true, [];
    reached := [];
    var all := DecodeRun(Checked, elem, source);
    for i := 0 to |source|
      invariant reached == source[..i]
      invariant isValid <==> forall k :: 0 <= k < i ==> all[k].Some?
      invariant isValid ==> |values| == i && forall k :: 0 <= k < i ==> all[k] == Some(values[k])
    {
      reached := reached + [source[i]];
      var item := Decode(Checked, elem, source[i]);
      assert all[i] == item;
      if item.Some? {
        values := values + [item.value];
      } else {
        isValid := false;
      }
    }
    decoded := if isValid then Some(values) else None;
    if isValid {
      CollectRun(all, values);
    }
  }

  /** Arrays decode every element first and look for failures afterwards. */
  method DecodeArrayElements(elem: Ty, source: seq<Carrier>) returns (r: Option<seq<Value>>)
    ensures r == AllOf(DecodeRun(Checked, elem, source))
  {
    var decoded: seq<Option<Value>> := [];
    for i := 0 to |source|
      invariant decoded == DecodeRun(Checked, elem, source)[..i]
    {
      decoded := decoded + [Decode(Checked, elem, source[i])];
    }
    assert decoded == DecodeRun(Checked, elem, source);
    if exists i :: 0 <= i < |decoded| && decoded[i].None? {
      return None;
    }
    r := Some(seq(|decoded|, i requires 0 <= i < |decoded| => decoded[i].value));
  }

  /** Scan a slice for an invalid element. */
  method ValidateElements(elem: Ty, items: seq<Carrier>) returns (valid: bool)
    ensures valid <==> RunValid(elem, items)
  {
    for i := 0 to |items|
      invariant RunValid(elem, items[..i])
    {
      if !IsValid(elem, items[i]) {
        return false;
      }
    }
    assert items[..|items|] == items;
    valid := true;
  }

  /** Owned decoding of a vector: a stable element type is validated in place and
      reinterpreted, any other is converted element by element. Either way the result
      is that of decoding part by part. */
  method DecodeVector(elem: Ty, c: Carrier) returns (r: Option<Value>)
    requires c.CVec? && Shaped(Vec(elem), c)
    ensures r == Decode(ByParts, Vec(elem), c)
  {
    FastPathRefinesParts(Vec(elem), c);
    if Stable(elem) {
      var valid := false;
      if !c.isNull && c.len <= c.capacity {
        valid := ValidateElements(elem, c.data);
      }
      return if valid then Some(Transmute(Vec(elem), c)) else None;
    }
    if c.isNull || c.len > c.capacity {
      return None;
    }
    var decoded, _ := DecodeVecElements(elem, c.data);
    r := MapVec(decoded, c.capacity);
  }
}
