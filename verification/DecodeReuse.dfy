/** Reuse of the store through which Rust code mutably borrows one value held in
    foreign memory. A field store of any type `S` is described by its default and by
    which of its states synchronise. */
module DecodeReuse {
  import opened Wrappers
  import opened Types
  import opened SharedMemory

  /** Writing a whole value back must wait for its fields; destinations inside a
      value must be written before the stores of its fields synchronise. */
  datatype Order = FieldsFirst | WritebackFirst

  /** Retained writeback state: `convert` yields the carrier to write, or nothing if
      the edited value cannot be written back. */
  datatype Writeback = Writeback(target: Target, convert: Value -> Option<Carrier>, order: Order)

  datatype Kind<!S> = Kind(idle: S, syncs: S -> bool)

  /** A builder ran on some fields, and armed the store or not. `Refused` is a decode
      that fails before its builder runs. */
  datatype Event<S> = Built(given: S, armed: bool) | Synced(fields: S) | Wrote(target: Target, c: Carrier) | Refused

  datatype State<S> = State(value: Option<Value>, writeback: Option<Writeback>, fields: S)

  type Builder<!S> = S -> (Option<Value>, S)

  /** A `RefMutSizedDecodeStore`. */
  class DecodeStore<S> {
    const kind: Kind<S>
    var value: Option<Value>
    var writeback: Option<Writeback>
    var fields: S
    ghost var events: seq<Event<S>>

    ghost predicate Valid()
      reads this
    {
      value.Some? <==> writeback.Some?
    }

    ghost function Contents(): State<S>
      reads this
    {
      State(value, writeback, fields)
    }

    ghost function Pointee(): set<Target>
      reads this
    {
      if writeback.Some? then {writeback.value.target} else {}
    }

    constructor (kind: Kind<S>)
      ensures this.kind == kind && Valid() && Contents() == State(None, None, kind.idle) && events == []
    {
      this.kind := kind;
      value, writeback, fields := None, None, kind.idle;
      events := [];
    }

    method Finish() returns (ok: bool)
      requires Valid() && writeback.Some?
      modifies this, Pointee()
      ensures Valid() && Contents() == State(None, None, kind.idle)
      ensures ok == Succeeds(kind, old(Contents()))
      ensures events == old(events) + FinishEvents(kind, old(Contents()))
      ensures var t := old(writeback.value.target);
              t.c == After(FinishEvents(kind, old(Contents())), t, old(writeback.value.target.c))
    {
      FinishAfter(kind, Contents(), writeback.value.target, writeback.value.target.c);
      hide After;
      var state, edited := writeback.value, value.value;
      writeback, value := None, None;
      if state.order.FieldsFirst? {
        ok := TakeFields();
        if ok {
          ok := Write(state, edited);
        }
      } else {
        var written := Write(state, edited);
        var synced := TakeFields();
        ok := written && synced;
      }
    }

    /** Synchronise the field store and leave a default one. */
    method TakeFields() returns (ok: bool)
      modifies this
      ensures value == old(value) && writeback == old(writeback)
      ensures fields == kind.idle && ok == kind.syncs(old(fields)) && events == old(events) + [Synced(old(fields))]
    {
      ok := kind.syncs(fields);
      events := events + [Synced(fields)];
      fields := kind.idle;
    }

    method Write(state: Writeback, edited: Value) returns (ok: bool)
      modifies this, state.target
      ensures Contents() == old(Contents())
      ensures var c := state.convert(edited);
              && ok == c.Some? && events == old(events) + (if ok then [Wrote(state.target, c.value)] else [])
              && state.target.c == if ok then c.value else old(state.target.c)
    {
      var c := state.convert(edited);
      ok := c.Some?;
      if ok {
        state.target.c := c.value;
        events := events + [Wrote(state.target, c.value)];
      }
    }

    /** Commit the earlier value first; if that fails the builder never runs. A failing
        builder arms nothing. */
    method DecodeWithOrder(build: Builder<S>, retain: Writeback) returns (built: bool)
      requires Valid()
      modifies this, Pointee()
      ensures Valid() && Contents() == Step(kind, old(Contents()), Decode(build, retain))
      ensures events == old(events) + StepEvents(kind, old(Contents()), Decode(build, retain))
      ensures old(writeback).Some? ==> var t := old(writeback).value.target;
        t.c == After(StepEvents(kind, old(Contents()), Decode(build, retain)), t, old(writeback.value.target.c))
      ensures built <==> writeback.Some?
    {
      ghost var s := Contents();
      if writeback.Some? {
        StepAfter(kind, s, Decode(build, retain), writeback.value.target, writeback.value.target.c);
        var ok := Finish();
        if !ok {
          events := events + [Refused];
          return false;
        }
      }
      var (decoded, left) := build(fields);
      events := events + [Built(fields, decoded.Some?)];
      fields := left;
      built := decoded.Some?;
      if built {
        writeback := Some(retain);
        value := decoded;
      }
    }

    /** Whole-value decoding refuses null before anything else. */
    method DecodeWhole(source: Target?, build: Builder<S>, encode: Value -> Carrier) returns (built: bool)
      requires Valid()
      modifies this, Pointee()
      ensures Valid() && Contents() == Step(kind, old(Contents()), WholeOp(source, build, encode))
      ensures events == old(events) + StepEvents(kind, old(Contents()), WholeOp(source, build, encode))
      ensures old(writeback).Some? ==> var t := old(writeback).value.target;
        t.c ==
          After(StepEvents(kind, old(Contents()), WholeOp(source, build, encode)), t, old(writeback.value.target.c))
      ensures built <==> source != null && writeback.Some?
    {
      if source == null {
        return false;
      }
      built := DecodeWithOrder(build, Writeback(source, v => Some(encode(v)), FieldsFirst));
    }

    /** Rust code edits the value behind the reference it was given. */
    method Edit(v: Value)
      requires Valid()
      modifies this
      ensures Valid() && Contents() == Step(kind, old(Contents()), EditValue(v)) && events == old(events)
    {
      if value.Some? {
        value := Some(v);
      }
    }

    method Sync() returns (ok: bool)
      requires Valid()
      modifies this, Pointee()
      ensures ok == (old(writeback).Some? && Succeeds(kind, old(Contents())))
      ensures events == old(events) + EndEvents(kind, old(Contents()), true)
      ensures old(writeback).Some? ==> var t := old(writeback).value.target;
        t.c == After(EndEvents(kind, old(Contents()), true), t, old(writeback.value.target.c))
    {
      ok := false;
      if writeback.Some? {
        ok := Finish();
      }
    }
  }

  // ---------- the protocol as a state machine ----------

  datatype Op<!S> = Decode(build: Builder<S>, retain: Writeback) | NullSource | EditValue(v: Value)

  function WholeOp<S>(source: Target?, build: Builder<S>, encode: Value -> Carrier): Op<S> {
    if source == null then NullSource else Decode(build, Writeback(source, v => Some(encode(v)), FieldsFirst))
  }

  function Converted<S>(s: State<S>): Option<Carrier> {
    if s.value.Some? && s.writeback.Some? then s.writeback.value.convert(s.value.value) else None
  }

  predicate Succeeds<S>(kind: Kind<S>, s: State<S>) {
    kind.syncs(s.fields) && Converted(s).Some?
  }

  function FinishEvents<S>(kind: Kind<S>, s: State<S>): seq<Event<S>> {
    if s.writeback.None? then []
    else
      var write := if Converted(s).Some? then [Wrote(s.writeback.value.target, Converted(s).value)] else [];
      if s.writeback.value.order.WritebackFirst? then write + [Synced(s.fields)]
      else if kind.syncs(s.fields) then [Synced(s.fields)] + write
      else [Synced(s.fields)]
  }

  /** What a target holds after some events: the last carrier written to it. */
  function After<S>(events: seq<Event<S>>, t: Target, before: Carrier): Carrier {
    if |events| == 0 then before
    else After(events[1..], t, if events[0].Wrote? && events[0].target == t then events[0].c else before)
  }

  lemma {:induction false} AfterConcat<S>(a: seq<Event<S>>, b: seq<Event<S>>, t: Target, before: Carrier)
    ensures After(a + b, t, before) == After(b, t, After(a, t, before))
  {
    if |a| == 0 {
      assert a + b == b;
    } else {
      AfterConcat(a[1..], b, t, if a[0].Wrote? && a[0].target == t then a[0].c else before);
      assert (a + b)[1..] == a[1..] + b;
    }
  }

  /** Whether finishing writes the target. */
  predicate FinishWrites<S>(kind: Kind<S>, s: State<S>) {
    s.writeback.Some? && Converted(s).Some? && (s.writeback.value.order.FieldsFirst? ==> kind.syncs(s.fields))
  }

  /** Finishing leaves every other target alone. */
  lemma FinishAfter<S>(kind: Kind<S>, s: State<S>, t: Target, before: Carrier)
    ensures After(FinishEvents(kind, s), t, before) ==
      if FinishWrites(kind, s) && t == s.writeback.value.target then Converted(s).value else before
  {
    if FinishWrites(kind, s) {
      var wrote, fields := [Wrote(s.writeback.value.target, Converted(s).value)], [Synced(s.fields)];
      AfterConcat(wrote, fields, t, before);
      AfterConcat(fields, wrote, t, before);
    }
  }

  function Step<S>(kind: Kind<S>, s: State<S>, op: Op<S>): State<S> {
    match op
    case NullSource => s
    case EditValue(v) => if s.value.Some? then s.(value := Some(v)) else s
    case Decode(build, retain) =>
      if s.writeback.Some? && !Succeeds(kind, s) then State(None, None, kind.idle)
      else
        var (decoded, left) := build(if s.writeback.Some? then kind.idle else s.fields);
        if decoded.Some? then State(decoded, Some(retain), left) else State(None, None, left)
  }

  function BuiltBy<S>(op: Op<S>, fields: S): Event<S>
    requires op.Decode?
  {
    Built(fields, op.build(fields).0.Some?)
  }

  function StepEvents<S>(kind: Kind<S>, s: State<S>, op: Op<S>): seq<Event<S>> {
    if !op.Decode? then []
    else if s.writeback.None? then [BuiltBy(op, s.fields)]
    else FinishEvents(kind, s) + if Succeeds(kind, s) then [BuiltBy(op, kind.idle)] else [Refused]
  }

  /** A step changes targets only by finishing. */
  lemma StepAfter<S>(kind: Kind<S>, s: State<S>, op: Op<S>, t: Target, before: Carrier)
    ensures After(StepEvents(kind, s, op), t, before) ==
      if op.Decode? then After(FinishEvents(kind, s), t, before) else before
  {
    if op.Decode? { AfterConcat(FinishEvents(kind, s), [BuiltBy(op, kind.idle)], t, before); }
    AfterConcat(FinishEvents(kind, s), [Refused], t, before);
  }

  /** Dropping the store commits nothing. */
  function EndEvents<S>(kind: Kind<S>, s: State<S>, synced: bool): seq<Event<S>> {
    if synced then FinishEvents(kind, s) else []
  }

  function Run<S>(kind: Kind<S>, s: State<S>, ops: seq<Op<S>>, synced: bool): seq<Event<S>>
    decreases |ops|
  {
    if |ops| == 0 then EndEvents(kind, s, synced)
    else StepEvents(kind, s, ops[0]) + Run(kind, Step(kind, s, ops[0]), ops[1..], synced)
  }

  // ---------- loans ----------

  /** One value from being built to being committed or given up: where it goes, what
      it is at last and the fields that were built with it. */
  datatype Loan<S> = Loan(retain: Writeback, last: Value, fields: S)

  function LastValue<S>(v: Value, ops: seq<Op<S>>): Value
    decreases |ops|
  {
    if |ops| == 0 || ops[0].Decode? then v
    else LastValue(if ops[0].EditValue? then ops[0].v else v, ops[1..])
  }

  /** The operations from the next decode of a source that is not null. */
  function NextDecode<S>(ops: seq<Op<S>>): (rest: seq<Op<S>>)
    ensures |rest| <= |ops| && (|rest| > 0 ==> rest[0].Decode?)
    decreases |ops|
  {
    if |ops| == 0 || ops[0].Decode? then ops else NextDecode(ops[1..])
  }

  predicate Repays<S>(kind: Kind<S>, x: Loan<S>) {
    kind.syncs(x.fields) && x.retain.convert(x.last).Some?
  }

  function Repayment<S>(kind: Kind<S>, x: Loan<S>): seq<Event<S>> {
    var c := x.retain.convert(x.last);
    var write := if c.Some? then [Wrote(x.retain.target, c.value)] else [];
    if x.retain.order.WritebackFirst? then write + [Synced(x.fields)]
    else [Synced(x.fields)] + if Repays(kind, x) then write else []
  }

  /** A run told loan by loan: a builder starts from the default fields, or from what
      the failed builder before it left; a loan is repaid before the next builder
      runs, and one that cannot be repaid costs the next decode its turn. */
  function Story<S>(kind: Kind<S>, fields: S, ops: seq<Op<S>>, synced: bool): seq<Event<S>>
    decreases |ops|, 0
  {
    var rest := NextDecode(ops);
    if |rest| == 0 then []
    else
      var (decoded, left) := rest[0].build(fields);
      [Built(fields, decoded.Some?)] +
      if decoded.None? then Story(kind, left, rest[1..], synced)
      else Settle(kind, Loan(rest[0].retain, LastValue(decoded.value, rest[1..]), left), NextDecode(rest[1..]), synced)
  }

  function Settle<S>(kind: Kind<S>, x: Loan<S>, later: seq<Op<S>>, synced: bool): seq<Event<S>>
    decreases |later|, 1
  {
    if |later| == 0 then (if synced then Repayment(kind, x) else [])
    else if Repays(kind, x) then Repayment(kind, x) + Story(kind, kind.idle, later, synced)
    else Repayment(kind, x) + [Refused] + Story(kind, kind.idle, later[1..], synced)
  }

  function StoryFrom<S>(kind: Kind<S>, s: State<S>, ops: seq<Op<S>>, synced: bool): seq<Event<S>> {
    if s.value.Some? && s.writeback.Some?
    then Settle(kind, Loan(s.writeback.value, LastValue(s.value.value, ops), s.fields), NextDecode(ops), synced)
    else Story(kind, s.fields, ops, synced)
  }

  lemma StoryOfDecode<S>(kind: Kind<S>, fields: S, ops: seq<Op<S>>, synced: bool)
    requires |ops| > 0 && ops[0].Decode?
    ensures var (decoded, left) := ops[0].build(fields);
            Story(kind, fields, ops, synced) == [Built(fields, decoded.Some?)] +
              StoryFrom(kind, State(decoded, if decoded.Some? then Some(ops[0].retain) else None, left), ops[1..],
                synced)
  {
  }

  lemma StoryOfIdle<S>(kind: Kind<S>, s: State<S>, ops: seq<Op<S>>, synced: bool)
    requires |ops| > 0 && s.value.None? && s.writeback.None?
    ensures StoryFrom(kind, s, ops, synced) ==
      StepEvents(kind, s, ops[0]) + StoryFrom(kind, Step(kind, s, ops[0]), ops[1..], synced)
  {
    if ops[0].Decode? {
      StoryOfDecode(kind, s.fields, ops, synced);
      hide Story;
    } else {
      assert NextDecode(ops) == NextDecode(ops[1..]);
    }
  }

  lemma StoryOfLoan<S>(kind: Kind<S>, s: State<S>, ops: seq<Op<S>>, synced: bool)
    requires |ops| > 0 && s.value.Some? && s.writeback.Some?
    ensures StoryFrom(kind, s, ops, synced) ==
      StepEvents(kind, s, ops[0]) + StoryFrom(kind, Step(kind, s, ops[0]), ops[1..], synced)
  {
    hide Story;
    if ops[0].Decode? {
      LoanMeetsDecode(kind, s, ops, synced);
    } else {
      hide Settle;
      assert NextDecode(ops) == NextDecode(ops[1..]);
    }
  }

  lemma LoanMeetsDecode<S>(kind: Kind<S>, s: State<S>, ops: seq<Op<S>>, synced: bool)
    requires |ops| > 0 && ops[0].Decode? && s.value.Some? && s.writeback.Some?
    ensures StoryFrom(kind, s, ops, synced) ==
      StepEvents(kind, s, ops[0]) + StoryFrom(kind, Step(kind, s, ops[0]), ops[1..], synced)
  {
    hide Story, FinishEvents, Repayment;
    var x := Loan(s.writeback.value, s.value.value, s.fields);
    FinishRepays(kind, s);
    assert StoryFrom(kind, s, ops, synced) == Settle(kind, x, ops, synced);
    if Repays(kind, x) {
      hide StoryFrom, Settle;
      StoryOfDecode(kind, kind.idle, ops, synced);
    }
  }

  lemma FinishRepays<S>(kind: Kind<S>, s: State<S>)
    requires s.value.Some? && s.writeback.Some?
    ensures FinishEvents(kind, s) == Repayment(kind, Loan(s.writeback.value, s.value.value, s.fields))
  {
  }

  lemma {:induction false} RunIsStoryFrom<S>(kind: Kind<S>, s: State<S>, ops: seq<Op<S>>, synced: bool)
    requires s.value.Some? <==> s.writeback.Some?
    ensures Run(kind, s, ops, synced) == StoryFrom(kind, s, ops, synced)
    decreases |ops|
  {
    if |ops| > 0 {
      RunIsStoryFrom(kind, Step(kind, s, ops[0]), ops[1..], synced);
      hide Story, Settle, StoryFrom, StepEvents;
      if s.value.Some? { StoryOfLoan(kind, s, ops, synced); } else { StoryOfIdle(kind, s, ops, synced); }
    }
  }

  /** Every run of a fresh store is its story. */
  lemma RunIsStory<S>(kind: Kind<S>, ops: seq<Op<S>>, synced: bool)
    ensures Run(kind, State(None, None, kind.idle), ops, synced) == Story(kind, kind.idle, ops, synced)
  {
    RunIsStoryFrom(kind, State(None, None, kind.idle), ops, synced);
  }

  // ---------- which targets a run writes ----------

  /** The loans of a run that are finished, by reuse or by the final synchronisation;
      a loan that cannot be repaid costs the next decode its turn. */
  function Finished<S>(kind: Kind<S>, fields: S, ops: seq<Op<S>>, synced: bool): seq<Loan<S>>
    decreases |ops|
  {
    var rest := NextDecode(ops);
    if |rest| == 0 then []
    else
      var (decoded, left) := rest[0].build(fields);
      if decoded.None? then Finished(kind, left, rest[1..], synced)
      else
        var x, later := Loan(rest[0].retain, LastValue(decoded.value, rest[1..]), left), NextDecode(rest[1..]);
        if |later| == 0 then (if synced then [x] else [])
        else [x] + Finished(kind, kind.idle, if Repays(kind, x) then later else later[1..], synced)
  }

  type Write = (Target, Carrier)

  /** The writes among some events, in order. */
  function Writes<S>(events: seq<Event<S>>): seq<Write> {
    if |events| == 0 then []
    else (if events[0].Wrote? then [(events[0].target, events[0].c)] else []) + Writes(events[1..])
  }

  /** In whole-value order a finished loan writes its value if it is repaid; in the other
      order it writes if its value converts, even if its fields then fail. */
  predicate Pays<S>(kind: Kind<S>, x: Loan<S>) {
    x.retain.convert(x.last).Some? && (x.retain.order.FieldsFirst? ==> kind.syncs(x.fields))
  }

  function Payments<S>(kind: Kind<S>, loans: seq<Loan<S>>): seq<Write> {
    if |loans| == 0 then []
    else
      (if Pays(kind, loans[0]) then [(loans[0].retain.target, loans[0].retain.convert(loans[0].last).value)] else [])
      + Payments(kind, loans[1..])
  }

  lemma {:induction false} WritesConcat<S>(a: seq<Event<S>>, b: seq<Event<S>>)
    ensures Writes(a + b) == Writes(a) + Writes(b)
  {
    if |a| == 0 {
      assert a + b == b;
    } else {
      WritesConcat(a[1..], b);
      assert (a + b)[1..] == a[1..] + b;
    }
  }

  lemma RepaymentWrites<S>(kind: Kind<S>, x: Loan<S>)
    ensures Writes(Repayment(kind, x)) == Payments(kind, [x])
    ensures Writes(Repayment(kind, x) + [Refused]) == Payments(kind, [x])
  {
    WritesConcat(Repayment(kind, x), [Refused]);
  }

  lemma PaymentsMore<S>(kind: Kind<S>, x: Loan<S>, rest: seq<Loan<S>>)
    ensures Payments(kind, [x] + rest) == Payments(kind, [x]) + Payments(kind, rest)
  {
    assert ([x] + rest)[1..] == rest;
  }

  lemma {:induction false} StoryWrites<S>(kind: Kind<S>, fields: S, ops: seq<Op<S>>, synced: bool)
    ensures Writes(Story(kind, fields, ops, synced)) == Payments(kind, Finished(kind, fields, ops, synced))
    decreases |ops|, 0
  {
    var rest := NextDecode(ops);
    if |rest| > 0 {
      var (decoded, left) := rest[0].build(fields);
      if decoded.None? {
        StoryWrites(kind, left, rest[1..], synced);
        WritesConcat([Built(fields, false)], Story(kind, left, rest[1..], synced));
      } else {
        var x, later := Loan(rest[0].retain, LastValue(decoded.value, rest[1..]), left), NextDecode(rest[1..]);
        WritesConcat([Built(fields, true)], Settle(kind, x, later, synced));
        SettleWrites(kind, x, later, synced);
      }
    }
  }

  lemma SettleWrites<S>(kind: Kind<S>, x: Loan<S>, later: seq<Op<S>>, synced: bool)
    ensures Writes(Settle(kind, x, later, synced)) ==
      if |later| == 0 then (if synced then Payments(kind, [x]) else [])
      else Payments(kind, [x] + Finished(kind, kind.idle, if Repays(kind, x) then later else later[1..], synced))
    decreases |later|, 1
  {
    RepaymentWrites(kind, x);
    if |later| > 0 {
      var next := if Repays(kind, x) then later else later[1..];
      var repaid := if Repays(kind, x) then Repayment(kind, x) else Repayment(kind, x) + [Refused];
      WritesConcat(repaid, Story(kind, kind.idle, next, synced));
      StoryWrites(kind, kind.idle, next, synced);
      PaymentsMore(kind, x, Finished(kind, kind.idle, next, synced));
    }
  }

  /** Over every run of a fresh store the writes are, in order, exactly the payments of
      its finished loans. */
  lemma WrittenIffRepaid<S>(kind: Kind<S>, ops: seq<Op<S>>, synced: bool)
    ensures Writes(Run(kind, State(None, None, kind.idle), ops, synced)) ==
      Payments(kind, Finished(kind, kind.idle, ops, synced))
  {
    RunIsStory(kind, ops, synced);
    StoryWrites(kind, kind.idle, ops, synced);
  }

  // ---------- when builders run ----------

  /** The last two events are those of a finish that succeeded. */
  predicate EndsRepaid<S>(kind: Kind<S>, events: seq<Event<S>>) {
    var n := |events|;
    n >= 2 && (
      || (events[n - 2].Synced? && kind.syncs(events[n - 2].fields) && events[n - 1].Wrote?)
      || (events[n - 2].Wrote? && events[n - 1].Synced? && kind.syncs(events[n - 1].fields)))
  }

  /** Nothing is armed: the store is fresh, its last builder failed or was refused, or
      the last value was committed. */
  predicate EndsIdle<S>(kind: Kind<S>, events: seq<Event<S>>) {
    var n := |events|;
    n == 0 || (events[n - 1].Built? && !events[n - 1].armed) || events[n - 1].Refused? || EndsRepaid(kind, events)
  }

  /** A builder runs only on an idle store; a decode is refused only after a finish that failed. */
  predicate MayFollow<S>(kind: Kind<S>, before: seq<Event<S>>, e: Event<S>) {
    && (e.Built? ==> EndsIdle(kind, before))
    && (e.Refused? ==> |before| > 0 && before[|before| - 1].Synced? && !EndsRepaid(kind, before))
  }

  predicate Orderly<S>(kind: Kind<S>, events: seq<Event<S>>) {
    forall i :: 0 <= i < |events| ==> MayFollow(kind, events[..i], events[i])
  }

  lemma OrderlyMore<S>(kind: Kind<S>, events: seq<Event<S>>, e: Event<S>)
    requires Orderly(kind, events) && MayFollow(kind, events, e)
    ensures Orderly(kind, events + [e])
  {
    hide MayFollow;
    var more := events + [e];
    forall i | 0 <= i < |more| ensures MayFollow(kind, more[..i], more[i]) {
      assert more[..i] == if i < |events| then events[..i] else events;
    }
  }

  lemma OrderlyTwo<S>(kind: Kind<S>, events: seq<Event<S>>, a: Event<S>, b: Event<S>)
    requires Orderly(kind, events) && MayFollow(kind, events, a) && MayFollow(kind, events + [a], b)
    ensures Orderly(kind, events + [a, b]) && events + [a] + [b] == events + [a, b]
  {
    hide MayFollow, Orderly;
    OrderlyMore(kind, events, a);
    OrderlyMore(kind, events + [a], b);
    assert events + [a] + [b] == events + [a, b];
  }

  /** Finishing a loan after its builder keeps order, and ends as it succeeded. */
  lemma RepaymentIsOrderly<S>(kind: Kind<S>, before: seq<Event<S>>, x: Loan<S>)
    requires Orderly(kind, before) && |before| > 0 && before[|before| - 1].Built?
    ensures var after := before + Repayment(kind, x);
            && Orderly(kind, after) && (EndsRepaid(kind, after) <==> Repays(kind, x))
            && (!Repays(kind, x) ==> after[|after| - 1].Synced?)
  {
    var synced := Synced(x.fields);
    var c := x.retain.convert(x.last);
    hide Orderly;
    if c.Some? && (x.retain.order.WritebackFirst? || kind.syncs(x.fields)) {
      var wrote := Wrote(x.retain.target, c.value);
      if x.retain.order.WritebackFirst? {
        assert Repayment(kind, x) == [wrote, synced];
        OrderlyTwo(kind, before, wrote, synced);
      } else {
        assert Repayment(kind, x) == [synced, wrote];
        OrderlyTwo(kind, before, synced, wrote);
      }
    } else {
      assert Repayment(kind, x) == [synced];
      OrderlyMore(kind, before, synced);
    }
  }

  lemma {:induction false} StoryIsOrderly<S>(kind: Kind<S>, before: seq<Event<S>>, fields: S, ops: seq<Op<S>>,
      synced: bool)
    requires Orderly(kind, before) && EndsIdle(kind, before)
    ensures Orderly(kind, before + Story(kind, fields, ops, synced))
    decreases |ops|, 0
  {
    var rest := NextDecode(ops);
    if |rest| == 0 {
      assert before + [] == before;
    } else {
      var (decoded, left) := rest[0].build(fields);
      var built := before + [Built(fields, decoded.Some?)];
      OrderlyMore(kind, before, Built(fields, decoded.Some?));
      hide Orderly, MayFollow;
      if decoded.None? {
        StoryIsOrderly(kind, built, left, rest[1..], synced);
        Regroup(before, [Built(fields, false)], Story(kind, left, rest[1..], synced));
      } else {
        var x, later := Loan(rest[0].retain, LastValue(decoded.value, rest[1..]), left), NextDecode(rest[1..]);
        SettleIsOrderly(kind, built, x, later, synced);
        Regroup(before, [Built(fields, true)], Settle(kind, x, later, synced));
      }
    }
  }

  lemma Regroup<T>(a: seq<T>, b: seq<T>, c: seq<T>)
    ensures a + b + c == a + (b + c)
  {
  }

  lemma SettleIsOrderly<S>(kind: Kind<S>, before: seq<Event<S>>, x: Loan<S>, later: seq<Op<S>>, synced: bool)
    requires Orderly(kind, before) && |before| > 0 && before[|before| - 1].Built?
    ensures Orderly(kind, before + Settle(kind, x, later, synced))
    decreases |later|, 1
  {
    var repaid := before + Repayment(kind, x);
    RepaymentIsOrderly(kind, before, x);
    hide Orderly;
    if |later| == 0 {
      assert before + [] == before;
    } else if Repays(kind, x) {
      StoryIsOrderly(kind, repaid, kind.idle, later, synced);
      Regroup(before, Repayment(kind, x), Story(kind, kind.idle, later, synced));
    } else {
      OrderlyMore(kind, repaid, Refused);
      StoryIsOrderly(kind, repaid + [Refused], kind.idle, later[1..], synced);
      Regroup(before, Repayment(kind, x), [Refused]);
      Regroup(before, Repayment(kind, x) + [Refused], Story(kind, kind.idle, later[1..], synced));
    }
  }

  /** Over every run of a fresh store a builder runs only on an idle store, never on one
      with a value that was not committed; and a decode is refused only after a finish
      that failed. */
  lemma BuildersWait<S>(kind: Kind<S>, ops: seq<Op<S>>, synced: bool)
    ensures Orderly(kind, Run(kind, State(None, None, kind.idle), ops, synced))
  {
    RunIsStory(kind, ops, synced);
    StoryIsOrderly(kind, [], kind.idle, ops, synced);
    assert [] + Story(kind, kind.idle, ops, synced) == Story(kind, kind.idle, ops, synced);
  }

  function StateAfter<S>(kind: Kind<S>, s: State<S>, ops: seq<Op<S>>): State<S>
    decreases |ops|
  {
    if |ops| == 0 then s else StateAfter(kind, Step(kind, s, ops[0]), ops[1..])
  }

  /** The events of a run tell whether the store is armed. */
  lemma {:induction false} IdleIffEventsSay<S>(kind: Kind<S>, s: State<S>, ops: seq<Op<S>>, before: seq<Event<S>>)
    requires (s.value.Some? <==> s.writeback.Some?) && (s.writeback.None? <==> EndsIdle(kind, before))
    ensures StateAfter(kind, s, ops).writeback.None? <==> EndsIdle(kind, before + Run(kind, s, ops, false))
    decreases |ops|
  {
    if |ops| == 0 {
      assert before + [] == before;
    } else {
      StepIdle(kind, s, ops[0], before);
      hide EndsIdle, Step, StepEvents;
      var events, next := StepEvents(kind, s, ops[0]), Step(kind, s, ops[0]);
      IdleIffEventsSay(kind, next, ops[1..], before + events);
      Regroup(before, events, Run(kind, next, ops[1..], false));
    }
  }

  lemma StepIdle<S>(kind: Kind<S>, s: State<S>, op: Op<S>, before: seq<Event<S>>)
    requires (s.value.Some? <==> s.writeback.Some?) && (s.writeback.None? <==> EndsIdle(kind, before))
    ensures var next := Step(kind, s, op);
            && (next.value.Some? <==> next.writeback.Some?)
            && (next.writeback.None? <==> EndsIdle(kind, before + StepEvents(kind, s, op)))
  {
    if op.Decode? {
      var events := StepEvents(kind, s, op);
      assert (before + events)[|before + events| - 1] == events[|events| - 1];
    } else {
      assert before + [] == before;
    }
  }

  /** A fresh store is idle after some calls exactly if the last event is a failed builder
      or a refusal, or the last two are those of a commit, or nothing happened. */
  lemma FreshIdleIffEventsSay<S>(kind: Kind<S>, ops: seq<Op<S>>)
    ensures StateAfter(kind, State(None, None, kind.idle), ops).writeback.None? <==>
      EndsIdle(kind, Run(kind, State(None, None, kind.idle), ops, false))
  {
    var start: State<S> := State(None, None, kind.idle);
    IdleIffEventsSay(kind, start, ops, []);
    assert [] + Run(kind, start, ops, false) == Run(kind, start, ops, false);
  }

  // ---------- runs of a store ----------

  /** What callers do with a store before they synchronise or drop it. */
  datatype Call<!S> =
    | Whole(source: Target?, build: Builder<S>, encode: Value -> Carrier)
    | With(build: Builder<S>, retain: Writeback)
    | Edit(v: Value)

  function OpOf<S>(call: Call<S>): Op<S> {
    match call
    case Whole(source, build, encode) => WholeOp(source, build, encode)
    case With(build, retain) => Decode(build, retain)
    case Edit(v) => EditValue(v)
  }

  function OpsOf<S>(calls: seq<Call<S>>): (ops: seq<Op<S>>)
    ensures |ops| == |calls|
  {
    if |calls| == 0 then [] else [OpOf(calls[0])] + OpsOf(calls[1..])
  }

  function TargetsOf<S>(call: Call<S>): set<Target> {
    match call
    case Whole(source, _, _) => if source == null then {} else {source}
    case With(_, retain) => {retain.target}
    case Edit(_) => {}
  }

  method Perform<S>(store: DecodeStore<S>, call: Call<S>, ghost universe: set<Target>)
    requires store.Valid() && store.Pointee() <= universe && TargetsOf(call) <= universe
    modifies store, universe
    ensures store.Valid() && store.Contents() == Step(store.kind, old(store.Contents()), OpOf(call))
    ensures store.events == old(store.events) + StepEvents(store.kind, old(store.Contents()), OpOf(call))
    ensures store.Pointee() <= universe
    ensures forall t :: t in universe ==>
      t.c == After(StepEvents(store.kind, old(store.Contents()), OpOf(call)), t, old(t.c))
  {
    ghost var s := store.Contents();
    forall t | t in universe ensures
      After(StepEvents(store.kind, s, OpOf(call)), t, t.c) ==
        if OpOf(call).Decode? && FinishWrites(store.kind, s) && t == s.writeback.value.target
        then Converted(s).value else t.c
    {
      StepAfter(store.kind, s, OpOf(call), t, t.c);
      FinishAfter(store.kind, s, t, t.c);
    }
    hide After, StepEvents;
    match call
    case Whole(source, build, encode) => var _ := store.DecodeWhole(source, build, encode);
    case With(build, retain) => var _ := store.DecodeWithOrder(build, retain);
    case Edit(v) => store.Edit(v);
  }

  /** Use a store for any number of calls and then synchronise or drop it: every target
      ends with the last carrier that the run writes to it, or as it was. */
  method Use<S>(store: DecodeStore<S>, calls: seq<Call<S>>, synced: bool, ghost universe: set<Target>)
    requires store.Valid() && store.Pointee() <= universe
    requires forall i :: 0 <= i < |calls| ==> TargetsOf(calls[i]) <= universe
    modifies store, universe
    ensures store.events == old(store.events) + Run(store.kind, old(store.Contents()), OpsOf(calls), synced)
    ensures forall t :: t in universe ==>
      t.c == After(Run(store.kind, old(store.Contents()), OpsOf(calls), synced), t, old(t.c))
  {
    var rest := calls;
    ghost var kind, start, all := store.kind, store.Contents(), Run(store.kind, store.Contents(), OpsOf(calls), synced);
    while |rest| > 0
      invariant |rest| <= |calls| && rest == calls[|calls| - |rest|..]
      invariant store.Valid() && store.Pointee() <= universe
      invariant store.events + Run(kind, store.Contents(), OpsOf(rest), synced) == old(store.events) + all
      invariant forall t :: t in universe ==>
        After(Run(kind, store.Contents(), OpsOf(rest), synced), t, t.c) == After(all, t, old(t.c))
      decreases |rest|
    {
      hide *;
      ghost var s, events := store.Contents(), store.events;
      RunStep(kind, s, rest, synced, events);
      assert rest[0] == calls[|calls| - |rest|];
      Perform(store, rest[0], universe);
      rest := rest[1..];
    }
    forall t | t in universe ensures After(FinishEvents(kind, store.Contents()), t, t.c) ==
      if FinishWrites(kind, store.Contents()) && t == store.writeback.value.target
      then Converted(store.Contents()).value else t.c
    {
      FinishAfter(kind, store.Contents(), t, t.c);
    }
    hide After;
    if synced {
      var _ := store.Sync();
    }
  }

  lemma FirstOfRun<S>(kind: Kind<S>, s: State<S>, calls: seq<Call<S>>, synced: bool)
    requires |calls| > 0
    ensures Run(kind, s, OpsOf(calls), synced) ==
      StepEvents(kind, s, OpOf(calls[0])) + Run(kind, Step(kind, s, OpOf(calls[0])), OpsOf(calls[1..]), synced)
  {
    hide Step, StepEvents, OpOf;
    assert OpsOf(calls)[1..] == OpsOf(calls[1..]);
  }

  lemma RunStep<S>(kind: Kind<S>, s: State<S>, calls: seq<Call<S>>, synced: bool, events: seq<Event<S>>)
    requires |calls| > 0
    ensures var step := StepEvents(kind, s, OpOf(calls[0]));
            var later := Run(kind, Step(kind, s, OpOf(calls[0])), OpsOf(calls[1..]), synced);
            && events + Run(kind, s, OpsOf(calls), synced) == events + step + later
            && forall t, before ::
              After(Run(kind, s, OpsOf(calls), synced), t, before) == After(later, t, After(step, t, before))
  {
    hide *;
    var step := StepEvents(kind, s, OpOf(calls[0]));
    var later := Run(kind, Step(kind, s, OpOf(calls[0])), OpsOf(calls[1..]), synced);
    FirstOfRun(kind, s, calls, synced);
    Regroup(events, step, later);
    forall t, before ensures After(step + later, t, before) == After(later, t, After(step, t, before)) {
      AfterConcat(step, later, t, before);
    }
  }

  // ---------- whole-value decoding ----------

  /** Only whole values are decoded. */
  predicate OnlyWhole<S>(calls: seq<Call<S>>) {
    forall i :: 0 <= i < |calls| ==> !calls[i].With?
  }

  /** Every write directly follows a synchronisation of fields that succeeded. */
  predicate WritesAfterSync<S>(kind: Kind<S>, events: seq<Event<S>>) {
    forall i :: 0 <= i < |events| && events[i].Wrote? ==>
      i > 0 && events[i - 1].Synced? && kind.syncs(events[i - 1].fields)
  }

  lemma AfterSyncConcat<S>(kind: Kind<S>, a: seq<Event<S>>, b: seq<Event<S>>)
    requires WritesAfterSync(kind, a) && WritesAfterSync(kind, b)
    ensures WritesAfterSync(kind, a + b)
  {
    var all := a + b;
    forall i | 0 <= i < |all| && all[i].Wrote?
      ensures i > 0 && all[i - 1].Synced? && kind.syncs(all[i - 1].fields)
    {
      if i < |a| { assert all[i] == a[i]; } else { assert all[i] == b[i - |a|]; }
    }
  }

  /** The retained state, if any, is that of a whole value. */
  predicate RetainsWhole<S>(s: State<S>) {
    s.writeback.Some? ==> s.writeback.value.order.FieldsFirst?
  }

  lemma {:induction false} WholeRunWritesAfterSync<S>(kind: Kind<S>, s: State<S>, calls: seq<Call<S>>, synced: bool)
    requires OnlyWhole(calls) && RetainsWhole(s)
    ensures WritesAfterSync(kind, Run(kind, s, OpsOf(calls), synced))
    decreases |calls|
  {
    if |calls| > 0 {
      var op := OpOf(calls[0]);
      assert OpsOf(calls)[1..] == OpsOf(calls[1..]);
      WholeRunWritesAfterSync(kind, Step(kind, s, op), calls[1..], synced);
      assert WritesAfterSync(kind, StepEvents(kind, s, op));
      AfterSyncConcat(kind, StepEvents(kind, s, op), Run(kind, Step(kind, s, op), OpsOf(calls[1..]), synced));
    }
  }

  /** A whole value is never written back before its fields have synchronised. */
  lemma WholeValuesWaitForFields<S>(kind: Kind<S>, calls: seq<Call<S>>, synced: bool)
    requires OnlyWhole(calls)
    ensures WritesAfterSync(kind, Run(kind, State(None, None, kind.idle), OpsOf(calls), synced))
  {
    WholeRunWritesAfterSync(kind, State(None, None, kind.idle), calls, synced);
  }

  /** Only values that hold reborrowed destinations are decoded. */
  predicate OnlyReborrowed<S>(calls: seq<Call<S>>) {
    forall i :: 0 <= i < |calls| ==>
      !calls[i].Whole? && (calls[i].With? ==> calls[i].retain.order.WritebackFirst?)
  }

  /** Every write is directly followed by a synchronisation of fields. */
  predicate SyncsAfterWrite<S>(events: seq<Event<S>>) {
    forall i :: 0 <= i < |events| && events[i].Wrote? ==> i + 1 < |events| && events[i + 1].Synced?
  }

  lemma SyncsAfterConcat<S>(a: seq<Event<S>>, b: seq<Event<S>>)
    requires SyncsAfterWrite(a) && SyncsAfterWrite(b)
    ensures SyncsAfterWrite(a + b)
  {
    var all := a + b;
    forall i | 0 <= i < |all| && all[i].Wrote? ensures i + 1 < |all| && all[i + 1].Synced? {
      if i < |a| {
        assert all[i] == a[i] && all[i + 1] == a[i + 1];
      } else {
        assert all[i] == b[i - |a|] && all[i + 1] == b[i + 1 - |a|];
      }
    }
  }

  lemma {:induction false} ReborrowedRunWritesFirst<S>(kind: Kind<S>, s: State<S>, calls: seq<Call<S>>, synced: bool)
    requires OnlyReborrowed(calls) && (s.writeback.Some? ==> s.writeback.value.order.WritebackFirst?)
    ensures SyncsAfterWrite(Run(kind, s, OpsOf(calls), synced))
    decreases |calls|
  {
    if |calls| > 0 {
      var op := OpOf(calls[0]);
      ReborrowedRunWritesFirst(kind, Step(kind, s, op), calls[1..], synced);
      assert SyncsAfterWrite(StepEvents(kind, s, op));
      FirstOfRun(kind, s, calls, synced);
      SyncsAfterConcat(StepEvents(kind, s, op), Run(kind, Step(kind, s, op), OpsOf(calls[1..]), synced));
    }
  }

  /** Destinations inside a value are written before the stores they point into synchronise. */
  lemma DestinationsGoFirst<S>(kind: Kind<S>, calls: seq<Call<S>>, synced: bool)
    requires OnlyReborrowed(calls)
    ensures SyncsAfterWrite(Run(kind, State(None, None, kind.idle), OpsOf(calls), synced))
  {
    ReborrowedRunWritesFirst(kind, State(None, None, kind.idle), calls, synced);
  }

  function NextWhole<S>(calls: seq<Call<S>>): (rest: seq<Call<S>>)
    ensures |rest| <= |calls| && (|rest| > 0 ==> rest[0].Whole? && rest[0].source != null)
    ensures forall i :: 0 <= i < |rest| ==> rest[i] in calls
    decreases |calls|
  {
    if |calls| == 0 || (calls[0].Whole? && calls[0].source != null) then calls else NextWhole(calls[1..])
  }

  function LastEdit<S>(v: Value, calls: seq<Call<S>>): Value
    decreases |calls|
  {
    if |calls| == 0 || (calls[0].Whole? && calls[0].source != null) then v
    else LastEdit(if calls[0].Edit? then calls[0].v else v, calls[1..])
  }

  /** What calls that only decode whole values write, told call by call: the last edit of
      a value is encoded into its source exactly if its fields synchronise, when the next
      value is decoded or the store is synchronised; if they do not, nothing is written
      and the next decode fails. */
  function WholeWrites<S>(kind: Kind<S>, fields: S, calls: seq<Call<S>>, synced: bool): seq<Write>
    decreases |calls|
  {
    var rest := NextWhole(calls);
    if |rest| == 0 then []
    else
      var (decoded, left) := rest[0].build(fields);
      if decoded.None? then WholeWrites(kind, left, rest[1..], synced)
      else
        var later := NextWhole(rest[1..]);
        var write := (rest[0].source, rest[0].encode(LastEdit(decoded.value, rest[1..])));
        if !kind.syncs(left) then (if |later| == 0 then [] else WholeWrites(kind, kind.idle, later[1..], synced))
        else if |later| > 0 then [write] + WholeWrites(kind, kind.idle, later, synced)
        else if synced then [write]
        else []
  }

  /** What a target holds after some writes: the last carrier written to it. */
  function LastWrite(writes: seq<Write>, t: Target, before: Carrier): Carrier {
    if |writes| == 0 then before
    else LastWrite(writes[1..], t, if writes[0].0 == t then writes[0].1 else before)
  }

  lemma {:induction false} AfterIsLastWrite<S>(events: seq<Event<S>>, t: Target, before: Carrier)
    ensures After(events, t, before) == LastWrite(Writes(events), t, before)
  {
    if |events| > 0 {
      AfterIsLastWrite(events[1..], t, if events[0].Wrote? && events[0].target == t then events[0].c else before);
      if events[0].Wrote? {
        assert Writes(events)[0] == (events[0].target, events[0].c) && Writes(events)[1..] == Writes(events[1..]);
      } else {
        assert Writes(events) == Writes(events[1..]);
      }
    }
  }

  lemma {:induction false} NextWholeIsDecode<S>(calls: seq<Call<S>>, v: Value)
    requires OnlyWhole(calls)
    ensures NextDecode(OpsOf(calls)) == OpsOf(NextWhole(calls)) && OnlyWhole(NextWhole(calls))
    ensures LastValue(v, OpsOf(calls)) == LastEdit(v, calls)
    decreases |calls|
  {
    if |calls| > 0 {
      assert OpsOf(calls)[1..] == OpsOf(calls[1..]);
      NextWholeIsDecode(calls[1..], if calls[0].Edit? then calls[0].v else v);
    }
  }

  lemma {:induction false} WholeLoansPay<S>(kind: Kind<S>, fields: S, calls: seq<Call<S>>, synced: bool)
    requires OnlyWhole(calls)
    ensures Payments(kind, Finished(kind, fields, OpsOf(calls), synced)) == WholeWrites(kind, fields, calls, synced)
    decreases |calls|
  {
    NextWholeIsDecode(calls, VUnit);
    var rest := NextWhole(calls);
    if |rest| > 0 {
      var (decoded, left) := rest[0].build(fields);
      assert OpsOf(rest)[1..] == OpsOf(rest[1..]);
      if decoded.None? {
        WholeLoansPay(kind, left, rest[1..], synced);
      } else {
        NextWholeIsDecode(rest[1..], decoded.value);
        var later := NextWhole(rest[1..]);
        if |later| > 0 {
          assert OpsOf(later)[1..] == OpsOf(later[1..]);
          WholeLoansPay(kind, kind.idle, later, synced);
          WholeLoansPay(kind, kind.idle, later[1..], synced);
        }
      }
    }
  }

  /** Use a fresh store for whole values only: a source whose fields fail keeps what it
      held, and every other one ends with the encoding of its last edit. */
  method UseWhole<S>(kind: Kind<S>, calls: seq<Call<S>>, synced: bool, ghost universe: set<Target>)
    requires OnlyWhole(calls) && forall i :: 0 <= i < |calls| ==> TargetsOf(calls[i]) <= universe
    modifies universe
    ensures forall t :: t in universe ==> t.c == LastWrite(WholeWrites(kind, kind.idle, calls, synced), t, old(t.c))
  {
    var store := new DecodeStore(kind);
    ghost var start := State(None, None, kind.idle);
    WrittenIffRepaid(kind, OpsOf(calls), synced);
    WholeLoansPay(kind, kind.idle, calls, synced);
    hide *;
    Use(store, calls, synced, universe);
    forall t | t in universe ensures t.c == LastWrite(WholeWrites(kind, kind.idle, calls, synced), t, old(t.c)) {
      AfterIsLastWrite(Run(kind, start, OpsOf(calls), synced), t, old(t.c));
    }
  }
}
