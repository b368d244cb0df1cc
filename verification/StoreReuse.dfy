/** Reuse of the stores that hold one mutably borrowed value: what every sequence
    of encoding, editing, failing and synchronising does. A field store of any type
    `S` is described by its default and by which of its states synchronise. */
module StoreReuse {
  import opened Wrappers
  import opened Types
  import opened SharedMemory
  import opened SoftStores

  datatype Event<S> =
    | Decoded(c: Carrier)
    | Synced(fields: S)
    | Wrote(place: Place, value: Value)

  datatype State<S> = State(ctype: Option<Carrier>, original: Option<Place>, fields: S)

  /** A builder sees the original and the fields; it yields a carrier, or fails, and
      leaves something in both. */
  type Builder<!S> = (Value, S) -> (Option<Carrier>, Value, S)

  /** What is fixed for one store: its decoder and its kind of field store. */
  datatype Kind<!S> = Kind(decode: Decoder, idle: S, syncs: S -> bool)

  /** A `RefMutSizedEncodeStore`. */
  class EncodeStore<S> {
    const kind: Kind<S>
    var ctype: Option<Carrier>
    var original: Place?
    var fields: S
    ghost var events: seq<Event<S>>

    ghost predicate Valid()
      reads this
    {
      ctype.Some? <==> original != null
    }

    ghost function Contents(): State<S>
      reads this
    {
      State(ctype, if original == null then None else Some(original), fields)
    }

    constructor (kind: Kind<S>)
      ensures this.kind == kind && Valid() && Contents() == State(None, None, kind.idle) && events == []
    {
      this.kind := kind;
      ctype, original, fields := None, null, kind.idle;
      events := [];
    }

    /** Take the carrier, decode it and synchronise the fields. */
    method Finish() returns (original: Place?, value: Option<Value>)
      requires Valid()
      modifies this
      ensures Valid() && Contents() == Finished(kind, old(Contents()))
      ensures events == old(events) + FinishEvents(kind, old(Contents()))
      ensures value == FinishValue(kind, old(Contents())) && original == old(this.original)
    {
      original, value := this.original, None;
      if ctype.Some? {
        var carrier := ctype.value;
        ctype := None;
        value := kind.decode(carrier);
        var synced := kind.syncs(fields);
        events := events + [Decoded(carrier), Synced(fields)];
        fields := kind.idle;
        this.original := null;
        if !synced {
          value := None;
        }
      }
    }

    /** Abandon the earlier carrier, then run the builder on the original; a builder that
        fails unwinds past this method with its changes to the original and to the
        fields kept. */
    method Encode(original: Place, build: Builder<S>) returns (built: bool)
      requires Valid()
      modifies this, original
      ensures Valid()
      ensures Contents() == Step(kind, old(Contents()), Holding(original, old(original.value)), Arm(original, build))
      ensures events == old(events) + StepEvents(kind, old(Contents()), Arm(original, build))
      ensures original.value ==
        Leave(kind, old(Contents()), Holding(original, old(original.value)), Arm(original, build))[original]
      ensures built <==> ctype.Some?
    {
      var _, _ := Finish();
      var (carrier, value, left) := build(original.value, fields);
      original.value, fields := value, left;
      built := carrier.Some?;
      if built {
        this.original := original;
        ctype := carrier;
      }
    }

    /** Foreign code stores through the pointer to the carrier. */
    method Edit(c: Carrier)
      requires Valid()
      modifies this
      ensures Valid() && Contents() == Step(kind, old(Contents()), map[], Store(c)) && events == old(events)
    {
      if ctype.Some? {
        ctype := Some(c);
      }
    }

    method Sync() returns (ok: bool)
      requires Valid()
      modifies this, original
      ensures events == old(events) + EndEvents(kind, old(Contents()), Synchronised)
      ensures ok <==> FinishValue(kind, old(Contents())).Some?
      ensures old(original) != null ==>
        old(original).value == if ok then FinishValue(kind, old(Contents())).value else old(original.value)
      ensures old(original) == null ==> !ok
    {
      var original, value := Finish();
      ok := value.Some?;
      if ok {
        original.value := value.value;
        events := events + [Wrote(original, value.value)];
      }
    }

    method Drop()
      requires Valid()
      modifies this
      ensures events == old(events) + EndEvents(kind, old(Contents()), Dropped)
    {
      var _, _ := Finish();
    }
  }

  // ---------- the protocol as a state machine ----------

  datatype Op<!S> = Arm(place: Place, build: Builder<S>) | Store(c: Carrier)

  /** What the places hold. */
  type Values = map<Place, Value>

  function Holding(p: Place, v: Value): Values {
    map[p := v]
  }

  predicate Known<S>(op: Op<S>, w: Values) {
    op.Arm? ==> op.place in w
  }

  predicate AllKnown<S>(ops: seq<Op<S>>, w: Values) {
    forall i :: 0 <= i < |ops| ==> Known(ops[i], w)
  }

  /** A store is consumed by synchronising it or by going out of scope. */
  datatype End = Synchronised | Dropped

  function Finished<S>(kind: Kind<S>, s: State<S>): State<S> {
    if s.ctype.Some? then State(None, None, kind.idle) else s
  }

  function FinishEvents<S>(kind: Kind<S>, s: State<S>): seq<Event<S>> {
    if s.ctype.Some? then [Decoded(s.ctype.value), Synced(s.fields)] else []
  }

  function FinishValue<S>(kind: Kind<S>, s: State<S>): Option<Value> {
    if s.ctype.Some? && kind.syncs(s.fields) then kind.decode(s.ctype.value) else None
  }

  function Step<S>(kind: Kind<S>, s: State<S>, w: Values, op: Op<S>): State<S>
    requires Known(op, w)
  {
    match op
    case Arm(place, build) =>
      var (carrier, _, left) := build(w[place], Finished(kind, s).fields);
      if carrier.Some? then State(carrier, Some(place), left) else Finished(kind, s).(fields := left)
    case Store(c) => if s.ctype.Some? then s.(ctype := Some(c)) else s
  }

  /** What a builder leaves in the original. */
  function Leave<S>(kind: Kind<S>, s: State<S>, w: Values, op: Op<S>): (left: Values)
    requires Known(op, w)
    ensures left.Keys == w.Keys
  {
    if op.Arm? then w[op.place := op.build(w[op.place], Finished(kind, s).fields).1] else w
  }

  function StepEvents<S>(kind: Kind<S>, s: State<S>, op: Op<S>): seq<Event<S>> {
    if op.Arm? then FinishEvents(kind, s) else []
  }

  function EndEvents<S>(kind: Kind<S>, s: State<S>, end: End): seq<Event<S>> {
    var value := FinishValue(kind, s);
    FinishEvents(kind, s) +
    if end.Synchronised? && value.Some? && s.original.Some? then [Wrote(s.original.value, value.value)] else []
  }

  function Run<S>(kind: Kind<S>, s: State<S>, w: Values, ops: seq<Op<S>>, end: End): seq<Event<S>>
    requires AllKnown(ops, w)
    decreases |ops|
  {
    if |ops| == 0 then EndEvents(kind, s, end)
    else
      StepEvents(kind, s, ops[0]) +
      Run(kind, Step(kind, s, w, ops[0]), Leave(kind, s, w, ops[0]), ops[1..], end)
  }

  // ---------- the lives of carriers ----------

  /** One carrier from being armed to being decoded: where it came from, what it
      held at last and the fields that were built with it. */
  datatype Life<S> = Life(place: Place, last: Carrier, fields: S)

  /** What the carrier holds when the next value is encoded or the store is consumed. */
  function LastStored<S>(c: Carrier, ops: seq<Op<S>>): Carrier
    decreases |ops|
  {
    if |ops| == 0 || ops[0].Arm? then c else LastStored(ops[0].c, ops[1..])
  }

  /** Every builder that succeeds begins a life. A builder starts from the default
      fields, or from what the failed builder before it left. */
  function Lives<S>(kind: Kind<S>, fields: S, w: Values, ops: seq<Op<S>>): seq<Life<S>>
    requires AllKnown(ops, w)
    decreases |ops|
  {
    if |ops| == 0 then []
    else if ops[0].Store? then Lives(kind, fields, w, ops[1..])
    else
      var (carrier, value, left) := ops[0].build(w[ops[0].place], fields);
      var later := w[ops[0].place := value];
      if carrier.None? then Lives(kind, left, later, ops[1..])
      else [Life(ops[0].place, LastStored(carrier.value, ops[1..]), left)] + Lives(kind, kind.idle, later, ops[1..])
  }

  /** What the builders of a run leave in the places. */
  function Left<S>(kind: Kind<S>, fields: S, w: Values, ops: seq<Op<S>>): (left: Values)
    requires AllKnown(ops, w)
    ensures left.Keys == w.Keys
    decreases |ops|
  {
    if |ops| == 0 then w
    else if ops[0].Store? then Left(kind, fields, w, ops[1..])
    else
      var (carrier, value, left) := ops[0].build(w[ops[0].place], fields);
      Left(kind, if carrier.None? then left else kind.idle, w[ops[0].place := value], ops[1..])
  }

  /** Whether the last builder of a run succeeded. */
  predicate EndsArmed<S>(kind: Kind<S>, fields: S, w: Values, armed: bool, ops: seq<Op<S>>)
    requires AllKnown(ops, w)
    decreases |ops|
  {
    if |ops| == 0 then armed
    else if ops[0].Store? then EndsArmed(kind, fields, w, armed, ops[1..])
    else
      var (carrier, value, left) := ops[0].build(w[ops[0].place], fields);
      EndsArmed(kind, if carrier.None? then left else kind.idle, w[ops[0].place := value], carrier.Some?, ops[1..])
  }

  /** Every life is decoded and then its fields are synchronised, in order. */
  function Endings<S>(lives: seq<Life<S>>): seq<Event<S>> {
    if |lives| == 0 then [] else [Decoded(lives[0].last), Synced(lives[0].fields)] + Endings(lives[1..])
  }

  /** The lives from a state on: the current one, if the store is armed, and the later ones. */
  function LivesFrom<S>(kind: Kind<S>, s: State<S>, w: Values, ops: seq<Op<S>>): seq<Life<S>>
    requires AllKnown(ops, w)
  {
    if s.ctype.Some? && s.original.Some?
    then [Life(s.original.value, LastStored(s.ctype.value, ops), s.fields)] + Lives(kind, kind.idle, w, ops)
    else Lives(kind, s.fields, w, ops)
  }

  /** What a run writes: the value of the last life, if the run ends by synchronising
      it, its fields synchronise and its carrier decodes. */
  function Outcome<S>(kind: Kind<S>, armed: bool, lives: seq<Life<S>>, end: End): seq<Event<S>> {
    if !end.Synchronised? || !armed || |lives| == 0 then []
    else
      var last := lives[|lives| - 1];
      var value := kind.decode(last.last);
      if kind.syncs(last.fields) && value.Some? then [Wrote(last.place, value.value)] else []
  }

  lemma {:induction false} RunIsLives<S>(kind: Kind<S>, s: State<S>, w: Values, ops: seq<Op<S>>, end: End)
    requires (s.ctype.Some? <==> s.original.Some?) && AllKnown(ops, w)
    ensures var lives := LivesFrom(kind, s, w, ops);
            var armed := EndsArmed(kind, Finished(kind, s).fields, w, s.ctype.Some?, ops);
            Run(kind, s, w, ops, end) == Endings(lives) + Outcome(kind, armed, lives, end) && (armed ==> |lives| > 0)
    decreases |ops|
  {
    if |ops| == 0 {
      var lives := LivesFrom(kind, s, w, ops);
      assert lives == [] || lives == [Life(s.original.value, s.ctype.value, s.fields)];
    } else {
      FirstOfRun(kind, s, w, ops, end);
      LivesStep(kind, s, w, ops);
      hide *;
      var next, later, rest := Step(kind, s, w, ops[0]), Leave(kind, s, w, ops[0]), ops[1..];
      RunIsLives(kind, next, later, rest, end);
      var lives, more := LivesFrom(kind, s, w, ops), LivesFrom(kind, next, later, rest);
      var armed := EndsArmed(kind, Finished(kind, s).fields, w, s.ctype.Some?, ops);
      SameOutcome(kind, armed, lives, more, end);
      Regroup(StepEvents(kind, s, ops[0]), Endings(more), Outcome(kind, armed, more, end));
    }
  }

  lemma FirstOfRun<S>(kind: Kind<S>, s: State<S>, w: Values, ops: seq<Op<S>>, end: End)
    requires |ops| > 0 && (s.ctype.Some? <==> s.original.Some?) && AllKnown(ops, w)
    ensures Known(ops[0], w) && AllKnown(ops[1..], Leave(kind, s, w, ops[0]))
    ensures var next, later, rest := Step(kind, s, w, ops[0]), Leave(kind, s, w, ops[0]), ops[1..];
            && (next.ctype.Some? <==> next.original.Some?)
            && Run(kind, s, w, ops, end) == StepEvents(kind, s, ops[0]) + Run(kind, next, later, rest, end)
            && EndsArmed(kind, Finished(kind, s).fields, w, s.ctype.Some?, ops) ==
                 EndsArmed(kind, Finished(kind, next).fields, later, next.ctype.Some?, rest)
  {
    hide StepEvents;
  }

  /** One step begins with the end of the current life, if it ends. */
  lemma LivesStep<S>(kind: Kind<S>, s: State<S>, w: Values, ops: seq<Op<S>>)
    requires |ops| > 0 && (s.ctype.Some? <==> s.original.Some?) && AllKnown(ops, w)
    ensures Known(ops[0], w) && AllKnown(ops[1..], Leave(kind, s, w, ops[0]))
    ensures var more := LivesFrom(kind, Step(kind, s, w, ops[0]), Leave(kind, s, w, ops[0]), ops[1..]);
            var lives := LivesFrom(kind, s, w, ops);
            && (lives == more || (|lives| > 0 && lives[1..] == more))
            && Endings(lives) == StepEvents(kind, s, ops[0]) + Endings(more)
  {
    var more := LivesFrom(kind, Step(kind, s, w, ops[0]), Leave(kind, s, w, ops[0]), ops[1..]);
    var lives := LivesFrom(kind, s, w, ops);
    if ops[0].Store? {
      assert lives == more;
    } else {
      assert Lives(kind, Finished(kind, s).fields, w, ops) == more;
      if s.ctype.Some? {
        assert lives[1..] == more;
      }
    }
  }

  /** Only the last life matters. */
  lemma SameOutcome<S>(kind: Kind<S>, armed: bool, lives: seq<Life<S>>, more: seq<Life<S>>, end: End)
    requires lives == more || (|lives| > 0 && lives[1..] == more)
    requires armed ==> |more| > 0
    ensures Outcome(kind, armed, lives, end) == Outcome(kind, armed, more, end)
  {
    if armed { assert lives[|lives| - 1] == more[|more| - 1]; }
  }

  lemma Regroup<T>(a: seq<T>, b: seq<T>, c: seq<T>)
    ensures a + b + c == a + (b + c)
  {
  }

  /** Over every run of a fresh store each armed carrier is decoded exactly once,
      in order, with what it held at last, and its fields are synchronised with it.
      Only the last one is ever written, if it is synchronised and succeeds. */
  lemma EachLifeEndsOnce<S>(kind: Kind<S>, w: Values, ops: seq<Op<S>>, end: End)
    requires AllKnown(ops, w)
    ensures var lives, armed := Lives(kind, kind.idle, w, ops), EndsArmed(kind, kind.idle, w, false, ops);
            Run(kind, State(None, None, kind.idle), w, ops, end) == Endings(lives) + Outcome(kind, armed, lives, end)
  {
    RunIsLives(kind, State(None, None, kind.idle), w, ops, end);
  }

  // ---------- runs of a store ----------

  function StateAfter<S>(kind: Kind<S>, s: State<S>, w: Values, ops: seq<Op<S>>): State<S>
    requires AllKnown(ops, w)
    decreases |ops|
  {
    if |ops| == 0 then s else StateAfter(kind, Step(kind, s, w, ops[0]), Leave(kind, s, w, ops[0]), ops[1..])
  }

  /** The value of a place after the events of a run, if builders left `before` in it. */
  function ValueAfter<S>(events: seq<Event<S>>, p: Place, before: Value): Value {
    if |events| == 0 then before
    else
      var last := events[|events| - 1];
      if last.Wrote? && last.place == p then last.value else before
  }

  lemma {:induction false} RunSplits<S>(kind: Kind<S>, s: State<S>, w: Values, ops: seq<Op<S>>, end: End)
    requires AllKnown(ops, w)
    ensures forall p, before ::
      ValueAfter(Run(kind, s, w, ops, end), p, before) ==
        ValueAfter(EndEvents(kind, StateAfter(kind, s, w, ops), end), p, before)
    decreases |ops|
  {
    if |ops| > 0 {
      RunSplits(kind, Step(kind, s, w, ops[0]), Leave(kind, s, w, ops[0]), ops[1..], end);
    }
  }

  /** Builders that always leave `v` in a place, as those do that move the value out and
      put a default there, make it hold `v` as soon as one of them has run. */
  lemma {:induction false} BuildersLeave<S>(kind: Kind<S>, fields: S, w: Values, ops: seq<Op<S>>, p: Place, v: Value)
    requires AllKnown(ops, w) && p in w && AlwaysLeaves(kind, fields, w, ops, p, v)
    ensures Left(kind, fields, w, ops)[p] == if Encodes(ops, p) then v else w[p]
    decreases |ops|
  {
    if |ops| > 0 {
      EncodesFirst(ops, p);
      if ops[0].Store? {
        BuildersLeave(kind, fields, w, ops[1..], p, v);
      } else {
        var (carrier, value, left) := ops[0].build(w[ops[0].place], fields);
        var later := w[ops[0].place := value];
        BuildersLeave(kind, if carrier.None? then left else kind.idle, later, ops[1..], p, v);
      }
    }
  }

  /** What a place holds after a run whose builders always leave `v` in it: the written
      value if its last carrier is synchronised and accepted; otherwise `v` if it was
      encoded at all, so that an abandoned value stays moved out. */
  lemma MovedOutUnlessWritten<S>(kind: Kind<S>, w: Values, ops: seq<Op<S>>, end: End, p: Place, v: Value)
    requires AllKnown(ops, w) && p in w && AlwaysLeaves(kind, kind.idle, w, ops, p, v)
    ensures var start := State(None, None, kind.idle);
            var run, left := Run(kind, start, w, ops, end), Left(kind, kind.idle, w, ops)[p];
            && ValueAfter(run, p, left) ==
                 (if WritesLast(run, p) then run[|run| - 1].value else if Encodes(ops, p) then v else w[p])
            && (WritesLast(run, p) ==> end.Synchronised? && Encodes(ops, p))
  {
    var start: State<S> := State(None, None, kind.idle);
    BuildersLeave(kind, kind.idle, w, ops, p, v);
    EachLifeEndsOnce(kind, w, ops, end);
    LivesAreEncoded(kind, kind.idle, w, ops);
    EndingsNeverWrite(Lives(kind, kind.idle, w, ops));
  }

  predicate WritesLast<S>(events: seq<Event<S>>, p: Place) {
    |events| > 0 && events[|events| - 1].Wrote? && events[|events| - 1].place == p
  }

  lemma {:induction false} EndingsNeverWrite<S>(lives: seq<Life<S>>)
    ensures forall i :: 0 <= i < |Endings(lives)| ==> !Endings(lives)[i].Wrote?
  {
    if |lives| > 0 { EndingsNeverWrite(lives[1..]); }
  }

  predicate AllEncoded<S>(lives: seq<Life<S>>, ops: seq<Op<S>>) {
    forall i :: 0 <= i < |lives| ==> Encodes(ops, lives[i].place)
  }

  lemma {:induction false} LivesAreEncoded<S>(kind: Kind<S>, fields: S, w: Values, ops: seq<Op<S>>)
    requires AllKnown(ops, w)
    ensures AllEncoded(Lives(kind, fields, w, ops), ops)
    decreases |ops|
  {
    if |ops| > 0 {
      var lives, rest := Lives(kind, fields, w, ops), ops[1..];
      var next, later := fields, w;
      if ops[0].Arm? {
        var (carrier, value, left) := ops[0].build(w[ops[0].place], fields);
        next, later := if carrier.None? then left else kind.idle, w[ops[0].place := value];
      }
      var more := Lives(kind, next, later, rest);
      LivesAreEncoded(kind, next, later, rest);
      assert lives == more || (lives[1..] == more && ops[0].Arm? && lives[0].place == ops[0].place);
      forall i | 0 <= i < |lives| ensures Encodes(ops, lives[i].place) {
        EncodesFirst(ops, lives[i].place);
        if lives == more {
          assert Encodes(rest, more[i].place);
        } else if i > 0 {
          assert lives[i] == more[i - 1] && Encodes(rest, more[i - 1].place);
        }
      }
    }
  }

  predicate Encodes<S>(ops: seq<Op<S>>, p: Place) {
    exists i :: 0 <= i < |ops| && ops[i].Arm? && ops[i].place == p
  }

  /** Every builder that the run calls on the place leaves `v` there. */
  predicate AlwaysLeaves<S>(kind: Kind<S>, fields: S, w: Values, ops: seq<Op<S>>, p: Place, v: Value)
    requires AllKnown(ops, w)
    decreases |ops|
  {
    if |ops| == 0 then true
    else if ops[0].Store? then AlwaysLeaves(kind, fields, w, ops[1..], p, v)
    else
      var (carrier, value, left) := ops[0].build(w[ops[0].place], fields);
      && (ops[0].place == p ==> value == v)
      && AlwaysLeaves(kind, if carrier.None? then left else kind.idle, w[ops[0].place := value], ops[1..], p, v)
  }

  lemma EncodesFirst<S>(ops: seq<Op<S>>, p: Place)
    requires |ops| > 0
    ensures Encodes(ops, p) <==> (ops[0].Arm? && ops[0].place == p) || Encodes(ops[1..], p)
  {
    if i :| 0 <= i < |ops[1..]| && ops[1..][i].Arm? && ops[1..][i].place == p {
      assert ops[i + 1] == ops[1..][i];
    }
    if i :| 0 <= i < |ops| && ops[i].Arm? && ops[i].place == p {
      assert i > 0 ==> ops[1..][i - 1] == ops[i];
    }
  }

  method Perform<S>(store: EncodeStore<S>, op: Op<S>, ghost universe: set<Place>)
    requires store.Valid() && (store.original != null ==> store.original in universe)
    requires op.Arm? ==> op.place in universe
    modifies store, universe
    ensures store.Valid() && (store.original != null ==> store.original in universe)
    ensures store.Contents() == Step(store.kind, old(store.Contents()), old(ValuesOf(universe)), op)
    ensures store.events == old(store.events) + StepEvents(store.kind, old(store.Contents()), op)
    ensures ValuesOf(universe) == Leave(store.kind, old(store.Contents()), old(ValuesOf(universe)), op)
  {
    match op
    case Arm(place, build) => var _ := store.Encode(place, build);
    case Store(c) => store.Edit(c);
  }

  ghost function ValuesOf(universe: set<Place>): (w: Values)
    reads universe
    ensures w.Keys == universe
  {
    map p | p in universe :: p.value
  }

  method Consume<S>(store: EncodeStore<S>, end: End, ghost universe: set<Place>)
    requires store.Valid() && (store.original != null ==> store.original in universe)
    modifies store, universe
    ensures store.events == old(store.events) + EndEvents(store.kind, old(store.Contents()), end)
    ensures forall p :: p in universe ==>
      p.value == ValueAfter(EndEvents(store.kind, old(store.Contents()), end), p, old(p.value))
  {
    ghost var before := store.Contents();
    if end.Synchronised? {
      var ok := store.Sync();
      assert !ok ==> EndEvents(store.kind, before, end) == FinishEvents(store.kind, before);
    } else {
      store.Drop();
    }
  }

  lemma RunStep<S>(kind: Kind<S>, s: State<S>, w: Values, ops: seq<Op<S>>, end: End, events: seq<Event<S>>)
    requires |ops| > 0 && AllKnown(ops, w)
    ensures var op := ops[0];
            && Known(op, w) && AllKnown(ops[1..], Leave(kind, s, w, op))
            && events + Run(kind, s, w, ops, end) ==
                 events + StepEvents(kind, s, op) +
                 Run(kind, Step(kind, s, w, op), Leave(kind, s, w, op), ops[1..], end)
            && StateAfter(kind, s, w, ops) == StateAfter(kind, Step(kind, s, w, op), Leave(kind, s, w, op), ops[1..])
            && Left(kind, Finished(kind, s).fields, w, ops) ==
                 Left(kind, Finished(kind, Step(kind, s, w, op)).fields, Leave(kind, s, w, op), ops[1..])
  {
    hide StepEvents;
  }

  /** Use a store for any number of values and then consume it: a place ends with what
      the last builder that encoded it left there, or as it was, unless the run writes
      the value of its last carrier back. */
  method Use<S>(store: EncodeStore<S>, ops: seq<Op<S>>, end: End, ghost universe: set<Place>)
    requires store.Valid() && (store.original != null ==> store.original in universe)
    requires forall i :: 0 <= i < |ops| && ops[i].Arm? ==> ops[i].place in universe
    modifies store, universe
    ensures AllKnown(ops, old(ValuesOf(universe)))
    ensures store.events ==
      old(store.events) + Run(store.kind, old(store.Contents()), old(ValuesOf(universe)), ops, end)
    ensures forall p :: p in universe ==>
      p.value ==
        ValueAfter(Run(store.kind, old(store.Contents()), old(ValuesOf(universe)), ops, end), p,
          Left(store.kind, old(Finished(store.kind, store.Contents()).fields), old(ValuesOf(universe)), ops)[p])
  {
    ghost var kind, start, w := store.kind, store.Contents(), ValuesOf(universe);
    RunSplits(kind, start, w, ops, end);
    var rest := ops;
    while |rest| > 0
      invariant |rest| <= |ops| && rest == ops[|ops| - |rest|..]
      invariant store.Valid() && (store.original != null ==> store.original in universe)
      invariant AllKnown(rest, ValuesOf(universe))
      invariant store.events + Run(kind, store.Contents(), ValuesOf(universe), rest, end) ==
        old(store.events) + Run(kind, start, w, ops, end)
      invariant StateAfter(kind, store.Contents(), ValuesOf(universe), rest) == StateAfter(kind, start, w, ops)
      invariant Left(kind, Finished(kind, store.Contents()).fields, ValuesOf(universe), rest) ==
        Left(kind, Finished(kind, start).fields, w, ops)
      decreases |rest|
    {
      hide *;
      RunStep(kind, store.Contents(), ValuesOf(universe), rest, end, store.events);
      assert rest[0] == ops[|ops| - |rest|];
      Perform(store, rest[0], universe);
      rest := rest[1..];
    }
    assert ValuesOf(universe) == Left(kind, Finished(kind, start).fields, w, ops);
    Consume(store, end, universe);
  }
}
