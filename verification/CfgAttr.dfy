/** Expansion of the leading `cfg` and `cfg_attr` attributes of a macro invocation
    into variants, each gated by the branches that were chosen for it. */
module CfgAttr {
  import opened Wrappers

  datatype Delimiter = Parenthesis | Bracket | Brace | NoDelimiter

  /** Two token trees are the same if they print the same. */
  datatype Token =
    | Ident(name: string)
    | Punct(ch: char)
    | Literal(text: string)
    | Group(delimiter: Delimiter, stream: seq<Token>)

  /** A branch: an opaque predicate and whether it was taken to hold. */
  type Cfg = (seq<Token>, bool)

  datatype Variant = Variant(cfgs: seq<Cfg>, tokens: seq<Token>, active: bool)

  datatype Error = ExpectedArguments | ExpectedPredicate

  // ---------- tokens ----------

  predicate IsPunct(ts: seq<Token>, i: nat, ch: char) {
    i < |ts| && ts[i] == Punct(ch)
  }

  /** `#![stream]` */
  function QuoteAttr(stream: seq<Token>): seq<Token> {
    [Punct('#'), Punct('!'), Group(Bracket, stream)]
  }

  predicate StartsWithAttr(ts: seq<Token>) {
    IsPunct(ts, 0, '#') && IsPunct(ts, 1, '!') && 2 < |ts| && ts[2].Group? && ts[2].delimiter == Bracket
  }

  predicate IsConditional(stream: seq<Token>) {
    0 < |stream| && stream[0].Ident? && (stream[0].name == "cfg" || stream[0].name == "cfg_attr")
  }

  predicate HasArguments(stream: seq<Token>) {
    |stream| == 2 && stream[1].Group? && stream[1].delimiter == Parenthesis
  }

  function Size(ts: seq<Token>): nat
    decreases ts
  {
    if |ts| == 0 then 0 else TokenSize(ts[0]) + Size(ts[1..])
  }

  function TokenSize(t: Token): nat
    decreases t
  {
    1 + if t.Group? then Size(t.stream) else 0
  }

  function SizeAll(parts: seq<seq<Token>>): nat {
    if |parts| == 0 then 0 else Size(parts[0]) + SizeAll(parts[1..])
  }

  /** The tokens between top-level commas. */
  function Split(ts: seq<Token>): (parts: seq<seq<Token>>)
    ensures |parts| >= 1 && SizeAll(parts) <= Size(ts)
  {
    if |ts| == 0 then [[]]
    else
      var rest := Split(ts[1..]);
      if ts[0] == Punct(',') then [[]] + rest else [[ts[0]] + rest[0]] + rest[1..]
  }

  /** The parts of an argument list; one trailing comma is allowed. */
  function Parts(ts: seq<Token>): (parts: seq<seq<Token>>)
    ensures SizeAll(parts) <= Size(ts)
  {
    var parts := Split(ts);
    if parts[|parts| - 1] == [] then
      assert SizeAll(parts[..|parts| - 1]) <= SizeAll(parts) by { PrefixIsSmaller(parts, |parts| - 1); }
      parts[..|parts| - 1]
    else parts
  }

  lemma {:induction false} PrefixIsSmaller(parts: seq<seq<Token>>, n: nat)
    requires n <= |parts|
    ensures SizeAll(parts[..n]) <= SizeAll(parts)
  {
    if n > 0 {
      PrefixIsSmaller(parts[1..], n - 1);
      assert parts[..n][1..] == parts[1..][..n - 1];
    }
  }

  predicate PartsGiven(parts: seq<seq<Token>>) {
    |parts| >= 2 && forall i :: 0 <= i < |parts| ==> parts[i] != []
  }

  function Joined(parts: seq<seq<Token>>): seq<Token> {
    if |parts| == 0 then []
    else if |parts| == 1 then parts[0]
    else parts[0] + [Punct(',')] + Joined(parts[1..])
  }

  /** Splitting loses nothing and leaves no top-level comma. */
  lemma {:induction false} SplitJoins(ts: seq<Token>)
    ensures Joined(Split(ts)) == ts
    ensures forall i :: 0 <= i < |Split(ts)| ==> Punct(',') !in Split(ts)[i]
  {
    if |ts| > 0 {
      SplitJoins(ts[1..]);
      var rest := Split(ts[1..]);
      if ts[0] != Punct(',') {
        assert Joined(Split(ts)) == [ts[0]] + Joined(rest);
      }
    }
  }

  predicate NoComma(parts: seq<seq<Token>>) {
    forall i :: 0 <= i < |parts| ==> Punct(',') !in parts[i]
  }

  /** An argument list of these parts, with or without a trailing comma. */
  function ListOf(parts: seq<seq<Token>>, trailing: bool): seq<Token> {
    Joined(parts) + if trailing then [Punct(',')] else []
  }

  lemma SplitFirst(t: Token, rest: seq<Token>)
    ensures Split([t] + rest) ==
      if t == Punct(',') then [[]] + Split(rest) else [[t] + Split(rest)[0]] + Split(rest)[1..]
  {
    assert ([t] + rest)[1..] == rest;
  }

  lemma ListFirst(parts: seq<seq<Token>>, trailing: bool)
    requires |parts| > 0
    ensures |parts[0]| > 0 ==>
      ListOf(parts, trailing) == [parts[0][0]] + ListOf([parts[0][1..]] + parts[1..], trailing)
    ensures |parts[0]| == 0 && |parts| > 1 ==> ListOf(parts, trailing) == [Punct(',')] + ListOf(parts[1..], trailing)
    ensures parts[0] == [] && |parts| == 1 ==> ListOf(parts, trailing) == if trailing then [Punct(',')] else []
  {
    if |parts[0]| > 0 {
      var shorter := [parts[0][1..]] + parts[1..];
      assert shorter[1..] == parts[1..];
      assert parts[0] == [parts[0][0]] + parts[0][1..];
    }
  }

  lemma Lengthen<T>(parts: seq<seq<T>>, tail: seq<seq<T>>)
    requires |parts| > 0 && |parts[0]| > 0
    ensures var all := [parts[0][1..]] + parts[1..] + tail;
            [[parts[0][0]] + all[0]] + all[1..] == parts + tail && parts[0][0] in parts[0]
  {
    assert parts[0] == [parts[0][0]] + parts[0][1..];
  }

  lemma FewerCommas(parts: seq<seq<Token>>)
    requires |parts| > 0 && NoComma(parts)
    ensures NoComma(parts[1..])
    ensures |parts[0]| > 0 ==> parts[0][0] != Punct(',') && NoComma([parts[0][1..]] + parts[1..])
  {
  }

  lemma {:induction false} SplitOfList(parts: seq<seq<Token>>, trailing: bool)
    requires |parts| > 0 && NoComma(parts)
    ensures Split(ListOf(parts, trailing)) == parts + if trailing then [[]] else []
    decreases |parts|, |parts[0]|
  {
    hide *;
    var rest, tail: seq<seq<Token>> := parts[1..], if trailing then [[]] else [];
    ListFirst(parts, trailing);
    FewerCommas(parts);
    if |parts[0]| > 0 {
      var shorter := [parts[0][1..]] + rest;
      SplitOfList(shorter, trailing);
      SplitFirst(parts[0][0], ListOf(shorter, trailing));
      Lengthen(parts, tail);
    } else if |parts| > 1 {
      SplitOfList(rest, trailing);
      SplitFirst(Punct(','), ListOf(rest, trailing));
      Associates([parts[0]], rest, tail);
      assert [parts[0]] + rest == parts;
    } else {
      SplitOfNothing();
      SplitFirst(Punct(','), []);
      assert [Punct(',')] + [] == [Punct(',')] && parts == [[]];
    }
  }

  lemma SplitOfNothing()
    ensures Split([]) == [[]]
  {
  }

  /** An argument list of non-empty parts has exactly these parts. */
  lemma PartsOfList(parts: seq<seq<Token>>, trailing: bool)
    requires |parts| > 0 && NoComma(parts) && forall i :: 0 <= i < |parts| ==> parts[i] != []
    ensures Parts(ListOf(parts, trailing)) == parts
  {
    SplitOfList(parts, trailing);
    assert (parts + [[]])[..|parts|] == parts && parts + [] == parts;
  }

  /** Every argument list that is not empty is the list of its parts. */
  lemma ListOfParts(ts: seq<Token>) returns (trailing: bool)
    requires ts != []
    ensures NoComma(Parts(ts)) && |Parts(ts)| > 0 && ts == ListOf(Parts(ts), trailing)
  {
    var parts := Split(ts);
    SplitJoins(ts);
    trailing := parts[|parts| - 1] == [];
    if trailing {
      var front := parts[..|parts| - 1];
      assert parts == front + [[]];
      JoinedWithEmpty(front);
    }
  }

  lemma {:induction false} JoinedWithEmpty(front: seq<seq<Token>>)
    requires Joined(front + [[]]) != []
    ensures |front| > 0 && Joined(front + [[]]) == Joined(front) + [Punct(',')]
  {
    var all := front + [[]];
    if |front| > 1 {
      assert all[1..] == front[1..] + [[]];
      JoinedWithEmpty(front[1..]);
      assert Joined(all) == front[0] + [Punct(',')] + (Joined(front[1..]) + [Punct(',')]);
    } else if |front| == 1 {
      assert all[1..] == [[]];
    }
  }

  // ---------- what the attributes mean ----------

  /** The truth of every opaque predicate. */
  type Truth = seq<Token> -> bool

  /** The tokens that remain and whether they are compiled at all. */
  datatype Outcome = Outcome(tokens: seq<Token>, active: bool)

  function Both(a: Outcome, b: Outcome): Outcome {
    Outcome(a.tokens + b.tokens, a.active && b.active)
  }

  /** The meaning of one attribute: `cfg(p)` keeps or discards everything, and
      `cfg_attr(p, ..)` stands for its attributes if `p` holds and for nothing otherwise. */
  function Meaning(stream: seq<Token>, truth: Truth): Outcome
    decreases Size(stream), 0
  {
    if !IsConditional(stream) || !HasArguments(stream) then Outcome(QuoteAttr(stream), true)
    else if stream[0].name == "cfg" then Outcome([], truth(stream[1].stream))
    else
      var parts := Parts(stream[1].stream);
      Nested(stream);
      if PartsGiven(parts) && truth(parts[0]) then MeaningAll(parts[1..], truth) else Outcome([], true)
  }

  function MeaningAll(payloads: seq<seq<Token>>, truth: Truth): Outcome
    decreases SizeAll(payloads), 1, |payloads|
  {
    if |payloads| == 0 then Outcome([], true)
    else Both(Meaning(payloads[0], truth), MeaningAll(payloads[1..], truth))
  }

  lemma Nested(stream: seq<Token>)
    ensures HasArguments(stream) ==> Size(stream[1].stream) < Size(stream)
  {
    if HasArguments(stream) {
      assert Size(stream) == TokenSize(stream[0]) + Size(stream[1..]);
    }
  }

  /** The meaning of a whole invocation: only leading inner attributes count. */
  function Evaluate(ts: seq<Token>, truth: Truth): Outcome
    decreases |ts|
  {
    if StartsWithAttr(ts) then Both(Meaning(ts[2].stream, truth), Evaluate(ts[3..], truth))
    else Outcome(ts, true)
  }

  /** The attribute is well formed, and so is every attribute inside it. */
  predicate WellFormed(stream: seq<Token>)
    decreases Size(stream), 0
  {
    IsConditional(stream) ==>
      && HasArguments(stream)
      && (stream[0].name == "cfg_attr" ==>
            var parts := Parts(stream[1].stream);
            Nested(stream);
            PartsGiven(parts) && AllWellFormed(parts[1..]))
  }

  predicate AllWellFormed(payloads: seq<seq<Token>>)
    decreases SizeAll(payloads), 1, |payloads|
  {
    |payloads| == 0 || (WellFormed(payloads[0]) && AllWellFormed(payloads[1..]))
  }

  predicate LeadingWellFormed(ts: seq<Token>)
    decreases |ts|
  {
    StartsWithAttr(ts) ==> WellFormed(ts[2].stream) && LeadingWellFormed(ts[3..])
  }

  /** The `cfg` predicates that evaluation reaches. */
  function Reached(stream: seq<Token>, truth: Truth): seq<seq<Token>>
    decreases Size(stream), 0
  {
    if !IsConditional(stream) || !HasArguments(stream) then []
    else if stream[0].name == "cfg" then [stream[1].stream]
    else
      var parts := Parts(stream[1].stream);
      Nested(stream);
      if PartsGiven(parts) && truth(parts[0]) then ReachedAll(parts[1..], truth) else []
  }

  function ReachedAll(payloads: seq<seq<Token>>, truth: Truth): seq<seq<Token>>
    decreases SizeAll(payloads), 1, |payloads|
  {
    if |payloads| == 0 then [] else Reached(payloads[0], truth) + ReachedAll(payloads[1..], truth)
  }

  function LeadingReached(ts: seq<Token>, truth: Truth): seq<seq<Token>>
    decreases |ts|
  {
    if StartsWithAttr(ts) then Reached(ts[2].stream, truth) + LeadingReached(ts[3..], truth) else []
  }

  predicate AllHold(ps: seq<seq<Token>>, truth: Truth) {
    forall i :: 0 <= i < |ps| ==> truth(ps[i])
  }

  lemma HoldTogether(a: seq<seq<Token>>, b: seq<seq<Token>>, truth: Truth)
    ensures AllHold(a + b, truth) <==> AllHold(a, truth) && AllHold(b, truth)
  {
    if AllHold(a + b, truth) {
      forall i | 0 <= i < |b| ensures truth(b[i]) { assert (a + b)[|a| + i] == b[i]; }
      forall i | 0 <= i < |a| ensures truth(a[i]) { assert (a + b)[i] == a[i]; }
    }
  }

  lemma {:induction false} ActiveIffReachedHold(stream: seq<Token>, truth: Truth)
    ensures Meaning(stream, truth).active <==> AllHold(Reached(stream, truth), truth)
    decreases Size(stream), 0
  {
    if IsConditional(stream) && HasArguments(stream) && stream[0].name != "cfg" {
      Nested(stream);
      var parts := Parts(stream[1].stream);
      if PartsGiven(parts) { AllActiveIffReachedHold(parts[1..], truth); }
    }
  }

  lemma {:induction false} AllActiveIffReachedHold(payloads: seq<seq<Token>>, truth: Truth)
    ensures MeaningAll(payloads, truth).active <==> AllHold(ReachedAll(payloads, truth), truth)
    decreases SizeAll(payloads), 1, |payloads|
  {
    if |payloads| > 0 {
      ActiveIffReachedHold(payloads[0], truth);
      AllActiveIffReachedHold(payloads[1..], truth);
      HoldTogether(Reached(payloads[0], truth), ReachedAll(payloads[1..], truth), truth);
    }
  }

  lemma {:induction false} EvaluatesActiveIffReachedHold(ts: seq<Token>, truth: Truth)
    ensures Evaluate(ts, truth).active <==> AllHold(LeadingReached(ts, truth), truth)
    decreases |ts|
  {
    if StartsWithAttr(ts) {
      ActiveIffReachedHold(ts[2].stream, truth);
      EvaluatesActiveIffReachedHold(ts[3..], truth);
      HoldTogether(Reached(ts[2].stream, truth), LeadingReached(ts[3..], truth), truth);
    }
  }

  // ---------- the forms of attributes ----------

  /** `cfg(p)` leaves nothing and keeps the invocation exactly if `p` holds. */
  lemma CfgForm(p: seq<Token>, truth: Truth)
    ensures var stream := [Ident("cfg"), Group(Parenthesis, p)];
            WellFormed(stream) && Meaning(stream, truth) == Outcome([], truth(p))
  {
  }

  function CfgAttrOf(p: seq<Token>, payloads: seq<seq<Token>>, trailing: bool): seq<Token> {
    [Ident("cfg_attr"), Group(Parenthesis, ListOf([p] + payloads, trailing))]
  }

  /** `cfg_attr(p, a, b, ..)` stands for all of its attributes in order if `p` holds, and
      for nothing otherwise; it is well formed exactly if each of them is. */
  lemma CfgAttrForm(p: seq<Token>, payloads: seq<seq<Token>>, trailing: bool, truth: Truth)
    requires |payloads| > 0 && NoComma([p] + payloads) && p != []
    requires forall i :: 0 <= i < |payloads| ==> payloads[i] != []
    ensures var stream := CfgAttrOf(p, payloads, trailing);
            && (WellFormed(stream) <==> forall i :: 0 <= i < |payloads| ==> WellFormed(payloads[i]))
            && Meaning(stream, truth) == if truth(p) then MeaningAll(payloads, truth) else Outcome([], true)
  {
    hide *;
    var parts := [p] + payloads;
    PartsOfList(parts, trailing);
    assert parts[1..] == payloads;
    AllAreWellFormed(payloads);
    CfgAttrIs(ListOf(parts, trailing), truth);
    CfgAttrOfIs(p, payloads, trailing);
    GivenParts(parts);
  }

  lemma CfgAttrOfIs(p: seq<Token>, payloads: seq<seq<Token>>, trailing: bool)
    ensures CfgAttrOf(p, payloads, trailing) ==
      [Ident("cfg_attr"), Group(Parenthesis, ListOf([p] + payloads, trailing))]
  {
  }

  lemma GivenParts(parts: seq<seq<Token>>)
    ensures PartsGiven(parts) <==> |parts| >= 2 && forall i :: 0 <= i < |parts| ==> parts[i] != []
  {
  }

  lemma CfgAttrIs(args: seq<Token>, truth: Truth)
    ensures var stream, parts := [Ident("cfg_attr"), Group(Parenthesis, args)], Parts(args);
            && (WellFormed(stream) <==> PartsGiven(parts) && AllWellFormed(parts[1..]))
            && Meaning(stream, truth) ==
              if PartsGiven(parts) && truth(parts[0]) then MeaningAll(parts[1..], truth) else Outcome([], true)
  {
    hide Parts, MeaningAll, AllWellFormed, PartsGiven;
    GivenParts(Parts(args));
  }

  lemma {:induction false} AllAreWellFormed(payloads: seq<seq<Token>>)
    ensures AllWellFormed(payloads) <==> forall i :: 0 <= i < |payloads| ==> WellFormed(payloads[i])
  {
    if |payloads| > 0 {
      AllAreWellFormed(payloads[1..]);
      assert forall i :: 0 < i < |payloads| ==> payloads[i] == payloads[1..][i - 1];
      hide WellFormed;
    }
  }

  /** Several attributes leave their tokens one after the other, and all must keep the invocation. */
  lemma {:induction false} MeaningsInOrder(a: seq<seq<Token>>, b: seq<seq<Token>>, truth: Truth)
    ensures MeaningAll(a + b, truth).tokens == MeaningAll(a, truth).tokens + MeaningAll(b, truth).tokens
    ensures MeaningAll(a + b, truth).active <==> MeaningAll(a, truth).active && MeaningAll(b, truth).active
    ensures |a| == 1 ==> MeaningAll(a, truth) == Meaning(a[0], truth)
    ensures MeaningAll([], truth) == Outcome([], true)
  {
    hide Meaning;
    if |a| == 0 {
      assert a + b == b;
    } else {
      MeaningsInOrder(a[1..], b, truth);
      assert (a + b)[1..] == a[1..] + b;
    }
  }

  /** Any other attribute stays as it is. */
  lemma OtherForm(stream: seq<Token>, truth: Truth)
    requires stream == [] || (stream[0] != Ident("cfg") && stream[0] != Ident("cfg_attr"))
    ensures WellFormed(stream)
    ensures Meaning(stream, truth) == Outcome([Punct('#'), Punct('!'), Group(Bracket, stream)], true)
  {
  }

  /** A conditional attribute must have exactly one group in parentheses, and that of a
      `cfg_attr` must be a list of a predicate and attributes, none of them empty. */
  lemma WellFormedForms(stream: seq<Token>)
    requires stream != [] && (stream[0] == Ident("cfg") || stream[0] == Ident("cfg_attr")) && WellFormed(stream)
    ensures |stream| == 2 && stream[1].Group? && stream[1].delimiter == Parenthesis
    ensures stream[0] == Ident("cfg_attr") ==>
      exists p, payloads, trailing ::
        && |payloads| > 0 && p != [] && (forall i :: 0 <= i < |payloads| ==> payloads[i] != [])
        && NoComma([p] + payloads) && stream == CfgAttrOf(p, payloads, trailing)
  {
    OneGroup(stream);
    hide *;
    if stream[0] == Ident("cfg_attr") {
      var p, payloads, trailing := CfgAttrParts(stream);
    }
  }

  lemma OneGroup(stream: seq<Token>)
    requires stream != [] && (stream[0] == Ident("cfg") || stream[0] == Ident("cfg_attr")) && WellFormed(stream)
    ensures |stream| == 2 && stream[1].Group? && stream[1].delimiter == Parenthesis
  {
    hide Parts, AllWellFormed;
  }

  lemma CfgAttrParts(stream: seq<Token>)
      returns (p: seq<Token>, payloads: seq<seq<Token>>, trailing: bool)
    requires |stream| == 2 && stream[0] == Ident("cfg_attr") && WellFormed(stream)
    requires stream[1].Group? && stream[1].delimiter == Parenthesis
    ensures |payloads| > 0 && p != [] && (forall i :: 0 <= i < |payloads| ==> payloads[i] != [])
    ensures NoComma([p] + payloads) && stream == CfgAttrOf(p, payloads, trailing)
  {
    hide *;
    var args := stream[1].stream;
    var parts := Parts(args);
    assert stream == [Ident("cfg_attr"), Group(Parenthesis, args)];
    CfgAttrIs(args, ts => true);
    GivenParts(parts);
    NoPartsOfNothing();
    trailing := ListOfParts(args);
    p, payloads := parts[0], parts[1..];
    assert [p] + payloads == parts;
    CfgAttrOfIs(p, payloads, trailing);
  }

  lemma NoPartsOfNothing()
    ensures Parts([]) == []
  {
  }

  /** Only leading inner attributes count: each is replaced by what it means, and from the
      first token that begins none everything is kept. */
  lemma LeadingForms(stream: seq<Token>, rest: seq<Token>, truth: Truth)
    ensures var all := Evaluate([Punct('#'), Punct('!'), Group(Bracket, stream)] + rest, truth);
            && all.tokens == Meaning(stream, truth).tokens + Evaluate(rest, truth).tokens
            && (all.active <==> Meaning(stream, truth).active && Evaluate(rest, truth).active)
    ensures (forall s, more :: rest != [Punct('#'), Punct('!'), Group(Bracket, s)] + more) ==>
      Evaluate(rest, truth) == Outcome(rest, true)
  {
    var ts := [Punct('#'), Punct('!'), Group(Bracket, stream)] + rest;
    assert ts[3..] == rest;
    if StartsWithAttr(rest) {
      assert rest == [Punct('#'), Punct('!'), Group(Bracket, rest[2].stream)] + rest[3..];
    }
  }

  // ---------- expansion ----------

  function Plain(tokens: seq<Token>): Variant {
    Variant([], tokens, true)
  }

  /** The branch recorded for a predicate, if any. */
  function Find(cfgs: seq<Cfg>, p: seq<Token>): Lookup {
    if |cfgs| == 0 then Missing
    else if cfgs[0].0 == p then Found(cfgs[0].1)
    else Find(cfgs[1..], p)
  }

  datatype Lookup = Missing | Found(enabled: bool)

  /** The branches of both sides without repetition, unless they contradict each other. */
  function Merge(cfgs: seq<Cfg>, more: seq<Cfg>): Merged
    decreases |more|
  {
    if |more| == 0 then Compatible(cfgs)
    else
      var previous := Find(cfgs, more[0].0);
      if previous.Missing? then Merge(cfgs + [more[0]], more[1..])
      else if previous.enabled != more[0].1 then Contradictory
      else Merge(cfgs, more[1..])
  }

  datatype Merged = Contradictory | Compatible(cfgs: seq<Cfg>)

  function Pair(left: Variant, right: Variant): seq<Variant> {
    var merged := Merge(left.cfgs, right.cfgs);
    if merged.Contradictory? then []
    else [Variant(merged.cfgs, left.tokens + right.tokens, left.active && right.active)]
  }

  function PairAll(left: Variant, rhs: seq<Variant>): seq<Variant> {
    if |rhs| == 0 then [] else Pair(left, rhs[0]) + PairAll(left, rhs[1..])
  }

  function Product(lhs: seq<Variant>, rhs: seq<Variant>): seq<Variant> {
    if |lhs| == 0 then [] else PairAll(lhs[0], rhs) + Product(lhs[1..], rhs)
  }

  function Expanded(stream: seq<Token>): Result<seq<Variant>, Error>
    decreases Size(stream), 0
  {
    if !IsConditional(stream) then Ok([Plain(QuoteAttr(stream))])
    else if !HasArguments(stream) then Err(ExpectedArguments)
    else if stream[0].name == "cfg" then
      Ok([Variant([(stream[1].stream, true)], [], true), Variant([(stream[1].stream, false)], [], false)])
    else
      var parts := Parts(stream[1].stream);
      Nested(stream);
      if !PartsGiven(parts) then Err(ExpectedPredicate)
      else
        var present := ExpandedAll([Plain([])], parts[1..]);
        if present.Err? then present
        else Ok(Product([Variant([(parts[0], true)], [], true)], present.value) +
          [Variant([(parts[0], false)], [], true)])
  }

  /** Which of the two complaints a malformed attribute itself gives rise to. */
  lemma ErrorForms(stream: seq<Token>)
    requires stream != [] && (stream[0] == Ident("cfg") || stream[0] == Ident("cfg_attr"))
    ensures !(|stream| == 2 && stream[1].Group? && stream[1].delimiter == Parenthesis) ==>
      Expanded(stream) == Err(ExpectedArguments)
    ensures |stream| == 2 && stream[1].Group? && stream[1].delimiter == Parenthesis ==>
      stream[0] == Ident("cfg_attr") && (|Parts(stream[1].stream)| < 2 || [] in Parts(stream[1].stream)) ==>
        Expanded(stream) == Err(ExpectedPredicate)
  {
    hide Parts, ExpandedAll, Product;
  }

  function ExpandedAll(variants: seq<Variant>, payloads: seq<seq<Token>>): Result<seq<Variant>, Error>
    decreases SizeAll(payloads), 1, |payloads|
  {
    if |payloads| == 0 then Ok(variants)
    else
      var first := Expanded(payloads[0]);
      if first.Err? then first else ExpandedAll(Product(variants, first.value), payloads[1..])
  }

  function Expansion(variants: seq<Variant>, ts: seq<Token>): Result<seq<Variant>, Error>
    decreases |ts|
  {
    if !StartsWithAttr(ts) then Ok(Extended(variants, ts))
    else
      var first := Expanded(ts[2].stream);
      if first.Err? then first else Expansion(Product(variants, first.value), ts[3..])
  }

  function Extended(variants: seq<Variant>, ts: seq<Token>): (vs: seq<Variant>)
    ensures |vs| == |variants|
  {
    seq(|variants|, i requires 0 <= i < |variants| => variants[i].(tokens := variants[i].tokens + ts))
  }

  // ---------- every assignment selects one variant ----------

  predicate Holds(cfgs: seq<Cfg>, truth: Truth) {
    forall i :: 0 <= i < |cfgs| ==> truth(cfgs[i].0) == cfgs[i].1
  }

  /** The outcomes of the variants whose gates are satisfied. */
  function Selected(vs: seq<Variant>, truth: Truth): seq<Outcome> {
    if |vs| == 0 then []
    else (if Holds(vs[0].cfgs, truth) then [Outcome(vs[0].tokens, vs[0].active)] else []) + Selected(vs[1..], truth)
  }

  lemma {:induction false} FindHolds(cfgs: seq<Cfg>, p: seq<Token>, truth: Truth)
    requires Holds(cfgs, truth)
    ensures Find(cfgs, p).Found? ==> truth(p) == Find(cfgs, p).enabled
  {
    if |cfgs| > 0 && cfgs[0].0 != p { FindHolds(cfgs[1..], p, truth); }
  }

  lemma {:induction false} MergeHolds(cfgs: seq<Cfg>, more: seq<Cfg>, truth: Truth)
    ensures var merged := Merge(cfgs, more);
            Holds(cfgs, truth) && Holds(more, truth) <==> merged.Compatible? && Holds(merged.cfgs, truth)
    decreases |more|
  {
    if |more| > 0 {
      var previous := Find(cfgs, more[0].0);
      if Holds(cfgs, truth) { FindHolds(cfgs, more[0].0, truth); }
      if previous.Missing? {
        MergeHolds(cfgs + [more[0]], more[1..], truth);
        assert Holds(cfgs + [more[0]], truth) <==> Holds(cfgs, truth) && truth(more[0].0) == more[0].1 by {
          assert (cfgs + [more[0]])[|cfgs|] == more[0];
          if Holds(cfgs + [more[0]], truth) {
            forall i | 0 <= i < |cfgs|
              ensures truth(cfgs[i].0) == cfgs[i].1
            {
              assert (cfgs + [more[0]])[i] == cfgs[i];
            }
          }
        }
      } else if previous.enabled == more[0].1 {
        MergeHolds(cfgs, more[1..], truth);
      }
      assert Holds(more, truth) <==> truth(more[0].0) == more[0].1 && Holds(more[1..], truth) by {
        assert forall i :: 0 < i < |more| ==> more[i] == more[1..][i - 1];
      }
    }
  }

  /** Every outcome of the left with every outcome of the right. */
  function Cross(left: seq<Outcome>, right: seq<Outcome>): seq<Outcome> {
    if |left| == 0 then [] else CrossOne(left[0], right) + Cross(left[1..], right)
  }

  function CrossOne(left: Outcome, right: seq<Outcome>): (os: seq<Outcome>)
    ensures |os| == |right|
  {
    seq(|right|, i requires 0 <= i < |right| => Both(left, right[i]))
  }

  lemma {:induction false} SelectedConcat(a: seq<Variant>, b: seq<Variant>, truth: Truth)
    ensures Selected(a + b, truth) == Selected(a, truth) + Selected(b, truth)
  {
    if |a| == 0 {
      assert a + b == b;
    } else {
      var rest := a[1..] + b;
      assert (a + b)[0] == a[0] && (a + b)[1..] == rest;
      hide *;
      SelectedConcat(a[1..], b, truth);
      SelectedFirst(a, truth);
      SelectedFirst(a + b, truth);
      Associates(SelectedOne(a[0], truth), Selected(a[1..], truth), Selected(b, truth));
    }
  }

  function SelectedOne(v: Variant, truth: Truth): seq<Outcome> {
    if Holds(v.cfgs, truth) then [Outcome(v.tokens, v.active)] else []
  }

  lemma SelectedFirst(vs: seq<Variant>, truth: Truth)
    requires |vs| > 0
    ensures Selected(vs, truth) == SelectedOne(vs[0], truth) + Selected(vs[1..], truth)
  {
    hide Holds;
  }

  lemma Associates<T>(a: seq<T>, b: seq<T>, c: seq<T>)
    ensures a + b + c == a + (b + c)
  {
  }

  lemma {:induction false} SelectedPairs(left: Variant, rhs: seq<Variant>, truth: Truth)
    ensures Selected(PairAll(left, rhs), truth) ==
      if Holds(left.cfgs, truth) then CrossOne(Outcome(left.tokens, left.active), Selected(rhs, truth)) else []
  {
    if |rhs| > 0 {
      SelectedPairs(left, rhs[1..], truth);
      MergeHolds(left.cfgs, rhs[0].cfgs, truth);
      SelectedConcat(Pair(left, rhs[0]), PairAll(left, rhs[1..]), truth);
    }
  }

  lemma {:induction false} SelectedProduct(lhs: seq<Variant>, rhs: seq<Variant>, truth: Truth)
    ensures Selected(Product(lhs, rhs), truth) == Cross(Selected(lhs, truth), Selected(rhs, truth))
  {
    if |lhs| > 0 {
      SelectedProduct(lhs[1..], rhs, truth);
      SelectedPairs(lhs[0], rhs, truth);
      SelectedConcat(PairAll(lhs[0], rhs), Product(lhs[1..], rhs), truth);
      if Holds(lhs[0].cfgs, truth) {
        assert Selected(lhs, truth)[1..] == Selected(lhs[1..], truth);
      } else {
        assert Selected(lhs, truth) == Selected(lhs[1..], truth);
      }
    }
  }

  lemma ProductOfOne(lhs: seq<Variant>, rhs: seq<Variant>, a: Outcome, b: Outcome, truth: Truth)
    requires Selected(lhs, truth) == [a] && Selected(rhs, truth) == [b]
    ensures Selected(Product(lhs, rhs), truth) == [Both(a, b)]
  {
    SelectedProduct(lhs, rhs, truth);
  }

  /** Under every assignment exactly one variant of an attribute is selected, and it
      is what the attribute means. */
  lemma {:induction false} ExpandedMeans(stream: seq<Token>, truth: Truth)
    ensures Expanded(stream).Ok? <==> WellFormed(stream)
    ensures Expanded(stream).Ok? ==> Selected(Expanded(stream).value, truth) == [Meaning(stream, truth)]
    decreases Size(stream), 0
  {
    if IsConditional(stream) && HasArguments(stream) {
      if stream[0].name == "cfg" {
        var p := stream[1].stream;
        GateHolds(p, truth);
        SelectedConcat([Variant([(p, true)], [], true)], [Variant([(p, false)], [], false)], truth);
      } else {
        Nested(stream);
        var parts := Parts(stream[1].stream);
        if PartsGiven(parts) { ConditionMeans(stream, parts, truth); }
      }
    }
  }

  lemma GateHolds(p: seq<Token>, truth: Truth)
    ensures Holds([(p, true)], truth) <==> truth(p)
    ensures Holds([(p, false)], truth) <==> !truth(p)
  {
    assert [(p, true)][0].0 == p && [(p, false)][0].0 == p;
  }

  lemma ConditionMeans(stream: seq<Token>, parts: seq<seq<Token>>, truth: Truth)
    requires IsConditional(stream) && HasArguments(stream) && stream[0].name != "cfg"
    requires parts == Parts(stream[1].stream) && PartsGiven(parts)
    ensures Expanded(stream).Ok? <==> AllWellFormed(parts[1..])
    ensures Expanded(stream).Ok? ==> Selected(Expanded(stream).value, truth) == [Meaning(stream, truth)]
    decreases SizeAll(parts[1..]), 2
  {
    var p, payloads := parts[0], parts[1..];
    assert Selected([Plain([])], truth) == [Outcome([], true)];
    ExpandedAllMeans([Plain([])], payloads, Outcome([], true), truth);
    if Expanded(stream).Ok? {
      var present := ExpandedAll([Plain([])], payloads).value;
      var yes, no := [Variant([(p, true)], [], true)], [Variant([(p, false)], [], true)];
      GateHolds(p, truth);
      SelectedProduct(yes, present, truth);
      SelectedConcat(Product(yes, present), no, truth);
      var inner := Selected(present, truth)[0];
      assert Both(Outcome([], true), MeaningAll(payloads, truth)) == MeaningAll(payloads, truth);
      assert Both(Outcome([], true), inner) == inner;
      assert Selected(yes, truth) == if truth(p) then [Outcome([], true)] else [];
      assert Selected(no, truth) == if truth(p) then [] else [Outcome([], true)];
    }
  }

  lemma BothAssociative(a: Outcome, b: Outcome, c: Outcome)
    ensures Both(Both(a, b), c) == Both(a, Both(b, c))
  {
  }

  lemma {:induction false} ExpandedAllMeans(variants: seq<Variant>, payloads: seq<seq<Token>>, chosen: Outcome,
      truth: Truth)
    requires Selected(variants, truth) == [chosen]
    ensures ExpandedAll(variants, payloads).Ok? <==> AllWellFormed(payloads)
    ensures ExpandedAll(variants, payloads).Ok? ==>
      Selected(ExpandedAll(variants, payloads).value, truth) == [Both(chosen, MeaningAll(payloads, truth))]
    decreases SizeAll(payloads), 1, |payloads|
  {
    if |payloads| == 0 {
      assert Both(chosen, Outcome([], true)) == chosen;
    } else {
      ExpandedMeans(payloads[0], truth);
      var first := Expanded(payloads[0]);
      if first.Ok? {
        var here := Meaning(payloads[0], truth);
        ProductOfOne(variants, first.value, chosen, here, truth);
        ExpandedAllMeans(Product(variants, first.value), payloads[1..], Both(chosen, here), truth);
        BothAssociative(chosen, here, MeaningAll(payloads[1..], truth));
      }
    }
  }

  lemma {:induction false} SelectedExtended(variants: seq<Variant>, ts: seq<Token>, chosen: Outcome, truth: Truth)
    requires Selected(variants, truth) == [chosen]
    ensures Selected(Extended(variants, ts), truth) == [Both(chosen, Outcome(ts, true))]
  {
    ExtendEach(variants, ts, truth);
  }

  lemma {:induction false} ExtendEach(variants: seq<Variant>, ts: seq<Token>, truth: Truth)
    ensures var os, more := Selected(variants, truth), Selected(Extended(variants, ts), truth);
            |more| == |os| && forall i :: 0 <= i < |os| ==> more[i] == Both(os[i], Outcome(ts, true))
  {
    if |variants| > 0 {
      ExtendEach(variants[1..], ts, truth);
      assert Extended(variants, ts)[1..] == Extended(variants[1..], ts);
    }
  }

  lemma {:induction false} ExpansionMeans(variants: seq<Variant>, ts: seq<Token>, chosen: Outcome, truth: Truth)
    requires Selected(variants, truth) == [chosen]
    ensures Expansion(variants, ts).Ok? <==> LeadingWellFormed(ts)
    ensures Expansion(variants, ts).Ok? ==>
      Selected(Expansion(variants, ts).value, truth) == [Both(chosen, Evaluate(ts, truth))]
    decreases |ts|
  {
    if !StartsWithAttr(ts) {
      SelectedExtended(variants, ts, chosen, truth);
    } else {
      ExpandedMeans(ts[2].stream, truth);
      var first := Expanded(ts[2].stream);
      if first.Ok? {
        var here := Meaning(ts[2].stream, truth);
        ProductOfOne(variants, first.value, chosen, here, truth);
        ExpansionMeans(Product(variants, first.value), ts[3..], Both(chosen, here), truth);
        BothAssociative(chosen, here, Evaluate(ts[3..], truth));
      }
    }
  }

  /** What `expand` returns. */
  function Variants(ts: seq<Token>): Result<seq<Variant>, Error> {
    Expansion([Plain([])], ts)
  }

  /** Expansion fails exactly on malformed attributes. Otherwise, under every assignment
      of the opaque predicates, exactly one variant has all its gates satisfied, and its
      tokens and its activity are those of direct evaluation. */
  lemma ExpandMeansEvaluate(ts: seq<Token>, truth: Truth)
    ensures Variants(ts).Ok? <==> LeadingWellFormed(ts)
    ensures Variants(ts).Ok? ==> Selected(Variants(ts).value, truth) == [Evaluate(ts, truth)]
  {
    assert Selected([Plain([])], truth) == [Outcome([], true)];
    ExpansionMeans([Plain([])], ts, Outcome([], true), truth);
    assert Both(Outcome([], true), Evaluate(ts, truth)) == Evaluate(ts, truth);
  }

  // ---------- emitted invocations ----------

  /** `#[cfg(predicate)]`, or `#[cfg(not(predicate))]` if negated. */
  datatype Gate = Gate(condition: seq<Token>, negated: bool)

  datatype Invocation = Invocation(gates: seq<Gate>, tokens: seq<Token>)

  function Gates(cfgs: seq<Cfg>): (gates: seq<Gate>)
    ensures |gates| == |cfgs|
  {
    seq(|cfgs|, i requires 0 <= i < |cfgs| => Gate(cfgs[i].0, !cfgs[i].1))
  }

  /** Inactive variants are never emitted. */
  function Emitted(vs: seq<Variant>): seq<Invocation> {
    if |vs| == 0 then []
    else (if vs[0].active then [Invocation(Gates(vs[0].cfgs), vs[0].tokens)] else []) + Emitted(vs[1..])
  }

  predicate Open(gates: seq<Gate>, truth: Truth) {
    forall i :: 0 <= i < |gates| ==> truth(gates[i].condition) != gates[i].negated
  }

  /** The tokens of the invocations that the compiler keeps. */
  function Compiled(invocations: seq<Invocation>, truth: Truth): seq<seq<Token>> {
    if |invocations| == 0 then []
    else (if Open(invocations[0].gates, truth) then [invocations[0].tokens] else []) + Compiled(invocations[1..], truth)
  }

  function ActiveTokens(os: seq<Outcome>): seq<seq<Token>> {
    if |os| == 0 then [] else (if os[0].active then [os[0].tokens] else []) + ActiveTokens(os[1..])
  }

  lemma {:induction false} CompiledAreSelected(vs: seq<Variant>, truth: Truth)
    ensures Compiled(Emitted(vs), truth) == ActiveTokens(Selected(vs, truth))
  {
    if |vs| > 0 {
      CompiledAreSelected(vs[1..], truth);
      GatesOpen(vs[0].cfgs, truth);
      var more, os := Emitted(vs[1..]), Selected(vs[1..], truth);
      assert Emitted(vs)[if vs[0].active then 1 else 0..] == more;
      assert Selected(vs, truth)[if Holds(vs[0].cfgs, truth) then 1 else 0..] == os;
    }
  }

  lemma GatesOpen(cfgs: seq<Cfg>, truth: Truth)
    ensures Open(Gates(cfgs), truth) <==> Holds(cfgs, truth)
  {
    if Open(Gates(cfgs), truth) {
      forall i | 0 <= i < |cfgs| ensures truth(cfgs[i].0) == cfgs[i].1 {
        assert Gates(cfgs)[i] == Gate(cfgs[i].0, !cfgs[i].1);
      }
    }
  }

  /** At most one emitted invocation is compiled; one is exactly if every `cfg` that
      evaluation reaches holds, and it carries the directly evaluated tokens. */
  lemma CompilesAtMostOne(ts: seq<Token>, truth: Truth)
    requires LeadingWellFormed(ts)
    ensures Variants(ts).Ok?
    ensures Compiled(Emitted(Variants(ts).value), truth) ==
      if AllHold(LeadingReached(ts, truth), truth) then [Evaluate(ts, truth).tokens] else []
  {
    ExpandMeansEvaluate(ts, truth);
    CompiledAreSelected(Variants(ts).value, truth);
    EvaluatesActiveIffReachedHold(ts, truth);
  }

  // ---------- expansion ends after one step ----------

  /** No leading attribute is conditional. */
  predicate Settled(ts: seq<Token>)
    decreases |ts|
  {
    StartsWithAttr(ts) ==> !IsConditional(ts[2].stream) && Settled(ts[3..])
  }

  /** Nothing but attributes that are not conditional. */
  predicate IsAttrs(ts: seq<Token>)
    decreases |ts|
  {
    |ts| == 0 || (StartsWithAttr(ts) && !IsConditional(ts[2].stream) && IsAttrs(ts[3..]))
  }

  predicate AttrsOnly(vs: seq<Variant>) {
    forall i :: 0 <= i < |vs| ==> IsAttrs(vs[i].tokens)
  }

  lemma {:induction false} AttrsThen(a: seq<Token>, b: seq<Token>)
    requires IsAttrs(a)
    ensures IsAttrs(b) ==> IsAttrs(a + b)
    ensures Settled(b) ==> Settled(a + b)
    decreases |a|
  {
    if |a| == 0 {
      assert a + b == b;
    } else {
      AttrsThen(a[3..], b);
      assert (a + b)[3..] == a[3..] + b;
    }
  }

  lemma {:induction false} PairsKeepAttrs(left: Variant, rhs: seq<Variant>)
    requires IsAttrs(left.tokens) && AttrsOnly(rhs)
    ensures AttrsOnly(PairAll(left, rhs))
  {
    if |rhs| > 0 {
      PairsKeepAttrs(left, rhs[1..]);
      AttrsThen(left.tokens, rhs[0].tokens);
    }
  }

  lemma {:induction false} ProductKeepsAttrs(lhs: seq<Variant>, rhs: seq<Variant>)
    requires AttrsOnly(lhs) && AttrsOnly(rhs)
    ensures AttrsOnly(Product(lhs, rhs))
  {
    if |lhs| > 0 {
      ProductKeepsAttrs(lhs[1..], rhs);
      PairsKeepAttrs(lhs[0], rhs);
    }
  }

  lemma {:induction false} ExpandedAttrs(stream: seq<Token>)
    ensures Expanded(stream).Ok? ==> AttrsOnly(Expanded(stream).value)
    decreases Size(stream), 0
  {
    if !IsConditional(stream) {
      assert QuoteAttr(stream)[3..] == [];
    } else if HasArguments(stream) && stream[0].name != "cfg" {
      Nested(stream);
      var parts := Parts(stream[1].stream);
      if PartsGiven(parts) && Expanded(stream).Ok? {
        ExpandedAllAttrs([Plain([])], parts[1..]);
        ProductKeepsAttrs([Variant([(parts[0], true)], [], true)], ExpandedAll([Plain([])], parts[1..]).value);
      }
    }
  }

  lemma {:induction false} ExpandedAllAttrs(variants: seq<Variant>, payloads: seq<seq<Token>>)
    requires AttrsOnly(variants)
    ensures ExpandedAll(variants, payloads).Ok? ==> AttrsOnly(ExpandedAll(variants, payloads).value)
    decreases SizeAll(payloads), 1, |payloads|
  {
    if |payloads| > 0 {
      ExpandedAttrs(payloads[0]);
      var first := Expanded(payloads[0]);
      if first.Ok? {
        ProductKeepsAttrs(variants, first.value);
        ExpandedAllAttrs(Product(variants, first.value), payloads[1..]);
      }
    }
  }

  lemma {:induction false} ExpansionSettles(variants: seq<Variant>, ts: seq<Token>)
    requires AttrsOnly(variants)
    ensures Expansion(variants, ts).Ok? ==>
      forall i :: 0 <= i < |Expansion(variants, ts).value| ==> Settled(Expansion(variants, ts).value[i].tokens)
    decreases |ts|
  {
    if !StartsWithAttr(ts) {
      forall i | 0 <= i < |variants| ensures Settled(variants[i].tokens + ts) { AttrsThen(variants[i].tokens, ts); }
    } else {
      ExpandedAttrs(ts[2].stream);
      var first := Expanded(ts[2].stream);
      if first.Ok? {
        ProductKeepsAttrs(variants, first.value);
        ExpansionSettles(Product(variants, first.value), ts[3..]);
      }
    }
  }

  lemma {:induction false} SettledIsPlain(before: seq<Token>, ts: seq<Token>)
    requires Settled(ts)
    ensures Expansion([Plain(before)], ts) == Ok([Plain(before + ts)])
    decreases |ts|
  {
    if !StartsWithAttr(ts) {
      assert Extended([Plain(before)], ts) == [Plain(before + ts)];
    } else {
      var attr := QuoteAttr(ts[2].stream);
      assert ts == attr + ts[3..];
      assert Pair(Plain(before), Plain(attr)) == [Plain(before + attr)];
      assert PairAll(Plain(before), [Plain(attr)]) == [Plain(before + attr)];
      assert Product([Plain(before)], [Plain(attr)]) == [Plain(before + attr)];
      SettledIsPlain(before + attr, ts[3..]);
      assert before + attr + ts[3..] == before + ts;
    }
  }

  /** Expanding the tokens of a variant again yields that variant alone, without gates. */
  lemma ReexpansionIsIdentity(ts: seq<Token>, i: nat)
    requires Variants(ts).Ok? && i < |Variants(ts).value|
    ensures var tokens := Variants(ts).value[i].tokens;
            Variants(tokens) == Ok([Plain(tokens)])
  {
    ExpansionSettles([Plain([])], ts);
    var tokens := Variants(ts).value[i].tokens;
    SettledIsPlain([], tokens);
    assert [] + tokens == tokens;
  }

  predicate Gated(vs: seq<Variant>) {
    forall i :: 0 <= i < |vs| ==> vs[i].cfgs != []
  }

  lemma {:induction false} MergeKeepsGates(cfgs: seq<Cfg>, more: seq<Cfg>)
    requires cfgs != [] || more != []
    ensures var merged := Merge(cfgs, more); merged.Compatible? ==> merged.cfgs != []
    decreases |more|
  {
    if |more| > 0 {
      if Find(cfgs, more[0].0).Missing? {
        MergeKeepsGates(cfgs + [more[0]], more[1..]);
      } else if cfgs != [] {
        MergeKeepsGates(cfgs, more[1..]);
      }
    }
  }

  lemma {:induction false} PairsKeepGates(left: Variant, rhs: seq<Variant>)
    requires left.cfgs != [] || Gated(rhs)
    ensures Gated(PairAll(left, rhs))
  {
    if |rhs| > 0 {
      PairsKeepGates(left, rhs[1..]);
      MergeKeepsGates(left.cfgs, rhs[0].cfgs);
    }
  }

  lemma {:induction false} ProductKeepsGates(lhs: seq<Variant>, rhs: seq<Variant>)
    requires Gated(lhs) || Gated(rhs)
    ensures Gated(Product(lhs, rhs))
  {
    if |lhs| > 0 {
      ProductKeepsGates(lhs[1..], rhs);
      PairsKeepGates(lhs[0], rhs);
    }
  }

  lemma ConditionalIsGated(stream: seq<Token>)
    requires IsConditional(stream) && Expanded(stream).Ok?
    ensures Gated(Expanded(stream).value)
  {
    if stream[0].name != "cfg" {
      var parts := Parts(stream[1].stream);
      Nested(stream);
      ProductKeepsGates([Variant([(parts[0], true)], [], true)], ExpandedAll([Plain([])], parts[1..]).value);
    }
  }

  lemma {:induction false} ExpansionKeepsGates(variants: seq<Variant>, ts: seq<Token>)
    requires Gated(variants) || !Settled(ts)
    ensures Expansion(variants, ts).Ok? ==> Gated(Expansion(variants, ts).value)
    decreases |ts|
  {
    if StartsWithAttr(ts) && Expanded(ts[2].stream).Ok? {
      var first := Expanded(ts[2].stream).value;
      if IsConditional(ts[2].stream) { ConditionalIsGated(ts[2].stream); }
      if Gated(variants) || Gated(first) { ProductKeepsGates(variants, first); }
      ExpansionKeepsGates(Product(variants, first), ts[3..]);
    }
  }

  /** Expansion yields a single variant exactly if no leading attribute is conditional,
      and then it is the input without gates. */
  lemma SingleIffSettled(ts: seq<Token>)
    requires Variants(ts).Ok?
    ensures |Variants(ts).value| == 1 <==> Settled(ts)
    ensures Settled(ts) ==> Variants(ts).value == [Plain(ts)]
  {
    var vs := Variants(ts).value;
    if Settled(ts) {
      SettledIsPlain([], ts);
      assert [] + ts == ts;
    } else if |vs| == 1 {
      ExpansionKeepsGates([Plain([])], ts);
      ExpandMeansEvaluate(ts, Refusing(vs[0]));
      RefusedAlone(vs[0]);
    }
  }

  // ---------- no predicate is gated twice ----------

  predicate Once(cfgs: seq<Cfg>) {
    forall i, j :: 0 <= i < j < |cfgs| ==> cfgs[i].0 != cfgs[j].0
  }

  predicate AllOnce(vs: seq<Variant>) {
    forall i :: 0 <= i < |vs| ==> Once(vs[i].cfgs)
  }

  lemma {:induction false} MissingIsNew(cfgs: seq<Cfg>, p: seq<Token>)
    requires Find(cfgs, p).Missing?
    ensures forall i :: 0 <= i < |cfgs| ==> cfgs[i].0 != p
  {
    if |cfgs| > 0 {
      MissingIsNew(cfgs[1..], p);
      assert forall i :: 0 < i < |cfgs| ==> cfgs[i] == cfgs[1..][i - 1];
    }
  }

  lemma {:induction false} MergeKeepsOnce(cfgs: seq<Cfg>, more: seq<Cfg>)
    requires Once(cfgs)
    ensures Merge(cfgs, more).Compatible? ==> Once(Merge(cfgs, more).cfgs)
    decreases |more|
  {
    if |more| > 0 {
      if Find(cfgs, more[0].0).Missing? {
        MissingIsNew(cfgs, more[0].0);
        MergeKeepsOnce(cfgs + [more[0]], more[1..]);
      } else {
        MergeKeepsOnce(cfgs, more[1..]);
      }
    }
  }

  lemma {:induction false} PairsKeepOnce(left: Variant, rhs: seq<Variant>)
    requires Once(left.cfgs)
    ensures AllOnce(PairAll(left, rhs))
  {
    hide Once;
    if |rhs| > 0 {
      PairsKeepOnce(left, rhs[1..]);
      MergeKeepsOnce(left.cfgs, rhs[0].cfgs);
    }
  }

  lemma {:induction false} ProductKeepsOnce(lhs: seq<Variant>, rhs: seq<Variant>)
    requires AllOnce(lhs)
    ensures AllOnce(Product(lhs, rhs))
  {
    hide Once;
    if |lhs| > 0 {
      ProductKeepsOnce(lhs[1..], rhs);
      PairsKeepOnce(lhs[0], rhs);
    }
  }

  lemma {:induction false} ExpansionKeepsOnce(variants: seq<Variant>, ts: seq<Token>)
    requires AllOnce(variants)
    ensures Expansion(variants, ts).Ok? ==> AllOnce(Expansion(variants, ts).value)
    decreases |ts|
  {
    hide Once, Expanded, Product;
    if StartsWithAttr(ts) && Expanded(ts[2].stream).Ok? {
      ProductKeepsOnce(variants, Expanded(ts[2].stream).value);
      ExpansionKeepsOnce(Product(variants, Expanded(ts[2].stream).value), ts[3..]);
    }
  }

  /** No returned variant has two gates with the same predicate. */
  lemma GatesAreDistinct(ts: seq<Token>)
    requires Variants(ts).Ok?
    ensures AllOnce(Variants(ts).value)
  {
    ExpansionKeepsOnce([Plain([])], ts);
  }

  /** An assignment under which the first gate of a variant is not satisfied. */
  function Refusing(v: Variant): Truth
    requires v.cfgs != []
  {
    tokens => !v.cfgs[0].1
  }

  lemma RefusedAlone(v: Variant)
    requires v.cfgs != []
    ensures Selected([v], Refusing(v)) == []
  {
    assert !Holds(v.cfgs, Refusing(v));
  }

  // ---------- the algorithm ----------

  /** More tokens after parts whose last one is still open. */
  function Continued(parts: seq<seq<Token>>, more: seq<seq<Token>>): seq<seq<Token>>
    requires |parts| > 0 && |more| > 0
  {
    parts[..|parts| - 1] + [parts[|parts| - 1] + more[0]] + more[1..]
  }

  lemma ContinueEmpty(parts: seq<seq<Token>>)
    requires |parts| > 0
    ensures Continued([[]], parts) == parts && Continued(parts, [[]]) == parts
  {
    assert [] + parts[0] == parts[0] && parts[|parts| - 1] + [] == parts[|parts| - 1];
  }

  lemma ContinueWith(parts: seq<seq<Token>>, t: Token, rest: seq<seq<Token>>)
    requires |parts| > 0 && |rest| > 0
    ensures Continued(parts + [[]], rest) == Continued(parts, [[]] + rest)
    ensures Continued(parts[|parts| - 1 := parts[|parts| - 1] + [t]], rest) ==
      Continued(parts, [[t] + rest[0]] + rest[1..])
  {
    var last := parts[|parts| - 1];
    assert [] + rest[0] == rest[0] && last + [] == last;
    assert last + [t] + rest[0] == last + ([t] + rest[0]);
  }

  method SplitCommas(input: seq<Token>) returns (parts: seq<seq<Token>>)
    ensures parts == Split(input)
  {
    parts := [[]];
    ContinueEmpty(Split(input));
    assert input[0..] == input;
    for i := 0 to |input|
      invariant |parts| > 0 && Continued(parts, Split(input[i..])) == Split(input)
    {
      assert input[i..][0] == input[i] && input[i..][1..] == input[i + 1..];
      ContinueWith(parts, input[i], Split(input[i + 1..]));
      if input[i] == Punct(',') {
        parts := parts + [[]];
      } else {
        parts := parts[|parts| - 1 := parts[|parts| - 1] + [input[i]]];
      }
    }
    ContinueEmpty(parts);
  }

  /** Add the branches of the right side that the left side does not have. */
  method MergeCfgs(left: seq<Cfg>, right: seq<Cfg>) returns (cfgs: seq<Cfg>, compatible: bool)
    ensures Merge(left, right) == if compatible then Compatible(cfgs) else Contradictory
  {
    cfgs, compatible := left, true;
    for i := 0 to |right|
      invariant compatible && Merge(cfgs, right[i..]) == Merge(left, right)
    {
      assert right[i..][0] == right[i] && right[i..][1..] == right[i + 1..];
      var previous := Find(cfgs, right[i].0);
      if previous.Found? {
        if previous.enabled != right[i].1 {
          compatible := false;
          break;
        }
      } else {
        cfgs := cfgs + [right[i]];
      }
    }
  }

  method AppendVariants(lhs: seq<Variant>, rhs: seq<Variant>) returns (out: seq<Variant>)
    ensures out == Product(lhs, rhs)
  {
    hide PairAll;
    out := [];
    for i := 0 to |lhs|
      invariant out + Product(lhs[i..], rhs) == Product(lhs, rhs)
    {
      assert lhs[i..][0] == lhs[i] && lhs[i..][1..] == lhs[i + 1..];
      ghost var rest := Product(lhs[i + 1..], rhs);
      assert out + (PairAll(lhs[i], rhs) + rest) == out + PairAll(lhs[i], rhs) + rest;
      out := AppendPairs(out, lhs[i], rhs);
    }
  }

  /** The inner loop: one left variant with every right one. */
  method AppendPairs(before: seq<Variant>, left: Variant, rhs: seq<Variant>) returns (out: seq<Variant>)
    ensures out == before + PairAll(left, rhs)
  {
    hide Merge;
    out := before;
    for j := 0 to |rhs|
      invariant out + PairAll(left, rhs[j..]) == before + PairAll(left, rhs)
    {
      var right := rhs[j];
      assert rhs[j..][0] == right && rhs[j..][1..] == rhs[j + 1..];
      ghost var rest := PairAll(left, rhs[j + 1..]);
      assert out + (Pair(left, right) + rest) == out + Pair(left, right) + rest;
      var cfgs, compatible := MergeCfgs(left.cfgs, right.cfgs);
      if compatible {
        out := out + [Variant(cfgs, left.tokens + right.tokens, left.active && right.active)];
      }
    }
  }

  method ExpandAttribute(stream: seq<Token>) returns (r: Result<seq<Variant>, Error>)
    ensures r == Expanded(stream)
    decreases Size(stream)
  {
    if !IsConditional(stream) {
      return Ok([Plain(QuoteAttr(stream))]);
    }
    if !HasArguments(stream) {
      return Err(ExpectedArguments);
    }
    var args := stream[1].stream;
    if stream[0].name == "cfg" {
      return Ok([Variant([(args, true)], [], true), Variant([(args, false)], [], false)]);
    }
    Nested(stream);
    var parts := SplitCommas(args);
    if parts[|parts| - 1] == [] {
      parts := parts[..|parts| - 1];
    }
    if |parts| < 2 || exists i :: 0 <= i < |parts| && parts[i] == [] {
      return Err(ExpectedPredicate);
    }
    assert parts == Parts(args);
    var condition, payloads := parts[0], parts[1..];
    var present := [Plain([])];
    for i := 0 to |payloads|
      invariant ExpandedAll(present, payloads[i..]) == ExpandedAll([Plain([])], payloads)
    {
      assert payloads[i..][0] == payloads[i] && payloads[i..][1..] == payloads[i + 1..];
      PartIsSmaller(payloads, i);
      var expanded := ExpandAttribute(payloads[i]);
      if expanded.Err? {
        return expanded;
      }
      present := AppendVariants(present, expanded.value);
    }
    present := AppendVariants([Variant([(condition, true)], [], true)], present);
    present := present + [Variant([(condition, false)], [], true)];
    r := Ok(present);
  }

  lemma {:induction false} PartIsSmaller(parts: seq<seq<Token>>, i: nat)
    requires i < |parts|
    ensures Size(parts[i]) <= SizeAll(parts)
  {
    if i > 0 { PartIsSmaller(parts[1..], i - 1); }
  }

  method Expand(tokens: seq<Token>) returns (r: Result<seq<Variant>, Error>)
    ensures r == Variants(tokens)
  {
    var variants := [Plain([])];
    var index := 0;
    while StartsWithAttr(tokens[index..])
      invariant index <= |tokens| && Expansion(variants, tokens[index..]) == Variants(tokens)
      decreases |tokens| - index
    {
      assert tokens[index..][3..] == tokens[index + 3..];
      var expanded := ExpandAttribute(tokens[index..][2].stream);
      if expanded.Err? {
        return expanded;
      }
      variants := AppendVariants(variants, expanded.value);
      index := index + 3;
    }
    var plain := variants;
    for i := 0 to |variants|
      invariant |variants| == |plain|
      invariant forall k :: 0 <= k < i ==> variants[k] == plain[k].(tokens := plain[k].tokens + tokens[index..])
      invariant forall k :: i <= k < |plain| ==> variants[k] == plain[k]
    {
      variants := variants[i := variants[i].(tokens := variants[i].tokens + tokens[index..])];
    }
    assert variants == Extended(plain, tokens[index..]);
    r := Ok(variants);
  }

  method EmitMacroInvocations(variants: seq<Variant>) returns (invocations: seq<Invocation>)
    ensures invocations == Emitted(variants)
  {
    invocations := [];
    for i := 0 to |variants|
      invariant invocations + Emitted(variants[i..]) == Emitted(variants)
    {
      assert variants[i..][0] == variants[i] && variants[i..][1..] == variants[i + 1..];
      if variants[i].active {
        invocations := invocations + [Invocation(Gates(variants[i].cfgs), variants[i].tokens)];
      }
    }
  }
}
