/**
 * The conditional directives of the preprocessor: `prepare_conditions` turns a stream of directive
 * tokens into nested listings of conditionals, `evaluate` emits the text that the listings select.
 * Finding the tokens in the text, and deciding a single condition, are parameters.
 */
module Conditions {

  datatype Controller = StartIf | ElseIf | ElseCase | EndIf

  /** A `condition`: 1 to 6 are the plain ones, -1 to -6 their negations, 0 marks a piece of text. */
  type Condition = c: int | -6 <= c <= 6

  const TEXT: Condition := 0

  /** A directive found in the buffer, with its line at [start, end). */
  datatype Token = Token(controller: Controller, kind: Condition, value: string, start: nat, end: nat)

  datatype Conditional = Conditional(
    childs: seq<Conditional>,
    expression: string,
    chaining: bool,
    kind: Condition,
    tokenStart: nat,
    tokenEnd: nat,
    textStart: nat,
    textEnd: nat)

  datatype Error = ConditionNotOpened

  /** A finished listing with the index of the token it stopped at, or the number of tokens if none closed it. */
  datatype Prepared = Listing(conditions: seq<Conditional>, stop: nat) | Failed(error: Error)

  /** Whether a condition of some kind holds of an expression, given the current definitions. */
  type Truth = (Condition, string) -> bool

  // ---------------------------------------------------------------------
  // The directives' steps
  // ---------------------------------------------------------------------

  /** `buffer.substr(from, to - from)` on unsigned positions: a negative length wraps and reaches the end. */
  function Substr(buffer: string, from: nat, to: nat): string
  {
    if from > |buffer| then ""
    else if from <= to <= |buffer| then buffer[from..to]
    else buffer[from..]
  }

  function Opened(t: Token): Conditional
  {
    Conditional([], t.value, t.controller != StartIf, t.kind, t.start, t.end, t.end, 0)
  }

  function TextBlock(text: string): Conditional
  {
    Conditional([], text, false, TEXT, 0, 0, 0, 0)
  }

  function TextBlocks(text: string): seq<Conditional>
  {
    if text == "" then [] else [TextBlock(text)]
  }

  function WithLast(cs: seq<Conditional>, c: Conditional): seq<Conditional>
    requires cs != []
  {
    cs[..|cs| - 1] + [c]
  }

  /**
   What meeting any directive at `start` does to the last conditional: its text ends, and text after a nested
   group is kept.
   */
  function Met(buffer: string, cs: seq<Conditional>, childEnding: nat, start: nat): (r: seq<Conditional>)
    ensures |r| == |cs|
  {
    if cs == [] then []
    else
      var last := cs[|cs| - 1];
      var closed := if last.textEnd == 0 then last.(textEnd := start) else last;
      WithLast(cs,
               if childEnding > 0
               then closed.(childs := closed.childs + TextBlocks(Substr(buffer, childEnding, start)))
               else closed)
  }

  /** The last conditional takes in a nested listing; the text before the first nested group goes in front. */
  function Nested(buffer: string, base: Conditional, listing: seq<Conditional>, start: nat): Conditional
  {
    base.(childs :=
      (if base.childs == [] then TextBlocks(Substr(buffer, base.tokenEnd, start)) else []) + base.childs + listing)
  }

  function NegatedLast(cs: seq<Conditional>): Condition
    requires cs != []
  {
    -cs[|cs| - 1].kind
  }

  /** `prepare_conditions` from the token at `at` with the conditionals so far. */
  function Prepare(buffer: string, tokens: seq<Token>, at: nat, cs: seq<Conditional>, childEnding: nat): (r: Prepared)
    requires at <= |tokens|
    ensures r.Listing? ==> at <= r.stop <= |tokens|
    decreases |tokens| - at, if cs == [] then 0 else 1
  {
    if at == |tokens| then Listing(cs, at)
    else
      var t := tokens[at];
      var met := Met(buffer, cs, childEnding, t.start);
      match t.controller
      case EndIf => Listing(met, at)
      case StartIf =>
        if cs == [] then Prepare(buffer, tokens, at + 1, [Opened(t)], 0)
        else
          var inner := Prepare(buffer, tokens, at, [], 0);
          if inner.Failed? then inner
          else
            var cs' := WithLast(met, Nested(buffer, met[|met| - 1], inner.conditions, t.start));
            if inner.stop == |tokens| then Listing(cs', |tokens|)
            else Prepare(buffer, tokens, inner.stop + 1, cs', tokens[inner.stop].end)
      case ElseCase =>
        if cs == [] then Failed(ConditionNotOpened)
        else Prepare(buffer, tokens, at + 1, met + [Opened(t).(kind := NegatedLast(met))], 0)
      case ElseIf =>
        if cs == [] then Failed(ConditionNotOpened)
        else Prepare(buffer, tokens, at + 1, met + [Opened(t)], 0)
  }

  /** `prepare_conditions` as it runs: one loop over the tokens, one call for each nested group. */
  method PrepareConditions(buffer: string, tokens: seq<Token>, start: nat) returns (r: Prepared)
    requires start < |tokens|
    ensures r == Prepare(buffer, tokens, start, [], 0)
    decreases |tokens| - start
  {
    hide Met, Nested, Opened, Substr, WithLast, NegatedLast;
    var conditions: seq<Conditional> := [];
    var childEnding := 0;
    var at := start;
    while at < |tokens|
      invariant start <= at <= |tokens| && (conditions == [] ==> at == start && childEnding == 0)
      invariant conditions != [] ==> start < at
      invariant Prepare(buffer, tokens, at, conditions, childEnding) == Prepare(buffer, tokens, start, [], 0)
    {
      var next := tokens[at];
      var met := MeetDirective(buffer, conditions, childEnding, next.start);
      match next.controller
      case EndIf =>
        return Listing(met, at);
      case StartIf =>
        if conditions == [] {
          conditions, childEnding, at := [Opened(next)], 0, at + 1;
        } else {
          var inner := PrepareConditions(buffer, tokens, at);
          if inner.Failed? {
            return inner;
          }
          conditions := AdoptListing(buffer, met, inner.conditions, next.start);
          if inner.stop == |tokens| {
            return Listing(conditions, |tokens|);
          }
          childEnding, at := tokens[inner.stop].end, inner.stop + 1;
        }
      case ElseCase =>
        if conditions == [] {
          return Failed(ConditionNotOpened);
        }
        conditions, childEnding, at := met + [Opened(next).(kind := NegatedLast(met))], 0, at + 1;
      case ElseIf =>
        if conditions == [] {
          return Failed(ConditionNotOpened);
        }
        conditions, childEnding, at := met + [Opened(next)], 0, at + 1;
    }
    return Listing(conditions, at);
  }

  method MeetDirective(
    buffer: string, conditions: seq<Conditional>, childEnding: nat, start: nat)
    returns (met: seq<Conditional>)
    ensures met == Met(buffer, conditions, childEnding, start)
  {
    met := conditions;
    if met != [] {
      var last := met[|met| - 1];
      if last.textEnd == 0 {
        last := last.(textEnd := start);
      }
      if childEnding > 0 {
        var text := Substr(buffer, childEnding, start);
        assert last.childs + [] == last.childs;
        if text != "" {
          last := last.(childs := last.childs + [TextBlock(text)]);
        }
      }
      met := met[..|met| - 1] + [last];
    }
  }

  method AdoptListing(buffer: string, conditions: seq<Conditional>, listing: seq<Conditional>, start: nat)
    returns (r: seq<Conditional>)
    requires conditions != []
    ensures r == WithLast(conditions, Nested(buffer, conditions[|conditions| - 1], listing, start)) && r != []
  {
    var base := conditions[|conditions| - 1];
    var childs := base.childs + listing;
    if base.childs == [] {
      var text := Substr(buffer, base.tokenEnd, start);
      if text != "" {
        childs := [TextBlock(text)] + childs;
      }
    }
    var before := if base.childs == [] then TextBlocks(Substr(buffer, base.tokenEnd, start)) else [];
    assert childs == before + base.childs + listing;
    r := conditions[..|conditions| - 1] + [base.(childs := childs)];
  }

  // ---------------------------------------------------------------------
  // Evaluation
  // ---------------------------------------------------------------------

  /** `switch_case`: 1 to take the conditional, 0 to leave it, -1 for a piece of text. */
  function SwitchCase(truth: Truth, c: Conditional): int
  {
    if c.expression == "" then 1
    else if c.kind == TEXT then -1
    else if truth(c.kind, c.expression) then 1
    else 0
  }

  function SkipChained(cs: seq<Conditional>): (r: seq<Conditional>)
    ensures |r| <= |cs| && r == cs[|cs| - |r|..]
    decreases |cs|
  {
    if cs != [] && cs[0].chaining then SkipChained(cs[1..]) else cs
  }

  function Evaluate(truth: Truth, buffer: string, cs: seq<Conditional>): string
    decreases cs
  {
    if cs == [] then ""
    else
      var c := cs[0];
      var condition := SwitchCase(truth, c);
      if condition == 1 then
        (if c.childs == [] then Substr(buffer, c.textStart, c.textEnd) else Evaluate(truth, buffer, c.childs))
        + Evaluate(truth, buffer, SkipChained(cs[1..]))
      else
        (if condition == -1 then c.expression else "") + Evaluate(truth, buffer, cs[1..])
  }

  /** What a taken conditional emits. */
  function Chosen(truth: Truth, buffer: string, c: Conditional): string
  {
    if c.childs == [] then Substr(buffer, c.textStart, c.textEnd) else Evaluate(truth, buffer, c.childs)
  }

  lemma {:induction false} EvaluateStep(truth: Truth, buffer: string, cs: seq<Conditional>, i: nat)
    requires i < |cs|
    ensures SwitchCase(truth, cs[i]) == 1 ==>
              Evaluate(truth, buffer, cs[i..])
                == Chosen(truth, buffer, cs[i]) + Evaluate(truth, buffer, SkipChained(cs[i + 1..]))
    ensures SwitchCase(truth, cs[i]) != 1 ==>
              Evaluate(truth, buffer, cs[i..])
              == (if SwitchCase(truth, cs[i]) == -1 then cs[i].expression
                else "") + Evaluate(truth, buffer, cs[i + 1..])
  {
    hide SwitchCase, SkipChained;
    assert cs[i..][1..] == cs[i + 1..];
  }

  /** `evaluate` as it runs: one pass over a listing, one call for each taken conditional with children. */
  method EvaluateListing(truth: Truth, buffer: string, cs: seq<Conditional>) returns (result: string)
    ensures result == Evaluate(truth, buffer, cs)
    decreases cs
  {
    hide Evaluate, SwitchCase, Substr, SkipChained;
    result := "";
    var i := 0;
    assert cs[0..] == cs;
    while i < |cs|
      invariant 0 <= i <= |cs|
      invariant result + Evaluate(truth, buffer, cs[i..]) == Evaluate(truth, buffer, cs)
    {
      var next := cs[i];
      var condition := SwitchCase(truth, next);
      EvaluateStep(truth, buffer, cs, i);
      if condition == 1 {
        var inner;
        if next.childs == [] {
          inner := Substr(buffer, next.textStart, next.textEnd);
        } else {
          inner := EvaluateListing(truth, buffer, next.childs);
        }
        assert inner == Chosen(truth, buffer, next);
        ghost var rest := Evaluate(truth, buffer, SkipChained(cs[i + 1..]));
        assert result + (inner + rest) == (result + inner) + rest;
        result := result + inner;
        i := PastChained(cs, i);
      } else {
        ghost var rest := Evaluate(truth, buffer, cs[i + 1..]);
        var text := if condition == -1 then next.expression else "";
        assert result + (text + rest) == (result + text) + rest;
        result := result + text;
        i := i + 1;
      }
    }
    assert cs[i..] == [] && result + "" == result;
    NothingEvaluated(truth, buffer);
  }

  lemma {:induction false} NothingEvaluated(truth: Truth, buffer: string)
    ensures Evaluate(truth, buffer, []) == ""
  {
  }

  /** The conditionals chained to the one at `i` are passed over. */
  method PastChained(cs: seq<Conditional>, i: nat) returns (k: nat)
    requires i < |cs|
    ensures i < k <= |cs| && cs[k..] == SkipChained(cs[i + 1..])
  {
    hide SkipChained;
    k := i + 1;
    while k < |cs| && cs[k].chaining
      invariant i < k <= |cs|
      invariant SkipChained(cs[k..]) == SkipChained(cs[i + 1..])
    {
      SkipStep(cs, k);
      k := k + 1;
    }
    SkipStep(cs, k);
  }

  lemma {:induction false} SkipStep(cs: seq<Conditional>, k: nat)
    requires k <= |cs|
    ensures SkipChained(cs[k..]) == if k < |cs| && cs[k].chaining then SkipChained(cs[k + 1..]) else cs[k..]
  {
    if k < |cs| {
      assert cs[k..][1..] == cs[k + 1..];
    }
  }
}
