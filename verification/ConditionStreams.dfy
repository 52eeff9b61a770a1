/**
 * Directive streams by counting: where a group closes, that every closed group of a stream is
 * some tree, and so what elaborating it emits; and what happens to a group that is never closed.
 */
module ConditionStreams {
  import opened Conditions
  import opened ConditionTrees

  /** The first index from `at` where counting openings up and closings down from `depth` comes to zero. */
  function Close(tokens: seq<Token>, at: nat, depth: nat): (r: nat)
    requires at <= |tokens|
    ensures at <= r <= |tokens|
    decreases |tokens| - at
  {
    if at == |tokens| then at
    else match tokens[at].controller
      case StartIf => Close(tokens, at + 1, depth + 1)
      case EndIf => if depth <= 1 then at else Close(tokens, at + 1, depth - 1)
      case _ => Close(tokens, at + 1, depth)
  }

  /** Directives as the scanner finds them: in order, each on its own piece of the buffer. */
  ghost predicate Scanned(buffer: string, tokens: seq<Token>)
  {
    (forall i :: 0 <= i < |tokens| ==> tokens[i].start < tokens[i].end <= |buffer| && tokens[i].kind != TEXT)
    && (forall i :: 0 <= i < |tokens| && tokens[i].controller == EndIf ==> tokens[i].kind == -1)
    && (forall i :: 0 < i < |tokens| ==> tokens[i - 1].end <= tokens[i].start)
  }

  /** Closing d of d + e open groups and then the other e. */
  lemma {:induction false} CloseSum(tokens: seq<Token>, at: nat, d: nat, e: nat)
    requires at <= |tokens| && d > 0 && e > 0
    ensures var m := Close(tokens, at, d);
            Close(tokens, at, d + e) == if m == |tokens| then m else Close(tokens, m + 1, e)
    decreases |tokens| - at
  {
    if at < |tokens| {
      match tokens[at].controller
      case StartIf => CloseSum(tokens, at + 1, d + 1, e);
      case EndIf => if d > 1 { CloseSum(tokens, at + 1, d - 1, e); }
      case _ => CloseSum(tokens, at + 1, d, e);
    }
  }

  // ---------------------------------------------------------------------
  // Where preparation stops
  // ---------------------------------------------------------------------

  /**
   * Preparation that starts at an opening directive never fails: it stops where counting says the group closes,
   * and at the end of the stream if nothing closes it.
   */
  lemma {:induction false} StopsWhereClosed(buffer: string, tokens: seq<Token>, at: nat)
    requires at < |tokens| && tokens[at].controller == StartIf
    ensures var r := Prepare(buffer, tokens, at, [], 0);
            r.Listing? && r.stop == Close(tokens, at, 0)
    decreases |tokens| - at, 0
  {
    OpeningPrepared(buffer, tokens, at);
    InsideStops(buffer, tokens, at + 1, [Opened(tokens[at])], 0);
  }

  lemma {:induction false} InsideStops(
    buffer: string, tokens: seq<Token>, at: nat, cs: seq<Conditional>, childEnding: nat)
    requires at <= |tokens| && cs != []
    ensures var r := Prepare(buffer, tokens, at, cs, childEnding);
            r.Listing? && r.stop == Close(tokens, at, 1)
    decreases |tokens| - at, 1
  {
    hide Met, Nested, WithLast, Opened, Substr, NegatedLast;
    if at < |tokens| {
      var t := tokens[at];
      var met := Met(buffer, cs, childEnding, t.start);
      match t.controller
      case EndIf =>
      case ElseIf =>
        NextPrepared(buffer, tokens, at, cs, childEnding);
        InsideStops(buffer, tokens, at + 1, met + [Opened(t)], 0);
      case ElseCase =>
        NextPrepared(buffer, tokens, at, cs, childEnding);
        InsideStops(buffer, tokens, at + 1, met + [Opened(t).(kind := NegatedLast(met))], 0);
      case StartIf =>
        StopsWhereClosed(buffer, tokens, at);
        CloseSum(tokens, at + 1, 1, 1);
        var inner := Prepare(buffer, tokens, at, [], 0);
        if inner.stop < |tokens| {
          NestedPrepared(buffer, tokens, at, cs, childEnding, inner);
          var cs' := WithLast(met, Nested(buffer, met[|met| - 1], inner.conditions, t.start));
          LastKept(met, Nested(buffer, met[|met| - 1], inner.conditions, t.start));
          InsideStops(buffer, tokens, inner.stop + 1, cs', tokens[inner.stop].end);
        }
    }
  }

  lemma {:induction false} LastKept(cs: seq<Conditional>, c: Conditional)
    requires cs != []
    ensures WithLast(cs, c) != []
  {
  }

  /** The only failures: a stream that starts with an `elif` or an `else`. A missing `endif` is not noticed. */
  lemma {:induction false} FailsExactlyWhen(buffer: string, tokens: seq<Token>, at: nat)
    requires at < |tokens|
    ensures Prepare(buffer, tokens, at, [], 0).Failed? <==>
            tokens[at].controller == ElseIf || tokens[at].controller == ElseCase
  {
    if tokens[at].controller == StartIf {
      StopsWhereClosed(buffer, tokens, at);
    }
  }

  // ---------------------------------------------------------------------
  // Every closed group is a tree
  // ---------------------------------------------------------------------

  /** What a tree says about the tokens from `at` up to `to` and the buffer from `pos` up to `end`. */
  ghost predicate ReadsBody(buffer: string, tokens: seq<Token>, at: nat, to: nat, b: Body, pos: nat, end: nat)
  {
    at <= to <= |tokens| && pos <= end <= |buffer|
    && GoodBody(b) && Tokens(b, pos) == tokens[at..to] && Show(b) == buffer[pos..end]
  }

  ghost predicate ReadsChain(buffer: string, tokens: seq<Token>, at: nat, to: nat, c: Chain, pos: nat, end: nat)
  {
    at <= to <= |tokens| && pos <= end <= |buffer|
    && ChainTokens(c, pos) == tokens[at..to] && ShowChain(c) == buffer[pos..end]
  }

  lemma {:induction false} ScannedAt(buffer: string, tokens: seq<Token>, i: nat)
    requires Scanned(buffer, tokens) && i < |tokens|
    ensures tokens[i].start < tokens[i].end <= |buffer| && tokens[i].kind != TEXT
    ensures tokens[i].controller == EndIf ==> tokens[i].kind == -1
    ensures i > 0 ==> tokens[i - 1].end <= tokens[i].start
  {
  }

  lemma {:induction false} JoinBranch(
    buffer: string, tokens: seq<Token>, at: nat, b: Body, next: nat, tail: Chain, to: nat)
    returns (c: Chain)
    requires at < next < to <= |tokens| && tokens[at].controller != EndIf
    requires tokens[at].start < tokens[at].end && 0 < to && tokens[at].end <= tokens[next].start
    requires ReadsBody(buffer, tokens, at + 1, next, b, tokens[at].end, tokens[next].start)
    requires ReadsChain(buffer, tokens, next, to, tail, tokens[next].start, tokens[to - 1].end)
    ensures c.Branch? && c.controller == tokens[at].controller && c.kind == tokens[at].kind && c.line != ""
    ensures c.body == b && c.next == tail
    ensures ReadsChain(buffer, tokens, at, to, c, tokens[at].start, tokens[to - 1].end)
  {
    var t := tokens[at];
    var line := buffer[t.start..t.end];
    c := Branch(line, t.controller, t.kind, t.value, b, tail);
    assert HeadToken(c, t.start) == t;
    assert tokens[at..to] == [t] + (tokens[at + 1..next] + tokens[next..to]);
    var p, q := tokens[next].start, tokens[to - 1].end;
    assert buffer[t.start..q] == line + (buffer[t.end..p] + buffer[p..q]);
  }

  lemma {:induction false} JoinGroup(
    buffer: string, tokens: seq<Token>, at: nat, c: Chain, mid: nat, rest: Body, to: nat, pos: nat, end: nat)
    returns (b: Body)
    requires at < mid <= to <= |tokens| && pos <= tokens[at].start && WholeChain(c)
    requires ReadsChain(buffer, tokens, at, mid, c, tokens[at].start, tokens[mid - 1].end)
    requires ReadsBody(buffer, tokens, mid, to, rest, tokens[mid - 1].end, end)
    ensures ReadsBody(buffer, tokens, at, to, b, pos, end)
  {
    var p, q := tokens[at].start, tokens[mid - 1].end;
    b := Group(buffer[pos..p], c, rest);
    assert tokens[at..to] == tokens[at..mid] + tokens[mid..to];
    assert buffer[pos..end] == buffer[pos..p] + (buffer[p..q] + buffer[q..end]);
  }

  lemma {:induction false} ReadBody(
    buffer: string, tokens: seq<Token>, at: nat, pos: nat, stop: nat)
    returns (b: Body, next: nat)
    requires Scanned(buffer, tokens) && at < |tokens| && pos <= tokens[at].start
    requires Close(tokens, at, 1) == stop < |tokens|
    ensures at <= next <= stop && tokens[next].controller != StartIf && Close(tokens, next, 1) == stop
    ensures ReadsBody(buffer, tokens, at, next, b, pos, tokens[next].start)
    decreases |tokens| - at, 1
  {
    hide Scanned, ReadsChain, WholeChain;
    ScannedAt(buffer, tokens, at);
    if tokens[at].controller != StartIf {
      b, next := Plain(buffer[pos..tokens[at].start]), at;
    } else {
      hide ReadsBody;
      CloseSum(tokens, at + 1, 1, 1);
      var m := Close(tokens, at, 0);
      var c := ReadGroup(buffer, tokens, at, m);
      ScannedAt(buffer, tokens, m + 1);
      var rest;
      rest, next := ReadBody(buffer, tokens, m + 1, tokens[m].end, stop);
      b := JoinGroup(buffer, tokens, at, c, m + 1, rest, next, pos, tokens[next].start);
    }
  }

  lemma {:induction false} ReadEnd(buffer: string, tokens: seq<Token>, at: nat) returns (c: Chain)
    requires Scanned(buffer, tokens) && at < |tokens| && tokens[at].controller == EndIf
    ensures GoodTail(c) && ReadsChain(buffer, tokens, at, at + 1, c, tokens[at].start, tokens[at].end)
  {
    var t := tokens[at];
    c := End(buffer[t.start..t.end], t.value);
    assert tokens[at..at + 1] == [t];
  }

  lemma {:induction false} ReadTail(buffer: string, tokens: seq<Token>, at: nat, stop: nat) returns (c: Chain)
    requires Scanned(buffer, tokens) && at < |tokens| && tokens[at].controller != StartIf
    requires Close(tokens, at, 1) == stop < |tokens|
    ensures GoodTail(c) && ReadsChain(buffer, tokens, at, stop + 1, c, tokens[at].start, tokens[stop].end)
    decreases |tokens| - at, 0
  {
    hide Scanned, ReadsChain, ReadsBody, GoodBody;
    var t := tokens[at];
    if t.controller == EndIf {
      c := ReadEnd(buffer, tokens, at);
    } else {
      ScannedAt(buffer, tokens, at);
      ScannedAt(buffer, tokens, at + 1);
      var b, next := ReadBody(buffer, tokens, at + 1, t.end, stop);
      var tail := ReadTail(buffer, tokens, next, stop);
      BodyGood(buffer, tokens, at + 1, next, b, t.end, tokens[next].start);
      c := JoinBranch(buffer, tokens, at, b, next, tail, stop + 1);
    }
  }

  lemma {:induction false} BodyGood(buffer: string, tokens: seq<Token>, at: nat, to: nat, b: Body, pos: nat, end: nat)
    requires ReadsBody(buffer, tokens, at, to, b, pos, end)
    ensures GoodBody(b) && pos <= end
  {
  }

  /** The tree of the group that opens at `at` and closes at `stop`. */
  lemma {:induction false} ReadGroup(buffer: string, tokens: seq<Token>, at: nat, stop: nat) returns (c: Chain)
    requires Scanned(buffer, tokens) && at < |tokens| && tokens[at].controller == StartIf
    requires Close(tokens, at, 0) == stop < |tokens|
    ensures WholeChain(c) && ReadsChain(buffer, tokens, at, stop + 1, c, tokens[at].start, tokens[stop].end)
    decreases |tokens| - at, 0
  {
    hide Scanned, ReadsChain, ReadsBody;
    ScannedAt(buffer, tokens, at);
    ScannedAt(buffer, tokens, at + 1);
    var b, next := ReadBody(buffer, tokens, at + 1, tokens[at].end, stop);
    var tail := ReadTail(buffer, tokens, next, stop);
    BodyGood(buffer, tokens, at + 1, next, b, tokens[at].end, tokens[next].start);
    c := JoinBranch(buffer, tokens, at, b, next, tail, stop + 1);
  }

  /**
   * Every closed group of a directive stream, at any depth of nesting: it is the text and stream of a tree,
   * and preparing and evaluating it emits what the direct semantics of that tree selects.
   */
  lemma {:induction false} StreamElaborated(truth: Truth, buffer: string, tokens: seq<Token>, at: nat)
    returns (c: Chain)
    requires Scanned(buffer, tokens) && at < |tokens| && tokens[at].controller == StartIf
    requires Close(tokens, at, 0) < |tokens|
    ensures var stop := Close(tokens, at, 0);
            WholeChain(c) && ReadsChain(buffer, tokens, at, stop + 1, c, tokens[at].start, tokens[stop].end)
            && var r := Prepare(buffer, tokens, at, [], 0);
               r.Listing? && r.stop == stop && Evaluate(truth, buffer, r.conditions) == SelectedBranch(truth, c, TEXT)
  {
    hide Prepare, Evaluate, Scanned, WholeChain;
    var stop := Close(tokens, at, 0);
    c := ReadGroup(buffer, tokens, at, stop);
    Elaborated(truth, buffer, tokens, at, c, tokens[at].start);
  }
}
