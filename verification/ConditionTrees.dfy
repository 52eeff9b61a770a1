/**
 * What nested conditional directives mean: a tree of chains, a direct semantics that picks the first
 * branch that holds, and the proof that preparing and evaluating the directive stream emits that text.
 */
module ConditionTrees {
  import opened Words
  import opened Conditions

  /** Text with groups of branches in it. */
  datatype Body = Plain(text: string) | Group(text: string, chain: Chain, rest: Body)

  /** The branches of one group, each opened by a directive line, and the line that closes it. */
  datatype Chain =
    | End(line: string, value: string)
    | Branch(line: string, controller: Controller, kind: Condition, expression: string, body: Body, next: Chain)

  // ---------------------------------------------------------------------
  // The text and the directive stream of a tree
  // ---------------------------------------------------------------------

  function Show(b: Body): string
  {
    match b
    case Plain(text) => text
    case Group(text, chain, rest) => text + (ShowChain(chain) + Show(rest))
  }

  function ShowChain(c: Chain): string
  {
    match c
    case End(line, _) => line
    case Branch(line, _, _, _, body, next) => line + (Show(body) + ShowChain(next))
  }

  function Tokens(b: Body, pos: nat): seq<Token>
  {
    match b
    case Plain(_) => []
    case Group(text, chain, rest) =>
      ChainTokens(chain, pos + |text|) + Tokens(rest, pos + |text| + |ShowChain(chain)|)
  }

  function ChainTokens(c: Chain, pos: nat): (r: seq<Token>)
    ensures r != [] && r[0] == HeadToken(c, pos)
    ensures r[|r| - 1].end == pos + |ShowChain(c)| && r[|r| - 1].controller == EndIf
  {
    match c
    case End(line, value) => [HeadToken(c, pos)]
    case Branch(line, controller, kind, expression, body, next) =>
      [HeadToken(c, pos)] + (Tokens(body, pos + |line|) + ChainTokens(next, pos + |line| + |Show(body)|))
  }

  function HeadToken(c: Chain, pos: nat): Token
  {
    match c
    case End(line, value) => Token(EndIf, -1, value, pos, pos + |line|)
    case Branch(line, controller, kind, expression, _, _) => Token(controller, kind, expression, pos, pos + |line|)
  }

  /** A group opens with an `if` of some kind and goes on with `elif`s and `else`s in any order, of any truth. */
  predicate WholeChain(c: Chain)
  {
    c.Branch? && c.controller == StartIf && c.line != "" && c.kind != TEXT && GoodBody(c.body) && GoodTail(c.next)
  }

  predicate GoodTail(c: Chain)
  {
    c.line != ""
    && (c.Branch? ==>
          (c.controller == ElseIf || c.controller == ElseCase) && c.kind != TEXT && GoodBody(c.body)
            && GoodTail(c.next))
  }

  predicate GoodBody(b: Body)
  {
    b.Group? ==> WholeChain(b.chain) && GoodBody(b.rest)
  }

  // ---------------------------------------------------------------------
  // Meaning
  // ---------------------------------------------------------------------

  /** The condition a branch tests: an `else` negates the branch before it. */
  function KindOf(c: Chain, previous: Condition): Condition
    requires c.Branch?
  {
    if c.controller == ElseCase then -previous else c.kind
  }

  function Selected(truth: Truth, b: Body): string
  {
    match b
    case Plain(text) => text
    case Group(text, chain, rest) => text + (SelectedBranch(truth, chain, TEXT) + Selected(truth, rest))
  }

  /** The first branch with an empty expression or one that holds; nothing if there is none. */
  function SelectedBranch(truth: Truth, c: Chain, previous: Condition): string
  {
    if c.End? then ""
    else if c.expression == "" || truth(KindOf(c, previous), c.expression) then Selected(truth, c.body)
    else SelectedBranch(truth, c.next, KindOf(c, previous))
  }

  // ---------------------------------------------------------------------
  // The listing that a tree is prepared into
  // ---------------------------------------------------------------------

  function Kids(ks: seq<Conditional>, b: Body, pos: nat): seq<Conditional>
    decreases b, 0
  {
    match b
    case Plain(text) => if ks == [] then [] else ks + TextBlocks(text)
    case Group(text, chain, rest) =>
      Kids(ks + TextBlocks(text) + Built(chain, pos + |text|, TEXT), rest, pos + |text| + |ShowChain(chain)|)
  }

  function Filled(c: Conditional, b: Body, pos: nat): Conditional
    decreases b, 1
  {
    c.(childs := Kids(c.childs, b, pos), textEnd := if c.textEnd == 0 then pos + |b.text| else c.textEnd)
  }

  function Head(c: Chain, pos: nat, previous: Condition): Conditional
    requires c.Branch?
  {
    Opened(HeadToken(c, pos)).(kind := KindOf(c, previous))
  }

  function Built(c: Chain, pos: nat, previous: Condition): (r: seq<Conditional>)
    ensures c.Branch? ==> r != [] && r[0].chaining == (c.controller != StartIf)
    decreases c
  {
    if c.End? then []
    else
      [Filled(Head(c, pos, previous), c.body, pos + |c.line|)]
      + Built(c.next, pos + |c.line| + |Show(c.body)|, KindOf(c, previous))
  }

  // ---------------------------------------------------------------------
  // Where the parts of a tree stand
  // ---------------------------------------------------------------------

  lemma {:induction false} BuiltStep(c: Chain, pos: nat, previous: Condition)
    requires c.Branch?
    ensures var rest := Built(c.next, pos + |c.line| + |Show(c.body)|, KindOf(c, previous));
            Built(c, pos, previous) == [Filled(Head(c, pos, previous), c.body, pos + |c.line|)] + rest
            && Built(c, pos, previous)[1..] == rest
  {
  }

  lemma {:induction false} ShownAt(buffer: string, c: Chain, pos: nat)
    requires c.Branch? && At(buffer, pos, ShowChain(c))
    ensures At(buffer, pos + |c.line|, Show(c.body)) && At(buffer, pos + |c.line| + |Show(c.body)|, ShowChain(c.next))
  {
    hide At;
    AtSplit(buffer, pos, c.line, Show(c.body) + ShowChain(c.next));
    AtSplit(buffer, pos + |c.line|, Show(c.body), ShowChain(c.next));
  }

  lemma {:induction false} BodyShownAt(buffer: string, b: Body, pos: nat)
    requires b.Group? && At(buffer, pos, Show(b))
    ensures var p1, p2 := pos + |b.text|, pos + |b.text| + |ShowChain(b.chain)|;
            At(buffer, pos, b.text) && At(buffer, p1, ShowChain(b.chain)) && At(buffer, p2, Show(b.rest))
            && |Show(b)| == |b.text| + |ShowChain(b.chain)| + |Show(b.rest)|
  {
    hide At;
    AtSplit(buffer, pos, b.text, ShowChain(b.chain) + Show(b.rest));
    AtSplit(buffer, pos + |b.text|, ShowChain(b.chain), Show(b.rest));
  }

  lemma {:induction false} PlainShown(text: string, pos: nat)
    ensures Show(Plain(text)) == text && Tokens(Plain(text), pos) == []
  {
  }

  lemma {:induction false} BodyTokensAt(tokens: seq<Token>, at: nat, b: Body, pos: nat)
    requires b.Group? && At(tokens, at, Tokens(b, pos))
    ensures var p1, p2 := pos + |b.text|, pos + |b.text| + |ShowChain(b.chain)|;
            At(tokens, at, ChainTokens(b.chain, p1)) && At(tokens, at + |ChainTokens(b.chain, p1)|, Tokens(b.rest, p2))
            && |Tokens(b, pos)| == |ChainTokens(b.chain, p1)| + |Tokens(b.rest, p2)|
  {
    hide At;
    var p1, p2 := pos + |b.text|, pos + |b.text| + |ShowChain(b.chain)|;
    AtSplit(tokens, at, ChainTokens(b.chain, p1), Tokens(b.rest, p2));
  }

  lemma {:induction false} TokensAt(tokens: seq<Token>, at: nat, c: Chain, pos: nat)
    requires c.Branch? && At(tokens, at, ChainTokens(c, pos))
    ensures var ts := Tokens(c.body, pos + |c.line|);
            var rest := ChainTokens(c.next, pos + |c.line| + |Show(c.body)|);
            At(tokens, at + 1, ts) && At(tokens, at + 1 + |ts|, rest) && |ChainTokens(c, pos)| == 1 + |ts| + |rest|
  {
    hide At;
    var ts, rest := Tokens(c.body, pos + |c.line|), ChainTokens(c.next, pos + |c.line| + |Show(c.body)|);
    AtSplit(tokens, at, [HeadToken(c, pos)], ts + rest);
    AtSplit(tokens, at + 1, ts, rest);
  }

  // ---------------------------------------------------------------------
  // Preparing a tree's directives gives its listing
  // ---------------------------------------------------------------------

  /** The last conditional's text is pending from pos: before its first nested group, or after one. */
  ghost predicate Pending(cs: seq<Conditional>, childEnding: nat, pos: nat)
  {
    cs != [] && pos > 0
    && var c := cs[|cs| - 1];
       if c.childs == [] then childEnding == 0 && c.tokenEnd == pos && c.textEnd == 0
       else childEnding == pos && c.textEnd > 0
  }

  lemma {:induction false} MetPlain(buffer: string, cs: seq<Conditional>, childEnding: nat, text: string, pos: nat)
    requires Pending(cs, childEnding, pos) && At(buffer, pos, text)
    ensures Met(buffer, cs, childEnding, pos + |text|) == WithLast(cs, Filled(cs[|cs| - 1], Plain(text), pos))
  {
    assert Substr(buffer, pos, pos + |text|) == text;
  }

  /** A nested group and the text before it are taken in, and the text behind it is pending. */
  lemma {:induction false} TakenIn(
    buffer: string, cs: seq<Conditional>, childEnding: nat, text: string, pos: nat, listing: seq<Conditional>,
    pos': nat)
    returns (met: seq<Conditional>, cs': seq<Conditional>)
    requires Pending(cs, childEnding, pos) && At(buffer, pos, text) && listing != [] && pos' > 0
    ensures met == Met(buffer, cs, childEnding, pos + |text|) && met != []
    ensures cs' == WithLast(met, Nested(buffer, met[|met| - 1], listing, pos + |text|)) && cs' != []
            && Pending(cs', pos', pos')
    ensures var c := cs[|cs| - 1];
            cs' == WithLast(cs, c.(childs := c.childs + TextBlocks(text) + listing,
                                   textEnd := if c.textEnd == 0 then pos + |text| else c.textEnd))
  {
    var c := cs[|cs| - 1];
    met := Met(buffer, cs, childEnding, pos + |text|);
    MetPlain(buffer, cs, childEnding, text, pos);
    cs' := WithLast(met, Nested(buffer, met[|met| - 1], listing, pos + |text|));
    assert Substr(buffer, pos, pos + |text|) == text;
    assert [] + (c.childs + TextBlocks(text)) + listing == c.childs + TextBlocks(text) + listing;
    assert TextBlocks(text) + [] + listing == [] + TextBlocks(text) + listing;
  }

  /** The tokens inside a body, up to the directive that ends it. */
  lemma {:induction false} OpeningPrepared(buffer: string, tokens: seq<Token>, at: nat)
    requires at < |tokens| && tokens[at].controller == StartIf
    ensures Prepare(buffer, tokens, at, [], 0) == Prepare(buffer, tokens, at + 1, [Opened(tokens[at])], 0)
  {
  }

  lemma {:induction false} NestedPrepared(
    buffer: string, tokens: seq<Token>, at: nat, cs: seq<Conditional>, childEnding: nat, inner: Prepared)
    requires at < |tokens| && tokens[at].controller == StartIf && cs != []
    requires inner == Prepare(buffer, tokens, at, [], 0) && inner.Listing? && inner.stop < |tokens|
    ensures var met := Met(buffer, cs, childEnding, tokens[at].start);
            Prepare(buffer, tokens, at, cs, childEnding)
            == Prepare(
                 buffer, tokens, inner.stop + 1,
                 WithLast(met, Nested(buffer, met[|met| - 1], inner.conditions, tokens[at].start)),
                 tokens[inner.stop].end)
  {
    hide Met, Nested, WithLast, Opened;
  }

  lemma {:induction false} NextPrepared(
    buffer: string, tokens: seq<Token>, at: nat, cs: seq<Conditional>, childEnding: nat)
    requires at < |tokens| && tokens[at].controller != StartIf && cs != []
    ensures var t, met := tokens[at], Met(buffer, cs, childEnding, tokens[at].start);
            Prepare(buffer, tokens, at, cs, childEnding)
            == match t.controller
               case ElseIf => Prepare(buffer, tokens, at + 1, met + [Opened(t)], 0)
               case ElseCase => Prepare(buffer, tokens, at + 1, met + [Opened(t).(kind := NegatedLast(met))], 0)
               case _ => Listing(met, at)
  {
    hide Met, Nested, WithLast, Opened;
  }

  lemma {:induction false} BodyPrepared(
    buffer: string, tokens: seq<Token>, at: nat, cs: seq<Conditional>, childEnding: nat, b: Body, pos: nat)
    returns (cs': seq<Conditional>, childEnding': nat)
    requires GoodBody(b) && Pending(cs, childEnding, pos)
    requires At(buffer, pos, Show(b)) && At(tokens, at, Tokens(b, pos))
    ensures Prepare(buffer, tokens, at, cs, childEnding)
            == Prepare(buffer, tokens, at + |Tokens(b, pos)|, cs', childEnding')
    ensures cs' != []
    ensures Met(buffer, cs', childEnding', pos + |Show(b)|) == WithLast(cs, Filled(cs[|cs| - 1], b, pos))
    decreases b
  {
    hide Prepare, Met, Nested, WithLast, Substr, Opened, At, Filled, Built, Show, ShowChain, Tokens, ChainTokens;
    match b
    case Plain(text) =>
      PlainShown(text, pos);
      MetPlain(buffer, cs, childEnding, text, pos);
      cs', childEnding' := cs, childEnding;
    case Group(text, chain, rest) =>
      var p1, n := pos + |text|, |ChainTokens(chain, pos + |text|)|;
      var p2 := p1 + |ShowChain(chain)|;
      BodyShownAt(buffer, b, pos);
      BodyTokensAt(tokens, at, b, pos);
      ChainPrepared(buffer, tokens, at, chain, p1);
      AtIndex(tokens, at, ChainTokens(chain, p1), 0);
      AtIndex(tokens, at, ChainTokens(chain, p1), n - 1);
      var met, cs1 := TakenIn(buffer, cs, childEnding, text, pos, Built(chain, p1, TEXT), p2);
      NestedPrepared(buffer, tokens, at, cs, childEnding, Listing(Built(chain, p1, TEXT), at + n - 1));
      cs', childEnding' := BodyPrepared(buffer, tokens, at + n, cs1, p2, rest, p2);
      FilledMore(cs, b, pos, cs1);
  }

  /** Filling in a group and then the rest is filling in the body. */
  lemma {:induction false} FilledMore(cs: seq<Conditional>, b: Body, pos: nat, cs': seq<Conditional>)
    requires cs != [] && b.Group? && pos > 0
    requires var c := cs[|cs| - 1];
             cs' == WithLast(cs, c.(childs := c.childs + TextBlocks(b.text) + Built(b.chain, pos + |b.text|, TEXT),
                                    textEnd := if c.textEnd == 0 then pos + |b.text| else c.textEnd))
    ensures WithLast(cs', Filled(cs'[|cs'| - 1], b.rest, pos + |b.text| + |ShowChain(b.chain)|))
            == WithLast(cs, Filled(cs[|cs| - 1], b, pos))
  {
    hide Built, ShowChain, TextBlocks;
  }

  lemma {:induction false} BuiltEnd(c: Chain, pos: nat, previous: Condition)
    requires c.End?
    ensures Built(c, pos, previous) == [] && |ChainTokens(c, pos)| == 1 && ChainTokens(c, pos)[0].controller == EndIf
  {
  }

  lemma {:induction false} HeadOpened(c: Chain, pos: nat, met: seq<Conditional>, previous: Condition)
    requires GoodTail(c) && c.Branch? && met != [] && met[|met| - 1].kind == previous
    ensures Head(c, pos, previous)
            == if c.controller == ElseCase then Opened(HeadToken(c, pos)).(kind := NegatedLast(met))
              else Opened(HeadToken(c, pos))
  {
    hide GoodBody;
  }

  lemma {:induction false} MetKind(buffer: string, cs: seq<Conditional>, childEnding: nat, start: nat)
    requires cs != []
    ensures Met(buffer, cs, childEnding, start)[|cs| - 1].kind == cs[|cs| - 1].kind
  {
    hide Substr;
  }

  /** A whole group, from its opening directive to the one that closes it. */
  lemma {:induction false} ChainPrepared(buffer: string, tokens: seq<Token>, at: nat, c: Chain, pos: nat)
    requires WholeChain(c) && At(buffer, pos, ShowChain(c)) && At(tokens, at, ChainTokens(c, pos))
    ensures Prepare(buffer, tokens, at, [], 0) == Listing(Built(c, pos, TEXT), at + |ChainTokens(c, pos)| - 1)
    decreases c
  {
    var head := Head(c, pos, TEXT);
    AtIndex(tokens, at, ChainTokens(c, pos), 0);
    OpeningPrepared(buffer, tokens, at);
    BranchPrepared(buffer, tokens, at, [], head, c, pos, TEXT);
  }

  /** The rest of a group, from the directive at `at` that ends the branch before it. */
  lemma {:induction false} TailPrepared(
    buffer: string, tokens: seq<Token>, at: nat, cs: seq<Conditional>, childEnding: nat, c: Chain, pos: nat,
    previous: Condition)
    requires GoodTail(c) && At(buffer, pos, ShowChain(c)) && At(tokens, at, ChainTokens(c, pos))
    requires cs != [] && cs[|cs| - 1].kind == previous
    ensures Prepare(buffer, tokens, at, cs, childEnding)
            == Listing(Met(buffer, cs, childEnding, pos) + Built(c, pos, previous), at + |ChainTokens(c, pos)| - 1)
    decreases c
  {
    hide Prepare, Built, Met, Opened, At, ChainTokens, ShowChain, GoodBody, Head, NegatedLast, KindOf;
    var met := Met(buffer, cs, childEnding, pos);
    AtIndex(tokens, at, ChainTokens(c, pos), 0);
    NextPrepared(buffer, tokens, at, cs, childEnding);
    if c.Branch? {
      var head := Head(c, pos, previous);
      MetKind(buffer, cs, childEnding, pos);
      HeadOpened(c, pos, met, previous);
      BranchPrepared(buffer, tokens, at, met, head, c, pos, previous);
    } else {
      BuiltEnd(c, pos, previous);
      assert met + [] == met;
    }
  }

  /** One branch, opened behind `before`, and what follows it. */
  lemma {:induction false} BranchPrepared(
    buffer: string, tokens: seq<Token>, at: nat, before: seq<Conditional>, head: Conditional, c: Chain, pos: nat,
    previous: Condition)
    requires c.Branch? && c.line != "" && GoodBody(c.body) && GoodTail(c.next) && head == Head(c, pos, previous)
    requires At(buffer, pos, ShowChain(c)) && At(tokens, at, ChainTokens(c, pos))
    ensures Prepare(buffer, tokens, at + 1, before + [head], 0)
            == Listing(before + Built(c, pos, previous), at + |ChainTokens(c, pos)| - 1)
    decreases c, 0
  {
    hide Prepare, Met, Nested, Substr, Opened, At, Filled, WithLast, Kids, KindOf, Pending, HeadToken;
    hide Built, Show, ShowChain, Tokens, ChainTokens, Head, GoodBody, GoodTail;
    var p1, ts := pos + |c.line|, Tokens(c.body, pos + |c.line|);
    var p2 := p1 + |Show(c.body)|;
    ShownAt(buffer, c, pos);
    TokensAt(tokens, at, c, pos);
    HeadPending(before, c, pos, previous);
    var cs, ending := BodyPrepared(buffer, tokens, at + 1, before + [head], 0, c.body, p1);
    var filled := Filled(head, c.body, p1);
    FilledLast(buffer, before, head, c.body, p1, cs, ending, p2);
    TailPrepared(buffer, tokens, at + 1 + |ts|, cs, ending, c.next, p2, head.kind);
    BuiltStep(c, pos, previous);
    assert before + ([filled] + Built(c.next, p2, head.kind)) == (before + [filled]) + Built(c.next, p2, head.kind);
  }

  lemma {:induction false} HeadPending(before: seq<Conditional>, c: Chain, pos: nat, previous: Condition)
    requires c.Branch? && c.line != ""
    ensures Pending(before + [Head(c, pos, previous)], 0, pos + |c.line|)
            && Head(c, pos, previous).kind == KindOf(c, previous)
  {
  }

  lemma {:induction false} FilledLast(
    buffer: string, before: seq<Conditional>, head: Conditional, b: Body, pos: nat, cs: seq<Conditional>, ending: nat,
    end: nat)
    requires Met(buffer, cs, ending, end) == WithLast(before + [head], Filled(head, b, pos)) && cs != []
    ensures Met(buffer, cs, ending, end) == before + [Filled(head, b, pos)] && cs[|cs| - 1].kind == head.kind
  {
    hide Kids, Substr;
    var met := Met(buffer, cs, ending, end);
    assert met == before + [Filled(head, b, pos)];
    assert met[|met| - 1].kind == cs[|cs| - 1].kind;
  }

  // ---------------------------------------------------------------------
  // Evaluating the listing gives the meaning
  // ---------------------------------------------------------------------

  predicate Unchained(cs: seq<Conditional>)
  {
    cs == [] || !cs[0].chaining
  }

  lemma {:induction false} SkipConcat(a: seq<Conditional>, b: seq<Conditional>)
    requires Unchained(b)
    ensures SkipChained(a + b) == SkipChained(a) + b
  {
    if a == [] {
      assert a + b == b;
    } else {
      assert (a + b)[1..] == a[1..] + b;
      SkipConcat(a[1..], b);
    }
  }

  lemma {:induction false} EvaluateConcat(truth: Truth, buffer: string, a: seq<Conditional>, b: seq<Conditional>)
    requires Unchained(b)
    ensures Evaluate(truth, buffer, a + b) == Evaluate(truth, buffer, a) + Evaluate(truth, buffer, b)
    decreases |a|
  {
    hide SwitchCase, SkipChained, Substr;
    if a == [] {
      assert a + b == b;
    } else {
      assert (a + b)[1..] == a[1..] + b;
      SkipConcat(a[1..], b);
      EvaluateConcat(truth, buffer, SkipChained(a[1..]), b);
      EvaluateConcat(truth, buffer, a[1..], b);
    }
  }

  lemma {:induction false} TextEvaluated(truth: Truth, buffer: string, text: string)
    ensures Evaluate(truth, buffer, TextBlocks(text)) == text && Unchained(TextBlocks(text))
  {
    if text != "" {
      assert [TextBlock(text)][1..] == [];
    }
  }

  lemma {:induction false} SkipOne(cs: seq<Conditional>)
    ensures cs == [] ==> SkipChained(cs) == []
    ensures cs != [] && cs[0].chaining ==> SkipChained(cs) == SkipChained(cs[1..])
  {
  }

  lemma {:induction false} AllChained(c: Chain, pos: nat, previous: Condition)
    requires GoodTail(c)
    ensures SkipChained(Built(c, pos, previous)) == []
    decreases c
  {
    hide Show, Kids, KindOf, Built, Filled, Head, SkipChained, GoodBody;
    SkipOne(Built(c, pos, previous));
    if c.Branch? {
      AllChained(c.next, pos + |c.line| + |Show(c.body)|, KindOf(c, previous));
      BuiltStep(c, pos, previous);
    } else {
      BuiltEnd(c, pos, previous);
    }
  }

  lemma {:induction false} KidsEvaluated(truth: Truth, buffer: string, ks: seq<Conditional>, b: Body, pos: nat)
    requires GoodBody(b) && At(buffer, pos, Show(b))
    requires ks != [] || b.Group?
    ensures Kids(ks, b, pos) != []
    ensures Evaluate(truth, buffer, Kids(ks, b, pos)) == Evaluate(truth, buffer, ks) + Selected(truth, b)
    decreases b, 0
  {
    hide Evaluate, At, Built, Show, ShowChain;
    match b
    case Plain(text) =>
      TextEvaluated(truth, buffer, text);
      EvaluateConcat(truth, buffer, ks, TextBlocks(text));
    case Group(text, chain, rest) =>
      var p1, p2 := pos + |text|, pos + |text| + |ShowChain(chain)|;
      BodyShownAt(buffer, b, pos);
      TextEvaluated(truth, buffer, text);
      EvaluateConcat(truth, buffer, ks, TextBlocks(text));
      ChainEvaluated(truth, buffer, chain, p1, TEXT);
      EvaluateConcat(truth, buffer, ks + TextBlocks(text), Built(chain, p1, TEXT));
      KidsEvaluated(truth, buffer, ks + TextBlocks(text) + Built(chain, p1, TEXT), rest, p2);
  }

  lemma {:induction false} CaseOfBranch(truth: Truth, c: Chain, pos: nat, previous: Condition)
    requires c.Branch? && KindOf(c, previous) != TEXT
    ensures SwitchCase(truth, Filled(Head(c, pos, previous), c.body, pos + |c.line|))
            == if c.expression == "" || truth(KindOf(c, previous), c.expression) then 1 else 0
  {
    hide Kids;
  }

  lemma {:induction false} ChainEvaluated(truth: Truth, buffer: string, c: Chain, pos: nat, previous: Condition)
    requires WholeChain(c) || (GoodTail(c) && previous != TEXT)
    requires At(buffer, pos, ShowChain(c))
    ensures Evaluate(truth, buffer, Built(c, pos, previous)) == SelectedBranch(truth, c, previous)
    decreases c
  {
    hide Show, ShowChain, Kids, Built, SkipChained, GoodBody, Selected, Chosen, SwitchCase, Evaluate, At;
    if c.Branch? {
      var p1 := pos + |c.line|;
      ShownAt(buffer, c, pos);
      var kind, p2 := KindOf(c, previous), p1 + |Show(c.body)|;
      var filled := Filled(Head(c, pos, previous), c.body, p1);
      var rest := Built(c.next, p2, kind);
      BuiltStep(c, pos, previous);
      CaseOfBranch(truth, c, pos, previous);
      BodyChosen(truth, buffer, filled, c.body, p1);
      AllChained(c.next, p2, kind);
      ChainEvaluated(truth, buffer, c.next, p2, kind);
      NothingEvaluated(truth, buffer);
      HeadEvaluated(truth, buffer, filled, rest);
    } else {
      BuiltEnd(c, pos, previous);
      NothingEvaluated(truth, buffer);
    }
  }

  lemma {:induction false} HeadEvaluated(truth: Truth, buffer: string, c: Conditional, rest: seq<Conditional>)
    requires SwitchCase(truth, c) != -1 && SkipChained(rest) == []
    ensures Evaluate(truth, buffer, [c] + rest)
            == if SwitchCase(truth, c) == 1 then Chosen(truth, buffer, c) else Evaluate(truth, buffer, rest)
  {
    hide SwitchCase, Chosen, Evaluate, SkipChained;
    var cs := [c] + rest;
    assert cs[0..] == cs && cs[1..] == rest;
    EvaluateStep(truth, buffer, cs, 0);
    NothingEvaluated(truth, buffer);
    assert forall t: string :: "" + t == t && t + "" == t;
  }

  lemma {:induction false} BodyChosen(truth: Truth, buffer: string, c: Conditional, b: Body, pos: nat)
    requires GoodBody(b) && At(buffer, pos, Show(b))
    requires c.childs == Kids([], b, pos) && c.textStart == pos && c.textEnd == pos + |b.text|
    ensures Chosen(truth, buffer, c) == Selected(truth, b)
    decreases b, 1
  {
    if b.Group? {
      KidsEvaluated(truth, buffer, [], b, pos);
    }
  }

  /**
   * An `else` that repeats the expression of its `if` is its complement: under any truth in which a negated
   * condition holds exactly when the plain one does not, exactly one of the two bodies is selected.
   */
  lemma {:induction false} ElseIsComplement(
    truth: Truth, kind: Condition, any: Condition, e: string, a: Body, b: Body, lines: seq<string>)
    requires |lines| == 3 && e != "" && kind != TEXT && truth(-kind, e) == !truth(kind, e)
    ensures var tail := Branch(lines[1], ElseCase, any, e, b, End(lines[2], ""));
            var chain := Branch(lines[0], StartIf, kind, e, a, tail);
            SelectedBranch(truth, chain, TEXT) == if truth(kind, e) then Selected(truth, a) else Selected(truth, b)
  {
    hide Selected;
  }

  // ---------------------------------------------------------------------
  // Elaboration
  // ---------------------------------------------------------------------

  /**
   * Wherever a group of directives stands in a buffer and whatever surrounds it, preparing its directive
   * stream succeeds, stops at the directive that closes the group, and evaluating the listing
   * emits the text that the direct semantics selects.
   */
  lemma {:induction false} Elaborated(truth: Truth, buffer: string, tokens: seq<Token>, at: nat, c: Chain, pos: nat)
    requires WholeChain(c) && At(buffer, pos, ShowChain(c)) && At(tokens, at, ChainTokens(c, pos))
    ensures var r := Prepare(buffer, tokens, at, [], 0);
            r.Listing? && r.stop == at + |ChainTokens(c, pos)| - 1 && tokens[r.stop].controller == EndIf
            && Evaluate(truth, buffer, r.conditions) == SelectedBranch(truth, c, TEXT)
  {
    ChainPrepared(buffer, tokens, at, c, pos);
    ChainEvaluated(truth, buffer, c, pos, TEXT);
    AtIndex(tokens, at, ChainTokens(c, pos), |ChainTokens(c, pos)| - 1);
  }
}
