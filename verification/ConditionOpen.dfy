/**
 * Groups of directives that are never closed. Preparation takes the end of the stream for the end of every
 * group still open: the last branch reaches to the end of the buffer if nothing is nested in it, and otherwise
 * loses the text behind its last nested group.
 */
module ConditionOpen {
  import opened Words
  import opened Conditions
  import opened ConditionTrees
  import opened ConditionStreams

  /** The directive that opens a branch. */
  datatype Opening = Opening(line: string, controller: Controller, kind: Condition, expression: string)

  /** A body up to the end of the stream: all its groups closed, or one more group left open at its end. */
  datatype OpenBody = Rest(body: Body) | Inner(before: Body, chain: OpenChain)

  /** The branches of a group without a closing line. */
  datatype OpenChain =
    | Last(opening: Opening, last: OpenBody)
    | More(opening: Opening, body: Body, next: OpenChain)

  /** A branch as one of a closed group, for what only depends on its directive. */
  function AsBranch(o: Opening): (c: Chain)
    ensures c.Branch?
  {
    Branch(o.line, o.controller, o.kind, o.expression, Plain(""), End("", ""))
  }

  // ---------------------------------------------------------------------
  // The text and the directive stream
  // ---------------------------------------------------------------------

  function ShowOpen(b: OpenBody): string
  {
    match b
    case Rest(body) => Show(body)
    case Inner(before, chain) => Show(before) + ShowOpenChain(chain)
  }

  function ShowOpenChain(c: OpenChain): string
  {
    match c
    case Last(opening, last) => opening.line + ShowOpen(last)
    case More(opening, body, next) => opening.line + (Show(body) + ShowOpenChain(next))
  }

  function OpenTokens(b: OpenBody, pos: nat): seq<Token>
  {
    match b
    case Rest(body) => Tokens(body, pos)
    case Inner(before, chain) => Tokens(before, pos) + OpenChainTokens(chain, pos + |Show(before)|)
  }

  function OpenChainTokens(c: OpenChain, pos: nat): (r: seq<Token>)
    ensures r != [] && r[0] == HeadToken(AsBranch(c.opening), pos)
  {
    var p1, head := pos + |c.opening.line|, [HeadToken(AsBranch(c.opening), pos)];
    match c
    case Last(_, last) => head + OpenTokens(last, p1)
    case More(_, body, next) => head + (Tokens(body, p1) + OpenChainTokens(next, p1 + |Show(body)|))
  }

  /** The directives that open a group's first branch, and those that open a later one. */
  predicate Opens(controller: Controller, first: bool)
  {
    if first then controller == StartIf else (controller == ElseIf || controller == ElseCase)
  }

  predicate GoodOpening(o: Opening, first: bool)
  {
    o.line != "" && o.kind != TEXT && Opens(o.controller, first)
  }

  predicate GoodOpen(b: OpenBody)
  {
    match b
    case Rest(body) => GoodBody(body)
    case Inner(before, chain) => GoodBody(before) && GoodOpenChain(chain, true)
  }

  predicate GoodOpenChain(c: OpenChain, first: bool)
  {
    GoodOpening(c.opening, first)
    && match c
       case Last(_, last) => GoodOpen(last)
       case More(_, body, next) => GoodBody(body) && GoodOpenChain(next, false)
  }

  // ---------------------------------------------------------------------
  // Meaning
  // ---------------------------------------------------------------------

  /** The text behind the last group of a body. */
  function LastText(b: Body): string
  {
    if b.Plain? then b.text else LastText(b.rest)
  }

  /** A body without that text. */
  function SelectedCut(truth: Truth, b: Body): string
  {
    match b
    case Plain(_) => ""
    case Group(text, chain, rest) => text + (SelectedBranch(truth, chain, TEXT) + SelectedCut(truth, rest))
  }

  function SelectedOpen(truth: Truth, b: OpenBody): string
  {
    match b
    case Rest(body) => if body.Plain? then body.text else SelectedCut(truth, body)
    case Inner(before, chain) => Selected(truth, before) + SelectedOpenBranch(truth, chain, TEXT)
  }

  /** The first branch that holds, as in a closed group. */
  function SelectedOpenBranch(truth: Truth, c: OpenChain, previous: Condition): string
  {
    var kind := KindOf(AsBranch(c.opening), previous);
    var holds := c.opening.expression == "" || truth(kind, c.opening.expression);
    match c
    case Last(_, last) => if holds then SelectedOpen(truth, last) else ""
    case More(_, body, next) => if holds then Selected(truth, body) else SelectedOpenBranch(truth, next, kind)
  }

  // ---------------------------------------------------------------------
  // The listing
  // ---------------------------------------------------------------------

  /** One more nested listing, with the text before it. */
  function Taken(c: Conditional, text: string, pos: nat, listing: seq<Conditional>): Conditional
  {
    c.(childs := c.childs + TextBlocks(text) + listing, textEnd := if c.textEnd == 0 then pos + |text| else c.textEnd)
  }

  /** A conditional after all groups of a body, with the text behind the last one still pending. */
  function Walked(c: Conditional, b: Body, pos: nat): Conditional
    decreases b
  {
    match b
    case Plain(_) => c
    case Group(text, chain, rest) =>
      Walked(Taken(c, text, pos, Built(chain, pos + |text|, TEXT)), rest, pos + |text| + |ShowChain(chain)|)
  }

  function LastPos(b: Body, pos: nat): nat
  {
    if b.Plain? then pos else LastPos(b.rest, pos + |b.text| + |ShowChain(b.chain)|)
  }

  function OpenFilled(c: Conditional, b: OpenBody, pos: nat): Conditional
    decreases b
  {
    match b
    case Rest(body) => Walked(c, body, pos)
    case Inner(before, chain) =>
      Taken(
        Walked(c, before, pos), LastText(before), LastPos(before, pos),
        OpenBuilt(chain, pos + |Show(before)|, TEXT))
  }

  function OpenBuilt(c: OpenChain, pos: nat, previous: Condition): (r: seq<Conditional>)
    ensures r != []
    decreases c
  {
    var head, p1 := Head(AsBranch(c.opening), pos, previous), pos + |c.opening.line|;
    match c
    case Last(_, last) => [OpenFilled(head, last, p1)]
    case More(_, body, next) =>
      [Filled(head, body, p1)] + OpenBuilt(next, p1 + |Show(body)|, KindOf(AsBranch(c.opening), previous))
  }

  /** Filling in a body changes nothing but the children and the end of the text. */
  ghost predicate SameHead(c: Conditional, d: Conditional)
  {
    d == c.(childs := d.childs, textEnd := d.textEnd)
  }

  lemma {:induction false} WalkedKeeps(c: Conditional, b: Body, pos: nat)
    ensures SameHead(c, Walked(c, b, pos))
    decreases b
  {
    hide Built;
    if b.Group? {
      WalkedKeeps(
        Taken(c, b.text, pos, Built(b.chain, pos + |b.text|, TEXT)), b.rest, pos + |b.text| + |ShowChain(b.chain)|);
    }
  }

  lemma {:induction false} OpenFilledKeeps(c: Conditional, b: OpenBody, pos: nat)
    ensures SameHead(c, OpenFilled(c, b, pos))
  {
    hide Walked, OpenBuilt;
    WalkedKeeps(c, if b.Rest? then b.body else b.before, pos);
  }

  // ---------------------------------------------------------------------
  // Preparing
  // ---------------------------------------------------------------------

  lemma {:induction false} LastTextAt(buffer: string, b: Body, pos: nat)
    requires At(buffer, pos, Show(b))
    ensures At(buffer, LastPos(b, pos), LastText(b)) && LastPos(b, pos) + |LastText(b)| == pos + |Show(b)|
    ensures LastPos(b, pos) >= pos
    decreases b
  {
    hide At, ShowChain;
    if b.Group? {
      BodyShownAt(buffer, b, pos);
      LastTextAt(buffer, b.rest, pos + |b.text| + |ShowChain(b.chain)|);
    }
  }

  lemma {:induction false} WithLastTwice(cs: seq<Conditional>, c: Conditional, d: Conditional)
    requires cs != []
    ensures WithLast(cs, c) != [] && WithLast(cs, c)[|WithLast(cs, c)| - 1] == c
            && WithLast(WithLast(cs, c), d) == WithLast(cs, d)
  {
  }

  /** All groups of a body are taken in; the text behind the last one stays pending. */
  lemma {:induction false} BodyWalked(
    buffer: string, tokens: seq<Token>, at: nat, cs: seq<Conditional>, childEnding: nat, b: Body, pos: nat)
    returns (cs': seq<Conditional>, childEnding': nat)
    requires GoodBody(b) && Pending(cs, childEnding, pos)
    requires At(buffer, pos, Show(b)) && At(tokens, at, Tokens(b, pos))
    ensures at + |Tokens(b, pos)| <= |tokens|
    ensures Prepare(buffer, tokens, at, cs, childEnding)
            == Prepare(buffer, tokens, at + |Tokens(b, pos)|, cs', childEnding')
    ensures Pending(cs', childEnding', LastPos(b, pos)) && cs' == WithLast(cs, Walked(cs[|cs| - 1], b, pos))
    decreases b
  {
    hide Prepare, Met, Nested, WithLast, Substr, Opened, Built, Show, ShowChain, Tokens, ChainTokens, At, Pending;
    hide Taken;
    AtFits(tokens, at, Tokens(b, pos));
    PendingHere(cs, childEnding, pos);
    match b
    case Plain(text) =>
      PlainShown(text, pos);
      LastIsLast(cs);
      cs', childEnding' := cs, childEnding;
    case Group(text, chain, rest) =>
      var p1, n := pos + |text|, |ChainTokens(chain, pos + |text|)|;
      var p2 := p1 + |ShowChain(chain)|;
      var listing := Built(chain, p1, TEXT);
      BodyShownAt(buffer, b, pos);
      BodyTokensAt(tokens, at, b, pos);
      ChainPrepared(buffer, tokens, at, chain, p1);
      AtIndex(tokens, at, ChainTokens(chain, p1), 0);
      AtIndex(tokens, at, ChainTokens(chain, p1), n - 1);
      var met, cs1 := TakenIn(buffer, cs, childEnding, text, pos, listing, p2);
      NestedPrepared(buffer, tokens, at, cs, childEnding, Listing(listing, at + n - 1));
      var taken := Taken(cs[|cs| - 1], text, pos, listing);
      TakenIsTaken(cs, text, pos, listing);
      WithLastTwice(cs, taken, Walked(taken, rest, p2));
      cs', childEnding' := BodyWalked(buffer, tokens, at + n, cs1, p2, rest, p2);
  }

  lemma {:induction false} LastIsLast(cs: seq<Conditional>)
    ensures cs != [] ==> cs == WithLast(cs, cs[|cs| - 1])
  {
  }

  lemma {:induction false} PendingHere(cs: seq<Conditional>, childEnding: nat, pos: nat)
    requires Pending(cs, childEnding, pos)
    ensures cs != [] && pos > 0
  {
  }

  /** The text and the directives of an open tree stand at the end of the buffer and of the stream. */
  ghost predicate EndsWith(buffer: string, tokens: seq<Token>, at: nat, c: OpenChain, pos: nat)
  {
    At(buffer, pos, ShowOpenChain(c)) && pos + |ShowOpenChain(c)| == |buffer|
    && At(tokens, at, OpenChainTokens(c, pos)) && at + |OpenChainTokens(c, pos)| == |tokens|
  }

  ghost predicate EndsWithBody(buffer: string, tokens: seq<Token>, at: nat, b: OpenBody, pos: nat)
  {
    At(buffer, pos, ShowOpen(b)) && pos + |ShowOpen(b)| == |buffer|
    && At(tokens, at, OpenTokens(b, pos)) && at + |OpenTokens(b, pos)| == |tokens|
  }

  lemma {:induction false} EndsWithLast(buffer: string, tokens: seq<Token>, at: nat, c: OpenChain, pos: nat)
    requires EndsWith(buffer, tokens, at, c, pos) && c.Last?
    ensures EndsWithBody(buffer, tokens, at + 1, c.last, pos + |c.opening.line|)
  {
    hide At, ShowOpen, OpenTokens;
    AtSplit(buffer, pos, c.opening.line, ShowOpen(c.last));
    AtSplit(tokens, at, [HeadToken(AsBranch(c.opening), pos)], OpenTokens(c.last, pos + |c.opening.line|));
  }

  lemma {:induction false} EndsWithMore(buffer: string, tokens: seq<Token>, at: nat, c: OpenChain, pos: nat)
    requires EndsWith(buffer, tokens, at, c, pos) && c.More?
    ensures var p1, ts := pos + |c.opening.line|, Tokens(c.body, pos + |c.opening.line|);
            At(buffer, p1, Show(c.body)) && At(tokens, at + 1, ts) && at + 1 + |ts| <= |tokens|
            && EndsWith(buffer, tokens, at + 1 + |ts|, c.next, p1 + |Show(c.body)|)
  {
    hide At, Show, Tokens;
    var p1, ts := pos + |c.opening.line|, Tokens(c.body, pos + |c.opening.line|);
    var next := OpenChainTokens(c.next, p1 + |Show(c.body)|);
    AtSplit(buffer, pos, c.opening.line, Show(c.body) + ShowOpenChain(c.next));
    AtSplit(buffer, p1, Show(c.body), ShowOpenChain(c.next));
    AtSplit(tokens, at, [HeadToken(AsBranch(c.opening), pos)], ts + next);
    AtSplit(tokens, at + 1, ts, next);
  }

  lemma {:induction false} EndsWithInner(buffer: string, tokens: seq<Token>, at: nat, b: OpenBody, pos: nat)
    requires EndsWithBody(buffer, tokens, at, b, pos) && b.Inner?
    ensures At(buffer, pos, Show(b.before)) && At(tokens, at, Tokens(b.before, pos))
    ensures EndsWith(buffer, tokens, at + |Tokens(b.before, pos)|, b.chain, pos + |Show(b.before)|)
  {
    hide At, Show, Tokens;
    AtSplit(buffer, pos, Show(b.before), ShowOpenChain(b.chain));
    AtSplit(tokens, at, Tokens(b.before, pos), OpenChainTokens(b.chain, pos + |Show(b.before)|));
  }

  lemma {:induction false} FirstToken(buffer: string, tokens: seq<Token>, at: nat, c: OpenChain, pos: nat)
    requires EndsWith(buffer, tokens, at, c, pos)
    ensures at < |tokens| && tokens[at] == HeadToken(AsBranch(c.opening), pos)
  {
    AtIndex(tokens, at, OpenChainTokens(c, pos), 0);
  }

  lemma {:induction false} PreparedAtEnd(buffer: string, tokens: seq<Token>, cs: seq<Conditional>, childEnding: nat)
    ensures Prepare(buffer, tokens, |tokens|, cs, childEnding) == Listing(cs, |tokens|)
  {
  }

  lemma {:induction false} NestedToEnd(
    buffer: string, tokens: seq<Token>, at: nat, cs: seq<Conditional>, childEnding: nat, inner: Prepared)
    requires at < |tokens| && tokens[at].controller == StartIf && cs != []
    requires inner == Prepare(buffer, tokens, at, [], 0) && inner.Listing? && inner.stop == |tokens|
    ensures var met := Met(buffer, cs, childEnding, tokens[at].start);
            Prepare(buffer, tokens, at, cs, childEnding)
            == Listing(WithLast(met, Nested(buffer, met[|met| - 1], inner.conditions, tokens[at].start)), |tokens|)
  {
    hide Met, Nested, WithLast, Opened;
  }

  /** The last branch of an open group, opened behind `before`. */
  lemma {:induction false} OpenBodyPrepared(
    buffer: string, tokens: seq<Token>, at: nat, before: seq<Conditional>, head: Conditional, b: OpenBody, pos: nat)
    requires GoodOpen(b) && EndsWithBody(buffer, tokens, at, b, pos) && at <= |tokens|
             && Pending(before + [head], 0, pos)
    ensures Prepare(buffer, tokens, at, before + [head], 0) == Listing(before + [OpenFilled(head, b, pos)], |tokens|)
    decreases b
  {
    hide Prepare, Met, Nested, Substr, Opened, At, Show, ShowOpenChain, ShowOpen, Tokens, OpenTokens;
    hide OpenChainTokens, Walked, OpenBuilt, Pending, EndsWith, Taken;
    var cs := before + [head];
    match b
    case Rest(body) =>
      RestAt(buffer, tokens, at, b, pos);
      var cs', ending := BodyWalked(buffer, tokens, at, cs, 0, body, pos);
      PreparedAtEnd(buffer, tokens, cs', ending);
      LastReplaced(before, head, Walked(head, body, pos));
    case Inner(body, chain) =>
      EndsWithInner(buffer, tokens, at, b, pos);
      var cs', ending := BodyWalked(buffer, tokens, at, cs, 0, body, pos);
      var at', p, text := at + |Tokens(body, pos)|, pos + |Show(body)|, LastText(body);
      var listing := OpenBuilt(chain, p, TEXT);
      OpenPrepared(buffer, tokens, at', chain, p);
      FirstToken(buffer, tokens, at', chain, p);
      LastTextAt(buffer, body, pos);
      PendingHere(cs', ending, LastPos(body, pos));
      var met, cs2 := TakenIn(buffer, cs', ending, text, LastPos(body, pos), listing, p);
      NestedToEnd(buffer, tokens, at', cs', ending, Listing(listing, |tokens|));
      var walked := Walked(head, body, pos);
      WithLastTwice(cs, walked, Taken(walked, text, LastPos(body, pos), listing));
      TakenIsTaken(cs', text, LastPos(body, pos), listing);
      LastReplaced(before, head, OpenFilled(head, b, pos));
  }

  lemma {:induction false} TakenIsTaken(cs: seq<Conditional>, text: string, pos: nat, listing: seq<Conditional>)
    requires cs != []
    ensures var c := cs[|cs| - 1];
            Taken(c, text, pos, listing)
            == c.(childs := c.childs + TextBlocks(text) + listing,
                  textEnd := if c.textEnd == 0 then pos + |text| else c.textEnd)
  {
  }

  lemma {:induction false} RestAt(buffer: string, tokens: seq<Token>, at: nat, b: OpenBody, pos: nat)
    requires EndsWithBody(buffer, tokens, at, b, pos) && b.Rest?
    ensures At(buffer, pos, Show(b.body)) && At(tokens, at, Tokens(b.body, pos))
            && at + |Tokens(b.body, pos)| == |tokens|
  {
  }

  lemma {:induction false} LastReplaced(before: seq<Conditional>, head: Conditional, c: Conditional)
    ensures before + [head] != [] && (before + [head])[|before + [head]| - 1] == head
    ensures WithLast(before + [head], c) == before + [c]
  {
  }

  lemma {:induction false} OpenPrepared(buffer: string, tokens: seq<Token>, at: nat, c: OpenChain, pos: nat)
    requires GoodOpenChain(c, true) && EndsWith(buffer, tokens, at, c, pos)
    ensures Prepare(buffer, tokens, at, [], 0) == Listing(OpenBuilt(c, pos, TEXT), |tokens|)
    decreases c, 1
  {
    hide Prepare, EndsWith, OpenBuilt, GoodOpen, GoodBody;
    var head := Head(AsBranch(c.opening), pos, TEXT);
    FirstToken(buffer, tokens, at, c, pos);
    OpeningPrepared(buffer, tokens, at);
    OpenBranchPrepared(buffer, tokens, at, [], c, pos, TEXT);
    assert [] + [head] == [head] && [] + OpenBuilt(c, pos, TEXT) == OpenBuilt(c, pos, TEXT);
  }

  lemma {:induction false} OpenBranchPrepared(
    buffer: string, tokens: seq<Token>, at: nat, before: seq<Conditional>, c: OpenChain, pos: nat,
    previous: Condition)
    requires (GoodOpenChain(c, true) || GoodOpenChain(c, false)) && EndsWith(buffer, tokens, at, c, pos)
             && at < |tokens|
    ensures Prepare(buffer, tokens, at + 1, before + [Head(AsBranch(c.opening), pos, previous)], 0)
            == Listing(before + OpenBuilt(c, pos, previous), |tokens|)
    decreases c, 0
  {
    hide Prepare, Met, Nested, Substr, Opened, At, Filled, Show, ShowOpenChain, Tokens, OpenChainTokens, Walked;
    hide OpenFilled, Pending, EndsWith, EndsWithBody, Head, KindOf, GoodBody, GoodOpen, Kids, WithLast, HeadToken;
    var o := AsBranch(c.opening);
    var head, p1 := Head(o, pos, previous), pos + |c.opening.line|;
    HeadPending(before, o, pos, previous);
    match c
    case Last(_, last) =>
      EndsWithLast(buffer, tokens, at, c, pos);
      OpenBodyPrepared(buffer, tokens, at + 1, before, head, last, p1);
    case More(_, body, next) =>
      var ts, p2 := Tokens(body, p1), p1 + |Show(body)|;
      EndsWithMore(buffer, tokens, at, c, pos);
      var cs, ending := BodyPrepared(buffer, tokens, at + 1, before + [head], 0, body, p1);
      LastReplaced(before, head, Filled(head, body, p1));
      FilledLast(buffer, before, head, body, p1, cs, ending, p2);
      OpenTailPrepared(buffer, tokens, at + 1 + |ts|, cs, ending, next, p2, head.kind);
      var filled, rest := Filled(head, body, p1), OpenBuilt(next, p2, head.kind);
      assert before + ([filled] + rest) == (before + [filled]) + rest;
  }

  lemma {:induction false} OpenTailPrepared(
    buffer: string, tokens: seq<Token>, at: nat, cs: seq<Conditional>, childEnding: nat, c: OpenChain, pos: nat,
    previous: Condition)
    requires GoodOpenChain(c, false) && EndsWith(buffer, tokens, at, c, pos)
    requires at <= |tokens| && cs != [] && cs[|cs| - 1].kind == previous
    ensures Prepare(buffer, tokens, at, cs, childEnding)
            == Listing(Met(buffer, cs, childEnding, pos) + OpenBuilt(c, pos, previous), |tokens|)
    decreases c, 1
  {
    hide Prepare, Met, EndsWith, OpenBuilt, Opened, NegatedLast, KindOf, GoodOpen, GoodBody;
    var met := Met(buffer, cs, childEnding, pos);
    FirstToken(buffer, tokens, at, c, pos);
    NextPrepared(buffer, tokens, at, cs, childEnding);
    MetKind(buffer, cs, childEnding, pos);
    OpeningIsHead(c.opening, pos, met, previous);
    OpenBranchPrepared(buffer, tokens, at, met, c, pos, previous);
  }

  lemma {:induction false} OpeningIsHead(o: Opening, pos: nat, met: seq<Conditional>, previous: Condition)
    requires GoodOpening(o, false) && met != [] && met[|met| - 1].kind == previous
    ensures var c := AsBranch(o);
            Head(c, pos, previous)
            == if o.controller == ElseCase then Opened(HeadToken(c, pos)).(kind := NegatedLast(met))
              else Opened(HeadToken(c, pos))
  {
  }

  // ---------------------------------------------------------------------
  // Evaluating
  // ---------------------------------------------------------------------

  lemma {:induction false} CutAndLast(truth: Truth, b: Body)
    ensures Selected(truth, b) == SelectedCut(truth, b) + LastText(b)
    decreases b
  {
    hide SelectedBranch;
    if b.Group? {
      CutAndLast(truth, b.rest);
      var x, y := SelectedBranch(truth, b.chain, TEXT), SelectedCut(truth, b.rest);
      assert b.text + (x + (y + LastText(b.rest))) == (b.text + (x + y)) + LastText(b.rest);
    }
  }

  /** The children after a body's groups emit them, in order, without the pending text. */
  lemma {:induction false} WalkedEvaluated(truth: Truth, buffer: string, c: Conditional, b: Body, pos: nat)
    requires GoodBody(b) && At(buffer, pos, Show(b))
    ensures Evaluate(truth, buffer, Walked(c, b, pos).childs)
            == Evaluate(truth, buffer, c.childs) + SelectedCut(truth, b)
    ensures b.Group? ==> Walked(c, b, pos).childs != []
    decreases b
  {
    hide Evaluate, At, Built, Show, ShowChain, SelectedBranch, Taken;
    match b
    case Plain(_) =>
    case Group(text, chain, rest) =>
      var p1, p2 := pos + |text|, pos + |text| + |ShowChain(chain)|;
      BodyShownAt(buffer, b, pos);
      ChainEvaluated(truth, buffer, chain, p1, TEXT);
      var taken := Taken(c, text, pos, Built(chain, p1, TEXT));
      TakenEvaluated(truth, buffer, c, text, pos, Built(chain, p1, TEXT));
      WalkedEvaluated(truth, buffer, taken, rest, p2);
      ChildsGrow(taken, rest, p2);
      var x, y, z := Evaluate(truth, buffer, c.childs), SelectedBranch(truth, chain, TEXT), SelectedCut(truth, rest);
      assert x + (text + y) + z == x + (text + (y + z));
  }

  lemma {:induction false} ChildsGrow(c: Conditional, b: Body, pos: nat)
    requires c.childs != []
    ensures Walked(c, b, pos).childs != []
    decreases b
  {
    hide Built, ShowChain;
    if b.Group? {
      ChildsGrow(
        Taken(c, b.text, pos, Built(b.chain, pos + |b.text|, TEXT)), b.rest, pos + |b.text| + |ShowChain(b.chain)|);
    }
  }

  lemma {:induction false} TakenEvaluated(
    truth: Truth, buffer: string, c: Conditional, text: string, pos: nat, listing: seq<Conditional>)
    requires listing != [] && !listing[0].chaining
    ensures Evaluate(truth, buffer, Taken(c, text, pos, listing).childs)
            == Evaluate(truth, buffer, c.childs) + (text + Evaluate(truth, buffer, listing))
    ensures Taken(c, text, pos, listing).childs != []
  {
    hide Evaluate;
    TextEvaluated(truth, buffer, text);
    EvaluateConcat(truth, buffer, c.childs, TextBlocks(text));
    EvaluateConcat(truth, buffer, c.childs + TextBlocks(text), listing);
    var x, y := Evaluate(truth, buffer, c.childs), Evaluate(truth, buffer, listing);
    assert x + text + y == x + (text + y);
  }

  lemma {:induction false} OpenBodyChosen(truth: Truth, buffer: string, c: Conditional, b: OpenBody, pos: nat)
    requires GoodOpen(b) && At(buffer, pos, ShowOpen(b)) && pos + |ShowOpen(b)| == |buffer| && pos > 0
    requires c.childs == [] && c.textStart == pos && c.textEnd == 0
    ensures Chosen(truth, buffer, OpenFilled(c, b, pos)) == SelectedOpen(truth, b)
    decreases b
  {
    hide Evaluate, Walked, OpenBuilt, Show, ShowOpenChain, SelectedCut, Selected, SelectedOpenBranch, Taken;
    NothingEvaluated(truth, buffer);
    match b
    case Rest(body) =>
      WalkedEvaluated(truth, buffer, c, body, pos);
      if body.Plain? {
        RestOfBuffer(buffer, c, body, pos);
      }
    case Inner(before, chain) =>
      AtSplit(buffer, pos, Show(before), ShowOpenChain(chain));
      hide At;
      var p := pos + |Show(before)|;
      WalkedEvaluated(truth, buffer, c, before, pos);
      OpenEvaluated(truth, buffer, chain, p, TEXT);
      OpenUnchained(chain, p, TEXT);
      TakenEvaluated(
        truth, buffer, Walked(c, before, pos), LastText(before), LastPos(before, pos), OpenBuilt(chain, p, TEXT));
      CutAndLast(truth, before);
      var x, y, z := SelectedCut(truth, before), LastText(before), SelectedOpenBranch(truth, chain, TEXT);
      assert "" + x + (y + z) == (x + y) + z;
  }

  /** An unset end of text wraps to the end of the buffer. */
  lemma {:induction false} RestOfBuffer(buffer: string, c: Conditional, body: Body, pos: nat)
    requires body.Plain? && At(buffer, pos, Show(body)) && pos + |Show(body)| == |buffer| && pos > 0
    requires c.textStart == pos && c.textEnd == 0
    ensures Walked(c, body, pos) == c && Substr(buffer, c.textStart, c.textEnd) == body.text
  {
  }

  lemma {:induction false} OpenUnchained(c: OpenChain, pos: nat, previous: Condition)
    requires GoodOpenChain(c, true) || GoodOpenChain(c, false)
    ensures OpenBuilt(c, pos, previous)[0].chaining == (c.opening.controller != StartIf)
  {
    var head, p1 := Head(AsBranch(c.opening), pos, previous), pos + |c.opening.line|;
    if c.Last? {
      OpenFilledKeeps(head, c.last, p1);
    }
  }

  lemma {:induction false} OpenAllChained(c: OpenChain, pos: nat, previous: Condition)
    requires GoodOpenChain(c, false)
    ensures SkipChained(OpenBuilt(c, pos, previous)) == []
    decreases c
  {
    hide Show, KindOf, Filled, OpenFilled, Head, GoodOpen, GoodBody, SkipChained;
    OpenUnchained(c, pos, previous);
    SkipOne(OpenBuilt(c, pos, previous));
    SkipOne([]);
    if c.More? {
      OpenAllChained(c.next, pos + |c.opening.line| + |Show(c.body)|, KindOf(AsBranch(c.opening), previous));
      MoreBuilt(c, pos, previous);
    } else {
      assert OpenBuilt(c, pos, previous)[1..] == [];
    }
  }

  lemma {:induction false} MoreBuilt(c: OpenChain, pos: nat, previous: Condition)
    requires c.More?
    ensures var kind, p1 := KindOf(AsBranch(c.opening), previous), pos + |c.opening.line|;
            var rest := OpenBuilt(c.next, p1 + |Show(c.body)|, kind);
            OpenBuilt(c, pos, previous) == [Filled(Head(AsBranch(c.opening), pos, previous), c.body, p1)] + rest
            && OpenBuilt(c, pos, previous)[1..] == rest
  {
  }

  lemma {:induction false} CaseOfOpening(truth: Truth, o: Opening, pos: nat, previous: Condition, d: Conditional)
    requires KindOf(AsBranch(o), previous) != TEXT && SameHead(Head(AsBranch(o), pos, previous), d)
    ensures SwitchCase(truth, d) == if o.expression == ""
            || truth(KindOf(AsBranch(o), previous), o.expression) then 1 else 0
  {
  }

  lemma {:induction false} OpenEvaluated(truth: Truth, buffer: string, c: OpenChain, pos: nat, previous: Condition)
    requires GoodOpenChain(c, true) || (GoodOpenChain(c, false) && previous != TEXT)
    requires At(buffer, pos, ShowOpenChain(c)) && pos + |ShowOpenChain(c)| == |buffer|
    ensures Evaluate(truth, buffer, OpenBuilt(c, pos, previous)) == SelectedOpenBranch(truth, c, previous)
    decreases c
  {
    hide Evaluate, Show, ShowOpen, At, Kids, SkipChained, GoodBody, GoodOpen, Selected, SelectedOpen, Chosen;
    hide SwitchCase, OpenFilled, Substr;
    var o := AsBranch(c.opening);
    var kind, head, p1 := KindOf(o, previous), Head(o, pos, previous), pos + |c.opening.line|;
    assert kind != TEXT && head.childs == [] && head.textStart == p1 && head.textEnd == 0 && p1 > 0;
    NothingEvaluated(truth, buffer);
    match c
    case Last(_, last) =>
      AtSplit(buffer, pos, c.opening.line, ShowOpen(last));
      var filled := OpenFilled(head, last, p1);
      OpenFilledKeeps(head, last, p1);
      CaseOfOpening(truth, c.opening, pos, previous, filled);
      OpenBodyChosen(truth, buffer, head, last, p1);
      SkipOne([]);
      HeadEvaluated(truth, buffer, filled, []);
      assert [filled] + [] == [filled];
    case More(_, body, next) =>
      var p2 := p1 + |Show(body)|;
      AtSplit(buffer, pos, c.opening.line, Show(body) + ShowOpenChain(next));
      AtSplit(buffer, p1, Show(body), ShowOpenChain(next));
      var filled, rest := Filled(head, body, p1), OpenBuilt(next, p2, kind);
      CaseOfOpening(truth, c.opening, pos, previous, filled);
      BodyChosen(truth, buffer, filled, body, p1);
      OpenAllChained(next, p2, kind);
      OpenEvaluated(truth, buffer, next, p2, kind);
      HeadEvaluated(truth, buffer, filled, rest);
  }

  /**
   * An open group, wherever it starts: preparation succeeds, runs to the end of the stream, and evaluating emits
   * the first branch that holds, with what the missing directives cost it.
   */
  lemma {:induction false} OpenElaborated(
    truth: Truth, buffer: string, tokens: seq<Token>, at: nat, c: OpenChain, pos: nat)
    requires GoodOpenChain(c, true) && EndsWith(buffer, tokens, at, c, pos)
    ensures var r := Prepare(buffer, tokens, at, [], 0);
            r.Listing? && r.stop == |tokens|
              && Evaluate(truth, buffer, r.conditions) == SelectedOpenBranch(truth, c, TEXT)
  {
    hide Prepare, Evaluate, OpenBuilt;
    OpenPrepared(buffer, tokens, at, c, pos);
    OpenEvaluated(truth, buffer, c, pos, TEXT);
  }

  // ---------------------------------------------------------------------
  // Every group that is never closed is an open tree
  // ---------------------------------------------------------------------

  ghost predicate ReadsOpen(buffer: string, tokens: seq<Token>, at: nat, b: OpenBody, pos: nat)
  {
    at <= |tokens| && pos <= |buffer| && GoodOpen(b) && OpenTokens(b, pos) == tokens[at..]
      && ShowOpen(b) == buffer[pos..]
  }

  ghost predicate ReadsOpenChain(buffer: string, tokens: seq<Token>, at: nat, c: OpenChain, first: bool)
  {
    at < |tokens| && tokens[at].start <= |buffer| && GoodOpenChain(c, first)
    && OpenChainTokens(c, tokens[at].start) == tokens[at..] && ShowOpenChain(c) == buffer[tokens[at].start..]
  }

  /** A body up to the next directive of its group, or up to the end of the stream. */
  datatype Reading = Next(body: Body, next: nat) | Ended(last: OpenBody)

  /** The closed part of an open body is a body up to where the open group starts, or up to the end. */
  lemma {:induction false} ClosedPart(
    buffer: string, tokens: seq<Token>, at: nat, b: OpenBody, pos: nat)
    returns (body: Body, to: nat, end: nat)
    requires ReadsOpen(buffer, tokens, at, b, pos)
    ensures body == (if b.Rest? then b.body else b.before) && ReadsBody(buffer, tokens, at, to, body, pos, end)
    ensures b.Rest? ==> to == |tokens| && end == |buffer|
    ensures b.Inner? ==>
              OpenChainTokens(b.chain, end) == tokens[to..] && ShowOpenChain(b.chain) == buffer[end..]
              && GoodOpenChain(b.chain, true)
  {
    hide GoodBody, GoodOpenChain, Show, ShowOpenChain, Tokens, OpenChainTokens;
    match b
    case Rest(rest) =>
      body, to, end := rest, |tokens|, |buffer|;
    case Inner(before, chain) =>
      body, to, end := before, at + |Tokens(before, pos)|, pos + |Show(before)|;
      assert tokens[at..to] == tokens[at..][..to - at] && tokens[to..] == tokens[at..][to - at..];
      assert buffer[pos..end] == buffer[pos..][..end - pos] && buffer[end..] == buffer[pos..][end - pos..];
  }

  lemma {:induction false} OpenAgain(
    buffer: string, tokens: seq<Token>, at: nat, to: nat, body: Body, chain: OpenChain, pos: nat, end: nat)
    requires ReadsBody(buffer, tokens, at, to, body, pos, end)
    requires OpenChainTokens(chain, end) == tokens[to..] && ShowOpenChain(chain) == buffer[end..]
             && GoodOpenChain(chain, true)
    ensures ReadsOpen(buffer, tokens, at, Inner(body, chain), pos)
  {
    hide GoodBody, GoodOpenChain, Show, ShowOpenChain, Tokens, OpenChainTokens;
    assert tokens[at..] == tokens[at..to] + tokens[to..];
    assert buffer[pos..] == buffer[pos..end] + buffer[end..];
  }

  lemma {:induction false} PrependGroup(
    buffer: string, tokens: seq<Token>, at: nat, c: Chain, mid: nat, b: OpenBody, pos: nat)
    returns (r: OpenBody)
    requires at < mid <= |tokens| && pos <= tokens[at].start && WholeChain(c)
    requires ReadsChain(buffer, tokens, at, mid, c, tokens[at].start, tokens[mid - 1].end)
    requires ReadsOpen(buffer, tokens, mid, b, tokens[mid - 1].end)
    ensures ReadsOpen(buffer, tokens, at, r, pos)
  {
    var body, to, end := ClosedPart(buffer, tokens, mid, b, tokens[mid - 1].end);
    assert mid <= to <= |tokens|;
    var joined := JoinGroup(buffer, tokens, at, c, mid, body, to, pos, end);
    match b
    case Rest(_) =>
      r := Rest(joined);
      assert tokens[at..|tokens|] == tokens[at..] && buffer[pos..|buffer|] == buffer[pos..];
    case Inner(_, chain) =>
      r := Inner(joined, chain);
      OpenAgain(buffer, tokens, at, to, joined, chain, pos, end);
  }

  lemma {:induction false} InnerRead(buffer: string, tokens: seq<Token>, at: nat, chain: OpenChain, pos: nat)
    requires at < |tokens| && pos <= tokens[at].start && ReadsOpenChain(buffer, tokens, at, chain, true)
    ensures ReadsOpen(buffer, tokens, at, Inner(Plain(buffer[pos..tokens[at].start]), chain), pos)
  {
    hide GoodOpenChain, ShowOpenChain, OpenChainTokens;
    var p := tokens[at].start;
    assert buffer[pos..] == buffer[pos..p] + buffer[p..];
    assert [] + tokens[at..] == tokens[at..];
  }

  lemma {:induction false} ReadToEnd(buffer: string, tokens: seq<Token>, at: nat, pos: nat) returns (r: Reading)
    requires Scanned(buffer, tokens) && at <= |tokens| && pos <= |buffer| && (at < |tokens| ==> pos <= tokens[at].start)
    requires Close(tokens, at, 1) == |tokens|
    ensures r.Next? ==> at <= r.next < |tokens| && Close(tokens, r.next, 1) == |tokens|
                        && (tokens[r.next].controller == ElseIf || tokens[r.next].controller == ElseCase)
                        && ReadsBody(buffer, tokens, at, r.next, r.body, pos, tokens[r.next].start)
    ensures r.Ended? ==> ReadsOpen(buffer, tokens, at, r.last, pos)
    decreases |tokens| - at, 1
  {
    hide Scanned, WholeChain, ReadsChain, ReadsOpenChain;
    if at == |tokens| {
      r := Ended(Rest(Plain(buffer[pos..])));
    } else {
      ScannedAt(buffer, tokens, at);
      if tokens[at].controller != StartIf {
        r := Next(Plain(buffer[pos..tokens[at].start]), at);
      } else {
        hide ReadsBody, ReadsOpen;
        CloseSum(tokens, at + 1, 1, 1);
        var m := Close(tokens, at, 0);
        if m == |tokens| {
          var chain := ReadOpenBranch(buffer, tokens, at, true);
          InnerRead(buffer, tokens, at, chain, pos);
          r := Ended(Inner(Plain(buffer[pos..tokens[at].start]), chain));
        } else {
          r := ReadBehind(buffer, tokens, at, pos, m);
        }
      }
    }
  }

  /** A closed group, and what follows it. */
  lemma {:induction false} ReadBehind(
    buffer: string, tokens: seq<Token>, at: nat, pos: nat, m: nat)
    returns (r: Reading)
    requires Scanned(buffer, tokens) && at < |tokens| && pos <= tokens[at].start && tokens[at].controller == StartIf
    requires m == Close(tokens, at, 0) < |tokens| && Close(tokens, m + 1, 1) == |tokens|
    ensures r.Next? ==> at <= r.next < |tokens| && Close(tokens, r.next, 1) == |tokens|
                        && (tokens[r.next].controller == ElseIf || tokens[r.next].controller == ElseCase)
                        && ReadsBody(buffer, tokens, at, r.next, r.body, pos, tokens[r.next].start)
    ensures r.Ended? ==> ReadsOpen(buffer, tokens, at, r.last, pos)
    decreases |tokens| - at, 0
  {
    hide Scanned, WholeChain, ReadsChain, ReadsBody, ReadsOpen;
    var c := ReadGroup(buffer, tokens, at, m);
    ScannedAt(buffer, tokens, m);
    if m + 1 < |tokens| {
      ScannedAt(buffer, tokens, m + 1);
    }
    var behind := ReadToEnd(buffer, tokens, m + 1, tokens[m].end);
    match behind
    case Next(body, next) =>
      var b := JoinGroup(buffer, tokens, at, c, m + 1, body, next, pos, tokens[next].start);
      r := Next(b, next);
    case Ended(last) =>
      var b := PrependGroup(buffer, tokens, at, c, m + 1, last, pos);
      r := Ended(b);
  }

  lemma {:induction false} ReadOpenBranch(
    buffer: string, tokens: seq<Token>, at: nat, first: bool)
    returns (c: OpenChain)
    requires Scanned(buffer, tokens) && at < |tokens| && Close(tokens, at + 1, 1) == |tokens|
    requires Opens(tokens[at].controller, first)
    ensures ReadsOpenChain(buffer, tokens, at, c, first)
    decreases |tokens| - at, 0
  {
    hide Scanned, ReadsOpen, ReadsBody, ReadsOpenChain;
    ScannedAt(buffer, tokens, at);
    if at + 1 < |tokens| {
      ScannedAt(buffer, tokens, at + 1);
    }
    var r := ReadToEnd(buffer, tokens, at + 1, tokens[at].end);
    match r
    case Ended(last) =>
      c := JoinLast(buffer, tokens, at, last, first);
    case Next(body, next) =>
      var rest := ReadOpenBranch(buffer, tokens, next, false);
      c := JoinMore(buffer, tokens, at, body, next, rest, first);
  }

  lemma {:induction false} JoinLast(
    buffer: string, tokens: seq<Token>, at: nat, last: OpenBody, first: bool)
    returns (c: OpenChain)
    requires at < |tokens| && tokens[at].start < tokens[at].end <= |buffer| && tokens[at].kind != TEXT
    requires Opens(tokens[at].controller, first)
    requires ReadsOpen(buffer, tokens, at + 1, last, tokens[at].end)
    ensures ReadsOpenChain(buffer, tokens, at, c, first)
  {
    hide GoodOpen, ShowOpen, OpenTokens;
    var t := tokens[at];
    var o := Opening(buffer[t.start..t.end], t.controller, t.kind, t.value);
    c := Last(o, last);
    assert HeadToken(AsBranch(o), t.start) == t;
    assert tokens[at..] == [t] + tokens[at + 1..];
    assert buffer[t.start..] == o.line + buffer[t.end..];
  }

  lemma {:induction false} JoinMore(
    buffer: string, tokens: seq<Token>, at: nat, body: Body, next: nat, rest: OpenChain, first: bool)
    returns (c: OpenChain)
    requires at < next < |tokens| && tokens[at].start < tokens[at].end <= |buffer| && tokens[at].kind != TEXT
    requires Opens(tokens[at].controller, first)
    requires ReadsBody(buffer, tokens, at + 1, next, body, tokens[at].end, tokens[next].start)
    requires ReadsOpenChain(buffer, tokens, next, rest, false)
    ensures ReadsOpenChain(buffer, tokens, at, c, first)
  {
    hide GoodBody, Show, Tokens;
    var t, p := tokens[at], tokens[next].start;
    var o := Opening(buffer[t.start..t.end], t.controller, t.kind, t.value);
    c := More(o, body, rest);
    assert HeadToken(AsBranch(o), t.start) == t;
    assert tokens[at..] == [t] + (tokens[at + 1..next] + tokens[next..]);
    assert buffer[t.start..] == o.line + (buffer[t.end..p] + buffer[p..]);
  }

  lemma {:induction false} ReadEndsWith(buffer: string, tokens: seq<Token>, at: nat, c: OpenChain)
    requires ReadsOpenChain(buffer, tokens, at, c, true)
    ensures GoodOpenChain(c, true) && EndsWith(buffer, tokens, at, c, tokens[at].start)
  {
    hide GoodOpenChain, ShowOpenChain, OpenChainTokens;
    var p := tokens[at].start;
    assert buffer[p..p + |buffer[p..]|] == buffer[p..];
    assert tokens[at..at + |tokens[at..]|] == tokens[at..];
  }

  /**
   * Every group of a directive stream that counting says is never closed is the text and stream of an open tree,
   * and preparing and evaluating it emits the meaning of that tree; nothing is reported.
   */
  lemma {:induction false} UnclosedElaborated(
    truth: Truth, buffer: string, tokens: seq<Token>, at: nat)
    returns (c: OpenChain)
    requires Scanned(buffer, tokens) && at < |tokens| && tokens[at].controller == StartIf
    requires Close(tokens, at, 0) == |tokens|
    ensures ReadsOpenChain(buffer, tokens, at, c, true)
    ensures var r := Prepare(buffer, tokens, at, [], 0);
            r.Listing? && r.stop == |tokens|
              && Evaluate(truth, buffer, r.conditions) == SelectedOpenBranch(truth, c, TEXT)
  {
    hide Prepare, Evaluate, Scanned, GoodOpenChain, EndsWith, ReadsOpenChain;
    c := ReadOpenBranch(buffer, tokens, at, true);
    ReadEndsWith(buffer, tokens, at, c);
    OpenElaborated(truth, buffer, tokens, at, c, tokens[at].start);
  }
}
