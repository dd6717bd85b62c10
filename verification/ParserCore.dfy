/** Grammars of combined parser elements, and what it means to parse with them, without a cache. */
module ParserCore {
  import opened Options

  /** What a parse action does with the tokens of a match. */
  datatype ActionResult = Keep | Replace(toks: seq<string>) | Reject(loc: nat, fatal: bool)

  /** A pure parse action: of the text, the place and the tokens. */
  type Action = (string, nat, seq<string>) -> ActionResult

  /** An element refers to others by their position in the grammar, so that a Forward may refer to itself. `Stop` is
      the error stop, written `-`. */
  datatype Kind =
    | Literal(text: string)
    | Word(init: set<char>, body: set<char>)
    | Empty
    | Stop
    | And(exprs: seq<nat>)
    | MatchFirst(exprs: seq<nat>)
    | Or(exprs: seq<nat>)
    | OneOrMore(expr: nat)
    | ZeroOrMore(expr: nat)
    | Optional(expr: nat)
    | Forward(expr: nat)

  datatype Node = Node(kind: Kind, skips: bool, white: set<char>, callPreparse: bool, actions: seq<Action>, duringTry: bool)

  /** `consumes` and `rank` show that the grammar has no left recursion: an element only tries elements of lower rank
      before it has moved on in the text. */
  datatype Grammar = Grammar(nodes: seq<Node>, rank: seq<nat>, consumes: seq<bool>) {
    ghost predicate Valid() {
      |rank| == |nodes| == |consumes| && forall id :: 0 <= id < |nodes| ==> KindOk(id, nodes[id].kind)
    }

    ghost predicate Below(e: nat, id: nat)
      requires |rank| == |nodes| && id < |nodes|
    {
      e < |nodes| && rank[e] < rank[id]
    }

    /** Whether the element `id` may be of a kind, with what `rank` and `consumes` say of it. */
    ghost predicate KindOk(id: nat, kind: Kind)
      requires |rank| == |nodes| == |consumes| && id < |nodes|
    {
      match kind
      case Literal(text) => text != ""
      case Word(_, _) => true
      case Empty => !consumes[id]
      case Stop => !consumes[id]
      case And(es) =>
        && es != [] && (forall e :: e in es ==> e < |nodes|)
        && (forall i :: 0 <= i < |es| && !Consumed(es[..i]) ==> Below(es[i], id))
        && (consumes[id] ==> Consumed(es))
      case MatchFirst(es) => forall e :: e in es ==> Below(e, id) && (consumes[id] ==> consumes[e])
      case Or(es) => forall e :: e in es ==> Below(e, id) && (consumes[id] ==> consumes[e])
      case OneOrMore(e) => Below(e, id) && consumes[e]
      case ZeroOrMore(e) => Below(e, id) && consumes[e] && !consumes[id]
      case Optional(e) => Below(e, id) && !consumes[id]
      case Forward(e) => Below(e, id) && (consumes[id] ==> consumes[e])
    }

    /** Some element of a sequence consumes text for sure. */
    ghost predicate Consumed(es: seq<nat>) {
      exists i :: 0 <= i < |es| && es[i] < |consumes| && consumes[es[i]]
    }
  }

  datatype Outcome = Ok(end: nat, toks: seq<string>) | Fail(loc: nat, fatal: bool)

  /** The end lies in the text, and beyond the start if the element consumes for sure. */
  ghost predicate InText(s: string, loc: nat, consumes: bool, r: Outcome) {
    r.Ok? ==> loc <= r.end <= |s| && (consumes ==> loc < r.end)
  }

  // --- steps without recursion ----------------------------------------------------------------------------------------

  /** `preParse`. */
  function Skip(n: Node, s: string, loc: nat): (r: nat)
    requires loc <= |s|
    ensures loc <= r <= |s|
    decreases |s| - loc
  {
    if n.skips && loc < |s| && s[loc] in n.white then Skip(n, s, loc + 1) else loc
  }

  function Start(n: Node, s: string, loc: nat, pre: bool): (r: nat)
    requires loc <= |s|
    ensures loc <= r <= |s|
  {
    if pre && n.callPreparse then Skip(n, s, loc) else loc
  }

  predicate MatchesAt(s: string, loc: nat, text: string)
    requires loc <= |s|
  {
    loc + |text| <= |s| && s[loc..loc + |text|] == text
  }

  /** How far the body of a word goes on. */
  function WordEnd(body: set<char>, s: string, loc: nat): (r: nat)
    requires loc <= |s|
    ensures loc <= r <= |s|
    decreases |s| - loc
  {
    if loc < |s| && s[loc] in body then WordEnd(body, s, loc + 1) else loc
  }

  ghost function RunActions(actions: seq<Action>, s: string, start: nat, end: nat, toks: seq<string>): (r: Outcome)
    ensures r.Ok? ==> r.end == end
  {
    if actions == [] then
      Ok(end, toks)
    else
      match actions[0](s, start, toks)
      case Keep => RunActions(actions[1..], s, start, end, toks)
      case Replace(more) => RunActions(actions[1..], s, start, end, more)
      case Reject(loc, fatal) => Fail(loc, fatal)
  }

  function Further(worst: Option<nat>, loc: nat): Option<nat> {
    if worst.None? || loc > worst.value then Some(loc) else worst
  }

  /** The failure of the alternative that got the furthest. */
  function Worst(worst: Option<nat>, loc: nat): Outcome {
    Fail(if worst.Some? then worst.value else loc, false)
  }

  /** A match of an alternative: where it ended, and which one it was. */
  type Ending = (nat, nat)

  /** The stable descending sort by end. */
  function InsertDown(m: Ending, sorted: seq<Ending>): (r: seq<Ending>)
    ensures multiset(r) == multiset(sorted) + multiset{m}
  {
    if sorted == [] || sorted[0].0 <= m.0 then
      [m] + sorted
    else
      assert sorted == [sorted[0]] + sorted[1..];
      [sorted[0]] + InsertDown(m, sorted[1..])
  }

  function SortDown(ms: seq<Ending>): (r: seq<Ending>)
    ensures multiset(r) == multiset(ms)
  {
    if ms == [] then
      []
    else
      assert ms == [ms[0]] + ms[1..];
      InsertDown(ms[0], SortDown(ms[1..]))
  }

  lemma SortedAre(ms: seq<Ending>)
    ensures |SortDown(ms)| == |ms| && forall m :: m in SortDown(ms) <==> m in ms
  {
    assert |multiset(SortDown(ms))| == |multiset(ms)|;
    forall m ensures m in SortDown(ms) <==> m in ms {
      assert m in SortDown(ms) <==> m in multiset(SortDown(ms));
    }
  }

  // --- parsing --------------------------------------------------------------------------------------------------------------

  /** `_parseNoCache` of an element, with its parse actions. */
  ghost function Parse(g: Grammar, s: string, id: nat, loc: nat, act: bool, pre: bool): (r: Outcome)
    requires g.Valid() && id < |g.nodes| && loc <= |s|
    ensures InText(s, loc, g.consumes[id], r)
    decreases |s| - loc, g.rank[id], 3
  {
    var n := g.nodes[id];
    var start := Start(n, s, loc, pre);
    assert g.KindOk(id, n.kind);
    var r := Impl(g, s, id, n.kind, start, act);
    if r.Ok? && (act || n.duringTry) then RunActions(n.actions, s, start, r.end, r.toks) else r
  }

  /** `parseImpl` of each kind of element. */
  ghost function Impl(g: Grammar, s: string, id: nat, kind: Kind, loc: nat, act: bool): (r: Outcome)
    requires g.Valid() && id < |g.nodes| && g.KindOk(id, kind) && loc <= |s|
    ensures InText(s, loc, g.consumes[id], r)
    decreases |s| - loc, g.rank[id], 2
  {
    match kind
    case Literal(text) => if MatchesAt(s, loc, text) then Ok(loc + |text|, [text]) else Fail(loc, false)
    case Word(init, body) =>
      if loc < |s| && s[loc] in init then
        Ok(WordEnd(body, s, loc + 1), [s[loc..WordEnd(body, s, loc + 1)]])
      else
        Fail(loc, false)
    case Empty => Ok(loc, [])
    case Stop => Ok(loc, [])
    case And(es) =>
      assert !g.Consumed(es[..0]) && g.Below(es[0], id);
      var r := Parse(g, s, es[0], loc, act, false);
      if r.Ok? then AndRest(g, s, id, es, 1, loc, r.end, r.toks, false, act) else r
    case MatchFirst(es) => FirstOf(g, s, id, es, 0, loc, None, act)
    case Or(es) =>
      var tried := TryAll(g, s, id, es, 0, loc, [], None);
      if tried.0 == [] then
        Worst(tried.1, loc)
      else
        SortedAre(tried.0);
        var sorted := SortDown(tried.0);
        if act then Scan(g, s, id, es, sorted, 0, loc, None, tried.1) else Parse(g, s, sorted[0].1, loc, act, true)
    case OneOrMore(e) => Repeat(g, s, id, e, loc, act)
    case ZeroOrMore(e) =>
      var r := Repeat(g, s, id, e, loc, act);
      if r.Fail? && !r.fatal then Ok(loc, []) else r
    case Optional(e) =>
      var r := Parse(g, s, e, loc, act, false);
      if r.Fail? && !r.fatal then Ok(loc, []) else r
    case Forward(e) => Parse(g, s, e, loc, act, false)
  }

  /** The elements of a sequence from position `i` on; after an error stop, failures are fatal. */
  ghost function AndRest(g: Grammar, s: string, id: nat, es: seq<nat>, i: nat, start: nat, loc: nat, toks: seq<string>, stop: bool, act: bool): (r: Outcome)
    requires g.Valid() && id < |g.nodes| && g.KindOk(id, And(es)) && 1 <= i <= |es|
    requires start <= loc <= |s| && (g.Consumed(es[..i]) ==> start < loc)
    ensures InText(s, start, g.consumes[id], r) && (r.Ok? ==> loc <= r.end)
    decreases |s| - start, g.rank[id], 1, |es| - i
  {
    if i == |es| then
      assert es[..i] == es;
      Ok(loc, toks)
    else
      assert es[..i + 1] == es[..i] + [es[i]] && es[i] in es;
      if g.nodes[es[i]].kind.Stop? then
        AndRest(g, s, id, es, i + 1, start, loc, toks, true, act)
      else
        var r := Parse(g, s, es[i], loc, act, true);
        if r.Ok? then
          assert g.Consumed(es[..i + 1]) ==> g.Consumed(es[..i]) || g.consumes[es[i]];
          AndRest(g, s, id, es, i + 1, start, r.end, toks + r.toks, stop, act)
        else
          Fail(r.loc, r.fatal || stop)
  }

  /** The alternatives from position `i` on: the first that matches, or the failure that got the furthest. */
  ghost function FirstOf(g: Grammar, s: string, id: nat, es: seq<nat>, i: nat, loc: nat, worst: Option<nat>, act: bool): (r: Outcome)
    requires g.Valid() && id < |g.nodes| && g.KindOk(id, MatchFirst(es)) && i <= |es| && loc <= |s|
    ensures InText(s, loc, g.consumes[id], r)
    decreases |s| - loc, g.rank[id], 1, |es| - i
  {
    if i == |es| then
      Worst(worst, loc)
    else
      assert es[i] in es;
      var r := Parse(g, s, es[i], loc, act, true);
      if r.Fail? && !r.fatal then FirstOf(g, s, id, es, i + 1, loc, Further(worst, r.loc), act) else r
  }

  /** All alternatives tried without actions: the matches, and the failure that got the furthest. */
  ghost function TryAll(g: Grammar, s: string, id: nat, es: seq<nat>, i: nat, loc: nat, ms: seq<Ending>, worst: Option<nat>): (r: (seq<Ending>, Option<nat>))
    requires g.Valid() && id < |g.nodes| && g.KindOk(id, Or(es)) && i <= |es| && loc <= |s|
    requires forall m :: m in ms ==> m.1 in es
    ensures forall m :: m in r.0 ==> m.1 in es
    decreases |s| - loc, g.rank[id], 1, |es| - i
  {
    if i == |es| then
      (ms, worst)
    else
      assert es[i] in es;
      var r := Parse(g, s, es[i], loc, false, true);
      if r.Ok? then TryAll(g, s, id, es, i + 1, loc, ms + [(r.end, es[i])], worst)
      else TryAll(g, s, id, es, i + 1, loc, ms, Further(worst, if r.fatal then loc else r.loc))
  }

  /** The matches parsed again with actions, from the longest down, until one is as long as it was without. */
  ghost function Scan(g: Grammar, s: string, id: nat, es: seq<nat>, ms: seq<Ending>, i: nat, loc: nat, longest: Option<(nat, seq<string>)>, worst: Option<nat>): (r: Outcome)
    requires g.Valid() && id < |g.nodes| && g.KindOk(id, Or(es)) && i <= |ms| && loc <= |s|
    requires forall m :: m in ms ==> m.1 in es
    requires longest.Some? ==> InText(s, loc, g.consumes[id], Ok(longest.value.0, longest.value.1))
    ensures InText(s, loc, g.consumes[id], r)
    decreases |s| - loc, g.rank[id], 1, |ms| - i
  {
    if longest.Some? && (i == |ms| || ms[i].0 <= longest.value.0) then
      Ok(longest.value.0, longest.value.1)
    else if i == |ms| then
      Worst(worst, loc)
    else
      assert ms[i] in ms;
      var r := Parse(g, s, ms[i].1, loc, true, true);
      if r.Fail? then
        if r.fatal then r else Scan(g, s, id, es, ms, i + 1, loc, longest, Further(worst, r.loc))
      else if r.end >= ms[i].0 then
        r
      else
        Scan(g, s, id, es, ms, i + 1, loc, if longest.None? || r.end > longest.value.0 then Some((r.end, r.toks)) else longest, worst)
  }

  /** One match at least. */
  ghost function Repeat(g: Grammar, s: string, id: nat, e: nat, loc: nat, act: bool): (r: Outcome)
    requires g.Valid() && id < |g.nodes| && g.Below(e, id) && g.consumes[e] && loc <= |s|
    ensures InText(s, loc, true, r)
    decreases |s| - loc, g.rank[id], 1
  {
    var r := Parse(g, s, e, loc, act, false);
    if r.Ok? then Many(g, s, id, e, r.end, r.toks, act) else r
  }

  /** Further matches, as many as there are. */
  ghost function Many(g: Grammar, s: string, id: nat, e: nat, loc: nat, toks: seq<string>, act: bool): (r: Outcome)
    requires g.Valid() && id < |g.nodes| && g.Below(e, id) && g.consumes[e] && loc <= |s|
    ensures InText(s, loc, false, r)
    decreases |s| - loc, g.rank[id], 1
  {
    var r := Parse(g, s, e, loc, act, true);
    if r.Ok? then Many(g, s, id, e, r.end, toks + r.toks, act) else if r.fatal then r else Ok(loc, toks)
  }

  lemma AndStep(g: Grammar, s: string, id: nat, es: seq<nat>, i: nat, start: nat, loc: nat, toks: seq<string>, stop: bool, act: bool)
    requires g.Valid() && id < |g.nodes| && g.KindOk(id, And(es)) && 1 <= i < |es|
    requires start <= loc <= |s| && (g.Consumed(es[..i]) ==> start < loc)
    ensures es[i] < |g.nodes| && (start < loc || g.rank[es[i]] < g.rank[id])
    ensures g.nodes[es[i]].kind.Stop? ==> (
      && (g.Consumed(es[..i + 1]) ==> start < loc)
      && AndRest(g, s, id, es, i, start, loc, toks, stop, act) == AndRest(g, s, id, es, i + 1, start, loc, toks, true, act))
    ensures !g.nodes[es[i]].kind.Stop? ==>
      var r := Parse(g, s, es[i], loc, act, true);
      && (r.Fail? ==> AndRest(g, s, id, es, i, start, loc, toks, stop, act) == Fail(r.loc, r.fatal || stop))
      && (r.Ok? ==> (
        && (g.Consumed(es[..i + 1]) ==> start < r.end)
        && AndRest(g, s, id, es, i, start, loc, toks, stop, act) == AndRest(g, s, id, es, i + 1, start, r.end, toks + r.toks, stop, act)))
  {
    hide Parse;
    assert es[..i + 1] == es[..i] + [es[i]] && es[i] in es;
    if !g.nodes[es[i]].kind.Stop? {
      assert g.Consumed(es[..i + 1]) ==> g.Consumed(es[..i]) || g.consumes[es[i]];
    }
  }

  lemma AndEnd(g: Grammar, s: string, id: nat, es: seq<nat>, start: nat, loc: nat, toks: seq<string>, stop: bool, act: bool)
    requires g.Valid() && id < |g.nodes| && g.KindOk(id, And(es)) && es != []
    requires start <= loc <= |s| && (g.Consumed(es[..|es|]) ==> start < loc)
    ensures AndRest(g, s, id, es, |es|, start, loc, toks, stop, act) == Ok(loc, toks)
  {}
}
