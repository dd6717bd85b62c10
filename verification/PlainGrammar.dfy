/** Grammars with uniform whitespace and without actions or error stops. */
module PlainGrammar {
  import opened Options
  import opened ParserCore
  import opened OrChoice

  /** Every element skips the same whitespace, has no actions and is no error stop. Tokens and sequences skip whitespace
      themselves, a choice leaves that to its alternatives, and an element around another only does so when that one
      does, as the constructors of these elements set it. */
  ghost predicate Plain(g: Grammar) {
    g.Valid() && forall n :: 0 <= n < |g.nodes| ==> PlainNode(g, n)
  }

  ghost predicate PlainNode(g: Grammar, n: nat)
    requires n < |g.nodes|
  {
    var node := g.nodes[n];
    && node.skips == g.nodes[0].skips && node.white == g.nodes[0].white && node.actions == [] && !node.kind.Stop?
    && (node.kind.Literal? || node.kind.Word? || node.kind.Empty? || node.kind.And? ==> node.callPreparse)
    && (Around(node.kind) && !node.callPreparse ==> node.kind.expr < |g.nodes| && !g.nodes[node.kind.expr].callPreparse)
    && (node.kind.MatchFirst? || node.kind.Or? ==> !node.callPreparse && node.kind.exprs != [])
  }

  predicate Around(kind: Kind) {
    kind.OneOrMore? || kind.ZeroOrMore? || kind.Optional? || kind.Forward?
  }

  ghost predicate Peaceful(r: Outcome) {
    r.Fail? ==> !r.fatal
  }

  // --- actions make no difference, and no failure is fatal -----------------------------------------------------------

  lemma ParsePlain(g: Grammar, s: string, n: nat, loc: nat, act: bool, pre: bool)
    requires Plain(g) && n < |g.nodes| && loc <= |s|
    ensures Parse(g, s, n, loc, act, pre) == Parse(g, s, n, loc, false, pre)
    ensures Peaceful(Parse(g, s, n, loc, act, pre))
    ensures Parse(g, s, n, loc, act, pre) == Impl(g, s, n, g.nodes[n].kind, Start(g.nodes[n], s, loc, pre), act)
    decreases |s| - loc, g.rank[n], 3
  {
    hide Impl;
    assert PlainNode(g, n);
    ImplPlain(g, s, n, g.nodes[n].kind, Start(g.nodes[n], s, loc, pre), act);
  }

  lemma ImplPlain(g: Grammar, s: string, n: nat, kind: Kind, loc: nat, act: bool)
    requires Plain(g) && n < |g.nodes| && g.KindOk(n, kind) && loc <= |s|
    ensures Impl(g, s, n, kind, loc, act) == Impl(g, s, n, kind, loc, false)
    ensures Peaceful(Impl(g, s, n, kind, loc, act))
    decreases |s| - loc, g.rank[n], 2
  {
    hide Parse, AndRest, FirstOf, TryAll, Scan, Repeat, SortDown, WordEnd, MatchesAt, PlainNode;
    match kind {
      case And(es) =>
        assert !g.Consumed(es[..0]) && g.Below(es[0], n) && es[..1] == [es[0]];
        ParsePlain(g, s, es[0], loc, act, false);
        var r := Parse(g, s, es[0], loc, act, false);
        if r.Ok? {
          AndRestPlain(g, s, n, es, 1, loc, r.end, r.toks, act);
        }
      case MatchFirst(es) => FirstOfPlain(g, s, n, es, 0, loc, None, act);
      case Or(es) => OrPlain(g, s, n, es, loc, act); OrPlain(g, s, n, es, loc, false);
      case OneOrMore(e) => RepeatPlain(g, s, n, e, loc, act);
      case ZeroOrMore(e) => RepeatPlain(g, s, n, e, loc, act);
      case Optional(e) => ParsePlain(g, s, e, loc, act, false);
      case Forward(e) => ParsePlain(g, s, e, loc, act, false);
      case _ =>
    }
  }

  lemma AndRestPlain(g: Grammar, s: string, n: nat, es: seq<nat>, i: nat, start: nat, loc: nat, toks: seq<string>, act: bool)
    requires Plain(g) && n < |g.nodes| && g.KindOk(n, And(es)) && 1 <= i <= |es|
    requires start <= loc <= |s| && (g.Consumed(es[..i]) ==> start < loc)
    ensures AndRest(g, s, n, es, i, start, loc, toks, false, act) == AndRest(g, s, n, es, i, start, loc, toks, false, false)
    ensures Peaceful(AndRest(g, s, n, es, i, start, loc, toks, false, act))
    decreases |s| - start, g.rank[n], 1, |es| - i
  {
    hide Parse, AndRest, Grammar.KindOk;
    if i < |es| {
      AndStep(g, s, n, es, i, start, loc, toks, false, act);
      AndStep(g, s, n, es, i, start, loc, toks, false, false);
      assert PlainNode(g, es[i]);
      ParsePlain(g, s, es[i], loc, act, true);
      var r := Parse(g, s, es[i], loc, act, true);
      if r.Ok? {
        AndRestPlain(g, s, n, es, i + 1, start, r.end, toks + r.toks, act);
      }
    } else {
      AndEnd(g, s, n, es, start, loc, toks, false, act);
      AndEnd(g, s, n, es, start, loc, toks, false, false);
    }
  }

  lemma FirstOfPlain(g: Grammar, s: string, n: nat, es: seq<nat>, i: nat, loc: nat, worst: Option<nat>, act: bool)
    requires Plain(g) && n < |g.nodes| && g.KindOk(n, MatchFirst(es)) && i <= |es| && loc <= |s|
    ensures FirstOf(g, s, n, es, i, loc, worst, act) == FirstOf(g, s, n, es, i, loc, worst, false)
    ensures Peaceful(FirstOf(g, s, n, es, i, loc, worst, act))
    decreases |s| - loc, g.rank[n], 1, |es| - i
  {
    hide Parse;
    if i < |es| {
      assert es[i] in es;
      ParsePlain(g, s, es[i], loc, act, true);
      var r := Parse(g, s, es[i], loc, act, true);
      if r.Fail? {
        FirstOfPlain(g, s, n, es, i + 1, loc, Further(worst, r.loc), act);
      }
    }
  }

  lemma RepeatPlain(g: Grammar, s: string, n: nat, e: nat, loc: nat, act: bool)
    requires Plain(g) && n < |g.nodes| && g.Below(e, n) && g.consumes[e] && loc <= |s|
    ensures Repeat(g, s, n, e, loc, act) == Repeat(g, s, n, e, loc, false)
    ensures Peaceful(Repeat(g, s, n, e, loc, act))
    decreases |s| - loc, g.rank[n], 1
  {
    hide Parse;
    ParsePlain(g, s, e, loc, act, false);
    var r := Parse(g, s, e, loc, act, false);
    if r.Ok? {
      ManyPlain(g, s, n, e, r.end, r.toks, act);
    }
  }

  lemma ManyPlain(g: Grammar, s: string, n: nat, e: nat, loc: nat, toks: seq<string>, act: bool)
    requires Plain(g) && n < |g.nodes| && g.Below(e, n) && g.consumes[e] && loc <= |s|
    ensures Many(g, s, n, e, loc, toks, act) == Many(g, s, n, e, loc, toks, false)
    ensures Peaceful(Many(g, s, n, e, loc, toks, act))
    decreases |s| - loc, g.rank[n], 1
  {
    hide Parse;
    ParsePlain(g, s, e, loc, act, true);
    var r := Parse(g, s, e, loc, act, true);
    if r.Ok? {
      ManyPlain(g, s, n, e, r.end, toks + r.toks, act);
    }
  }

  // --- choice as a fold ------------------------------------------------------------------------------------------------

  /** The longest of two matches, the first on ties. */
  function Longer(a: Option<Outcome>, b: Option<Outcome>): Option<Outcome>
    requires (a.Some? ==> a.value.Ok?) && (b.Some? ==> b.value.Ok?)
  {
    if a.None? then b else if b.None? || b.value.end <= a.value.end then a else b
  }

  function IfOk(r: Outcome): Option<Outcome> {
    if r.Ok? then Some(r) else None
  }

  /** The longest match among the alternatives from `i` on, the first on ties. */
  ghost function Pick(g: Grammar, s: string, es: seq<nat>, loc: nat, i: nat): (r: Option<Outcome>)
    requires g.Valid() && Alternatives(g, es) && i <= |es| && loc <= |s|
    ensures r.Some? ==> r.value.Ok?
    decreases |es| - i
  {
    if i == |es| then None else Longer(IfOk(Tried(g, s, es, loc, i)), Pick(g, s, es, loc, i + 1))
  }

  /** What a plain choice gives. */
  ghost function Choice(g: Grammar, s: string, es: seq<nat>, loc: nat): Outcome
    requires g.Valid() && Alternatives(g, es) && loc <= |s|
  {
    if Pick(g, s, es, loc, 0).Some? then Pick(g, s, es, loc, 0).value else Worst(WorstFrom(g, s, es, loc, 0, None), loc)
  }

  lemma {:induction false} PickIsLongest(g: Grammar, s: string, es: seq<nat>, loc: nat, i: nat, k: nat)
    requires g.Valid() && Alternatives(g, es) && i <= k < |es| && loc <= |s| && IsLongest(g, s, es, loc, i, k)
    ensures Pick(g, s, es, loc, i) == Some(Tried(g, s, es, loc, k))
    decreases |es| - i
  {
    hide Tried, Grammar.Valid, Alternatives;
    if i < k {
      PickIsLongest(g, s, es, loc, i + 1, k);
    } else {
      PickIsAmong(g, s, es, loc, i + 1);
    }
  }

  lemma {:induction false} PickIsAmong(g: Grammar, s: string, es: seq<nat>, loc: nat, i: nat)
    requires g.Valid() && Alternatives(g, es) && i <= |es| && loc <= |s|
    ensures var p := Pick(g, s, es, loc, i);
            p.Some? ==> exists j :: i <= j < |es| && Tried(g, s, es, loc, j) == p.value
    ensures Pick(g, s, es, loc, i).None? <==> MatchesFrom(g, s, es, loc, i) == []
    decreases |es| - i
  {
    hide Tried, Grammar.Valid, Alternatives;
    if i < |es| {
      PickIsAmong(g, s, es, loc, i + 1);
    }
  }

  lemma OrPlain(g: Grammar, s: string, n: nat, es: seq<nat>, loc: nat, act: bool)
    requires Plain(g) && n < |g.nodes| && g.KindOk(n, Or(es)) && loc <= |s|
    ensures Alternatives(g, es) && Impl(g, s, n, Or(es), loc, act) == Choice(g, s, es, loc)
    ensures Peaceful(Choice(g, s, es, loc))
    decreases |s| - loc, g.rank[n], 1
  {
    hide Parse, Scan, SortDown, MatchesFrom, WorstFrom, Pick, PlainNode;
    TryAllCollects(g, s, n, es, 0, loc, [], None);
    var ms := MatchesFrom(g, s, es, loc, 0);
    assert [] + ms == ms;
    PickIsAmong(g, s, es, loc, 0);
    if ms != [] {
      SortedAre(ms);
      var sorted := SortDown(ms);
      var k := LongestComesFirst(g, s, es, loc, 0);
      PickIsLongest(g, s, es, loc, 0, k);
      assert es[k] in es;
      ParsePlain(g, s, es[k], loc, true, true);
      ScanAtOnce(g, s, n, es, sorted, loc, WorstFrom(g, s, es, loc, 0, None));
    }
  }

  /** When parsing again changes nothing, the first match of the list is taken. */
  lemma ScanAtOnce(g: Grammar, s: string, n: nat, es: seq<nat>, ms: seq<Ending>, loc: nat, worst: Option<nat>)
    requires g.Valid() && n < |g.nodes| && g.KindOk(n, Or(es)) && loc <= |s| && forall m :: m in ms ==> m.1 in es
    requires ms != [] && ms[0].1 < |g.nodes|
    requires Parse(g, s, ms[0].1, loc, true, true).Ok? && Parse(g, s, ms[0].1, loc, true, true).end >= ms[0].0
    ensures Scan(g, s, n, es, ms, 0, loc, None, worst) == Parse(g, s, ms[0].1, loc, true, true)
  {}
}
