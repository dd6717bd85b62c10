/** Flattening a nested sequence or choice keeps its meaning. */
module Flattening {
  import opened Options
  import opened ParserCore
  import opened OrChoice
  import opened PlainGrammar

  // --- a match takes tokens only when it takes text --------------------------------------------------------------------

  ghost predicate Grows(loc: nat, r: Outcome) {
    r.Ok? && r.toks != [] ==> loc < r.end
  }

  lemma ParseGrows(g: Grammar, s: string, n: nat, loc: nat, act: bool, pre: bool)
    requires Plain(g) && n < |g.nodes| && loc <= |s|
    ensures Grows(loc, Parse(g, s, n, loc, act, pre))
    decreases |s| - loc, g.rank[n], 3
  {
    hide Impl;
    assert PlainNode(g, n);
    ParsePlain(g, s, n, loc, act, pre);
    ImplGrows(g, s, n, g.nodes[n].kind, Start(g.nodes[n], s, loc, pre), act);
  }

  lemma ImplGrows(g: Grammar, s: string, n: nat, kind: Kind, loc: nat, act: bool)
    requires Plain(g) && n < |g.nodes| && g.KindOk(n, kind) && loc <= |s|
    ensures Grows(loc, Impl(g, s, n, kind, loc, act))
    decreases |s| - loc, g.rank[n], 2
  {
    hide Parse, AndRest, FirstOf, Scan, TryAll, Repeat, SortDown, WordEnd, PlainNode, Pick, Choice;
    match kind {
      case And(es) =>
        assert !g.Consumed(es[..0]) && g.Below(es[0], n) && es[..1] == [es[0]];
        ParseGrows(g, s, es[0], loc, act, false);
        var r := Parse(g, s, es[0], loc, act, false);
        if r.Ok? {
          AndRestGrows(g, s, n, es, 1, loc, r.end, r.toks, act);
        }
      case MatchFirst(es) => FirstOfGrows(g, s, n, es, 0, loc, None, act);
      case Or(es) =>
        OrPlain(g, s, n, es, loc, act);
        ChoiceGrows(g, s, n, es, loc);
      case Optional(e) => ParseGrows(g, s, e, loc, act, false);
      case Forward(e) => ParseGrows(g, s, e, loc, act, false);
      case _ =>
    }
  }

  lemma AndRestGrows(g: Grammar, s: string, n: nat, es: seq<nat>, i: nat, start: nat, loc: nat, toks: seq<string>, act: bool)
    requires Plain(g) && n < |g.nodes| && g.KindOk(n, And(es)) && 1 <= i <= |es|
    requires start <= loc <= |s| && (g.Consumed(es[..i]) ==> start < loc) && (toks != [] ==> start < loc)
    ensures Grows(start, AndRest(g, s, n, es, i, start, loc, toks, false, act))
    decreases |s| - start, g.rank[n], 1, |es| - i
  {
    hide Parse, AndRest, Grammar.KindOk;
    if i < |es| {
      AndStep(g, s, n, es, i, start, loc, toks, false, act);
      assert PlainNode(g, es[i]);
      ParseGrows(g, s, es[i], loc, act, true);
      var r := Parse(g, s, es[i], loc, act, true);
      if r.Ok? {
        AndRestGrows(g, s, n, es, i + 1, start, r.end, toks + r.toks, act);
      }
    } else {
      AndEnd(g, s, n, es, start, loc, toks, false, act);
    }
  }

  lemma FirstOfGrows(g: Grammar, s: string, n: nat, es: seq<nat>, i: nat, loc: nat, worst: Option<nat>, act: bool)
    requires Plain(g) && n < |g.nodes| && g.KindOk(n, MatchFirst(es)) && i <= |es| && loc <= |s|
    ensures Grows(loc, FirstOf(g, s, n, es, i, loc, worst, act))
    decreases |s| - loc, g.rank[n], 1, |es| - i
  {
    hide Parse;
    if i < |es| {
      assert es[i] in es;
      ParseGrows(g, s, es[i], loc, act, true);
      var r := Parse(g, s, es[i], loc, act, true);
      if r.Fail? {
        FirstOfGrows(g, s, n, es, i + 1, loc, Further(worst, r.loc), act);
      }
    }
  }

  lemma ChoiceGrows(g: Grammar, s: string, n: nat, es: seq<nat>, loc: nat)
    requires Plain(g) && n < |g.nodes| && g.KindOk(n, Or(es)) && Alternatives(g, es) && loc <= |s|
    ensures Grows(loc, Choice(g, s, es, loc))
    decreases |s| - loc, g.rank[n], 1
  {
    hide Parse, Pick;
    PickIsAmong(g, s, es, loc, 0);
    forall k | 0 <= k < |es| ensures Grows(loc, Tried(g, s, es, loc, k)) {
      assert es[k] in es;
      ParseGrows(g, s, es[k], loc, false, true);
    }
  }

  // --- entering an element before or after the whitespace ----------------------------------------------------------------

  lemma SkipTwice(m: Node, n: Node, s: string, loc: nat)
    requires loc <= |s| && m.skips == n.skips && m.white == n.white
    ensures Skip(n, s, Skip(m, s, loc)) == Skip(m, s, loc) == Skip(n, s, loc)
    decreases |s| - loc
  {}

  /** From `loc`, and from behind the whitespace there: the same, or nothing matched from either side. */
  predicate Near(loc: nat, there: nat, r: Outcome, r': Outcome) {
    r == r' || (r == Ok(loc, []) && r' == Ok(there, []))
  }

  /** Whatever the element, it makes no other difference where it is entered. */
  lemma ParseNear(g: Grammar, s: string, n: nat, loc: nat, act: bool)
    requires Plain(g) && n < |g.nodes| && loc <= |s|
    ensures var there := Skip(g.nodes[0], s, loc);
            Near(loc, there, Parse(g, s, n, loc, act, true), Parse(g, s, n, there, act, true))
    ensures g.nodes[n].callPreparse ==> Parse(g, s, n, loc, act, true) == Parse(g, s, n, Skip(g.nodes[0], s, loc), act, true)
    decreases g.rank[n], 3
  {
    hide Parse, Impl;
    assert PlainNode(g, n);
    var there := Skip(g.nodes[0], s, loc);
    ParsePlain(g, s, n, loc, act, true);
    ParsePlain(g, s, n, there, act, true);
    SkipTwice(g.nodes[0], g.nodes[n], s, loc);
    if !g.nodes[n].callPreparse {
      ImplNear(g, s, n, loc, act);
    }
  }

  lemma ImplNear(g: Grammar, s: string, n: nat, loc: nat, act: bool)
    requires Plain(g) && n < |g.nodes| && !g.nodes[n].callPreparse && loc <= |s|
    ensures var there := Skip(g.nodes[0], s, loc);
            Near(loc, there, Impl(g, s, n, g.nodes[n].kind, loc, act), Impl(g, s, n, g.nodes[n].kind, there, act))
    decreases g.rank[n], 2
  {
    hide Parse, FirstOf, Choice, Many, Skip, AndRest;
    assert PlainNode(g, n) && g.KindOk(n, g.nodes[n].kind);
    var there := Skip(g.nodes[0], s, loc);
    match g.nodes[n].kind {
      case MatchFirst(es) => FirstOfNear(g, s, n, es, 0, loc, None, act);
      case Or(es) =>
        OrPlain(g, s, n, es, loc, act);
        OrPlain(g, s, n, es, there, act);
        ChoiceNear(g, s, n, es, loc);
      case OneOrMore(e) => InnerNear(g, s, n, e, loc, act);
      case ZeroOrMore(e) => InnerNear(g, s, n, e, loc, act);
      case Optional(e) => InnerNear(g, s, n, e, loc, act);
      case Forward(e) => InnerNear(g, s, n, e, loc, act);
    }
  }

  lemma InnerNear(g: Grammar, s: string, n: nat, e: nat, loc: nat, act: bool)
    requires Plain(g) && n < |g.nodes| && g.Below(e, n) && !g.nodes[e].callPreparse && loc <= |s|
    ensures var there := Skip(g.nodes[0], s, loc);
            && Near(loc, there, Parse(g, s, e, loc, act, false), Parse(g, s, e, there, act, false))
            && (g.consumes[e] ==> Parse(g, s, e, loc, act, false) == Parse(g, s, e, there, act, false))
            && Peaceful(Parse(g, s, e, loc, act, false)) && Peaceful(Parse(g, s, e, there, act, false))
    decreases g.rank[n], 1
  {
    hide Parse, Impl, Skip;
    ParsePlain(g, s, e, loc, act, false);
    ParsePlain(g, s, e, Skip(g.nodes[0], s, loc), act, false);
    ImplNear(g, s, e, loc, act);
  }

  lemma FirstOfNear(g: Grammar, s: string, n: nat, es: seq<nat>, i: nat, loc: nat, worst: Option<nat>, act: bool)
    requires Plain(g) && n < |g.nodes| && g.KindOk(n, MatchFirst(es)) && i <= |es| && loc <= |s| && (i < |es| || worst.Some?)
    ensures var there := Skip(g.nodes[0], s, loc);
            Near(loc, there, FirstOf(g, s, n, es, i, loc, worst, act), FirstOf(g, s, n, es, i, there, worst, act))
    decreases g.rank[n], 1, |es| - i
  {
    hide Parse, Skip;
    if i < |es| {
      assert es[i] in es;
      ParseNear(g, s, es[i], loc, act);
      ParsePlain(g, s, es[i], loc, act, true);
      var r := Parse(g, s, es[i], loc, act, true);
      if r.Fail? {
        FirstOfNear(g, s, n, es, i + 1, loc, Further(worst, r.loc), act);
      }
    }
  }

  lemma ChoiceNear(g: Grammar, s: string, n: nat, es: seq<nat>, loc: nat)
    requires Plain(g) && n < |g.nodes| && g.KindOk(n, Or(es)) && loc <= |s| && es != [] && Alternatives(g, es)
    ensures var there := Skip(g.nodes[0], s, loc);
            Near(loc, there, Choice(g, s, es, loc), Choice(g, s, es, there))
    decreases g.rank[n], 1
  {
    hide Parse, Skip, Pick, WorstFrom;
    var there := Skip(g.nodes[0], s, loc);
    forall k | 0 <= k < |es|
      ensures Near(loc, there, Tried(g, s, es, loc, k), Tried(g, s, es, there, k)) && Peaceful(Tried(g, s, es, loc, k))
      ensures var r := Tried(g, s, es, there, k); Grows(there, r) && (r.Ok? ==> there <= r.end)
    {
      assert es[k] in es;
      ParseNear(g, s, es[k], loc, false);
      ParsePlain(g, s, es[k], loc, false, true);
      ParseGrows(g, s, es[k], there, false, true);
    }
    PickNear(g, s, es, loc, there, 0);
    if Pick(g, s, es, loc, 0).None? {
      AllFail(g, s, es, loc, 0);
      PickSame(g, s, es, loc, there, 0, None);
    }
  }

  lemma {:induction false} AllFail(g: Grammar, s: string, es: seq<nat>, loc: nat, i: nat)
    requires g.Valid() && Alternatives(g, es) && i <= |es| && loc <= |s| && Pick(g, s, es, loc, i).None?
    ensures forall k :: i <= k < |es| ==> Tried(g, s, es, loc, k).Fail?
    decreases |es| - i
  {
    hide Tried, Grammar.Valid, Alternatives;
    if i < |es| {
      AllFail(g, s, es, loc, i + 1);
    }
  }

  lemma {:induction false} PickNear(g: Grammar, s: string, es: seq<nat>, loc: nat, there: nat, i: nat)
    requires g.Valid() && Alternatives(g, es) && i <= |es| && loc <= there <= |s|
    requires forall k :: i <= k < |es| ==> Near(loc, there, Tried(g, s, es, loc, k), Tried(g, s, es, there, k))
    requires forall k :: i <= k < |es| ==> var r := Tried(g, s, es, there, k); Grows(there, r) && (r.Ok? ==> there <= r.end)
    ensures var p, q := Pick(g, s, es, loc, i), Pick(g, s, es, there, i);
            && (p.Some? <==> q.Some?) && (p.Some? ==> Near(loc, there, p.value, q.value))
            && (q.Some? ==> there <= q.value.end && Grows(there, q.value))
    decreases |es| - i
  {
    hide Tried, Grammar.Valid, Alternatives;
    if i < |es| {
      PickNear(g, s, es, loc, there, i + 1);
    }
  }

  // --- elements that are the same from either side ------------------------------------------------------------------------

  /** The element skips whitespace, or matches some text for sure, or leaves both to elements of which that is true: it
      cannot match nothing before whitespace. */
  ghost predicate Tolerant(g: Grammar, n: nat)
    requires g.Valid() && n < |g.nodes|
    decreases g.rank[n]
  {
    assert g.KindOk(n, g.nodes[n].kind);
    g.nodes[n].callPreparse || g.consumes[n] ||
    match g.nodes[n].kind
    case MatchFirst(es) => forall e :: e in es ==> Tolerant(g, e)
    case Or(es) => forall e :: e in es ==> Tolerant(g, e)
    case OneOrMore(e) => true
    case Forward(e) => Tolerant(g, e)
    case _ => false
  }

  /** Such an element never matches nothing where whitespace begins. */
  lemma TolerantMeans(g: Grammar, s: string, n: nat, loc: nat, act: bool)
    requires Plain(g) && n < |g.nodes| && Tolerant(g, n) && loc <= |s| && Skip(g.nodes[0], s, loc) != loc
    ensures Parse(g, s, n, loc, act, true) != Ok(loc, [])
    ensures Parse(g, s, n, loc, act, true) == Parse(g, s, n, Skip(g.nodes[0], s, loc), act, true)
    decreases g.rank[n], 3
  {
    hide Parse, Impl, Skip;
    assert PlainNode(g, n) && g.KindOk(n, g.nodes[n].kind);
    ParseNear(g, s, n, loc, act);
    ParsePlain(g, s, n, loc, act, true);
    if !g.nodes[n].callPreparse && !g.consumes[n] {
      TolerantMoves(g, s, n, loc, act);
    }
  }

  lemma TolerantMoves(g: Grammar, s: string, n: nat, loc: nat, act: bool)
    requires Plain(g) && n < |g.nodes| && Tolerant(g, n) && !g.nodes[n].callPreparse && !g.consumes[n]
    requires loc <= |s| && Skip(g.nodes[0], s, loc) != loc
    ensures Impl(g, s, n, g.nodes[n].kind, loc, act) != Ok(loc, [])
    decreases g.rank[n], 2
  {
    hide Parse, FirstOf, Choice, Skip, AndRest, Many, Pick;
    assert PlainNode(g, n) && g.KindOk(n, g.nodes[n].kind);
    match g.nodes[n].kind {
      case MatchFirst(es) => FirstOfMoves(g, s, n, es, 0, loc, None, act);
      case Or(es) =>
        OrPlain(g, s, n, es, loc, act);
        PickIsAmong(g, s, es, loc, 0);
        forall k | 0 <= k < |es| ensures Tried(g, s, es, loc, k) != Ok(loc, []) {
          assert es[k] in es;
          TolerantMeans(g, s, es[k], loc, false);
        }
        assert Choice(g, s, es, loc) != Ok(loc, []) by { ChoiceMoves(g, s, es, loc); }
      case OneOrMore(e) =>
      case Forward(e) =>
        TolerantMeans(g, s, e, loc, act);
        SameWithoutSkipping(g, s, e, loc, act);
    }
  }

  lemma ChoiceMoves(g: Grammar, s: string, es: seq<nat>, loc: nat)
    requires g.Valid() && Alternatives(g, es) && loc <= |s|
    requires forall k :: 0 <= k < |es| ==> Tried(g, s, es, loc, k) != Ok(loc, [])
    ensures Choice(g, s, es, loc) != Ok(loc, [])
  {
    hide Tried, Pick;
    PickIsAmong(g, s, es, loc, 0);
  }

  lemma SameWithoutSkipping(g: Grammar, s: string, e: nat, loc: nat, act: bool)
    requires Plain(g) && e < |g.nodes| && !g.nodes[e].callPreparse && loc <= |s|
    ensures Parse(g, s, e, loc, act, false) == Parse(g, s, e, loc, act, true)
  {
    hide Impl;
  }

  lemma FirstOfMoves(g: Grammar, s: string, n: nat, es: seq<nat>, i: nat, loc: nat, worst: Option<nat>, act: bool)
    requires Plain(g) && n < |g.nodes| && g.KindOk(n, MatchFirst(es)) && i <= |es| && loc <= |s|
    requires Skip(g.nodes[0], s, loc) != loc && forall e :: e in es ==> Tolerant(g, e)
    ensures FirstOf(g, s, n, es, i, loc, worst, act) != Ok(loc, [])
    decreases g.rank[n], 1, |es| - i
  {
    hide Parse, Skip, Tolerant;
    if i < |es| {
      assert es[i] in es;
      TolerantMeans(g, s, es[i], loc, act);
      var r := Parse(g, s, es[i], loc, act, true);
      if r.Fail? {
        FirstOfMoves(g, s, n, es, i + 1, loc, Further(worst, r.loc), act);
      }
    }
  }

  lemma {:induction false} PickSame(g: Grammar, s: string, es: seq<nat>, loc: nat, there: nat, i: nat, worst: Option<nat>)
    requires g.Valid() && Alternatives(g, es) && i <= |es| && loc <= |s| && there <= |s|
    requires forall k :: i <= k < |es| ==> Tried(g, s, es, loc, k) == Tried(g, s, es, there, k) && Peaceful(Tried(g, s, es, loc, k))
    ensures Pick(g, s, es, loc, i) == Pick(g, s, es, there, i)
    ensures Pick(g, s, es, loc, i).None? ==> WorstFrom(g, s, es, loc, i, worst) == WorstFrom(g, s, es, there, i, worst)
    ensures Pick(g, s, es, loc, i).None? && (i < |es| || worst.Some?) ==> WorstFrom(g, s, es, loc, i, worst).Some?
    decreases |es| - i
  {
    hide Tried, Grammar.Valid, Alternatives;
    if i < |es| {
      PickSame(g, s, es, loc, there, i + 1, if Tried(g, s, es, loc, i).Ok? then worst else Further(worst, FailedAt(g, s, es, loc, i)));
    }
  }

  // --- a nested element's alternatives or parts as a segment of the outer list --------------------------------------------

  /** `inner` stands in `outer` at position `k`. */
  predicate Segment(outer: seq<nat>, k: nat, inner: seq<nat>) {
    k + |inner| <= |outer| && outer[k..k + |inner|] == inner
  }

  /** The parts of an inner sequence, met in the outer one, go on from where the inner one would end. */
  lemma {:induction false} AndSegment(g: Grammar, s: string, n: nat, outer: seq<nat>, k: nat, m: nat, inner: seq<nat>, j: nat,
                                      start: nat, start': nat, loc: nat, pre: seq<string>, toks: seq<string>, act: bool)
    requires Plain(g) && n < |g.nodes| && m < |g.nodes| && g.KindOk(n, And(outer)) && g.KindOk(m, And(inner))
    requires Segment(outer, k, inner) && 1 <= j <= |inner| && start <= loc <= |s| && start' <= loc
    requires (g.Consumed(outer[..k + j]) ==> start < loc) && (g.Consumed(inner[..j]) ==> start' < loc)
    ensures var r := AndRest(g, s, m, inner, j, start', loc, toks, false, act);
            && (r.Ok? ==> loc <= r.end <= |s| && (g.Consumed(outer[..k + |inner|]) ==> start < r.end))
            && AndRest(g, s, n, outer, k + j, start, loc, pre + toks, false, act) ==
                 (if r.Ok? then AndRest(g, s, n, outer, k + |inner|, start, r.end, pre + r.toks, false, act) else r)
    decreases |inner| - j
  {
    hide Parse, AndRest, Grammar.KindOk;
    if j < |inner| {
      AndStep(g, s, n, outer, k + j, start, loc, pre + toks, false, act);
      AndStep(g, s, m, inner, j, start', loc, toks, false, act);
      assert PlainNode(g, inner[j]);
      var r := Parse(g, s, inner[j], loc, act, true);
      if r.Ok? {
        assert pre + toks + r.toks == pre + (toks + r.toks);
        AndSegment(g, s, n, outer, k, m, inner, j + 1, start, start', r.end, pre, toks + r.toks, act);
      } else {
        ParsePlain(g, s, inner[j], loc, act, true);
      }
    } else {
      AndEnd(g, s, m, inner, start', loc, toks, false, act);
    }
  }

  /** The furthest failure so far, from outside and from inside. */
  function Both(outside: Option<nat>, inside: Option<nat>): Option<nat> {
    if inside.None? then outside else Further(outside, inside.value)
  }

  lemma {:induction false} FirstSegment(g: Grammar, s: string, n: nat, outer: seq<nat>, k: nat, m: nat, inner: seq<nat>, j: nat, loc: nat, w: Option<nat>, v: Option<nat>, act: bool)
    requires Plain(g) && n < |g.nodes| && m < |g.nodes| && g.KindOk(n, MatchFirst(outer)) && g.KindOk(m, MatchFirst(inner))
    requires Segment(outer, k, inner) && j <= |inner| && loc <= |s| && (j < |inner| || v.Some?)
    ensures var r := FirstOf(g, s, m, inner, j, loc, v, act);
            FirstOf(g, s, n, outer, k + j, loc, Both(w, v), act) ==
              if r.Ok? then r else FirstOf(g, s, n, outer, k + |inner|, loc, Further(w, r.loc), act)
    decreases |inner| - j
  {
    hide Parse;
    if j < |inner| {
      assert inner[j] in inner;
      ParsePlain(g, s, inner[j], loc, act, true);
      var r := Parse(g, s, inner[j], loc, act, true);
      if r.Fail? {
        FirstSegment(g, s, n, outer, k, m, inner, j + 1, loc, w, Further(v, r.loc), act);
      }
    }
  }

  lemma {:induction false} OrSegment(g: Grammar, s: string, outer: seq<nat>, k: nat, inner: seq<nat>, j: nat, loc: nat, w: Option<nat>, v: Option<nat>)
    requires g.Valid() && Alternatives(g, outer) && Alternatives(g, inner) && Segment(outer, k, inner) && j <= |inner| && loc <= |s|
    ensures Pick(g, s, outer, loc, k + j) == Longer(Pick(g, s, inner, loc, j), Pick(g, s, outer, loc, k + |inner|))
    ensures WorstFrom(g, s, outer, loc, k + j, Both(w, v)) == WorstFrom(g, s, outer, loc, k + |inner|, Both(w, WorstFrom(g, s, inner, loc, j, v)))
    decreases |inner| - j
  {
    hide Parse, Grammar.Valid;
    if j < |inner| {
      var v' := if Tried(g, s, inner, loc, j).Ok? then v else Further(v, FailedAt(g, s, inner, loc, j));
      OrSegment(g, s, outer, k, inner, j + 1, loc, w, v');
    }
  }
}
