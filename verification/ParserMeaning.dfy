/** Elements may be replaced by others of the same meaning. */
module ParserMeaning {
  import opened Options
  import opened ParserCore

  /** The same elements but for their kinds. */
  ghost predicate SameShape(g: Grammar, h: Grammar) {
    && g.Valid() && h.Valid() && g.rank == h.rank && g.consumes == h.consumes && |g.nodes| == |h.nodes|
    && forall n :: 0 <= n < |g.nodes| ==>
         h.nodes[n] == g.nodes[n].(kind := h.nodes[n].kind) && (h.nodes[n].kind.Stop? <==> g.nodes[n].kind.Stop?)
  }

  /** In `g`, the new kind of an element does what its old kind does. */
  ghost predicate SameImpl(g: Grammar, h: Grammar, n: nat)
    requires SameShape(g, h) && n < |g.nodes|
  {
    && g.KindOk(n, h.nodes[n].kind)
    && forall s, loc, act :: 0 <= loc <= |s| ==>
         Impl(g, s, n, h.nodes[n].kind, loc, act) == Impl(g, s, n, g.nodes[n].kind, loc, act)
  }

  ghost predicate Rewrites(g: Grammar, h: Grammar) {
    SameShape(g, h) && forall n :: 0 <= n < |g.nodes| ==> SameImpl(g, h, n)
  }

  /** Then whole grammars parse alike, however the elements refer to each other. */
  lemma ParseSame(g: Grammar, h: Grammar, s: string, n: nat, loc: nat, act: bool, pre: bool)
    requires Rewrites(g, h) && n < |g.nodes| && loc <= |s|
    ensures Parse(h, s, n, loc, act, pre) == Parse(g, s, n, loc, act, pre)
    decreases |s| - loc, g.rank[n], 3
  {
    hide Impl;
    assert SameImpl(g, h, n);
    var start := Start(g.nodes[n], s, loc, pre);
    SkipSame(g.nodes[n], h.nodes[n], s, loc);
    ImplSame(g, h, s, n, h.nodes[n].kind, start, act);
  }

  lemma SkipSame(m: Node, n: Node, s: string, loc: nat)
    requires m.skips == n.skips && m.white == n.white && loc <= |s|
    ensures Skip(m, s, loc) == Skip(n, s, loc)
    decreases |s| - loc
  {}

  lemma ImplSame(g: Grammar, h: Grammar, s: string, n: nat, kind: Kind, loc: nat, act: bool)
    requires Rewrites(g, h) && n < |g.nodes| && g.KindOk(n, kind) && h.KindOk(n, kind) && loc <= |s|
    ensures Impl(h, s, n, kind, loc, act) == Impl(g, s, n, kind, loc, act)
    decreases |s| - loc, g.rank[n], 2
  {
    hide Parse, AndRest, FirstOf, TryAll, Scan, Repeat, SameImpl, SortDown, WordEnd, MatchesAt;
    match kind {
      case And(es) =>
        assert !g.Consumed(es[..0]) && g.Below(es[0], n);
        ParseSame(g, h, s, es[0], loc, act, false);
        var r := Parse(g, s, es[0], loc, act, false);
        assert es[..1] == [es[0]];
        if r.Ok? {
          AndRestSame(g, h, s, n, es, 1, loc, r.end, r.toks, false, act);
        }
      case MatchFirst(es) => FirstOfSame(g, h, s, n, es, 0, loc, None, act);
      case Or(es) =>
        TryAllSame(g, h, s, n, es, 0, loc, [], None);
        var tried := TryAll(g, s, n, es, 0, loc, [], None);
        if tried.0 != [] {
          SortedAre(tried.0);
          assert SortDown(tried.0)[0] in SortDown(tried.0);
          ScanSame(g, h, s, n, es, SortDown(tried.0), 0, loc, None, tried.1);
          ParseSame(g, h, s, SortDown(tried.0)[0].1, loc, act, true);
        }
      case OneOrMore(e) => RepeatSame(g, h, s, n, e, loc, act);
      case ZeroOrMore(e) => RepeatSame(g, h, s, n, e, loc, act);
      case Optional(e) => ParseSame(g, h, s, e, loc, act, false);
      case Forward(e) => ParseSame(g, h, s, e, loc, act, false);
      case _ =>
    }
  }

  lemma AndRestSame(g: Grammar, h: Grammar, s: string, n: nat, es: seq<nat>, i: nat, start: nat, loc: nat, toks: seq<string>, stop: bool, act: bool)
    requires Rewrites(g, h) && n < |g.nodes| && g.KindOk(n, And(es)) && h.KindOk(n, And(es)) && 1 <= i <= |es|
    requires start <= loc <= |s| && (g.Consumed(es[..i]) ==> start < loc) && (h.Consumed(es[..i]) ==> start < loc)
    ensures AndRest(h, s, n, es, i, start, loc, toks, stop, act) == AndRest(g, s, n, es, i, start, loc, toks, stop, act)
    decreases |s| - start, g.rank[n], 1, |es| - i
  {
    hide Parse, SameImpl;
    hide AndRest, Grammar.KindOk;
    if i < |es| {
      AndStep(g, s, n, es, i, start, loc, toks, stop, act);
      AndStep(h, s, n, es, i, start, loc, toks, stop, act);
      if g.nodes[es[i]].kind.Stop? {
        AndRestSame(g, h, s, n, es, i + 1, start, loc, toks, true, act);
      } else {
        ParseSame(g, h, s, es[i], loc, act, true);
        var r := Parse(g, s, es[i], loc, act, true);
        if r.Ok? {
          AndRestSame(g, h, s, n, es, i + 1, start, r.end, toks + r.toks, stop, act);
        }
      }
    } else {
      AndEnd(g, s, n, es, start, loc, toks, stop, act);
      AndEnd(h, s, n, es, start, loc, toks, stop, act);
    }
  }

  lemma FirstOfSame(g: Grammar, h: Grammar, s: string, n: nat, es: seq<nat>, i: nat, loc: nat, worst: Option<nat>, act: bool)
    requires Rewrites(g, h) && n < |g.nodes| && g.KindOk(n, MatchFirst(es)) && h.KindOk(n, MatchFirst(es)) && i <= |es| && loc <= |s|
    ensures FirstOf(h, s, n, es, i, loc, worst, act) == FirstOf(g, s, n, es, i, loc, worst, act)
    decreases |s| - loc, g.rank[n], 1, |es| - i
  {
    hide Parse, SameImpl;
    if i < |es| {
      assert es[i] in es;
      ParseSame(g, h, s, es[i], loc, act, true);
      var r := Parse(g, s, es[i], loc, act, true);
      if r.Fail? && !r.fatal {
        FirstOfSame(g, h, s, n, es, i + 1, loc, Further(worst, r.loc), act);
      }
    }
  }

  lemma TryAllSame(g: Grammar, h: Grammar, s: string, n: nat, es: seq<nat>, i: nat, loc: nat, ms: seq<Ending>, worst: Option<nat>)
    requires Rewrites(g, h) && n < |g.nodes| && g.KindOk(n, Or(es)) && h.KindOk(n, Or(es)) && i <= |es| && loc <= |s|
    requires forall m :: m in ms ==> m.1 in es
    ensures TryAll(h, s, n, es, i, loc, ms, worst) == TryAll(g, s, n, es, i, loc, ms, worst)
    decreases |s| - loc, g.rank[n], 1, |es| - i
  {
    hide Parse, SameImpl;
    if i < |es| {
      assert es[i] in es;
      ParseSame(g, h, s, es[i], loc, false, true);
      var r := Parse(g, s, es[i], loc, false, true);
      if r.Ok? {
        TryAllSame(g, h, s, n, es, i + 1, loc, ms + [(r.end, es[i])], worst);
      } else {
        TryAllSame(g, h, s, n, es, i + 1, loc, ms, Further(worst, if r.fatal then loc else r.loc));
      }
    }
  }

  lemma ScanSame(g: Grammar, h: Grammar, s: string, n: nat, es: seq<nat>, ms: seq<Ending>, i: nat, loc: nat, longest: Option<(nat, seq<string>)>, worst: Option<nat>)
    requires Rewrites(g, h) && n < |g.nodes| && g.KindOk(n, Or(es)) && h.KindOk(n, Or(es)) && i <= |ms| && loc <= |s|
    requires forall m :: m in ms ==> m.1 in es
    requires longest.Some? ==> InText(s, loc, g.consumes[n], Ok(longest.value.0, longest.value.1))
    ensures Scan(h, s, n, es, ms, i, loc, longest, worst) == Scan(g, s, n, es, ms, i, loc, longest, worst)
    decreases |s| - loc, g.rank[n], 1, |ms| - i
  {
    hide Parse, SameImpl;
    if i < |ms| {
      assert ms[i] in ms;
      ParseSame(g, h, s, ms[i].1, loc, true, true);
      var r := Parse(g, s, ms[i].1, loc, true, true);
      if r.Fail? {
        ScanSame(g, h, s, n, es, ms, i + 1, loc, longest, Further(worst, r.loc));
      } else if r.end < ms[i].0 {
        ScanSame(g, h, s, n, es, ms, i + 1, loc, if longest.None? || r.end > longest.value.0 then Some((r.end, r.toks)) else longest, worst);
      }
    }
  }

  lemma RepeatSame(g: Grammar, h: Grammar, s: string, n: nat, e: nat, loc: nat, act: bool)
    requires Rewrites(g, h) && n < |g.nodes| && g.Below(e, n) && g.consumes[e] && loc <= |s|
    ensures Repeat(h, s, n, e, loc, act) == Repeat(g, s, n, e, loc, act)
    decreases |s| - loc, g.rank[n], 1
  {
    hide Parse, SameImpl;
    ParseSame(g, h, s, e, loc, act, false);
    var r := Parse(g, s, e, loc, act, false);
    if r.Ok? {
      ManySame(g, h, s, n, e, r.end, r.toks, act);
    }
  }

  lemma ManySame(g: Grammar, h: Grammar, s: string, n: nat, e: nat, loc: nat, toks: seq<string>, act: bool)
    requires Rewrites(g, h) && n < |g.nodes| && g.Below(e, n) && g.consumes[e] && loc <= |s|
    ensures Many(h, s, n, e, loc, toks, act) == Many(g, s, n, e, loc, toks, act)
    decreases |s| - loc, g.rank[n], 1
  {
    hide Parse, SameImpl;
    ParseSame(g, h, s, e, loc, act, true);
    var r := Parse(g, s, e, loc, act, true);
    if r.Ok? {
      ManySame(g, h, s, n, e, r.end, toks + r.toks, act);
    }
  }
}
