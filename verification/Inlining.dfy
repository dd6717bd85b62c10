/** One element of a sequence or choice is replaced by its own elements. */
module Inlining {
  import opened Options
  import opened ParserCore
  import opened OrChoice
  import opened PlainGrammar
  import opened Flattening

  function Inline(es: seq<nat>, p: nat, bs: seq<nat>): (r: seq<nat>)
    requires p < |es|
    ensures |r| == |es| - 1 + |bs| && Segment(r, p, bs)
    ensures r[..p] == es[..p] && r[p + |bs|..] == es[p + 1..]
  {
    es[..p] + bs + es[p + 1..]
  }

  lemma InlineMembers(es: seq<nat>, p: nat, bs: seq<nat>)
    requires p < |es|
    ensures forall e :: e in Inline(es, p, bs) ==> e in es || e in bs
  {}

  // --- sequences -----------------------------------------------------------------------------------------------------

  lemma ConsumedParts(g: Grammar, a: seq<nat>, b: seq<nat>)
    ensures g.Consumed(a + b) <==> g.Consumed(a) || g.Consumed(b)
  {
    if g.Consumed(a) {
      var i :| 0 <= i < |a| && a[i] < |g.consumes| && g.consumes[a[i]];
      assert (a + b)[i] == a[i];
    }
    if g.Consumed(b) {
      var i :| 0 <= i < |b| && b[i] < |g.consumes| && g.consumes[b[i]];
      assert (a + b)[|a| + i] == b[i];
    }
  }

  lemma AndInlineOk(g: Grammar, n: nat, es: seq<nat>, p: nat, bs: seq<nat>)
    requires g.Valid() && n < |g.nodes| && g.KindOk(n, And(es)) && p < |es| && es[p] < |g.nodes| && g.nodes[es[p]].kind == And(bs)
    ensures g.KindOk(n, And(Inline(es, p, bs)))
  {
    hide Inline, Grammar.Consumed, Grammar.Below;
    var b, out := es[p], Inline(es, p, bs);
    assert es[p] in es && g.KindOk(b, And(bs));
    InlineMembers(es, p, bs);
    forall i | 0 <= i < |out| && !g.Consumed(out[..i]) ensures g.Below(out[i], n) {
      InlineBelow(g, n, es, p, bs, i);
    }
    OuterConsumed(g, es[..p], b, bs, es[p + 1..]);
    assert es == es[..p] + [b] + es[p + 1..];
    assert out == out[..p] + bs + out[p + |bs|..];
  }

  lemma InlineBelow(g: Grammar, n: nat, es: seq<nat>, p: nat, bs: seq<nat>, i: nat)
    requires g.Valid() && n < |g.nodes| && g.KindOk(n, And(es)) && p < |es| && es[p] < |g.nodes| && g.nodes[es[p]].kind == And(bs)
    requires i < |Inline(es, p, bs)| && !g.Consumed(Inline(es, p, bs)[..i])
    ensures g.Below(Inline(es, p, bs)[i], n)
  {
    hide Grammar.Consumed, Grammar.KindOk;
    var b := es[p];
    assert g.KindOk(b, And(bs));
    if i < p {
      assert Inline(es, p, bs)[..i] == es[..i];
      BelowInSequence(g, n, es, i);
    } else if i < p + |bs| {
      assert Inline(es, p, bs)[..i] == es[..p] + bs[..i - p];
      ConsumedParts(g, es[..p], bs[..i - p]);
      BelowInSequence(g, n, es, p);
      BelowInSequence(g, b, bs, i - p);
    } else {
      var k := i - |bs| + 1;
      assert es[..k] == es[..p] + [b] + es[p + 1..k];
      assert Inline(es, p, bs)[..i] == es[..p] + bs + es[p + 1..k];
      OuterConsumed(g, es[..p], b, bs, es[p + 1..k]);
      BelowInSequence(g, n, es, k);
    }
  }

  lemma BelowInSequence(g: Grammar, n: nat, es: seq<nat>, i: nat)
    requires g.Valid() && n < |g.nodes| && g.KindOk(n, And(es)) && i < |es| && !g.Consumed(es[..i])
    ensures g.Below(es[i], n)
  {}

  lemma OuterConsumed(g: Grammar, front: seq<nat>, b: nat, bs: seq<nat>, back: seq<nat>)
    requires g.Valid() && b < |g.nodes| && g.KindOk(b, And(bs))
    ensures g.Consumed(front + [b] + back) ==> g.Consumed(front + bs + back)
  {
    ConsumedParts(g, front + [b], back);
    ConsumedParts(g, front, [b]);
    ConsumedParts(g, front + bs, back);
    ConsumedParts(g, front, bs);
  }

  lemma {:induction false} AndSuffix(g: Grammar, s: string, n: nat, es: seq<nat>, i: nat, fs: seq<nat>, j: nat, start: nat, loc: nat, toks: seq<string>, act: bool)
    requires Plain(g) && n < |g.nodes| && g.KindOk(n, And(es)) && g.KindOk(n, And(fs))
    requires 1 <= i <= |es| && 1 <= j <= |fs| && es[i..] == fs[j..] && start <= loc <= |s|
    requires (g.Consumed(es[..i]) ==> start < loc) && (g.Consumed(fs[..j]) ==> start < loc)
    ensures AndRest(g, s, n, es, i, start, loc, toks, false, act) == AndRest(g, s, n, fs, j, start, loc, toks, false, act)
    decreases |es| - i
  {
    hide Parse, AndRest, Grammar.KindOk;
    assert |es| - i == |fs| - j;
    if i < |es| {
      assert es[i] == es[i..][0] == fs[j..][0] == fs[j];
      AndStep(g, s, n, es, i, start, loc, toks, false, act);
      AndStep(g, s, n, fs, j, start, loc, toks, false, act);
      assert PlainNode(g, es[i]);
      var r := Parse(g, s, es[i], loc, act, true);
      if r.Ok? {
        assert es[i + 1..] == es[i..][1..] == fs[j + 1..];
        AndSuffix(g, s, n, es, i + 1, fs, j + 1, start, r.end, toks + r.toks, act);
      }
    } else {
      AndEnd(g, s, n, es, start, loc, toks, false, act);
      AndEnd(g, s, n, fs, start, loc, toks, false, act);
    }
  }

  /** Every element of the sequence from `i` on matches nothing at `loc`. */
  ghost predicate NothingFrom(g: Grammar, s: string, es: seq<nat>, i: nat, loc: nat, act: bool)
    requires g.Valid() && loc <= |s|
  {
    forall k :: i <= k < |es| ==> es[k] < |g.nodes| && Parse(g, s, es[k], loc, act, true) == Ok(loc, [])
  }

  /** A sequence goes on from before the whitespace as from behind it, unless all the rest of it matches nothing there:
      then it ends where it is. */
  lemma {:induction false} AndRestNear(g: Grammar, s: string, n: nat, es: seq<nat>, i: nat, start: nat, loc: nat, toks: seq<string>, act: bool)
    requires Plain(g) && n < |g.nodes| && g.KindOk(n, And(es)) && 1 <= i <= |es|
    requires start <= loc <= |s| && (g.Consumed(es[..i]) ==> start < loc)
    ensures var there := Skip(g.nodes[0], s, loc);
            var r, r' := AndRest(g, s, n, es, i, start, loc, toks, false, act), AndRest(g, s, n, es, i, start, there, toks, false, act);
            if there != loc && NothingFrom(g, s, es, i, loc, act) then r == Ok(loc, toks) && r' == Ok(there, toks) else r == r'
    decreases |es| - i
  {
    hide Parse, AndRest, Grammar.KindOk, Skip;
    var there := Skip(g.nodes[0], s, loc);
    if i < |es| {
      AndStep(g, s, n, es, i, start, loc, toks, false, act);
      AndStep(g, s, n, es, i, start, there, toks, false, act);
      assert PlainNode(g, es[i]);
      ParseNear(g, s, es[i], loc, act);
      if Parse(g, s, es[i], loc, act, true) == Ok(loc, []) {
        assert toks + [] == toks;
        ParsePlain(g, s, es[i], there, act, true);
        AndRestNear(g, s, n, es, i + 1, start, loc, toks, act);
      }
    } else {
      AndEnd(g, s, n, es, start, loc, toks, false, act);
      AndEnd(g, s, n, es, start, there, toks, false, act);
    }
  }

  /** At the inlined element, which is not the first: the nested sequence goes on behind the whitespace. */
  lemma AndInlineHere(g: Grammar, s: string, n: nat, es: seq<nat>, p: nat, bs: seq<nat>, start: nat, loc: nat, toks: seq<string>, act: bool)
    requires 1 <= p < |es| && start <= loc <= |s|
    requires Plain(g) && n < |g.nodes| && g.KindOk(n, And(es)) && g.KindOk(n, And(Inline(es, p, bs)))
    requires es[p] < |g.nodes| && g.nodes[es[p]].kind == And(bs)
    requires g.Consumed(es[..p]) ==> start < loc
    ensures AndRest(g, s, n, es, p, start, loc, toks, false, act) ==
            AndRest(g, s, n, Inline(es, p, bs), p, start, Skip(g.nodes[0], s, loc), toks, false, act)
  {
    hide Parse, AndRest, Grammar.KindOk, Skip;
    var b, out := es[p], Inline(es, p, bs);
    var there := Skip(g.nodes[0], s, loc);
    assert PlainNode(g, b) && g.KindOk(b, And(bs));
    SequenceNotEmpty(g, b, bs);
    FirstOfSequence(g, s, b, bs, there, act);
    assert PlainNode(g, bs[0]);
    SkipTwice(g.nodes[0], g.nodes[b], s, loc);
    SkipTwice(g.nodes[0], g.nodes[bs[0]], s, loc);
    ParsePlain(g, s, b, loc, act, true);
    ParsePlain(g, s, bs[0], there, act, true);
    ParsePlain(g, s, bs[0], there, act, false);
    AndStep(g, s, n, es, p, start, loc, toks, false, act);
    AndStep(g, s, n, out, p, start, there, toks, false, act);
    var r := Parse(g, s, bs[0], there, act, false);
    if r.Ok? {
      AndSegment(g, s, n, out, p, b, bs, 1, start, there, r.end, toks, r.toks, act);
      var q := AndRest(g, s, b, bs, 1, there, r.end, r.toks, false, act);
      if q.Ok? {
        AndSuffix(g, s, n, es, p + 1, out, p + |bs|, start, q.end, toks + q.toks, act);
      }
    }
  }

  lemma FirstOfSequence(g: Grammar, s: string, b: nat, bs: seq<nat>, loc: nat, act: bool)
    requires g.Valid() && b < |g.nodes| && g.KindOk(b, And(bs)) && loc <= |s|
    ensures bs != [] && bs[0] < |g.nodes| && (g.Consumed(bs[..1]) ==> g.consumes[bs[0]])
    ensures var r := Parse(g, s, bs[0], loc, act, false);
            Impl(g, s, b, And(bs), loc, act) == if r.Ok? then AndRest(g, s, b, bs, 1, loc, r.end, r.toks, false, act) else r
  {}

  // --- what comes before the inlined element -----------------------------------------------------------------------------

  /** The elements from `i` to `k`, one after the other. */
  ghost function Reached(g: Grammar, s: string, es: seq<nat>, i: nat, k: nat, loc: nat, toks: seq<string>, act: bool): (r: Outcome)
    requires g.Valid() && (forall e :: e in es ==> e < |g.nodes|) && i <= k <= |es| && loc <= |s|
    ensures r.Ok? ==> loc <= r.end <= |s|
    decreases k - i
  {
    if i == k then
      Ok(loc, toks)
    else
      assert es[i] in es;
      var r := Parse(g, s, es[i], loc, act, true);
      if r.Ok? then Reached(g, s, es, i + 1, k, r.end, toks + r.toks, act) else r
  }

  /** The first `p` elements of a sequence. */
  ghost function Prefix(g: Grammar, s: string, es: seq<nat>, p: nat, loc: nat, act: bool): (r: Outcome)
    requires g.Valid() && (forall e :: e in es ==> e < |g.nodes|) && 1 <= p <= |es| && loc <= |s|
    ensures r.Ok? ==> r.end <= |s|
  {
    assert es[0] in es;
    var r := Parse(g, s, es[0], loc, act, false);
    if r.Ok? then Reached(g, s, es, 1, p, r.end, r.toks, act) else r
  }

  /** What stands before the inlined element matches, whitespace follows, and neither the inlined elements nor those after
      them match anything there. */
  ghost predicate Moves(g: Grammar, s: string, es: seq<nat>, p: nat, out: seq<nat>, loc: nat, act: bool)
    requires g.Valid() && (forall e :: e in es ==> e < |g.nodes|) && p < |es| && loc <= |s|
  {
    assert es[p] in es;
    p > 0 &&
    match Prefix(g, s, es, p, loc, act)
    case Ok(q, _) => q <= |s| && Skip(g.nodes[0], s, q) != q && NothingFrom(g, s, out, p, q, act)
    case Fail(_, _) => false
  }

  lemma {:induction false} AndRestReaches(g: Grammar, s: string, n: nat, es: seq<nat>, i: nat, k: nat, start: nat, loc: nat, toks: seq<string>, act: bool)
    requires Plain(g) && n < |g.nodes| && g.KindOk(n, And(es)) && 1 <= i <= k <= |es| && forall e :: e in es ==> e < |g.nodes|
    requires start <= loc <= |s| && (g.Consumed(es[..i]) ==> start < loc)
    ensures var r := Reached(g, s, es, i, k, loc, toks, act);
            && (r.Ok? ==> start <= r.end && (g.Consumed(es[..k]) ==> start < r.end))
            && AndRest(g, s, n, es, i, start, loc, toks, false, act) == if r.Ok? then AndRest(g, s, n, es, k, start, r.end, r.toks, false, act) else r
    decreases k - i
  {
    hide Parse, AndRest, Grammar.KindOk;
    if i < k {
      AndStep(g, s, n, es, i, start, loc, toks, false, act);
      assert PlainNode(g, es[i]);
      ParsePlain(g, s, es[i], loc, act, true);
      var r := Parse(g, s, es[i], loc, act, true);
      if r.Ok? {
        AndRestReaches(g, s, n, es, i + 1, k, start, r.end, toks + r.toks, act);
      }
    }
  }

  lemma {:induction false} SameReached(g: Grammar, s: string, es: seq<nat>, fs: seq<nat>, i: nat, k: nat, loc: nat, toks: seq<string>, act: bool)
    requires g.Valid() && (forall e :: e in es ==> e < |g.nodes|) && (forall e :: e in fs ==> e < |g.nodes|)
    requires i <= k <= |es| && k <= |fs| && es[..k] == fs[..k] && loc <= |s|
    ensures Reached(g, s, es, i, k, loc, toks, act) == Reached(g, s, fs, i, k, loc, toks, act)
    decreases k - i
  {
    hide Parse;
    if i < k {
      assert es[i] == es[..k][i] == fs[..k][i] == fs[i] && es[i] in es;
      var r := Parse(g, s, es[i], loc, act, true);
      if r.Ok? {
        SameReached(g, s, es, fs, i + 1, k, r.end, toks + r.toks, act);
      }
    }
  }

  /** A sequence is its first `p` elements and the rest. */
  lemma AndSplits(g: Grammar, s: string, n: nat, es: seq<nat>, p: nat, loc: nat, act: bool)
    requires Plain(g) && n < |g.nodes| && g.KindOk(n, And(es)) && 1 <= p <= |es| && loc <= |s|
    ensures forall e :: e in es ==> e < |g.nodes|
    ensures var r := Prefix(g, s, es, p, loc, act);
            && (r.Ok? ==> loc <= r.end && (g.Consumed(es[..p]) ==> loc < r.end))
            && Impl(g, s, n, And(es), loc, act) == if r.Ok? then AndRest(g, s, n, es, p, loc, r.end, r.toks, false, act) else r
  {
    hide Parse, AndRest, Impl;
    FirstOfSequence(g, s, n, es, loc, act);
    var r := Parse(g, s, es[0], loc, act, false);
    if r.Ok? {
      AndRestReaches(g, s, n, es, 1, p, loc, r.end, r.toks, act);
    }
  }

  /** Inlining a sequence in a sequence: the same, but that the match ends before the whitespace when all that comes from
      the inlined element on matches nothing there. Nothing else changes, and it happens in no other case. */
  lemma AndInlineExactly(g: Grammar, s: string, n: nat, es: seq<nat>, p: nat, bs: seq<nat>, loc: nat, act: bool)
    requires Plain(g) && n < |g.nodes| && g.KindOk(n, And(es)) && p < |es| && loc <= |s|
    requires es[p] < |g.nodes| && g.nodes[es[p]].kind == And(bs)
    ensures g.KindOk(n, And(Inline(es, p, bs))) && forall e :: e in es ==> e < |g.nodes|
    ensures var nested, flat := Impl(g, s, n, And(es), loc, act), Impl(g, s, n, And(Inline(es, p, bs)), loc, act);
            && (flat != nested <==> Moves(g, s, es, p, Inline(es, p, bs), loc, act))
            && (flat != nested ==> flat.Ok? && nested == Ok(Skip(g.nodes[0], s, flat.end), flat.toks) && nested.end != flat.end)
  {
    hide Parse, Impl, AndRest, Grammar.KindOk, Inline, Skip, NothingFrom, Reached;
    var out := Inline(es, p, bs);
    AndInlineOk(g, n, es, p, bs);
    AllInRange(g, n, es);
    AllInRange(g, n, out);
    if p == 0 {
      AndInlineFirst(g, s, n, es, bs, loc, act);
    } else {
      AndSplits(g, s, n, es, p, loc, act);
      AndSplits(g, s, n, out, p, loc, act);
      SamePrefix(g, s, es, out, p, loc, act);
      var r := Prefix(g, s, es, p, loc, act);
      if r.Ok? {
        AndInlineHere(g, s, n, es, p, bs, loc, r.end, r.toks, act);
        AndRestNear(g, s, n, out, p, loc, r.end, r.toks, act);
      }
    }
  }

  lemma AllInRange(g: Grammar, n: nat, es: seq<nat>)
    requires g.Valid() && n < |g.nodes| && g.KindOk(n, And(es))
    ensures forall e :: e in es ==> e < |g.nodes|
  {}

  lemma SamePrefix(g: Grammar, s: string, es: seq<nat>, fs: seq<nat>, p: nat, loc: nat, act: bool)
    requires g.Valid() && (forall e :: e in es ==> e < |g.nodes|) && (forall e :: e in fs ==> e < |g.nodes|)
    requires 1 <= p <= |es| && p <= |fs| && es[..p] == fs[..p] && loc <= |s|
    ensures Prefix(g, s, es, p, loc, act) == Prefix(g, s, fs, p, loc, act)
  {
    hide Parse;
    assert es[0] == es[..p][0] == fs[..p][0] == fs[0] && es[0] in es;
    var r := Parse(g, s, es[0], loc, act, false);
    if r.Ok? {
      SameReached(g, s, es, fs, 1, p, r.end, r.toks, act);
    }
  }

  /** Some element cannot match nothing before whitespace. */
  ghost predicate Anchored(g: Grammar, es: seq<nat>)
    requires g.Valid()
  {
    exists k :: 0 <= k < |es| && es[k] < |g.nodes| && Tolerant(g, es[k])
  }

  /** So inlining is neutral at the first place of a sequence, and where the inlined elements have an anchor. */
  lemma AndInline(g: Grammar, s: string, n: nat, es: seq<nat>, p: nat, bs: seq<nat>, loc: nat, act: bool)
    requires Plain(g) && n < |g.nodes| && g.KindOk(n, And(es)) && p < |es| && loc <= |s|
    requires es[p] < |g.nodes| && g.nodes[es[p]].kind == And(bs) && (p == 0 || Anchored(g, bs))
    ensures g.KindOk(n, And(Inline(es, p, bs)))
    ensures Impl(g, s, n, And(Inline(es, p, bs)), loc, act) == Impl(g, s, n, And(es), loc, act)
  {
    hide Parse, Impl, Grammar.KindOk, Tolerant, Skip, Prefix;
    AndInlineExactly(g, s, n, es, p, bs, loc, act);
    if p > 0 && Prefix(g, s, es, p, loc, act).Ok? {
      var q := Prefix(g, s, es, p, loc, act).end;
      var out := Inline(es, p, bs);
      var k :| 0 <= k < |bs| && bs[k] < |g.nodes| && Tolerant(g, bs[k]);
      assert out[p..p + |bs|][k] == out[p + k] == bs[k];
      if Skip(g.nodes[0], s, q) != q {
        TolerantMeans(g, s, bs[k], q, act);
      }
    }
  }

  lemma AndInlineFirst(g: Grammar, s: string, n: nat, es: seq<nat>, bs: seq<nat>, loc: nat, act: bool)
    requires Plain(g) && n < |g.nodes| && es != [] && g.KindOk(n, And(es)) && g.KindOk(n, And(Inline(es, 0, bs))) && loc <= |s|
    requires es[0] < |g.nodes| && g.nodes[es[0]].kind == And(bs)
    ensures Impl(g, s, n, And(Inline(es, 0, bs)), loc, act) == Impl(g, s, n, And(es), loc, act)
  {
    hide Parse, Impl, AndRest, Grammar.KindOk, Inline;
    var a, out := es[0], Inline(es, 0, bs);
    FirstOfSequence(g, s, n, es, loc, act);
    FirstOfSequence(g, s, n, out, loc, act);
    assert PlainNode(g, a) && g.KindOk(a, And(bs));
    ParsePlain(g, s, a, loc, act, false);
    SequenceNotEmpty(g, a, bs);
    FirstOfSequence(g, s, a, bs, loc, act);
    var r := Parse(g, s, bs[0], loc, act, false);
    if r.Ok? {
      AndSegment(g, s, n, out, 0, a, bs, 1, loc, loc, r.end, [], r.toks, act);
      assert [] + r.toks == r.toks;
      var q := AndRest(g, s, a, bs, 1, loc, r.end, r.toks, false, act);
      if q.Ok? {
        assert [] + q.toks == q.toks;
        AndSuffix(g, s, n, es, 1, out, |bs|, loc, q.end, q.toks, act);
      }
    }
  }

  lemma SequenceNotEmpty(g: Grammar, n: nat, es: seq<nat>)
    requires g.Valid() && n < |g.nodes| && g.KindOk(n, And(es))
    ensures es != []
  {}

  // --- first match -----------------------------------------------------------------------------------------------------

  lemma FirstInlineOk(g: Grammar, n: nat, es: seq<nat>, p: nat, bs: seq<nat>)
    requires g.Valid() && n < |g.nodes| && g.KindOk(n, MatchFirst(es)) && p < |es| && es[p] < |g.nodes| && g.nodes[es[p]].kind == MatchFirst(bs)
    ensures g.KindOk(n, MatchFirst(Inline(es, p, bs)))
  {
    assert es[p] in es && g.KindOk(es[p], MatchFirst(bs));
    InlineMembers(es, p, bs);
  }

  lemma {:induction false} FirstSuffix(g: Grammar, s: string, n: nat, es: seq<nat>, i: nat, fs: seq<nat>, j: nat, loc: nat, w: Option<nat>, act: bool)
    requires g.Valid() && n < |g.nodes| && g.KindOk(n, MatchFirst(es)) && g.KindOk(n, MatchFirst(fs))
    requires i <= |es| && j <= |fs| && es[i..] == fs[j..] && loc <= |s|
    ensures FirstOf(g, s, n, es, i, loc, w, act) == FirstOf(g, s, n, fs, j, loc, w, act)
    decreases |es| - i
  {
    hide Parse;
    assert |es| - i == |fs| - j;
    if i < |es| {
      assert es[i] == es[i..][0] == fs[j..][0] == fs[j] && es[i] in es;
      assert es[i + 1..] == es[i..][1..] == fs[j + 1..];
      var r := Parse(g, s, es[i], loc, act, true);
      if r.Fail? {
        FirstSuffix(g, s, n, es, i + 1, fs, j + 1, loc, Further(w, r.loc), act);
      }
    }
  }

  lemma FirstInlineHere(g: Grammar, s: string, n: nat, es: seq<nat>, p: nat, bs: seq<nat>, loc: nat, w: Option<nat>, act: bool)
    requires p < |es| && loc <= |s|
    requires Plain(g) && n < |g.nodes| && g.KindOk(n, MatchFirst(es)) && g.KindOk(n, MatchFirst(Inline(es, p, bs)))
    requires es[p] < |g.nodes| && g.nodes[es[p]].kind == MatchFirst(bs)
    ensures FirstOf(g, s, n, es, p, loc, w, act) == FirstOf(g, s, n, Inline(es, p, bs), p, loc, w, act)
  {
    hide Parse, FirstOf, Grammar.KindOk, Inline;
    var b, out := es[p], Inline(es, p, bs);
    assert PlainNode(g, b) && g.KindOk(b, MatchFirst(bs));
    ParsePlain(g, s, b, loc, act, true);
    FirstStep(g, s, n, es, p, loc, w, act);
    FirstSegment(g, s, n, out, p, b, bs, 0, loc, w, None, act);
    var r := Parse(g, s, b, loc, act, true);
    if r.Fail? {
      FirstSuffix(g, s, n, es, p + 1, out, p + |bs|, loc, Further(w, r.loc), act);
    }
  }

  lemma FirstStep(g: Grammar, s: string, n: nat, es: seq<nat>, i: nat, loc: nat, w: Option<nat>, act: bool)
    requires g.Valid() && n < |g.nodes| && g.KindOk(n, MatchFirst(es)) && i < |es| && loc <= |s|
    ensures es[i] < |g.nodes|
    ensures var r := Parse(g, s, es[i], loc, act, true);
            FirstOf(g, s, n, es, i, loc, w, act) == if r.Fail? && !r.fatal then FirstOf(g, s, n, es, i + 1, loc, Further(w, r.loc), act) else r
  {
    hide Parse;
    assert es[i] in es;
  }

  /** Inlining a choice in a choice of the same kind: first match. */
  lemma {:induction false} FirstInline(g: Grammar, s: string, n: nat, es: seq<nat>, p: nat, bs: seq<nat>, i: nat, loc: nat, w: Option<nat>, act: bool)
    requires i <= p < |es| && loc <= |s|
    requires Plain(g) && n < |g.nodes| && g.KindOk(n, MatchFirst(es)) && g.KindOk(n, MatchFirst(Inline(es, p, bs)))
    requires es[p] < |g.nodes| && g.nodes[es[p]].kind == MatchFirst(bs)
    ensures FirstOf(g, s, n, es, i, loc, w, act) == FirstOf(g, s, n, Inline(es, p, bs), i, loc, w, act)
    decreases p - i
  {
    hide Parse, FirstOf, Grammar.KindOk, Inline;
    var out := Inline(es, p, bs);
    if i < p {
      assert out[i] == out[..p][i] == es[i];
      FirstStep(g, s, n, es, i, loc, w, act);
      FirstStep(g, s, n, out, i, loc, w, act);
      var r := Parse(g, s, es[i], loc, act, true);
      if r.Fail? {
        FirstInline(g, s, n, es, p, bs, i + 1, loc, Further(w, r.loc), act);
      }
    } else {
      FirstInlineHere(g, s, n, es, p, bs, loc, w, act);
    }
  }

  // --- longest match ----------------------------------------------------------------------------------------------------

  lemma OrInlineOk(g: Grammar, n: nat, es: seq<nat>, p: nat, bs: seq<nat>)
    requires g.Valid() && n < |g.nodes| && g.KindOk(n, Or(es)) && p < |es| && es[p] < |g.nodes| && g.nodes[es[p]].kind == Or(bs)
    ensures g.KindOk(n, Or(Inline(es, p, bs)))
    ensures Alternatives(g, es) && Alternatives(g, bs) && Alternatives(g, Inline(es, p, bs))
  {
    assert es[p] in es && g.KindOk(es[p], Or(bs));
    InlineMembers(es, p, bs);
    AllIn(g, n, es);
    AllIn(g, es[p], bs);
    AllIn(g, n, Inline(es, p, bs));
  }

  lemma AllIn(g: Grammar, n: nat, es: seq<nat>)
    requires g.Valid() && n < |g.nodes| && g.KindOk(n, Or(es))
    ensures Alternatives(g, es)
  {
    forall k | 0 <= k < |es| ensures es[k] < |g.nodes| {
      assert es[k] in es;
    }
  }

  lemma {:induction false} OrSuffix(g: Grammar, s: string, es: seq<nat>, i: nat, fs: seq<nat>, j: nat, loc: nat, w: Option<nat>)
    requires g.Valid() && Alternatives(g, es) && Alternatives(g, fs)
    requires i <= |es| && j <= |fs| && es[i..] == fs[j..] && loc <= |s|
    ensures Pick(g, s, es, loc, i) == Pick(g, s, fs, loc, j) && WorstFrom(g, s, es, loc, i, w) == WorstFrom(g, s, fs, loc, j, w)
    decreases |es| - i
  {
    hide Parse, Grammar.Valid;
    assert |es| - i == |fs| - j;
    if i < |es| {
      assert es[i] == es[i..][0] == fs[j..][0] == fs[j];
      assert es[i + 1..] == es[i..][1..] == fs[j + 1..];
      OrSuffix(g, s, es, i + 1, fs, j + 1, loc, if Tried(g, s, es, loc, i).Ok? then w else Further(w, FailedAt(g, s, es, loc, i)));
    }
  }

  /** Inlining a choice in a choice of the same kind: longest match. */
  lemma {:induction false} OrInline(g: Grammar, s: string, es: seq<nat>, p: nat, bs: seq<nat>, i: nat, loc: nat, w: Option<nat>)
    requires Plain(g) && i <= p < |es| && loc <= |s| && es[p] < |g.nodes| && g.nodes[es[p]].kind == Or(bs)
    requires Alternatives(g, es) && Alternatives(g, bs) && Alternatives(g, Inline(es, p, bs))
    ensures var out := Inline(es, p, bs);
            && Pick(g, s, es, loc, i) == Pick(g, s, out, loc, i)
            && (Pick(g, s, es, loc, i).None? ==> WorstFrom(g, s, es, loc, i, w) == WorstFrom(g, s, out, loc, i, w))
    decreases p - i
  {
    hide Parse, Impl, Grammar.KindOk, Alternatives;
    var out := Inline(es, p, bs);
    if i < p {
      assert out[i] == out[..p][i] == es[i];
      OrInline(g, s, es, p, bs, i + 1, loc, if Tried(g, s, es, loc, i).Ok? then w else Further(w, FailedAt(g, s, es, loc, i)));
    } else {
      var b := es[p];
      assert PlainNode(g, b) && g.KindOk(b, Or(bs));
      ParsePlain(g, s, b, loc, false, true);
      OrPlain(g, s, b, bs, loc, false);
      assert Tried(g, s, es, loc, p) == Choice(g, s, bs, loc);
      ChoiceFails(g, s, b, bs, loc);
      OrSegment(g, s, out, p, bs, 0, loc, w, None);
      var w' := if Tried(g, s, es, loc, p).Ok? then w else Further(w, FailedAt(g, s, es, loc, p));
      OrSuffix(g, s, es, p + 1, out, p + |bs|, loc, w');
    }
  }

  /** A choice that fails does so where its furthest alternative does. */
  lemma ChoiceFails(g: Grammar, s: string, b: nat, bs: seq<nat>, loc: nat)
    requires Plain(g) && b < |g.nodes| && g.nodes[b].kind == Or(bs) && Alternatives(g, bs) && loc <= |s|
    ensures if Pick(g, s, bs, loc, 0).Some? then Choice(g, s, bs, loc) == Pick(g, s, bs, loc, 0).value
            else Choice(g, s, bs, loc).Fail? && !Choice(g, s, bs, loc).fatal && WorstFrom(g, s, bs, loc, 0, None) == Some(Choice(g, s, bs, loc).loc)
  {
    hide Parse, Pick, WorstFrom;
    assert PlainNode(g, b) && g.KindOk(b, Or(bs));
    forall k | 0 <= k < |bs| ensures Peaceful(Tried(g, s, bs, loc, k)) {
      ParsePlain(g, s, bs[k], loc, false, true);
    }
    PickSame(g, s, bs, loc, loc, 0, None);
  }
}
