/** `streamline`: nested sequences and choices of pairs are flattened, and parse as before. */
module Streamline {
  import opened Options
  import opened ParserCore
  import opened ParserMeaning
  import opened OrChoice
  import opened PlainGrammar
  import opened Flattening
  import opened Inlining

  // --- one inlining step --------------------------------------------------------------------------------------------

  predicate IsList(kind: Kind) {
    kind.And? || kind.MatchFirst? || kind.Or?
  }

  predicate SameClass(a: Kind, b: Kind) {
    (a.And? && b.And?) || (a.MatchFirst? && b.MatchFirst?) || (a.Or? && b.Or?)
  }

  function WithExprs(kind: Kind, es: seq<nat>): Kind
    requires IsList(kind)
  {
    match kind
    case And(_) => And(es)
    case MatchFirst(_) => MatchFirst(es)
    case Or(_) => Or(es)
  }

  /** The element at `p` of the list `n` is of the class of `n`. */
  predicate CanInline(g: Grammar, n: nat, p: nat) {
    && n < |g.nodes| && IsList(g.nodes[n].kind) && p < |g.nodes[n].kind.exprs| && g.nodes[n].kind.exprs[p] < |g.nodes|
    && SameClass(g.nodes[n].kind, g.nodes[g.nodes[n].kind.exprs[p]].kind)
  }

  function Inlined(g: Grammar, n: nat, p: nat): Grammar
    requires CanInline(g, n, p)
  {
    var es := g.nodes[n].kind.exprs;
    g.(nodes := g.nodes[n := g.nodes[n].(kind := WithExprs(g.nodes[n].kind, Inline(es, p, g.nodes[es[p]].kind.exprs)))])
  }

  /** From sequence to sequence, each an element of the one before, down to an element that is none and cannot match
      nothing before whitespace. */
  ghost predicate Leads(g: Grammar, path: seq<nat>)
    requires g.Valid()
  {
    && path != [] && (forall i :: 0 <= i < |path| ==> path[i] < |g.nodes|)
    && (forall i :: 0 <= i < |path| - 1 ==> Inside(g, path[i], path[i + 1]))
    && !g.nodes[path[|path| - 1]].kind.And? && Tolerant(g, path[|path| - 1])
  }

  predicate Inside(g: Grammar, n: nat, e: nat) {
    n < |g.nodes| && g.nodes[n].kind.And? && e in g.nodes[n].kind.exprs
  }

  /** The sequence, and the sequences in it when they have given way to their elements, keep such an element. */
  ghost predicate DeepAnchor(g: Grammar, n: nat)
    requires g.Valid()
  {
    exists path :: Leads(g, path) && path[0] == n
  }

  /** Grammars whose flattening is neutral: a sequence that stands second in a pair has an anchor. */
  ghost predicate Flattens(g: Grammar) {
    Plain(g) && forall n :: 0 <= n < |g.nodes| ==> SecondAnchored(g, n)
  }

  ghost predicate SecondAnchored(g: Grammar, n: nat)
    requires g.Valid() && n < |g.nodes|
  {
    var kind := g.nodes[n].kind;
    kind.And? && |kind.exprs| == 2 && kind.exprs[1] < |g.nodes| && g.nodes[kind.exprs[1]].kind.And? ==> DeepAnchor(g, kind.exprs[1])
  }

  /** A sequence may give way to its elements at the first place, or when it has an anchor. */
  ghost predicate MayInline(g: Grammar, n: nat, p: nat)
    requires g.Valid() && CanInline(g, n, p)
  {
    g.nodes[n].kind.And? ==> p == 0 || DeepAnchor(g, g.nodes[n].kind.exprs[p])
  }

  lemma KindCarries(g: Grammar, h: Grammar, m: nat, kind: Kind)
    requires |g.rank| == |g.nodes| == |g.consumes| && h.rank == g.rank && h.consumes == g.consumes && |h.nodes| == |g.nodes|
    requires m < |g.nodes| && g.KindOk(m, kind)
    ensures h.KindOk(m, kind)
  {}

  lemma InlinedKindOk(g: Grammar, n: nat, p: nat)
    requires Plain(g) && CanInline(g, n, p)
    ensures g.KindOk(n, Inlined(g, n, p).nodes[n].kind)
  {
    hide Grammar.Below, Grammar.Consumed;
    var es := g.nodes[n].kind.exprs;
    var bs := g.nodes[es[p]].kind.exprs;
    assert g.KindOk(n, g.nodes[n].kind);
    match g.nodes[n].kind {
      case And(_) => AndInlineOk(g, n, es, p, bs);
      case MatchFirst(_) => FirstInlineOk(g, n, es, p, bs);
      case Or(_) => OrInlineOk(g, n, es, p, bs);
    }
  }

  lemma InlinedImpl(g: Grammar, n: nat, p: nat, s: string, loc: nat, act: bool)
    requires Plain(g) && CanInline(g, n, p) && MayInline(g, n, p) && loc <= |s|
    ensures g.KindOk(n, Inlined(g, n, p).nodes[n].kind)
    ensures Impl(g, s, n, Inlined(g, n, p).nodes[n].kind, loc, act) == Impl(g, s, n, g.nodes[n].kind, loc, act)
  {
    hide Parse, AndRest, FirstOf, Inline, Grammar.KindOk, Pick, WorstFrom, Tolerant, PlainNode, DeepAnchor, Anchored;
    InlinedKindOk(g, n, p);
    var es := g.nodes[n].kind.exprs;
    var b := es[p];
    var bs := g.nodes[b].kind.exprs;
    assert g.KindOk(n, g.nodes[n].kind);
    match g.nodes[n].kind {
      case And(_) =>
        if p > 0 {
          AnchorInside(g, b);
        }
        hide Impl;
        AndInline(g, s, n, es, p, bs, loc, act);
      case MatchFirst(_) => FirstInline(g, s, n, es, p, bs, 0, loc, None, act);
      case Or(_) =>
        OrInlineOk(g, n, es, p, bs);
        OrInline(g, s, es, p, bs, 0, loc, None);
        OrPlain(g, s, n, es, loc, act);
        OrPlain(g, s, n, Inline(es, p, bs), loc, act);
    }
  }

  /** The next element on the way is an anchor itself: a sequence skips whitespace. */
  lemma AnchorInside(g: Grammar, b: nat)
    requires Plain(g) && b < |g.nodes| && g.nodes[b].kind.And? && DeepAnchor(g, b)
    ensures Anchored(g, g.nodes[b].kind.exprs)
  {
    hide Tolerant;
    var path :| Leads(g, path) && path[0] == b;
    assert Inside(g, path[0], path[1]) && PlainNode(g, path[1]);
    if |path| > 2 {
      assert Inside(g, path[1], path[2]);
      SkipperTolerant(g, path[1]);
    }
    var es := g.nodes[b].kind.exprs;
    var k :| 0 <= k < |es| && es[k] == path[1];
  }

  lemma SkipperTolerant(g: Grammar, n: nat)
    requires g.Valid() && n < |g.nodes| && g.nodes[n].callPreparse
    ensures Tolerant(g, n)
  {}

  lemma InlinedValid(g: Grammar, n: nat, p: nat)
    requires Plain(g) && CanInline(g, n, p)
    ensures Inlined(g, n, p).Valid() && Plain(Inlined(g, n, p))
  {
    hide Grammar.KindOk, Inline, Tolerant;
    var h := Inlined(g, n, p);
    forall m | 0 <= m < |h.nodes| ensures h.KindOk(m, h.nodes[m].kind) {
      InlinedKindOk(g, n, p);
      KindCarries(g, h, m, h.nodes[m].kind);
    }
    forall m | 0 <= m < |h.nodes| ensures PlainNode(h, m) {
      assert PlainNode(g, m) && PlainNode(g, g.nodes[n].kind.exprs[p]);
    }
  }

  lemma TolerantStays(g: Grammar, n: nat, p: nat, m: nat)
    requires Plain(g) && CanInline(g, n, p) && Inlined(g, n, p).Valid() && m < |g.nodes| && Tolerant(g, m)
    ensures Tolerant(Inlined(g, n, p), m)
    decreases g.rank[m], 1
  {
    hide Inline, Grammar.Consumed;
    var h := Inlined(g, n, p);
    assert PlainNode(g, m) && g.KindOk(m, g.nodes[m].kind);
    if !g.nodes[m].callPreparse && !g.consumes[m] {
      match g.nodes[m].kind {
        case MatchFirst(es) => ElementsStay(g, n, p, m, es);
        case Or(es) => ElementsStay(g, n, p, m, es);
        case OneOrMore(e) =>
        case Forward(e) => TolerantStays(g, n, p, e);
      }
    }
  }

  lemma ElementsStay(g: Grammar, n: nat, p: nat, m: nat, es: seq<nat>)
    requires Plain(g) && CanInline(g, n, p) && Inlined(g, n, p).Valid() && m < |g.nodes|
    requires (g.nodes[m].kind == MatchFirst(es) || g.nodes[m].kind == Or(es)) && forall e :: e in es ==> e < |g.nodes| && Tolerant(g, e)
    ensures forall e :: e in Inlined(g, n, p).nodes[m].kind.exprs ==> e < |g.nodes| && Tolerant(Inlined(g, n, p), e)
    decreases g.rank[m], 0
  {
    hide Inline, Grammar.Consumed, Tolerant;
    assert g.KindOk(m, g.nodes[m].kind);
    forall e | e in Inlined(g, n, p).nodes[m].kind.exprs ensures e < |g.nodes| && Tolerant(Inlined(g, n, p), e) {
      if e in es {
        TolerantStays(g, n, p, e);
      } else {
        var b := es[p];
        InlineMembers(es, p, g.nodes[b].kind.exprs);
        InnerTolerant(g, b, e);
        TolerantStays(g, n, p, e);
      }
    }
  }

  /** An alternative of a tolerant choice is tolerant. */
  lemma InnerTolerant(g: Grammar, b: nat, e: nat)
    requires Plain(g) && b < |g.nodes| && Tolerant(g, b) && (g.nodes[b].kind.MatchFirst? || g.nodes[b].kind.Or?) && e in g.nodes[b].kind.exprs
    ensures e < |g.nodes| && g.rank[e] < g.rank[b] && Tolerant(g, e)
  {
    hide Grammar.Consumed;
    assert PlainNode(g, b) && g.KindOk(b, g.nodes[b].kind);
  }

  /** An anchor is still reached, perhaps past the sequence that gave way. */
  lemma {:induction false} PathStays(g: Grammar, n: nat, p: nat, path: seq<nat>) returns (later: seq<nat>)
    requires Plain(g) && CanInline(g, n, p) && Inlined(g, n, p).Valid() && Leads(g, path)
    ensures Leads(Inlined(g, n, p), later) && later[0] == path[0]
    decreases |path|
  {
    hide Tolerant, Inline;
    var h := Inlined(g, n, p);
    if |path| == 1 {
      TolerantStays(g, n, p, path[0]);
      later := path;
    } else {
      assert Inside(g, path[0], path[1]);
      LeadsOn(g, path);
      var tail := PathStays(g, n, p, path[1..]);
      if Inside(h, path[0], path[1]) {
        later := [path[0]] + tail;
        LeadsFrom(h, path[0], tail);
      } else {
        GaveWay(g, n, p, path[1]);
        if path[1] == n {
          later := tail;
        } else {
          assert Inside(h, tail[0], tail[1]);
          LeadsOn(h, tail);
          later := [n] + tail[1..];
          LeadsFrom(h, n, tail[1..]);
        }
      }
    }
  }

  lemma LeadsOn(g: Grammar, path: seq<nat>)
    requires g.Valid() && Leads(g, path) && |path| > 1
    ensures Leads(g, path[1..])
  {
    hide Tolerant;
    var rest := path[1..];
    forall i | 0 <= i < |rest| - 1 ensures Inside(g, rest[i], rest[i + 1]) {
      assert Inside(g, path[i + 1], path[i + 2]);
    }
  }

  lemma LeadsFrom(g: Grammar, n: nat, rest: seq<nat>)
    requires g.Valid() && Leads(g, rest) && Inside(g, n, rest[0])
    ensures Leads(g, [n] + rest)
  {
    hide Tolerant;
    var path := [n] + rest;
    forall i | 0 <= i < |path| - 1 ensures Inside(g, path[i], path[i + 1]) {
      if i > 0 {
        assert Inside(g, rest[i - 1], rest[i]);
      }
    }
  }

  /** The only element a list loses is the one that gave way, and it gets that one's elements. */
  lemma GaveWay(g: Grammar, n: nat, p: nat, e: nat)
    requires Plain(g) && CanInline(g, n, p) && Inside(g, n, e) && !Inside(Inlined(g, n, p), n, e)
    ensures e == g.nodes[n].kind.exprs[p] && g.nodes[e].kind.And?
    ensures forall c :: Inside(g, e, c) ==> Inside(Inlined(g, n, p), n, c)
  {}

  lemma AnchorStays(g: Grammar, n: nat, p: nat, m: nat)
    requires Plain(g) && CanInline(g, n, p) && Inlined(g, n, p).Valid() && DeepAnchor(g, m)
    ensures DeepAnchor(Inlined(g, n, p), m)
  {
    hide Tolerant, Inlined, Inside;
    var path :| Leads(g, path) && path[0] == m;
    var later := PathStays(g, n, p, path);
  }

  /** Only the list itself has another kind. */
  lemma OneRewritten(g: Grammar, n: nat, p: nat)
    requires Plain(g) && CanInline(g, n, p) && Plain(Inlined(g, n, p)) && g.KindOk(n, Inlined(g, n, p).nodes[n].kind)
    requires forall s, loc, act :: 0 <= loc <= |s| ==>
               Impl(g, s, n, Inlined(g, n, p).nodes[n].kind, loc, act) == Impl(g, s, n, g.nodes[n].kind, loc, act)
    ensures Rewrites(g, Inlined(g, n, p))
  {
    hide Impl, PlainNode, Inline, Grammar.KindOk;
    var h := Inlined(g, n, p);
    forall m | 0 <= m < |g.nodes| ensures SameImpl(g, h, m) {
      if m != n {
        assert h.nodes[m].kind == g.nodes[m].kind && g.KindOk(m, g.nodes[m].kind);
      }
    }
  }

  /** Inlining keeps all that flattening rests on, and every element parses as before. */
  lemma InlineKeeps(g: Grammar, n: nat, p: nat)
    requires Flattens(g) && CanInline(g, n, p) && MayInline(g, n, p)
    ensures Flattens(Inlined(g, n, p)) && Rewrites(g, Inlined(g, n, p))
    ensures forall m :: DeepAnchor(g, m) ==> DeepAnchor(Inlined(g, n, p), m)
  {
    hide Grammar.KindOk, Impl, Tolerant, PlainNode, DeepAnchor, MayInline, SecondAnchored;
    var h := Inlined(g, n, p);
    InlinedValid(g, n, p);
    InlinedKindOk(g, n, p);
    forall s, loc, act | 0 <= loc <= |s| ensures Impl(g, s, n, h.nodes[n].kind, loc, act) == Impl(g, s, n, g.nodes[n].kind, loc, act) {
      InlinedImpl(g, n, p, s, loc, act);
    }
    OneRewritten(g, n, p);
    forall m | DeepAnchor(g, m) ensures DeepAnchor(h, m) {
      AnchorStays(g, n, p, m);
    }
    forall m | 0 <= m < |h.nodes| ensures SecondAnchored(h, m) {
      SecondStays(g, n, p, m);
    }
  }

  lemma SecondStays(g: Grammar, n: nat, p: nat, m: nat)
    requires Flattens(g) && CanInline(g, n, p) && MayInline(g, n, p) && Inlined(g, n, p).Valid() && m < |g.nodes|
    requires forall m :: DeepAnchor(g, m) ==> DeepAnchor(Inlined(g, n, p), m)
    ensures SecondAnchored(Inlined(g, n, p), m)
  {
    hide Grammar.KindOk, PlainNode, DeepAnchor, Inline;
    var h := Inlined(g, n, p);
    assert SecondAnchored(g, m);
    if m == n && g.nodes[n].kind.And? {
      var es := g.nodes[n].kind.exprs;
      var b := es[p];
      var bs, out := g.nodes[b].kind.exprs, Inline(es, p, g.nodes[b].kind.exprs);
      assert g.KindOk(b, g.nodes[b].kind);
      SequenceNotEmpty(g, b, bs);
      if |out| == 2 && out[1] < |g.nodes| && g.nodes[out[1]].kind.And? {
        SecondOfPair(g, n, p);
      }
    }
  }

  /** The second of a pair that comes of inlining: of the outer pair, of the inner one, or the only inner element. */
  lemma SecondOfPair(g: Grammar, n: nat, p: nat)
    requires Flattens(g) && CanInline(g, n, p) && MayInline(g, n, p) && g.nodes[n].kind.And?
    requires var es := g.nodes[n].kind.exprs;
             var out := Inline(es, p, g.nodes[es[p]].kind.exprs);
             && g.nodes[es[p]].kind.exprs != [] && |out| == 2 && out[1] < |g.nodes| && g.nodes[out[1]].kind.And?
    ensures var es := g.nodes[n].kind.exprs;
            DeepAnchor(g, Inline(es, p, g.nodes[es[p]].kind.exprs)[1])
  {
    hide PlainNode, Grammar.KindOk, DeepAnchor;
    var es := g.nodes[n].kind.exprs;
    var b := es[p];
    var bs := g.nodes[b].kind.exprs;
    assert SecondAnchored(g, n) && SecondAnchored(g, b);
    if p == 1 {
      assert bs == [Inline(es, p, bs)[1]];
      OnlyElementAnchored(g, b);
    } else if |es| == 1 {
      assert Inline(es, p, bs) == bs;
    } else {
      assert Inline(es, p, bs)[1] == es[1];
    }
  }

  lemma OnlyElementAnchored(g: Grammar, b: nat)
    requires g.Valid() && DeepAnchor(g, b) && b < |g.nodes| && g.nodes[b].kind.And? && |g.nodes[b].kind.exprs| == 1
    requires g.nodes[b].kind.exprs[0] < |g.nodes| && g.nodes[g.nodes[b].kind.exprs[0]].kind.And?
    ensures DeepAnchor(g, g.nodes[b].kind.exprs[0])
  {
    hide Tolerant;
    var path :| Leads(g, path) && path[0] == b;
    assert Inside(g, path[0], path[1]);
    LeadsOn(g, path);
    assert path[1..][0] == g.nodes[b].kind.exprs[0];
  }

  // --- the pass over the elements ------------------------------------------------------------------------------------

  function Children(kind: Kind): seq<nat> {
    match kind
    case And(es) => es
    case MatchFirst(es) => es
    case Or(es) => es
    case OneOrMore(e) => [e]
    case ZeroOrMore(e) => [e]
    case Optional(e) => [e]
    case _ => []
  }

  /** Only a Forward leads back up. */
  ghost predicate Layered(g: Grammar, depth: seq<nat>) {
    |depth| == |g.nodes| && forall n :: 0 <= n < |g.nodes| ==> AllDeeper(depth, Children(g.nodes[n].kind), depth[n])
  }

  ghost predicate AllDeeper(depth: seq<nat>, es: seq<nat>, level: nat) {
    forall i :: 0 <= i < |es| ==> es[i] < |depth| && depth[es[i]] < level
  }

  ghost function Forwards(g: Grammar): set<nat> {
    set n: nat | n < |g.nodes| && g.nodes[n].kind.Forward?
  }

  /** No element of the list is of its own class. */
  ghost predicate Flat(g: Grammar, n: nat)
    requires n < |g.nodes|
  {
    IsList(g.nodes[n].kind) ==> forall e :: e in g.nodes[n].kind.exprs ==> e < |g.nodes| && !SameClass(g.nodes[n].kind, g.nodes[e].kind)
  }

  /** Lists are pairs, as `+`, `|` and `^` build them, or flat. */
  ghost predicate Pairs(g: Grammar) {
    forall n :: 0 <= n < |g.nodes| && IsList(g.nodes[n].kind) ==> |g.nodes[n].kind.exprs| == 2 || Flat(g, n)
  }

  /** Every element parses as before. */
  ghost predicate SameParse(g: Grammar, h: Grammar) {
    && g.Valid() && h.Valid() && |g.nodes| == |h.nodes|
    && forall s, n, loc, act, pre :: 0 <= n < |g.nodes| && 0 <= loc <= |s| ==> Parse(h, s, n, loc, act, pre) == Parse(g, s, n, loc, act, pre)
  }

  /** Elements keep their class; a list that changed is flat if all were pairs. */
  ghost predicate OnlyFlattened(g: Grammar, h: Grammar) {
    && |g.nodes| == |h.nodes|
    && forall n :: 0 <= n < |g.nodes| ==>
         && SameConstructor(g.nodes[n].kind, h.nodes[n].kind)
         && (h.nodes[n].kind == g.nodes[n].kind || (Pairs(g) ==> Flat(h, n)))
         && (Flat(g, n) ==> Flat(h, n))
  }

  /** Where flattening is neutral, it is still neutral and every element parses as before. */
  ghost predicate Kept(g: Grammar, h: Grammar) {
    Flattens(g) ==> Flattens(h) && SameParse(g, h)
  }

  predicate SameConstructor(a: Kind, b: Kind) {
    if IsList(a) then SameClass(a, b) else a == b
  }

  lemma RewritesParse(g: Grammar, h: Grammar)
    requires Rewrites(g, h)
    ensures SameParse(g, h)
  {
    forall s, n, loc, act, pre | 0 <= n < |g.nodes| && 0 <= loc <= |s|
      ensures Parse(h, s, n, loc, act, pre) == Parse(g, s, n, loc, act, pre)
    {
      ParseSame(g, h, s, n, loc, act, pre);
    }
  }

  // --- exactly when one inlining changes the grammar ----------------------------------------------------------------------

  /** Nowhere in any text does the sequence end elsewhere for the inlining. */
  ghost predicate NeverMoves(g: Grammar, n: nat, p: nat)
    requires Plain(g) && CanInline(g, n, p) && g.nodes[n].kind.And?
  {
    var es := g.nodes[n].kind.exprs;
    assert g.KindOk(n, g.nodes[n].kind);
    forall s, loc: nat, act | loc <= |s| :: !Moves(g, s, es, p, Inline(es, p, g.nodes[es[p]].kind.exprs), loc, act)
  }

  /** One inlining leaves every element of the grammar as it was if and only if it never moves the end of the sequence
      itself; with a choice, it always does. */
  lemma InlineNeutralExactly(g: Grammar, n: nat, p: nat)
    requires Plain(g) && CanInline(g, n, p)
    ensures Plain(Inlined(g, n, p))
    ensures SameParse(g, Inlined(g, n, p)) <==> (g.nodes[n].kind.And? ==> NeverMoves(g, n, p))
  {
    hide Parse, Impl, PlainNode, NeverMoves, Inlined, SameParse;
    InlinedValid(g, n, p);
    if g.nodes[n].kind.And? {
      if NeverMoves(g, n, p) {
        NeverMovesIsSame(g, n, p);
      }
      if SameParse(g, Inlined(g, n, p)) {
        SameNeverMoves(g, n, p);
      }
    } else {
      ChoiceIsSame(g, n, p);
    }
  }

  lemma ChoiceIsSame(g: Grammar, n: nat, p: nat)
    requires Plain(g) && CanInline(g, n, p) && !g.nodes[n].kind.And?
    ensures SameParse(g, Inlined(g, n, p))
  {
    hide Parse, Impl, PlainNode, Grammar.KindOk;
    var h := Inlined(g, n, p);
    InlinedValid(g, n, p);
    InlinedKindOk(g, n, p);
    forall s, loc, act | 0 <= loc <= |s| ensures Impl(g, s, n, h.nodes[n].kind, loc, act) == Impl(g, s, n, g.nodes[n].kind, loc, act) {
      InlinedImpl(g, n, p, s, loc, act);
    }
    OneRewritten(g, n, p);
    RewritesParse(g, h);
  }

  lemma NeverMovesIsSame(g: Grammar, n: nat, p: nat)
    requires Plain(g) && CanInline(g, n, p) && g.nodes[n].kind.And? && NeverMoves(g, n, p)
    ensures SameParse(g, Inlined(g, n, p))
  {
    hide Parse, Impl, PlainNode, Grammar.KindOk, Moves, Inline;
    var h, es := Inlined(g, n, p), g.nodes[n].kind.exprs;
    InlinedValid(g, n, p);
    InlinedKindOk(g, n, p);
    forall s, loc, act | 0 <= loc <= |s| ensures Impl(g, s, n, h.nodes[n].kind, loc, act) == Impl(g, s, n, g.nodes[n].kind, loc, act) {
      assert g.KindOk(n, And(es));
      AndInlineExactly(g, s, n, es, p, g.nodes[es[p]].kind.exprs, loc, act);
    }
    OneRewritten(g, n, p);
    RewritesParse(g, h);
  }

  lemma SameNeverMoves(g: Grammar, n: nat, p: nat)
    requires Plain(g) && CanInline(g, n, p) && g.nodes[n].kind.And? && Plain(Inlined(g, n, p)) && SameParse(g, Inlined(g, n, p))
    ensures NeverMoves(g, n, p)
  {
    hide Parse, Impl, PlainNode, Grammar.KindOk, Moves, Inline, SameParse;
    var h, es := Inlined(g, n, p), g.nodes[n].kind.exprs;
    var out := Inline(es, p, g.nodes[es[p]].kind.exprs);
    assert h.nodes[n].kind == And(out) && g.KindOk(n, And(es)) && h.KindOk(n, h.nodes[n].kind);
    AllInRange(g, n, es);
    forall s, loc: nat, act | loc <= |s| ensures !Moves(g, s, es, p, out, loc, act) {
      AndInlineExactly(g, s, n, es, p, g.nodes[es[p]].kind.exprs, loc, act);
      ParsePlain(g, s, n, loc, act, false);
      ParsePlain(h, s, n, loc, act, false);
      SameAtOnce(g, h, s, n, loc, act);
      AndAgrees(g, h, s, n, out, loc, act);
    }
  }

  lemma SameAtOnce(g: Grammar, h: Grammar, s: string, n: nat, loc: nat, act: bool)
    requires SameParse(g, h) && n < |g.nodes| && loc <= |s|
    ensures Parse(h, s, n, loc, act, false) == Parse(g, s, n, loc, act, false)
  {}

  lemma AndAgrees(g: Grammar, h: Grammar, s: string, n: nat, es: seq<nat>, loc: nat, act: bool)
    requires Plain(g) && Plain(h) && SameParse(g, h) && h.consumes == g.consumes
    requires n < |g.nodes| && g.KindOk(n, And(es)) && h.KindOk(n, And(es)) && loc <= |s|
    ensures Impl(h, s, n, And(es), loc, act) == Impl(g, s, n, And(es), loc, act)
  {
    hide Parse, Impl, AndRest, PlainNode, Grammar.KindOk;
    FirstOfSequence(g, s, n, es, loc, act);
    FirstOfSequence(h, s, n, es, loc, act);
    var r := Parse(g, s, es[0], loc, act, false);
    if r.Ok? {
      AndRestAgrees(g, h, s, n, es, 1, loc, r.end, r.toks, act);
    }
  }

  lemma {:induction false} AndRestAgrees(g: Grammar, h: Grammar, s: string, n: nat, es: seq<nat>, i: nat, start: nat, loc: nat, toks: seq<string>, act: bool)
    requires Plain(g) && Plain(h) && SameParse(g, h) && h.consumes == g.consumes
    requires n < |g.nodes| && g.KindOk(n, And(es)) && h.KindOk(n, And(es)) && 1 <= i <= |es|
    requires start <= loc <= |s| && (g.Consumed(es[..i]) ==> start < loc)
    ensures h.Consumed(es[..i]) == g.Consumed(es[..i])
    ensures AndRest(h, s, n, es, i, start, loc, toks, false, act) == AndRest(g, s, n, es, i, start, loc, toks, false, act)
    decreases |es| - i
  {
    hide Parse, AndRest, Grammar.KindOk;
    if i < |es| {
      AndStep(g, s, n, es, i, start, loc, toks, false, act);
      AndStep(h, s, n, es, i, start, loc, toks, false, act);
      assert PlainNode(g, es[i]) && PlainNode(h, es[i]);
      var r := Parse(g, s, es[i], loc, act, true);
      if r.Ok? {
        AndRestAgrees(g, h, s, n, es, i + 1, start, r.end, toks + r.toks, act);
      }
    } else {
      AndEnd(g, s, n, es, start, loc, toks, false, act);
      AndEnd(h, s, n, es, start, loc, toks, false, act);
    }
  }

  lemma InlinedLayers(g: Grammar, n: nat, p: nat, depth: seq<nat>)
    requires CanInline(g, n, p) && Layered(g, depth)
    ensures Layered(Inlined(g, n, p), depth)
  {
    var es := g.nodes[n].kind.exprs;
    var b := es[p];
    assert AllDeeper(depth, Children(g.nodes[n].kind), depth[n]) && AllDeeper(depth, Children(g.nodes[b].kind), depth[b]);
    assert AllDeeper(depth, Inline(es, p, g.nodes[b].kind.exprs), depth[n]);
  }

  // --- what a pass has dealt with ---------------------------------------------------------------------------------------------

  /** The element and all below it are flat, down to the Forwards in `passed`. */
  ghost predicate Done(g: Grammar, depth: seq<nat>, n: nat, passed: set<nat>)
    requires Layered(g, depth) && n < |g.nodes|
    decreases depth[n]
  {
    ElementsInRange(g, depth, n);
    && Flat(g, n) && (g.nodes[n].kind.Forward? ==> n in passed)
    && forall e :: e in Children(g.nodes[n].kind) ==> Done(g, depth, e, passed)
  }

  /** What each of these Forwards stands for is done. */
  ghost predicate Passed(g: Grammar, depth: seq<nat>, forwards: set<nat>, passed: set<nat>)
    requires Layered(g, depth)
  {
    forall f :: f in forwards ==>
      f < |g.nodes| && g.nodes[f].kind.Forward? && g.nodes[f].kind.expr < |g.nodes| && Done(g, depth, g.nodes[f].kind.expr, passed)
  }

  /** What was done still is. */
  ghost predicate StillDone(g: Grammar, h: Grammar, depth: seq<nat>, passed: set<nat>, passed': set<nat>)
    requires Layered(g, depth) && Layered(h, depth)
  {
    forall m :: 0 <= m < |g.nodes| && Done(g, depth, m, passed) ==> m < |h.nodes| && Done(h, depth, m, passed')
  }

  /** `b` is an element of `a`, or what it repeats, makes optional or stands for. */
  ghost predicate LeadsTo(g: Grammar, a: nat, b: nat) {
    && a < |g.nodes|
    && var kind := g.nodes[a].kind;
    || ((kind.And? || kind.MatchFirst? || kind.Or?) && b in kind.exprs)
    || ((kind.OneOrMore? || kind.ZeroOrMore? || kind.Optional? || kind.Forward?) && b == kind.expr)
  }

  ghost predicate IsWay(g: Grammar, way: seq<nat>) {
    way != [] && forall i :: 0 <= i < |way| - 1 ==> LeadsTo(g, way[i], way[i + 1])
  }

  /** Every element that can be reached from `n`, also through Forwards, is flat. */
  ghost predicate AllFlat(g: Grammar, n: nat) {
    forall way :: IsWay(g, way) && way[0] == n ==> way[|way| - 1] < |g.nodes| && Flat(g, way[|way| - 1])
  }

  lemma {:induction false} WaysAreDone(g: Grammar, depth: seq<nat>, passed: set<nat>, way: seq<nat>)
    requires Layered(g, depth) && Passed(g, depth, passed, passed) && IsWay(g, way) && way[0] < |g.nodes| && Done(g, depth, way[0], passed)
    ensures way[|way| - 1] < |g.nodes| && Done(g, depth, way[|way| - 1], passed)
    decreases |way|
  {
    hide Layered, Flat;
    if |way| > 1 {
      ElementsInRange(g, depth, way[0]);
      assert LeadsTo(g, way[0], way[1]);
      assert way[1] in Children(g.nodes[way[0]].kind) || g.nodes[way[0]].kind.Forward?;
      var rest := way[1..];
      forall i | 0 <= i < |rest| - 1 ensures LeadsTo(g, rest[i], rest[i + 1]) {
        assert LeadsTo(g, way[i + 1], way[i + 2]);
      }
      WaysAreDone(g, depth, passed, rest);
    }
  }

  lemma AllReachedFlat(g: Grammar, depth: seq<nat>, passed: set<nat>, n: nat)
    requires Layered(g, depth) && Passed(g, depth, passed, passed) && n < |g.nodes| && Done(g, depth, n, passed)
    ensures AllFlat(g, n)
  {
    hide Layered, Passed, Flat;
    forall way | IsWay(g, way) && way[0] == n ensures way[|way| - 1] < |g.nodes| && Flat(g, way[|way| - 1]) {
      WaysAreDone(g, depth, passed, way);
    }
  }

  lemma {:induction false} DoneGrows(g: Grammar, depth: seq<nat>, n: nat, passed: set<nat>, passed': set<nat>)
    requires Layered(g, depth) && n < |g.nodes| && Done(g, depth, n, passed) && passed <= passed'
    ensures Done(g, depth, n, passed')
    decreases depth[n]
  {
    hide Layered, Flat, Children;
    ElementsInRange(g, depth, n);
    forall e | e in Children(g.nodes[n].kind) ensures Done(g, depth, e, passed') {
      DoneGrows(g, depth, e, passed, passed');
    }
  }

  lemma {:induction false} DoneStays(g: Grammar, n: nat, h: Grammar, depth: seq<nat>, passed: set<nat>, m: nat)
    requires Layered(g, depth) && Layered(h, depth) && n < |g.nodes| && PairStep(g, n, h) && m < |g.nodes| && Done(g, depth, m, passed)
    ensures m < |h.nodes| && Done(h, depth, m, passed)
    decreases depth[m]
  {
    hide Layered, Flat, Children;
    ElementsInRange(g, depth, m);
    ElementsInRange(g, depth, n);
    if !Flat(g, n) {
      assert m != n;
      FlatElsewhere(g, n, h, m);
      forall e | e in Children(h.nodes[m].kind) ensures e < |h.nodes| && Done(h, depth, e, passed) {
        DoneStays(g, n, h, depth, passed, e);
      }
      ElementsInRange(h, depth, m);
    }
  }

  lemma PairStillDone(g: Grammar, n: nat, h: Grammar, depth: seq<nat>, passed: set<nat>)
    requires Layered(g, depth) && Layered(h, depth) && n < |g.nodes| && PairStep(g, n, h)
    ensures StillDone(g, h, depth, passed, passed)
  {
    hide Layered, PairStep, Done;
    forall m | 0 <= m < |g.nodes| && Done(g, depth, m, passed) ensures m < |h.nodes| && Done(h, depth, m, passed) {
      DoneStays(g, n, h, depth, passed, m);
    }
  }

  /** The elements of the pair were its own, or those of one of its elements, a list of its class. */
  ghost predicate FromPair(g: Grammar, n: nat, h: Grammar)
    requires n < |g.nodes| == |h.nodes| && IsList(g.nodes[n].kind) && IsList(h.nodes[n].kind)
  {
    forall e :: e in h.nodes[n].kind.exprs ==> e in g.nodes[n].kind.exprs || exists b :: b in g.nodes[n].kind.exprs && IsIn(g, b, e)
  }

  ghost predicate IsIn(g: Grammar, b: nat, e: nat) {
    b < |g.nodes| && IsList(g.nodes[b].kind) && e in g.nodes[b].kind.exprs
  }

  lemma PairShape(g: Grammar, n: nat, h: Grammar)
    requires n < |g.nodes| && PairStep(g, n, h)
    ensures |g.nodes| == |h.nodes| && IsList(g.nodes[n].kind) && IsList(h.nodes[n].kind) && (Flat(g, n) ==> h == g)
    ensures forall m :: 0 <= m < |g.nodes| && m != n ==> h.nodes[m] == g.nodes[m]
  {}

  lemma PairIsDone(g: Grammar, n: nat, h: Grammar, depth: seq<nat>, passed: set<nat>)
    requires Layered(g, depth) && Layered(h, depth) && n < |g.nodes| == |h.nodes| && IsList(g.nodes[n].kind) && IsList(h.nodes[n].kind)
    requires PairStep(g, n, h) && FromPair(g, n, h)
    requires Flat(h, n) && forall e :: e in g.nodes[n].kind.exprs ==> e < |g.nodes| && Done(g, depth, e, passed)
    ensures n < |h.nodes| && Done(h, depth, n, passed)
  {
    hide Layered, Flat, PairStep;
    ElementsInRange(h, depth, n);
    PairStillDone(g, n, h, depth, passed);
    forall e | e in Children(h.nodes[n].kind) ensures e < |h.nodes| && Done(h, depth, e, passed) {
      if e !in g.nodes[n].kind.exprs {
        var b :| b in g.nodes[n].kind.exprs && IsIn(g, b, e);
        ElementsInRange(g, depth, b);
        assert e in Children(g.nodes[b].kind);
      }
    }
  }

  lemma StillOnward(a: Grammar, b: Grammar, c: Grammar, depth: seq<nat>, p: set<nat>, q: set<nat>, r: set<nat>)
    requires Layered(a, depth) && Layered(b, depth) && Layered(c, depth) && StillDone(a, b, depth, p, q) && StillDone(b, c, depth, q, r)
    ensures StillDone(a, c, depth, p, r)
  {
    hide Done;
  }

  /** Only what is done now has changed. */
  ghost predicate ChangedDone(g: Grammar, h: Grammar, depth: seq<nat>, passed: set<nat>)
    requires Layered(h, depth)
  {
    |g.nodes| == |h.nodes| && forall m :: 0 <= m < |g.nodes| ==> h.nodes[m].kind == g.nodes[m].kind || Done(h, depth, m, passed)
  }

  lemma ChangedOnward(a: Grammar, b: Grammar, c: Grammar, depth: seq<nat>, q: set<nat>, r: set<nat>)
    requires Layered(b, depth) && Layered(c, depth) && ChangedDone(a, b, depth, q) && ChangedDone(b, c, depth, r) && StillDone(b, c, depth, q, r)
    ensures ChangedDone(a, c, depth, r)
  {
    hide Done;
  }

  lemma NothingChanged(g: Grammar, depth: seq<nat>, passed: set<nat>)
    requires Layered(g, depth)
    ensures ChangedDone(g, g, depth, passed)
  {
    hide Done;
  }

  lemma PassedOnward(b: Grammar, c: Grammar, depth: seq<nat>, p: set<nat>, q: set<nat>, r: set<nat>)
    requires Layered(b, depth) && Layered(c, depth) && OnlyFlattened(b, c) && StillDone(b, c, depth, q, r)
    requires Passed(b, depth, q - p, q) && Passed(c, depth, r - q, r)
    ensures Passed(c, depth, r - p, r)
  {
    hide Done, Layered, Flat, Pairs;
    forall f | f in r - p
      ensures f < |c.nodes| && c.nodes[f].kind.Forward? && c.nodes[f].kind.expr < |c.nodes| && Done(c, depth, c.nodes[f].kind.expr, r)
    {
      if f in q - p {
        assert c.nodes[f].kind == b.nodes[f].kind;
      }
    }
  }

  lemma NothingPassed(g: Grammar, depth: seq<nat>, passed: set<nat>)
    requires Layered(g, depth)
    ensures Passed(g, depth, passed - passed, passed) && StillDone(g, g, depth, passed, passed)
  {
    hide Done;
  }

  class Elements {
    const depth: seq<nat>
    var g: Grammar
    /** The Forwards that have been streamlined. */
    var streamlined: set<nat>

    ghost predicate Valid()
      reads this
    {
      Plain(g) && Layered(g, depth)
    }

    constructor (g: Grammar, depth: seq<nat>)
      requires Plain(g) && Layered(g, depth)
      ensures Valid() && this.g == g && this.depth == depth && streamlined == {}
    {
      this.g, this.depth, streamlined := g, depth, {};
    }

    /** The element at `p` of the list `n` gives way to its own elements, if it is of the same class. */
    method InlineAt(n: nat, p: nat)
      requires Valid() && n < |g.nodes| && IsList(g.nodes[n].kind) && p < |g.nodes[n].kind.exprs|
      modifies this`g
      ensures Valid() && HalfStep(old(g), n, p, g)
      ensures SameParse(old(g), g) <==> (CanInline(old(g), n, p) && old(g).nodes[n].kind.And? ==> NeverMoves(old(g), n, p))
    {
      hide Plain, Inline, Parse, NeverMoves, SameParse, Layered;
      var es := g.nodes[n].kind.exprs;
      MemberInRange(g, n, p);
      SameAsItself(g);
      if SameClass(g.nodes[n].kind, g.nodes[es[p]].kind) {
        InlineNeutralExactly(g, n, p);
        InlinedLayers(g, n, p, depth);
        g := Inlined(g, n, p);
      }
    }

    /** The collapsing of a pair in `ParseExpression.streamline`: first its first element, then its last. */
    method FlattenPair(n: nat)
      requires Valid() && n < |g.nodes| && IsList(g.nodes[n].kind)
      modifies this`g
      ensures Valid() && Kept(old(g), g) && PairStep(old(g), n, g) && FromPair(old(g), n, g)
    {
      hide Plain, Inline, Parse, Layered, SameParse, PairStep, Kept, NeverMoves, Inlined, HalfStep;
      ghost var g0 := g;
      SameAsItself(g0);
      ElementsInRange(g0, depth, n);
      if |g.nodes[n].kind.exprs| != 2 {
        NoStep(g0, n);
      } else {
        InlineAt(n, 0);
        ghost var g1 := g;
        FirstHalf(g0, n, g1);
        InlineAt(n, |g.nodes[n].kind.exprs| - 1);
        PairKept(g0, n, g1, g);
        HalvesFromPair(g0, n, g1, g);
        assert g0.nodes[n].kind.exprs[1] in g0.nodes[n].kind.exprs;
        SecondHalf(g0, n, g1, g);
      }
    }

    /** The elements of a list, one after the other. */
    method StreamlineAll(n: nat, es: seq<nat>)
      requires Valid() && n < |g.nodes| && forall e :: e in es ==> e < |g.nodes| && e < |depth| && depth[e] < depth[n]
      modifies this`g, this`streamlined
      decreases Forwards(g) - streamlined, depth[n], 0
      ensures Valid() && old(streamlined) <= streamlined
      ensures |g.nodes| == |old(g).nodes| && Kept(old(g), g) && OnlyFlattened(old(g), g)
      ensures Pairs(old(g)) ==> Pairs(g) && forall e :: e in es ==> e < |g.nodes| && Flat(g, e) && Done(g, depth, e, streamlined)
      ensures Pairs(old(g)) ==> Passed(g, depth, streamlined - old(streamlined), streamlined)
      ensures Pairs(old(g)) ==> StillDone(old(g), g, depth, old(streamlined), streamlined) && ChangedDone(old(g), g, depth, streamlined)
    {
      hide Plain, Inline, Parse, OnlyFlattened, Flat, Kept, Pairs, Forwards, Layered, Done, Passed, StillDone, ChangedDone;
      ghost var g0, done0 := g, streamlined;
      SameAsItself(g0);
      NothingPassed(g0, depth, done0);
      NothingChanged(g0, depth, done0);
      for i := 0 to |es|
        invariant Valid() && old(streamlined) <= streamlined && |g.nodes| == |g0.nodes|
        invariant Kept(g0, g) && OnlyFlattened(g0, g)
        invariant Pairs(g0) ==> Pairs(g) && forall j :: 0 <= j < i ==> es[j] < |g.nodes| && Flat(g, es[j]) && Done(g, depth, es[j], streamlined)
        invariant Pairs(g0) ==> Passed(g, depth, streamlined - done0, streamlined) && StillDone(g0, g, depth, done0, streamlined)
        invariant Pairs(g0) ==> ChangedDone(g0, g, depth, streamlined)
      {
        ghost var g1, done1 := g, streamlined;
        assert es[i] in es;
        ForwardsSame(g0, g1);
        Streamline(es[i]);
        KeptOnward(g0, g1, g);
        FlattenedOnward(g0, g1, g);
        if Pairs(g0) {
          StillOnward(g0, g1, g, depth, done0, done1, streamlined);
          PassedOnward(g1, g, depth, done0, done1, streamlined);
          AreStillDone(g1, g, depth, done1, streamlined, es[..i]);
          ChangedOnward(g0, g1, g, depth, done1, streamlined);
        }
      }
    }

    /** `streamline` of an element: its elements first, then itself; a Forward only once. */
    method Streamline(n: nat)
      requires Valid() && n < |g.nodes|
      modifies this`g, this`streamlined
      decreases Forwards(g) - streamlined, depth[n], 1
      ensures Valid() && old(streamlined) <= streamlined
      ensures |g.nodes| == |old(g).nodes| && Kept(old(g), g) && OnlyFlattened(old(g), g)
      ensures Pairs(old(g)) ==> Pairs(g) && Flat(g, n) && Done(g, depth, n, streamlined)
      ensures Pairs(old(g)) ==> Passed(g, depth, streamlined - old(streamlined), streamlined)
      ensures Pairs(old(g)) ==> StillDone(old(g), g, depth, old(streamlined), streamlined) && ChangedDone(old(g), g, depth, streamlined)
      ensures Pairs(old(g)) && old(streamlined) == {} ==> AllFlat(g, n)
    {
      hide Plain, Inline, Parse, OnlyFlattened, Flat, Kept, Pairs, PairStep, Forwards, Layered, Done, Passed, StillDone, ChangedDone, FromPair, AllFlat;
      ghost var g0, done0 := g, streamlined;
      SameAsItself(g0);
      NothingPassed(g0, depth, done0);
      NothingChanged(g0, depth, done0);
      ElementsInRange(g0, depth, n);
      if IsList(g.nodes[n].kind) {
        StreamlineAll(n, g.nodes[n].kind.exprs);
        ghost var g2 := g;
        StillList(g0, g2, n);
        FlattenPair(n);
        KeptOnward(g0, g2, g);
        PairIsFlat(g0, g2, n, g);
        LayersInRange(g0, depth);
        LayersInRange(g, depth);
        if Pairs(g0) {
          PairShape(g2, n, g);
          ElementsAreDone(g0, g2, n, depth, streamlined);
          if !Done(g2, depth, n, streamlined) {
            PairIsDone(g2, n, g, depth, streamlined);
          } else {
            DoneIsFlat(g2, depth, n, streamlined);
          }
          PairStillDone(g2, n, g, depth, streamlined);
          StillOnward(g0, g2, g, depth, done0, streamlined, streamlined);
          NothingPassed(g, depth, streamlined);
          PairOnlyFlattens(g2, n, g);
          PassedOnward(g2, g, depth, done0, streamlined, streamlined);
          OneChanged(g2, n, g, depth, streamlined);
          ChangedOnward(g0, g2, g, depth, streamlined, streamlined);
        }
      } else {
        var inner := Children(g.nodes[n].kind);
        if g.nodes[n].kind.Forward? && n !in streamlined {
          ForwardIn(g0, n);
          streamlined := streamlined + {n};
          ForwardInRange(g0, n);
          LayersInRange(g0, depth);
          Streamline(g.nodes[n].kind.expr);
          if Pairs(g0) {
            ForwardIsPassed(g0, g, depth, n, done0, streamlined);
          }
        } else if inner != [] {
          Streamline(inner[0]);
        }
        NotAListLater(g0, g, n);
        if Pairs(g0) {
          OtherIsDone(g0, g, depth, n, streamlined);
        }
      }
      if Pairs(g0) && done0 == {} {
        assert streamlined - done0 == streamlined;
        AllReachedFlat(g, depth, streamlined, n);
      }
    }
  }

  lemma DoneIsFlat(g: Grammar, depth: seq<nat>, n: nat, passed: set<nat>)
    requires Layered(g, depth) && n < |g.nodes| && Done(g, depth, n, passed)
    ensures Flat(g, n)
  {}

  /** The elements that a list has now are done, if those it had are and it is not done itself. */
  lemma ElementsAreDone(g: Grammar, h: Grammar, n: nat, depth: seq<nat>, passed: set<nat>)
    requires Layered(g, depth) && Layered(h, depth) && n < |g.nodes| && IsList(g.nodes[n].kind) && ChangedDone(g, h, depth, passed)
    requires forall e :: e in g.nodes[n].kind.exprs ==> e < |h.nodes| && Done(h, depth, e, passed)
    ensures n < |h.nodes| && (Done(h, depth, n, passed) ||
              (IsList(h.nodes[n].kind) && forall e :: e in h.nodes[n].kind.exprs ==> e < |h.nodes| && Done(h, depth, e, passed)))
  {
    hide Done, Layered;
  }

  lemma OneChanged(g: Grammar, n: nat, h: Grammar, depth: seq<nat>, passed: set<nat>)
    requires Layered(h, depth) && n < |g.nodes| == |h.nodes| && Done(h, depth, n, passed)
    requires forall m :: 0 <= m < |g.nodes| && m != n ==> h.nodes[m] == g.nodes[m]
    ensures ChangedDone(g, h, depth, passed)
  {
    hide Done, Layered;
  }

  lemma AreStillDone(g: Grammar, h: Grammar, depth: seq<nat>, passed: set<nat>, passed': set<nat>, es: seq<nat>)
    requires Layered(g, depth) && Layered(h, depth) && StillDone(g, h, depth, passed, passed')
    requires forall i :: 0 <= i < |es| ==> es[i] < |g.nodes| && Done(g, depth, es[i], passed)
    ensures forall i :: 0 <= i < |es| ==> es[i] < |h.nodes| && Done(h, depth, es[i], passed')
  {
    hide Done;
  }

  /** An element that is no list is done when what it has below it is. */
  lemma OtherIsDone(g: Grammar, h: Grammar, depth: seq<nat>, n: nat, passed: set<nat>)
    requires Layered(g, depth) && Layered(h, depth) && n < |g.nodes| && !IsList(g.nodes[n].kind) && OnlyFlattened(g, h)
    requires forall e :: e in Children(g.nodes[n].kind) ==> e < |h.nodes| && Done(h, depth, e, passed)
    requires g.nodes[n].kind.Forward? ==> n in passed
    ensures n < |h.nodes| && Done(h, depth, n, passed)
  {
    hide Layered, Pairs;
    ElementsInRange(h, depth, n);
  }

  /** A Forward passed now stands for what is done, and nothing else is lost. */
  lemma ForwardIsPassed(g: Grammar, h: Grammar, depth: seq<nat>, n: nat, before: set<nat>, passed: set<nat>)
    requires Layered(g, depth) && Layered(h, depth) && n < |g.nodes| && g.nodes[n].kind.Forward? && OnlyFlattened(g, h)
    requires before + {n} <= passed && n !in before
    requires g.nodes[n].kind.expr < |h.nodes| && Done(h, depth, g.nodes[n].kind.expr, passed)
    requires Passed(h, depth, passed - (before + {n}), passed) && StillDone(g, h, depth, before + {n}, passed)
    ensures Passed(h, depth, passed - before, passed) && StillDone(g, h, depth, before, passed)
  {
    hide Done, Layered, Flat, Pairs;
    forall m | 0 <= m < |g.nodes| && Done(g, depth, m, before) ensures m < |h.nodes| && Done(h, depth, m, passed) {
      DoneGrows(g, depth, m, before, before + {n});
    }
    assert forall f :: f in passed - before ==> f == n || f in passed - (before + {n});
  }

  lemma PairOnlyFlattens(g: Grammar, n: nat, h: Grammar)
    requires n < |g.nodes| && PairStep(g, n, h) && Pairs(g) && Flat(h, n)
    ensures OnlyFlattened(g, h)
  {
    hide Flat, Pairs;
    forall m | 0 <= m < |g.nodes| && Flat(g, m) ensures Flat(h, m) {
      if m != n {
        FlatElsewhere(g, n, h, m);
      }
    }
  }

  // --- how one state follows from another -------------------------------------------------------------------------------

  /** One node may have changed, and is flat if it was a pair of flat elements. */
  ghost predicate PairStep(g: Grammar, n: nat, h: Grammar)
    requires n < |g.nodes|
  {
    && |h.nodes| == |g.nodes| && IsList(g.nodes[n].kind) && SameClass(g.nodes[n].kind, h.nodes[n].kind)
    && (forall m :: 0 <= m < |g.nodes| && m != n ==> h.nodes[m] == g.nodes[m])
    && (|g.nodes[n].kind.exprs| != 2 || Flat(g, n) ==> h == g)
    && (|g.nodes[n].kind.exprs| == 2 && (forall e :: e in g.nodes[n].kind.exprs ==> e < |g.nodes| && Flat(g, e)) ==> Flat(h, n))
  }

  lemma MemberInRange(g: Grammar, n: nat, p: nat)
    requires Plain(g) && n < |g.nodes| && IsList(g.nodes[n].kind) && p < |g.nodes[n].kind.exprs|
    ensures g.nodes[n].kind.exprs[p] < |g.nodes|
  {
    assert g.KindOk(n, g.nodes[n].kind) && g.nodes[n].kind.exprs[p] in g.nodes[n].kind.exprs;
  }

  lemma ElementsInRange(g: Grammar, depth: seq<nat>, n: nat)
    requires Layered(g, depth) && n < |g.nodes|
    ensures n < |depth| && forall e :: e in Children(g.nodes[n].kind) ==> e < |g.nodes| && e < |depth| && e != n && depth[e] < depth[n]
    ensures IsList(g.nodes[n].kind) ==> Children(g.nodes[n].kind) == g.nodes[n].kind.exprs
  {}

  lemma LayersInRange(g: Grammar, depth: seq<nat>)
    requires Layered(g, depth)
    ensures |depth| == |g.nodes|
  {}

  lemma ForwardInRange(g: Grammar, n: nat)
    requires Plain(g) && n < |g.nodes| && g.nodes[n].kind.Forward?
    ensures g.nodes[n].kind.expr < |g.nodes|
  {}

  lemma SameAsItself(g: Grammar)
    requires Plain(g)
    ensures SameParse(g, g) && Kept(g, g) && OnlyFlattened(g, g)
  {}

  lemma NoStep(g: Grammar, n: nat)
    requires n < |g.nodes| && IsList(g.nodes[n].kind) && |g.nodes[n].kind.exprs| != 2
    ensures PairStep(g, n, g)
  {}

  lemma KeptOnward(a: Grammar, b: Grammar, c: Grammar)
    requires Kept(a, b) && Kept(b, c)
    ensures Kept(a, c)
  {
    hide Flattens;
  }

  lemma FlattenedOnward(a: Grammar, b: Grammar, c: Grammar)
    requires OnlyFlattened(a, b) && OnlyFlattened(b, c) && (Pairs(a) ==> Pairs(b))
    ensures OnlyFlattened(a, c)
    ensures forall n :: 0 <= n < |b.nodes| && Flat(b, n) ==> Flat(c, n)
  {}

  lemma ForwardsSame(a: Grammar, b: Grammar)
    requires OnlyFlattened(a, b)
    ensures Forwards(a) == Forwards(b)
  {}

  lemma ForwardIn(g: Grammar, n: nat)
    requires n < |g.nodes| && g.nodes[n].kind.Forward?
    ensures n in Forwards(g)
  {}

  lemma NotAListLater(g: Grammar, h: Grammar, n: nat)
    requires n < |g.nodes| && !IsList(g.nodes[n].kind) && OnlyFlattened(g, h)
    ensures Flat(h, n)
  {}

  lemma StillList(g: Grammar, h: Grammar, n: nat)
    requires OnlyFlattened(g, h) && n < |g.nodes| && IsList(g.nodes[n].kind)
    ensures n < |h.nodes| && IsList(h.nodes[n].kind)
  {}

  ghost predicate HalfStep(g: Grammar, n: nat, p: nat, h: Grammar) {
    h == if CanInline(g, n, p) then Inlined(g, n, p) else g
  }

  /** After the first half: the last element is where it was, and the others are of another class if they were flat. */
  lemma FirstHalf(g: Grammar, n: nat, h: Grammar)
    requires Plain(g) && n < |g.nodes| && IsList(g.nodes[n].kind) && |g.nodes[n].kind.exprs| == 2 && HalfStep(g, n, 0, h)
    ensures |h.nodes| == |g.nodes| && SameClass(g.nodes[n].kind, h.nodes[n].kind) && h.nodes[n].kind.exprs != []
    ensures forall m :: 0 <= m < |g.nodes| && m != n ==> h.nodes[m] == g.nodes[m]
    ensures var es, fs := g.nodes[n].kind.exprs, h.nodes[n].kind.exprs;
            && fs[|fs| - 1] == es[1]
            && (!CanInline(g, n, 0) ==> h == g)
            && (es[0] < |g.nodes| && Flat(g, es[0]) ==>
                  forall i :: 0 <= i < |fs| - 1 ==> fs[i] < |g.nodes| && !SameClass(g.nodes[n].kind, g.nodes[fs[i]].kind))
  {
    hide Plain, Inline;
    var es, fs := g.nodes[n].kind.exprs, h.nodes[n].kind.exprs;
    MemberInRange(g, n, 0);
    if CanInline(g, n, 0) {
      var bs := g.nodes[es[0]].kind.exprs;
      assert fs[|bs|..][0] == es[1..][0];
      forall i | 0 <= i < |bs| ensures fs[i] == bs[i] && bs[i] in bs {}
    }
  }

  lemma HalfFrom(g: Grammar, n: nat, p: nat, h: Grammar)
    requires n < |g.nodes| && IsList(g.nodes[n].kind) && p < |g.nodes[n].kind.exprs| && HalfStep(g, n, p, h)
    ensures |h.nodes| == |g.nodes| && IsList(h.nodes[n].kind)
    ensures forall e :: e in h.nodes[n].kind.exprs ==> e in g.nodes[n].kind.exprs || IsIn(g, g.nodes[n].kind.exprs[p], e)
    ensures forall m :: 0 <= m < |g.nodes| && m != n ==> h.nodes[m] == g.nodes[m]
  {
    hide Inline;
    if CanInline(g, n, p) {
      InlineMembers(g.nodes[n].kind.exprs, p, g.nodes[g.nodes[n].kind.exprs[p]].kind.exprs);
    }
  }

  lemma HalvesFromPair(g: Grammar, n: nat, g1: Grammar, h: Grammar)
    requires Plain(g) && n < |g.nodes| && IsList(g.nodes[n].kind) && |g.nodes[n].kind.exprs| == 2 && HalfStep(g, n, 0, g1)
    requires g.nodes[n].kind.exprs[1] != n
    requires |g1.nodes| == |g.nodes| && IsList(g1.nodes[n].kind) && g1.nodes[n].kind.exprs != []
    requires HalfStep(g1, n, |g1.nodes[n].kind.exprs| - 1, h)
    ensures |h.nodes| == |g.nodes| && IsList(h.nodes[n].kind) && FromPair(g, n, h)
  {
    hide Plain, HalfStep, Inline;
    var es := g.nodes[n].kind.exprs;
    FirstHalf(g, n, g1);
    HalfFrom(g, n, 0, g1);
    HalfFrom(g1, n, |g1.nodes[n].kind.exprs| - 1, h);
    assert es[0] in es && es[1] in es;
  }

  /** Both halves keep what parses, if the second of the pair has an anchor. */
  lemma PairKept(g: Grammar, n: nat, g1: Grammar, h: Grammar)
    requires Plain(g) && Plain(g1) && Plain(h) && n < |g.nodes| && IsList(g.nodes[n].kind) && |g.nodes[n].kind.exprs| == 2 && HalfStep(g, n, 0, g1)
    requires |g1.nodes| == |g.nodes| && IsList(g1.nodes[n].kind) && g1.nodes[n].kind.exprs != []
    requires HalfStep(g1, n, |g1.nodes[n].kind.exprs| - 1, h)
    ensures Kept(g, h)
  {
    hide Plain, Flattens, Inline, Inlined, MayInline, SameParse;
    if Flattens(g) {
      FirstMayInline(g, n);
      HalfIsKept(g, n, 0, g1);
      FirstHalf(g, n, g1);
      LastMayInline(g, n, g1);
      HalfIsKept(g1, n, |g1.nodes[n].kind.exprs| - 1, h);
      assert Kept(g, g1) && Kept(g1, h);
      KeptOnward(g, g1, h);
    }
  }

  lemma HalfIsKept(g: Grammar, n: nat, p: nat, h: Grammar)
    requires Flattens(g) && HalfStep(g, n, p, h) && (CanInline(g, n, p) ==> MayInline(g, n, p))
    ensures Flattens(h) && SameParse(g, h)
  {
    hide Inlined, MayInline, PlainNode, Grammar.KindOk, SecondAnchored;
    if CanInline(g, n, p) {
      InlineKeeps(g, n, p);
      RewritesParse(g, h);
    }
  }

  lemma FirstMayInline(g: Grammar, n: nat)
    requires Plain(g)
    ensures CanInline(g, n, 0) ==> MayInline(g, n, 0)
  {}

  lemma LastMayInline(g: Grammar, n: nat, h: Grammar)
    requires Flattens(g) && Flattens(h) && n < |g.nodes| && IsList(g.nodes[n].kind) && |g.nodes[n].kind.exprs| == 2 && HalfStep(g, n, 0, h)
    requires |h.nodes| == |g.nodes| && SameClass(g.nodes[n].kind, h.nodes[n].kind) && h.nodes[n].kind.exprs != []
    requires var fs := h.nodes[n].kind.exprs; fs[|fs| - 1] == g.nodes[n].kind.exprs[1]
    requires forall m :: 0 <= m < |g.nodes| && m != n ==> h.nodes[m] == g.nodes[m]
    ensures var p := |h.nodes[n].kind.exprs| - 1; CanInline(h, n, p) ==> MayInline(h, n, p)
  {
    hide PlainNode, Grammar.KindOk, DeepAnchor, Inlined;
    var b := g.nodes[n].kind.exprs[1];
    assert SecondAnchored(g, n);
    if CanInline(g, n, 0) {
      FirstMayInline(g, n);
      InlineKeeps(g, n, 0);
    }
  }

  lemma HalfKeeps(g: Grammar, n: nat, p: nat, h: Grammar)
    requires n < |g.nodes| && IsList(g.nodes[n].kind) && HalfStep(g, n, p, h)
    ensures |h.nodes| == |g.nodes| && SameClass(g.nodes[n].kind, h.nodes[n].kind)
    ensures forall m :: 0 <= m < |g.nodes| && m != n ==> h.nodes[m] == g.nodes[m]
    ensures !CanInline(g, n, p) ==> h == g
  {
    hide Inline;
  }

  lemma SecondHalf(g: Grammar, n: nat, g1: Grammar, h: Grammar)
    requires Plain(g) && n < |g.nodes| && IsList(g.nodes[n].kind) && |g.nodes[n].kind.exprs| == 2 && HalfStep(g, n, 0, g1)
    requires g.nodes[n].kind.exprs[1] != n
    requires n < |g1.nodes| && IsList(g1.nodes[n].kind) && g1.nodes[n].kind.exprs != []
    requires HalfStep(g1, n, |g1.nodes[n].kind.exprs| - 1, h)
    ensures PairStep(g, n, h)
  {
    hide Plain, Inline, Flat, CanInline, Inlined;
    FirstHalf(g, n, g1);
    HalfKeeps(g1, n, |g1.nodes[n].kind.exprs| - 1, h);
    MemberInRange(g, n, 1);
    if Flat(g, n) {
      FlatCannot(g, n);
    }
    var es := g.nodes[n].kind.exprs;
    if forall e :: e in es ==> e < |g.nodes| && Flat(g, e) {
      assert es[0] in es && es[1] in es;
      SecondFlat(g, n, g1, h, es[1]);
    }
  }

  lemma SecondFlat(g: Grammar, n: nat, g1: Grammar, h: Grammar, b: nat)
    requires n < |g.nodes| == |g1.nodes| == |h.nodes| && IsList(g1.nodes[n].kind) && SameClass(g.nodes[n].kind, g1.nodes[n].kind)
    requires g1.nodes[n].kind.exprs != [] && SameClass(g.nodes[n].kind, h.nodes[n].kind)
    requires forall m :: 0 <= m < |g.nodes| && m != n ==> g1.nodes[m] == g.nodes[m] && h.nodes[m] == g.nodes[m]
    requires var fs := g1.nodes[n].kind.exprs;
             && fs[|fs| - 1] == b && HalfStep(g1, n, |fs| - 1, h)
             && forall i :: 0 <= i < |fs| - 1 ==> fs[i] < |g.nodes| && !SameClass(g.nodes[n].kind, g.nodes[fs[i]].kind)
    requires b < |g.nodes| && b != n && Flat(g, b)
    ensures Flat(h, n)
  {
    hide Inline, Flat;
    var fs, out := g1.nodes[n].kind.exprs, h.nodes[n].kind.exprs;
    forall e | e in out ensures e < |h.nodes| && !SameClass(h.nodes[n].kind, h.nodes[e].kind) {
      if CanInline(g1, n, |fs| - 1) {
        OthersOrInner(g, n, fs, g.nodes[b].kind.exprs, e, b);
      } else {
        var i :| 0 <= i < |fs| && fs[i] == e;
      }
    }
    IsFlat(h, n);
  }

  lemma IsFlat(g: Grammar, n: nat)
    requires n < |g.nodes| && IsList(g.nodes[n].kind)
    requires forall e :: e in g.nodes[n].kind.exprs ==> e < |g.nodes| && !SameClass(g.nodes[n].kind, g.nodes[e].kind)
    ensures Flat(g, n)
  {}

  lemma FlatCannot(g: Grammar, n: nat)
    requires n < |g.nodes| && IsList(g.nodes[n].kind) && Flat(g, n)
    ensures forall p :: 0 <= p < |g.nodes[n].kind.exprs| ==> !CanInline(g, n, p)
  {}

  /** An element of the list inlined at its last position is one of those before it, or of the inner ones, which are
      of another class when the inner list is flat. */
  lemma OthersOrInner(g: Grammar, n: nat, fs: seq<nat>, bs: seq<nat>, e: nat, b: nat)
    requires n < |g.nodes| && fs != [] && e in Inline(fs, |fs| - 1, bs)
    requires b < |g.nodes| && SameClass(g.nodes[n].kind, g.nodes[b].kind) && g.nodes[b].kind.exprs == bs && Flat(g, b)
    requires forall i :: 0 <= i < |fs| - 1 ==> fs[i] < |g.nodes| && !SameClass(g.nodes[n].kind, g.nodes[fs[i]].kind)
    ensures e < |g.nodes| && !SameClass(g.nodes[n].kind, g.nodes[e].kind)
  {}

  /** The pair step at the end of a pass over the elements of `n`. */
  lemma PairIsFlat(g: Grammar, g2: Grammar, n: nat, h: Grammar)
    requires OnlyFlattened(g, g2) && n < |g2.nodes| && IsList(g.nodes[n].kind) && PairStep(g2, n, h)
    requires Pairs(g) ==> Pairs(g2) && forall e :: e in g.nodes[n].kind.exprs ==> e < |g2.nodes| && Flat(g2, e)
    ensures OnlyFlattened(g, h) && (Pairs(g) ==> Pairs(h) && Flat(h, n))
  {
    hide Flat;
    if Pairs(g) {
      assert Flat(h, n);
    }
    forall m | 0 <= m < |g2.nodes| && Flat(g2, m) ensures Flat(h, m) {
      if m != n {
        FlatElsewhere(g2, n, h, m);
      }
    }
  }

  lemma FlatElsewhere(g: Grammar, n: nat, h: Grammar, m: nat)
    requires n < |g.nodes| && PairStep(g, n, h) && m < |g.nodes| && m != n && Flat(g, m)
    ensures Flat(h, m)
  {}

  // --- a nested sequence without an anchor -----------------------------------------------------------------------------

  /** `'a' + And([Optional(MatchFirst(['b']))])`, or flattened: the optional element leaves whitespace to its alternatives. */
  function OptionalHead(flat: bool): Grammar {
    Grammar([Skipping(Literal("a")), Skipping(Literal("b")), Skipping(MatchFirst([1])).(callPreparse := false),
             Skipping(Optional(2)).(callPreparse := false), Skipping(And([3])), Skipping(And(if flat then [0, 3] else [0, 4]))],
            [0, 0, 1, 2, 3, 4], [true, true, true, false, false, true])
  }

  function Skipping(kind: Kind): Node {
    Node(kind, true, {' '}, true, [], false)
  }

  lemma OptionalHeadKind(flat: bool, n: nat)
    requires n < 6
    ensures OptionalHead(flat).KindOk(n, OptionalHead(flat).nodes[n].kind)
  {
    var g := OptionalHead(flat);
    if n == 5 {
      var es := g.nodes[5].kind.exprs;
      assert g.Below(es[0], 5) && g.Below(es[1], 5) && g.consumes[es[0]];
    }
  }

  lemma OptionalHeadIsPlain(flat: bool)
    ensures Plain(OptionalHead(flat))
  {
    hide Grammar.KindOk;
    forall n | 0 <= n < 6 {
      OptionalHeadKind(flat, n);
    }
  }

  lemma OptionalSkips(flat: bool)
    ensures var g := OptionalHead(flat);
            && (forall n :: 0 <= n < 6 ==> Skip(g.nodes[n], "a ", 0) == 0 && Skip(g.nodes[n], "a ", 1) == 2 && Skip(g.nodes[n], "a ", 2) == 2)
  {}

  lemma OptionalMissing(flat: bool, loc: nat, pre: bool)
    requires loc == 1 || loc == 2
    ensures Plain(OptionalHead(flat)) && Parse(OptionalHead(flat), "a ", 3, loc, true, pre) == Ok(loc, [])
  {
    hide Parse, FirstOf, Skip;
    var g, s := OptionalHead(flat), "a ";
    OptionalHeadIsPlain(flat);
    OptionalSkips(flat);
    ParsePlain(g, s, 1, loc, true, true);
    assert !MatchesAt(s, 2, "b");
    assert Parse(g, s, 1, loc, true, true) == Fail(2, false);
    assert g.KindOk(2, g.nodes[2].kind) && g.KindOk(3, g.nodes[3].kind);
    FirstStep(g, s, 2, [1], 0, loc, None, true);
    NoMoreAlternatives(g, s, 2, [1], loc, Some(2), true);
    ParsePlain(g, s, 2, loc, true, false);
    ParsePlain(g, s, 3, loc, true, pre);
  }

  lemma NoMoreAlternatives(g: Grammar, s: string, n: nat, es: seq<nat>, loc: nat, w: Option<nat>, act: bool)
    requires g.Valid() && n < |g.nodes| && g.KindOk(n, MatchFirst(es)) && loc <= |s|
    ensures FirstOf(g, s, n, es, |es|, loc, w, act) == Worst(w, loc)
  {}

  lemma OptionalNested()
    ensures Plain(OptionalHead(false)) && Parse(OptionalHead(false), "a ", 4, 1, true, true) == Ok(2, [])
  {
    hide Parse, Impl, AndRest, Skip;
    var g, s := OptionalHead(false), "a ";
    OptionalMissing(false, 2, false);
    OptionalSkips(false);
    assert g.KindOk(4, g.nodes[4].kind);
    ParsePlain(g, s, 4, 1, true, true);
    FirstOfSequence(g, s, 4, [3], 2, true);
    assert [3][..1] == [3];
    AndEnd(g, s, 4, [3], 2, 2, [], false, true);
  }

  lemma LiteralFound(flat: bool)
    ensures Plain(OptionalHead(flat)) && Parse(OptionalHead(flat), "a ", 0, 0, true, false) == Ok(1, ["a"])
  {
    hide Parse, Skip;
    OptionalHeadIsPlain(flat);
    assert OptionalHead(flat).KindOk(0, Literal("a"));
    ParsePlain(OptionalHead(flat), "a ", 0, 0, true, false);
    assert "a "[0..1] == "a" && MatchesAt("a ", 0, "a");
  }

  /** A sequence that begins with the literal goes on after it. */
  lemma AfterLiteral(flat: bool)
    ensures Plain(OptionalHead(flat)) && OptionalHead(flat).KindOk(5, OptionalHead(flat).nodes[5].kind)
    ensures Parse(OptionalHead(flat), "a ", 5, 0, true, true) ==
            AndRest(OptionalHead(flat), "a ", 5, OptionalHead(flat).nodes[5].kind.exprs, 1, 0, 1, ["a"], false, true)
  {
    hide Parse, Impl, AndRest, Skip, Grammar.KindOk;
    var g, s := OptionalHead(flat), "a ";
    LiteralFound(flat);
    OptionalSkips(flat);
    assert g.KindOk(5, g.nodes[5].kind);
    ParsePlain(g, s, 5, 0, true, true);
    FirstOfSequence(g, s, 5, g.nodes[5].kind.exprs, 0, true);
  }

  /** Flattening such a sequence is not neutral: on "a " the nested form ends after the blank, the flat one before. */
  lemma OptionalHeadMovesEnd()
    ensures CanInline(OptionalHead(false), 5, 1) && Inlined(OptionalHead(false), 5, 1) == OptionalHead(true)
    ensures Plain(OptionalHead(false)) && Plain(OptionalHead(true))
    ensures Parse(OptionalHead(false), "a ", 5, 0, true, true) == Ok(2, ["a"])
    ensures Parse(OptionalHead(true), "a ", 5, 0, true, true) == Ok(1, ["a"])
  {
    hide Parse, AndRest, Impl;
    var g, h, s := OptionalHead(false), OptionalHead(true), "a ";
    assert Inline([0, 4], 1, [3]) == [0, 3];
    assert Inlined(g, 5, 1).nodes == h.nodes;
    AfterLiteral(false);
    AfterLiteral(true);
    OptionalNested();
    OptionalMissing(true, 1, true);
    AndStep(g, s, 5, [0, 4], 1, 0, 1, ["a"], false, true);
    AndStep(h, s, 5, [0, 3], 1, 0, 1, ["a"], false, true);
    assert ["a"] + [] == ["a"];
    AndEnd(g, s, 5, [0, 4], 0, 2, ["a"], false, true);
    AndEnd(h, s, 5, [0, 3], 0, 1, ["a"], false, true);
  }
}
