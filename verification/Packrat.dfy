/** The packrat cache: parsing with it, of any size, gives what parsing without it would. */
module Packrat {
  import opened Options
  import opened ParserCore
  import Derivations
  import ParsedIsDerived

  /** A growing list of tokens (`ParseResults`, without names). */
  class TokenList {
    var items: seq<string>

    constructor (items: seq<string>)
      ensures this.items == items
    {
      this.items := items;
    }

    /** `copy`. */
    method Copy() returns (c: TokenList)
      ensures fresh(c) && c.items == items
    {
      c := new TokenList(items);
    }

    /** `__iadd__`: the list itself grows. */
    method Grow(more: TokenList)
      modifies this
      ensures items == old(items) + old(more.items)
    {
      items := items + more.items;
    }
  }

  datatype Found = Match(end: nat, list: TokenList) | Failure(loc: nat, fatal: bool)

  ghost function OutcomeOf(r: Found): Outcome
    reads if r.Match? then {r.list} else {}
  {
    match r
    case Match(end, list) => Ok(end, list.items)
    case Failure(loc, fatal) => Fail(loc, fatal)
  }

  /** The result stands for an outcome of parsing. */
  ghost predicate Gives(r: Found, o: Outcome)
    reads if r.Match? then {r.list} else {}
  {
    o == OutcomeOf(r)
  }

  datatype Key = Key(id: nat, text: string, loc: nat, pre: bool, act: bool)

  ghost predicate KeyOk(g: Grammar, k: Key) {
    k.id < |g.nodes| && k.loc <= |k.text|
  }

  /** An ordered dictionary: each key once. */
  ghost predicate InOrder(cache: map<Key, Found>, keys: seq<Key>) {
    && (forall k :: k in cache <==> k in keys)
    && (forall i, j :: 0 <= i < j < |keys| ==> keys[i] != keys[j])
  }

  lemma NewestIn(cache: map<Key, Found>, keys: seq<Key>, k: Key, found: Found)
    requires InOrder(cache, keys)
    ensures InOrder(cache[k := found], if k in cache then keys else keys + [k])
  {}

  lemma OldestOut(cache: map<Key, Found>, keys: seq<Key>)
    requires InOrder(cache, keys) && keys != []
    ensures InOrder(cache - {keys[0]}, keys[1..])
  {}

  class Parser {
    const g: Grammar
    /** Whether the cache is in use, and how many entries it holds at most. */
    const caching: bool
    const limit: Option<nat>
    var cache: map<Key, Found>
    /** The keys of the cache, the oldest first. */
    var keys: seq<Key>
    /** The token lists that the cache owns. */
    ghost var lists: set<TokenList>

    ghost predicate Valid()
      reads this, lists
    {
      && g.Valid()
      && InOrder(cache, keys)
      && (forall k :: k in cache ==> Correct(k, cache[k]))
    }

    /** A cached entry is the uncached result, in a list that the cache owns. */
    ghost predicate Correct(k: Key, found: Found)
      reads this`lists, lists
      requires g.Valid()
    {
      && KeyOk(g, k) && (found.Match? ==> found.list in lists)
      && Gives(found, Parse(g, k.text, k.id, k.loc, k.act, k.pre))
    }

    constructor (g: Grammar, caching: bool, limit: Option<nat>)
      requires g.Valid()
      ensures Valid() && this.g == g && cache == map[]
    {
      this.g, this.caching, this.limit := g, caching, limit;
      cache, keys, lists := map[], [], {};
    }

    /** Whether the cache may go on as it is: this is what each parsing method promises. */
    twostate predicate Kept()
      reads this, lists
    {
      Valid() && fresh(lists - old(lists))
    }

    /** `set`: an entry is made, and the oldest go until the size fits. */
    method Store(k: Key, found: Found)
      requires Valid() && KeyOk(g, k) && Gives(found, Parse(g, k.text, k.id, k.loc, k.act, k.pre))
      modifies this`cache, this`keys, this`lists
      ensures Valid() && lists <= old(lists) + (if found.Match? then {found.list} else {})
      ensures limit.Some? ==> |keys| <= limit.value
      ensures forall k' :: k' in cache && k' != k ==> k' in old(cache) && cache[k'] == old(cache)[k']
    {
      hide Parse, InOrder, Gives;
      NewestIn(cache, keys, k, found);
      if k !in cache {
        keys := keys + [k];
      }
      cache := cache[k := found];
      if found.Match? {
        lists := lists + {found.list};
      }
      assert forall k' :: k' in cache && k' != k ==> k' in old(cache) && Correct(k', cache[k']);
      Evict();
    }

    /** The oldest entries go, until the size fits. */
    method Evict()
      requires Valid()
      modifies this`cache, this`keys
      ensures Valid() && lists == old(lists)
      ensures limit.Some? ==> |keys| <= limit.value
      ensures forall k :: k in cache ==> k in old(cache) && cache[k] == old(cache)[k]
    {
      hide Correct, InOrder;
      while limit.Some? && |keys| > limit.value
        invariant Valid()
        invariant forall k :: k in cache ==> k in old(cache) && cache[k] == old(cache)[k]
        decreases |keys|
      {
        OldestOut(cache, keys);
        cache := cache - {keys[0]};
        keys := keys[1..];
      }
    }

    /** `parseString`: the cache starts empty. The result is what can be derived, and nothing else can. */
    method ParseString(s: string, id: nat) returns (r: Found)
      requires Valid() && id < |g.nodes|
      modifies this`cache, this`keys, this`lists
      ensures Kept() && Gives(r, Parse(g, s, id, 0, true, true))
      ensures forall o :: Derivations.Derivable(g, s, Derivations.Step(id, 0, true, true, o)) <==> o == OutcomeOf(r)
      ensures r.Match? ==> fresh(r.list) && r.list !in lists
    {
      hide Parse;
      cache, keys := map[], [];
      r := ParseElement(s, id, 0, true, true);
      forall o ensures Derivations.Derivable(g, s, Derivations.Step(id, 0, true, true, o)) <==> o == OutcomeOf(r) {
        ParsedIsDerived.ParsesWhatIsDerived(g, s, id, 0, true, true, o);
      }
    }

    /** `_parse` of an element: with the cache if it is in use. */
    method ParseElement(s: string, id: nat, loc: nat, act: bool, pre: bool) returns (r: Found)
      requires Valid() && id < |g.nodes| && loc <= |s|
      modifies this`cache, this`keys, this`lists
      ensures Kept() && Gives(r, Parse(g, s, id, loc, act, pre))
      ensures r.Match? ==> fresh(r.list) && r.list !in lists
      decreases |s| - loc, g.rank[id], 5
    {
      hide Parse, Gives;
      if caching {
        r := ParseCache(s, id, loc, act, pre);
      } else {
        r := ParseNoCache(s, id, loc, act, pre);
      }
    }

    /** `_parseCache`: what is stored, and what is returned of what is stored, are copies. */
    method ParseCache(s: string, id: nat, loc: nat, act: bool, pre: bool) returns (r: Found)
      requires Valid() && id < |g.nodes| && loc <= |s|
      modifies this`cache, this`keys, this`lists
      ensures Kept() && Gives(r, Parse(g, s, id, loc, act, pre))
      ensures r.Match? ==> fresh(r.list) && r.list !in lists
      decreases |s| - loc, g.rank[id], 4
    {
      hide Parse;
      var lookup := Key(id, s, loc, pre, act);
      if lookup !in cache {
        r := ParseNoCache(s, id, loc, act, pre);
        if r.Failure? {
          Store(lookup, r);
        } else {
          var copy := r.list.Copy();
          Store(lookup, Match(r.end, copy));
        }
      } else {
        var value := cache[lookup];
        assert Correct(lookup, value);
        if value.Failure? {
          r := value;
        } else {
          var copy := value.list.Copy();
          r := Match(value.end, copy);
        }
      }
    }

    /** `_parseNoCache`. */
    method ParseNoCache(s: string, id: nat, loc: nat, act: bool, pre: bool) returns (r: Found)
      requires Valid() && id < |g.nodes| && loc <= |s|
      modifies this`cache, this`keys, this`lists
      ensures Kept() && Gives(r, Parse(g, s, id, loc, act, pre))
      ensures r.Match? ==> fresh(r.list) && r.list !in lists
      decreases |s| - loc, g.rank[id], 3
    {
      hide Impl, Skip;
      var n := g.nodes[id];
      var start := if pre && n.callPreparse then Skip(n, s, loc) else loc;
      r := ParseImpl(s, id, start, act);
      if r.Match? && (act || n.duringTry) {
        r := Act(n.actions, s, start, r);
      }
    }

    /** The parse actions, one after the other; a replacement makes a new list. */
    method Act(actions: seq<Action>, s: string, start: nat, found: Found) returns (r: Found)
      requires found.Match?
      ensures Gives(r, RunActions(actions, s, start, found.end, found.list.items))
      ensures r.Match? ==> r.list == found.list || fresh(r.list)
    {
      var list := found.list;
      for i := 0 to |actions|
        invariant list == found.list || fresh(list)
        invariant RunActions(actions, s, start, found.end, found.list.items) == RunActions(actions[i..], s, start, found.end, list.items)
      {
        match actions[i](s, start, list.items) {
          case Keep =>
          case Replace(toks) => list := new TokenList(toks);
          case Reject(loc, fatal) => return Failure(loc, fatal);
        }
      }
      return Match(found.end, list);
    }

    /** `parseImpl` of each kind of element. */
    method ParseImpl(s: string, id: nat, loc: nat, act: bool) returns (r: Found)
      requires Valid() && id < |g.nodes| && loc <= |s|
      modifies this`cache, this`keys, this`lists
      ensures Kept() && Gives(r, Impl(g, s, id, g.nodes[id].kind, loc, act))
      ensures r.Match? ==> fresh(r.list) && r.list !in lists
      decreases |s| - loc, g.rank[id], 2
    {
      hide Parse, AndRest, FirstOf, Repeat, TryAll, Scan, WordEnd, MatchesAt;
      assert g.KindOk(id, g.nodes[id].kind);
      match g.nodes[id].kind {
        case Literal(text) =>
          if MatchesAt(s, loc, text) {
            r := One(loc + |text|, [text]);
          } else {
            r := Failure(loc, false);
          }
        case Word(init, body) =>
          if loc < |s| && s[loc] in init {
            var end := WordEnd(body, s, loc + 1);
            r := One(end, [s[loc..end]]);
          } else {
            r := Failure(loc, false);
          }
        case Empty => r := One(loc, []);
        case Stop => r := One(loc, []);
        case And(es) => r := AndImpl(s, id, es, loc, act);
        case MatchFirst(es) => r := MatchFirstImpl(s, id, es, loc, act);
        case Or(es) => r := OrImpl(s, id, es, loc, act);
        case OneOrMore(e) => r := RepeatImpl(s, id, e, loc, act);
        case ZeroOrMore(e) =>
          r := RepeatImpl(s, id, e, loc, act);
          if r.Failure? && !r.fatal {
            r := One(loc, []);
          }
        case Optional(e) =>
          r := ParseElement(s, e, loc, act, false);
          if r.Failure? && !r.fatal {
            r := One(loc, []);
          }
        case Forward(e) => r := ParseElement(s, e, loc, act, false);
      }
    }

    /** A match with a list of its own. */
    method One(end: nat, toks: seq<string>) returns (r: Found)
      ensures r.Match? && fresh(r.list) && Gives(r, Ok(end, toks))
    {
      var list := new TokenList(toks);
      r := Match(end, list);
    }

    /** `MatchFirst.parseImpl`. */
    method MatchFirstImpl(s: string, id: nat, es: seq<nat>, loc: nat, act: bool) returns (r: Found)
      requires Valid() && id < |g.nodes| && loc <= |s| && g.nodes[id].kind == MatchFirst(es)
      modifies this`cache, this`keys, this`lists
      ensures Kept() && Gives(r, Impl(g, s, id, g.nodes[id].kind, loc, act))
      ensures r.Match? ==> fresh(r.list) && r.list !in lists
      decreases |s| - loc, g.rank[id], 1
    {
      hide Parse;
      assert g.KindOk(id, g.nodes[id].kind);
      var worst: Option<nat> := None;
      for i := 0 to |es|
        invariant Kept()
        invariant Impl(g, s, id, g.nodes[id].kind, loc, act) == FirstOf(g, s, id, es, i, loc, worst, act)
      {
        assert es[i] in es;
        r := ParseElement(s, es[i], loc, act, true);
        if r.Match? || r.fatal {
          return;
        }
        worst := Further(worst, r.loc);
      }
      return Failure(if worst.Some? then worst.value else loc, false);
    }

    /** `Or.parseImpl`: all alternatives are tried without actions, then parsed again from the longest down. */
    method OrImpl(s: string, id: nat, es: seq<nat>, loc: nat, act: bool) returns (r: Found)
      requires Valid() && id < |g.nodes| && loc <= |s| && g.nodes[id].kind == Or(es)
      modifies this`cache, this`keys, this`lists
      ensures Kept() && Gives(r, Impl(g, s, id, g.nodes[id].kind, loc, act))
      ensures r.Match? ==> fresh(r.list) && r.list !in lists
      decreases |s| - loc, g.rank[id], 1
    {
      hide Parse, Scan, SortDown;
      assert g.KindOk(id, g.nodes[id].kind);
      var ms: seq<Ending>, worst: Option<nat> := [], None;
      for i := 0 to |es|
        invariant Kept() && forall m :: m in ms ==> m.1 in es
        invariant TryAll(g, s, id, es, 0, loc, [], None) == TryAll(g, s, id, es, i, loc, ms, worst)
      {
        assert es[i] in es;
        var tried := ParseElement(s, es[i], loc, false, true);
        if tried.Match? {
          ms := ms + [(tried.end, es[i])];
        } else {
          worst := Further(worst, if tried.fatal then loc else tried.loc);
        }
      }
      if ms == [] {
        return Failure(if worst.Some? then worst.value else loc, false);
      }
      SortedAre(ms);
      var sorted := SortDown(ms);
      assert sorted[0] in sorted;
      if act {
        r := ScanImpl(s, id, es, sorted, loc, worst);
      } else {
        r := ParseElement(s, sorted[0].1, loc, act, true);
      }
    }

    /** The second half of `Or.parseImpl`. */
    method ScanImpl(s: string, id: nat, es: seq<nat>, ms: seq<Ending>, loc: nat, first: Option<nat>) returns (r: Found)
      requires Valid() && id < |g.nodes| && loc <= |s| && g.nodes[id].kind == Or(es) && forall m :: m in ms ==> m.1 in es
      modifies this`cache, this`keys, this`lists
      ensures Kept() && Gives(r, Scan(g, s, id, es, ms, 0, loc, None, first))
      ensures r.Match? ==> fresh(r.list) && r.list !in lists
      decreases |s| - loc, g.rank[id], 0
    {
      hide Parse;
      assert g.KindOk(id, g.nodes[id].kind);
      var worst: Option<nat> := first;
      var longest: Option<(nat, TokenList)> := None;
      for i := 0 to |ms|
        invariant Kept() && (longest.Some? ==> fresh(longest.value.1) && longest.value.1 !in lists)
        invariant longest.Some? ==> InText(s, loc, g.consumes[id], Ok(longest.value.0, longest.value.1.items))
        invariant Scan(g, s, id, es, ms, 0, loc, None, first) ==
          Scan(g, s, id, es, ms, i, loc, if longest.Some? then Some((longest.value.0, longest.value.1.items)) else None, worst)
      {
        if longest.Some? && ms[i].0 <= longest.value.0 {
          return Match(longest.value.0, longest.value.1);
        }
        assert ms[i] in ms;
        r := ParseElement(s, ms[i].1, loc, true, true);
        if r.Failure? {
          if r.fatal {
            return;
          }
          worst := Further(worst, r.loc);
        } else if r.end >= ms[i].0 {
          return;
        } else if longest.None? || r.end > longest.value.0 {
          longest := Some((r.end, r.list));
        }
      }
      if longest.Some? {
        return Match(longest.value.0, longest.value.1);
      }
      return Failure(if worst.Some? then worst.value else loc, false);
    }

    /** `_MultipleMatch.parseImpl`: the list of the first match grows by the tokens of the others. */
    method RepeatImpl(s: string, id: nat, e: nat, loc: nat, act: bool) returns (r: Found)
      requires Valid() && id < |g.nodes| && loc <= |s| && g.Below(e, id) && g.consumes[e]
      modifies this`cache, this`keys, this`lists
      ensures Kept() && Gives(r, Repeat(g, s, id, e, loc, act))
      ensures r.Match? ==> fresh(r.list) && r.list !in lists
      decreases |s| - loc, g.rank[id], 1
    {
      hide Parse;
      r := ParseElement(s, e, loc, act, false);
      if r.Failure? {
        return;
      }
      var list, end := r.list, r.end;
      while true
        invariant Kept() && fresh(list) && list !in lists && loc <= end <= |s|
        invariant Repeat(g, s, id, e, loc, act) == Many(g, s, id, e, end, list.items, act)
        decreases |s| - end
      {
        r := ParseElement(s, e, end, act, true);
        if r.Failure? {
          if r.fatal {
            return;
          }
          return Match(end, list);
        }
        end := r.end;
        list.Grow(r.list);
      }
    }

    /** `And.parseImpl`: the list of the first element grows by the tokens of the others. */
    method AndImpl(s: string, id: nat, es: seq<nat>, loc: nat, act: bool) returns (r: Found)
      requires Valid() && id < |g.nodes| && loc <= |s| && g.nodes[id].kind == And(es)
      modifies this`cache, this`keys, this`lists
      ensures Kept() && Gives(r, Impl(g, s, id, g.nodes[id].kind, loc, act))
      ensures r.Match? ==> fresh(r.list) && r.list !in lists
      decreases |s| - loc, g.rank[id], 1
    {
      hide Parse, AndRest;
      assert g.KindOk(id, g.nodes[id].kind);
      assert !g.Consumed(es[..0]) && g.Below(es[0], id);
      r := ParseElement(s, es[0], loc, act, false);
      if r.Failure? {
        return;
      }
      hide Impl;
      var list, end, stop := r.list, r.end, false;
      var i := 1;
      assert es[..1] == [es[0]];
      while i < |es|
        invariant Kept() && 1 <= i <= |es| && fresh(list) && list !in lists
        invariant loc <= end <= |s| && (g.Consumed(es[..i]) ==> loc < end)
        invariant Impl(g, s, id, g.nodes[id].kind, loc, act) == AndRest(g, s, id, es, i, loc, end, list.items, stop, act)
      {
        AndStep(g, s, id, es, i, loc, end, list.items, stop, act);
        if g.nodes[es[i]].kind.Stop? {
          stop := true;
        } else {
          r := ParseElement(s, es[i], end, act, true);
          if r.Failure? {
            return Failure(r.loc, r.fatal || stop);
          }
          end := r.end;
          list.Grow(r.list);
        }
        i := i + 1;
      }
      AndEnd(g, s, id, es, loc, end, list.items, stop, act);
      return Match(end, list);
    }
  }
}
