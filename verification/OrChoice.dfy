/** Which alternative `Or` takes. */
module OrChoice {
  import opened Options
  import opened ParserCore

  ghost predicate Alternatives(g: Grammar, es: seq<nat>) {
    forall k :: 0 <= k < |es| ==> es[k] < |g.nodes|
  }

  /** The alternative `k` without actions, as it is first tried. */
  ghost function Tried(g: Grammar, s: string, es: seq<nat>, loc: nat, k: nat): Outcome
    requires g.Valid() && Alternatives(g, es) && k < |es| && loc <= |s|
  {
    Parse(g, s, es[k], loc, false, true)
  }

  /** The matches of the alternatives from `i` on, in order. */
  ghost function MatchesFrom(g: Grammar, s: string, es: seq<nat>, loc: nat, i: nat): seq<Ending>
    requires g.Valid() && Alternatives(g, es) && i <= |es| && loc <= |s|
    decreases |es| - i
  {
    if i == |es| then
      []
    else
      (if Tried(g, s, es, loc, i).Ok? then [(Tried(g, s, es, loc, i).end, es[i])] else []) + MatchesFrom(g, s, es, loc, i + 1)
  }

  /** Where a failing alternative failed; what was fatal counts as failing at once. */
  ghost function FailedAt(g: Grammar, s: string, es: seq<nat>, loc: nat, k: nat): nat
    requires g.Valid() && Alternatives(g, es) && k < |es| && loc <= |s| && Tried(g, s, es, loc, k).Fail?
  {
    if Tried(g, s, es, loc, k).fatal then loc else Tried(g, s, es, loc, k).loc
  }

  ghost function WorstFrom(g: Grammar, s: string, es: seq<nat>, loc: nat, i: nat, worst: Option<nat>): Option<nat>
    requires g.Valid() && Alternatives(g, es) && i <= |es| && loc <= |s|
    decreases |es| - i
  {
    if i == |es| then worst
    else WorstFrom(g, s, es, loc, i + 1, if Tried(g, s, es, loc, i).Ok? then worst else Further(worst, FailedAt(g, s, es, loc, i)))
  }

  lemma {:induction false} TryAllCollects(g: Grammar, s: string, id: nat, es: seq<nat>, i: nat, loc: nat, ms: seq<Ending>, worst: Option<nat>)
    requires g.Valid() && id < |g.nodes| && g.KindOk(id, Or(es)) && i <= |es| && loc <= |s| && forall m :: m in ms ==> m.1 in es
    ensures Alternatives(g, es)
    ensures TryAll(g, s, id, es, i, loc, ms, worst) == (ms + MatchesFrom(g, s, es, loc, i), WorstFrom(g, s, es, loc, i, worst))
    decreases |es| - i
  {
    hide Parse;
    assert forall k :: 0 <= k < |es| ==> es[k] in es;
    if i < |es| {
      var r := Tried(g, s, es, loc, i);
      if r.Ok? {
        TryAllCollects(g, s, id, es, i + 1, loc, ms + [(r.end, es[i])], worst);
        assert ms + [(r.end, es[i])] + MatchesFrom(g, s, es, loc, i + 1) == ms + MatchesFrom(g, s, es, loc, i);
      } else {
        TryAllCollects(g, s, id, es, i + 1, loc, ms, Further(worst, FailedAt(g, s, es, loc, i)));
        assert MatchesFrom(g, s, es, loc, i) == MatchesFrom(g, s, es, loc, i + 1);
      }
    } else {
      assert MatchesFrom(g, s, es, loc, i) == [] && ms + [] == ms;
    }
  }

  /** `k` is the longest match from `i` on, and the first of those. */
  ghost predicate IsLongest(g: Grammar, s: string, es: seq<nat>, loc: nat, i: nat, k: nat)
    requires g.Valid() && Alternatives(g, es) && loc <= |s| && k < |es|
  {
    && Tried(g, s, es, loc, k).Ok?
    && (forall j :: i <= j < |es| && Tried(g, s, es, loc, j).Ok? ==> Tried(g, s, es, loc, j).end <= Tried(g, s, es, loc, k).end)
    && (forall j :: i <= j < k && Tried(g, s, es, loc, j).Ok? ==> Tried(g, s, es, loc, j).end < Tried(g, s, es, loc, k).end)
  }

  lemma FirstAfterInsert(m: Ending, rest: seq<Ending>)
    ensures SortDown([m] + rest) != []
    ensures rest == [] ==> SortDown([m] + rest)[0] == m
    ensures rest != [] ==>
      SortDown(rest) != [] && SortDown([m] + rest)[0] == if SortDown(rest)[0].0 <= m.0 then m else SortDown(rest)[0]
  {}

  lemma LongestOnward(g: Grammar, s: string, es: seq<nat>, loc: nat, i: nat, k: nat)
    requires g.Valid() && Alternatives(g, es) && i < k < |es| && loc <= |s| && IsLongest(g, s, es, loc, i + 1, k)
    ensures var here, there := Tried(g, s, es, loc, i), Tried(g, s, es, loc, k);
            there.Ok? && if here.Ok? && there.end <= here.end then IsLongest(g, s, es, loc, i, i) else IsLongest(g, s, es, loc, i, k)
  {}

  lemma OnlyHere(g: Grammar, s: string, es: seq<nat>, loc: nat, i: nat)
    requires g.Valid() && Alternatives(g, es) && i < |es| && loc <= |s| && Tried(g, s, es, loc, i).Ok?
    requires forall j :: i + 1 <= j < |es| ==> Tried(g, s, es, loc, j).Fail?
    ensures IsLongest(g, s, es, loc, i, i)
  {}

  /** The earliest of the longest matches comes first in the sorted list. */
  lemma {:induction false} LongestComesFirst(g: Grammar, s: string, es: seq<nat>, loc: nat, i: nat) returns (k: nat)
    requires g.Valid() && Alternatives(g, es) && i <= |es| && loc <= |s| && MatchesFrom(g, s, es, loc, i) != []
    ensures i <= k < |es| && IsLongest(g, s, es, loc, i, k)
    ensures SortDown(MatchesFrom(g, s, es, loc, i)) != []
    ensures SortDown(MatchesFrom(g, s, es, loc, i))[0] == (Tried(g, s, es, loc, k).end, es[k])
    decreases |es| - i
  {
    hide Tried, SortDown, IsLongest, Alternatives;
    var rest := MatchesFrom(g, s, es, loc, i + 1);
    var here := Tried(g, s, es, loc, i);
    if here.Fail? {
      assert MatchesFrom(g, s, es, loc, i) == rest;
      k := LongestComesFirst(g, s, es, loc, i + 1);
      LongestOnward(g, s, es, loc, i, k);
    } else {
      FirstAfterInsert((here.end, es[i]), rest);
      if rest == [] {
        NoMatches(g, s, es, loc, i + 1);
        OnlyHere(g, s, es, loc, i);
        k := i;
      } else {
        k := LongestComesFirst(g, s, es, loc, i + 1);
        LongestOnward(g, s, es, loc, i, k);
        if Tried(g, s, es, loc, k).end <= here.end {
          k := i;
        }
      }
    }
  }

  lemma {:induction false} NoMatches(g: Grammar, s: string, es: seq<nat>, loc: nat, i: nat)
    requires g.Valid() && Alternatives(g, es) && i <= |es| && loc <= |s| && MatchesFrom(g, s, es, loc, i) == []
    ensures forall j :: i <= j < |es| ==> Tried(g, s, es, loc, j).Fail?
    decreases |es| - i
  {
    hide Parse;
    if i < |es| {
      NoMatches(g, s, es, loc, i + 1);
    }
  }

  /** Without actions, `Or` gives what its longest alternative gives, the earliest listed on ties; it fails only when
      all alternatives do. */
  lemma OrTakesLongest(g: Grammar, s: string, id: nat, es: seq<nat>, loc: nat)
    requires g.Valid() && id < |g.nodes| && g.KindOk(id, Or(es)) && loc <= |s|
    ensures Alternatives(g, es)
    ensures var r := Impl(g, s, id, Or(es), loc, false);
            if r.Ok? then exists k :: 0 <= k < |es| && IsLongest(g, s, es, loc, 0, k) && r == Tried(g, s, es, loc, k)
            else !r.fatal ==> forall j :: 0 <= j < |es| ==> Tried(g, s, es, loc, j).Fail?
    ensures (exists k :: 0 <= k < |es| && Tried(g, s, es, loc, k).Ok?) ==> Impl(g, s, id, Or(es), loc, false).Ok?
  {
    hide Parse;
    TryAllCollects(g, s, id, es, 0, loc, [], None);
    var ms := MatchesFrom(g, s, es, loc, 0);
    assert [] + ms == ms;
    if ms == [] {
      NoMatches(g, s, es, loc, 0);
    } else {
      var k := LongestComesFirst(g, s, es, loc, 0);
      assert Impl(g, s, id, Or(es), loc, false) == Tried(g, s, es, loc, k);
    }
  }

  // --- with actions ---------------------------------------------------------------------------------------------------

  ghost predicate Descending(ms: seq<Ending>) {
    forall i, j :: 0 <= i < j < |ms| ==> ms[i].0 >= ms[j].0
  }

  lemma InsertMembers(m: Ending, sorted: seq<Ending>)
    ensures forall x :: x in InsertDown(m, sorted) ==> x == m || x in sorted
  {}

  lemma {:induction false} InsertDescends(m: Ending, sorted: seq<Ending>)
    requires Descending(sorted)
    ensures Descending(InsertDown(m, sorted))
  {
    if sorted != [] && sorted[0].0 > m.0 {
      var rest := sorted[1..];
      InsertDescends(m, rest);
      InsertMembers(m, rest);
      forall j | 0 <= j < |InsertDown(m, rest)| ensures InsertDown(m, rest)[j].0 <= sorted[0].0 {
        assert InsertDown(m, rest)[j] in InsertDown(m, rest);
      }
    }
  }

  lemma {:induction false} SortDescends(ms: seq<Ending>)
    ensures Descending(SortDown(ms))
  {
    if ms != [] {
      SortDescends(ms[1..]);
      InsertDescends(ms[0], SortDown(ms[1..]));
    }
  }

  /** The match parsed again, with actions. */
  ghost function Again(g: Grammar, s: string, m: Ending, loc: nat): Outcome
    requires g.Valid() && m.1 < |g.nodes| && loc <= |s|
  {
    Parse(g, s, m.1, loc, true, true)
  }

  /** Parsing again may shorten a match or reject it, but never lengthens it. */
  ghost predicate NeverLonger(g: Grammar, s: string, ms: seq<Ending>, loc: nat)
    requires g.Valid() && loc <= |s|
  {
    forall m :: m in ms ==> m.1 < |g.nodes| && (Again(g, s, m, loc).Ok? ==> Again(g, s, m, loc).end <= m.0)
  }

  type Longest = Option<(nat, seq<string>)>

  /** The longest of the first `n` matches parsed again, if any of them still matches. */
  ghost predicate BestOf(g: Grammar, s: string, ms: seq<Ending>, n: nat, loc: nat, longest: Longest)
    requires g.Valid() && loc <= |s| && NeverLonger(g, s, ms, loc) && n <= |ms|
  {
    && (longest.Some? ==> exists j :: 0 <= j < n && ms[j] in ms && Again(g, s, ms[j], loc) == Ok(longest.value.0, longest.value.1))
    && (forall j :: 0 <= j < n && ms[j] in ms && Again(g, s, ms[j], loc).Ok? ==>
          longest.Some? && Again(g, s, ms[j], loc).end <= longest.value.0)
  }

  /** The result is a longest of all matches parsed again; it is an ordinary failure only when none matches. */
  ghost predicate IsBest(g: Grammar, s: string, ms: seq<Ending>, loc: nat, r: Outcome)
    requires g.Valid() && loc <= |s| && NeverLonger(g, s, ms, loc)
  {
    && (r.Ok? ==> (exists m :: m in ms && Again(g, s, m, loc) == r)
                  && forall m :: m in ms && Again(g, s, m, loc).Ok? ==> Again(g, s, m, loc).end <= r.end)
    && (r.Fail? && !r.fatal ==> forall m :: m in ms ==> Again(g, s, m, loc).Fail?)
  }

  lemma BestBySoFar(g: Grammar, s: string, ms: seq<Ending>, n: nat, loc: nat, longest: Longest)
    requires g.Valid() && loc <= |s| && NeverLonger(g, s, ms, loc) && Descending(ms) && n <= |ms| && BestOf(g, s, ms, n, loc, longest)
    requires n < |ms| ==> longest.Some? && ms[n].0 <= longest.value.0
    ensures longest.Some? ==> IsBest(g, s, ms, loc, Ok(longest.value.0, longest.value.1))
    ensures longest.None? ==> forall worst :: IsBest(g, s, ms, loc, Worst(worst, loc))
  {
    hide Again;
    forall m | m in ms && Again(g, s, m, loc).Ok?
      ensures longest.Some? && Again(g, s, m, loc).end <= longest.value.0
    {
      var j :| 0 <= j < |ms| && ms[j] == m;
    }
  }

  lemma BestAtOnce(g: Grammar, s: string, ms: seq<Ending>, n: nat, loc: nat, longest: Longest)
    requires g.Valid() && loc <= |s| && NeverLonger(g, s, ms, loc) && Descending(ms) && n < |ms| && BestOf(g, s, ms, n, loc, longest)
    requires longest.Some? ==> ms[n].0 > longest.value.0
    requires ms[n] in ms && Again(g, s, ms[n], loc).Ok? && Again(g, s, ms[n], loc).end >= ms[n].0
    ensures IsBest(g, s, ms, loc, Again(g, s, ms[n], loc))
  {
    hide Again;
    var r := Again(g, s, ms[n], loc);
    forall m | m in ms && Again(g, s, m, loc).Ok? ensures Again(g, s, m, loc).end <= r.end {
      var j :| 0 <= j < |ms| && ms[j] == m;
    }
  }

  lemma BestOnward(g: Grammar, s: string, ms: seq<Ending>, n: nat, loc: nat, longest: Longest)
    requires g.Valid() && loc <= |s| && NeverLonger(g, s, ms, loc) && n < |ms| && BestOf(g, s, ms, n, loc, longest)
    ensures ms[n] in ms
    ensures var r := Again(g, s, ms[n], loc);
            BestOf(g, s, ms, n + 1, loc, if r.Ok? && (longest.None? || r.end > longest.value.0) then Some((r.end, r.toks)) else longest)
  {
    hide Again;
  }

  /** Then the scan from the longest down, which stops early, finds a longest of the matches parsed again. */
  lemma {:induction false} ScanFindsLongest(g: Grammar, s: string, id: nat, es: seq<nat>, ms: seq<Ending>, i: nat, loc: nat, longest: Longest, worst: Option<nat>)
    requires g.Valid() && id < |g.nodes| && g.KindOk(id, Or(es)) && i <= |ms| && loc <= |s| && forall m :: m in ms ==> m.1 in es
    requires Descending(ms) && NeverLonger(g, s, ms, loc) && BestOf(g, s, ms, i, loc, longest)
    requires longest.Some? ==> InText(s, loc, g.consumes[id], Ok(longest.value.0, longest.value.1))
    ensures IsBest(g, s, ms, loc, Scan(g, s, id, es, ms, i, loc, longest, worst))
    decreases |ms| - i
  {
    hide Parse, Grammar.KindOk, BestOf, IsBest, NeverLonger, Descending;
    if i == |ms| || (longest.Some? && ms[i].0 <= longest.value.0) {
      BestBySoFar(g, s, ms, i, loc, longest);
    } else {
      assert ms[i] in ms;
      AgainInText(g, s, id, es, ms[i], loc);
      BestOnward(g, s, ms, i, loc, longest);
      var r := Again(g, s, ms[i], loc);
      if r.Fail? && r.fatal {
        FatalIsBest(g, s, ms, loc, r);
      } else if r.Fail? {
        ScanFindsLongest(g, s, id, es, ms, i + 1, loc, longest, Further(worst, r.loc));
      } else if r.end < ms[i].0 {
        ScanFindsLongest(g, s, id, es, ms, i + 1, loc, if longest.None? || r.end > longest.value.0 then Some((r.end, r.toks)) else longest, worst);
      } else {
        BestAtOnce(g, s, ms, i, loc, longest);
      }
    }
  }

  lemma FatalIsBest(g: Grammar, s: string, ms: seq<Ending>, loc: nat, r: Outcome)
    requires g.Valid() && loc <= |s| && NeverLonger(g, s, ms, loc) && r.Fail? && r.fatal
    ensures IsBest(g, s, ms, loc, r)
  {}

  lemma AgainInText(g: Grammar, s: string, id: nat, es: seq<nat>, m: Ending, loc: nat)
    requires g.Valid() && id < |g.nodes| && g.KindOk(id, Or(es)) && loc <= |s| && m.1 in es
    ensures m.1 < |g.nodes| && InText(s, loc, g.consumes[id], Again(g, s, m, loc))
  {}

  lemma OrIsScan(g: Grammar, s: string, id: nat, es: seq<nat>, loc: nat)
    requires g.Valid() && id < |g.nodes| && g.KindOk(id, Or(es)) && loc <= |s| && Alternatives(g, es)
    ensures var ms, worst := MatchesFrom(g, s, es, loc, 0), WorstFrom(g, s, es, loc, 0, None);
            && (forall m :: m in SortDown(ms) ==> m.1 in es)
            && Impl(g, s, id, Or(es), loc, true) ==
               if ms == [] then Worst(worst, loc) else Scan(g, s, id, es, SortDown(ms), 0, loc, None, worst)
  {
    hide Parse, Scan, SortDown, MatchesFrom, WorstFrom;
    TryAllCollects(g, s, id, es, 0, loc, [], None);
    assert [] + MatchesFrom(g, s, es, loc, 0) == MatchesFrom(g, s, es, loc, 0);
    SortedAre(MatchesFrom(g, s, es, loc, 0));
  }

  /** With actions that never lengthen a match, `Or` gives a longest of its alternatives parsed again, or fails for
      want of one; only a fatal failure comes through. */
  lemma OrTakesLongestAgain(g: Grammar, s: string, id: nat, es: seq<nat>, loc: nat)
    requires g.Valid() && id < |g.nodes| && g.KindOk(id, Or(es)) && loc <= |s|
    requires Alternatives(g, es) && NeverLonger(g, s, MatchesFrom(g, s, es, loc, 0), loc)
    ensures IsBest(g, s, MatchesFrom(g, s, es, loc, 0), loc, Impl(g, s, id, Or(es), loc, true))
  {
    hide Impl, Again, Scan, Grammar.KindOk, MatchesFrom, WorstFrom, SortDown;
    OrIsScan(g, s, id, es, loc);
    var ms := MatchesFrom(g, s, es, loc, 0);
    SortedAre(ms);
    SortDescends(ms);
    if ms != [] {
      ScanFindsLongest(g, s, id, es, SortDown(ms), 0, loc, None, WorstFrom(g, s, es, loc, 0, None));
    }
  }
}
