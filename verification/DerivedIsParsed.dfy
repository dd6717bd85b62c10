/** What can be derived is what parsing gives. */
module DerivedIsParsed {
  import opened Options
  import opened ParserCore
  import opened OrChoice
  import opened Derivations

  /** The step is what parsing its element gives. */
  ghost predicate IsParse(g: Grammar, s: string, step: Step)
    requires g.Valid()
  {
    step.n < |g.nodes| && step.loc <= |s| && step.r == Parse(g, s, step.n, step.loc, step.act, step.pre)
  }

  ghost predicate AllParses(g: Grammar, s: string, subs: seq<Step>)
    requires g.Valid()
  {
    forall k :: 0 <= k < |subs| ==> IsParse(g, s, subs[k])
  }

  // --- whitespace, words and literals ----------------------------------------------------------------------------------

  lemma {:induction false} BehindIsSkip(node: Node, s: string, loc: nat, start: nat)
    requires loc <= start <= |s| && (forall i :: loc <= i < start ==> s[i] in node.white) && (start < |s| ==> s[start] !in node.white)
    requires node.skips
    ensures Skip(node, s, loc) == start
    decreases |s| - loc
  {
    if loc < start {
      BehindIsSkip(node, s, loc + 1, start);
    }
  }

  lemma BehindIsStart(node: Node, s: string, loc: nat, pre: bool, start: nat)
    requires loc <= |s| && Behind(node, s, loc, pre, start)
    ensures Start(node, s, loc, pre) == start
  {
    if pre && node.callPreparse && node.skips {
      BehindIsSkip(node, s, loc, start);
    }
  }

  lemma {:induction false} RunEnds(s: string, body: set<char>, i: nat, end: nat)
    requires i <= end <= |s| && (forall k :: i <= k < end ==> s[k] in body) && (end < |s| ==> s[end] !in body)
    ensures WordEnd(body, s, i) == end
    decreases end - i
  {
    if i < end {
      RunEnds(s, body, i + 1, end);
    }
  }

  lemma StandsMatches(s: string, loc: nat, text: string)
    requires loc <= |s|
    ensures Stands(s, loc, text) <==> MatchesAt(s, loc, text)
  {
    if MatchesAt(s, loc, text) {
      forall i | 0 <= i < |text| ensures s[loc + i] == text[i] {
        assert s[loc..loc + |text|][i] == text[i];
      }
    }
  }

  // --- sequences and repetitions -----------------------------------------------------------------------------------------

  lemma JoinedOnward(subs: seq<Step>, k: nat)
    requires k < |subs|
    ensures Joined(subs[..k + 1]) == Joined(subs[..k]) + if subs[k].r.Ok? then subs[k].r.toks else []
  {
    assert subs[..k + 1][..k] == subs[..k] && subs[..k + 1][k] == subs[k];
  }

  lemma ChainStep(start: nat, act: bool, subs: seq<Step>, k: nat)
    requires Chained(start, act, subs) && k + 1 < |subs|
    ensures subs[k].r.Ok? && subs[k + 1].loc == subs[k].r.end
  {
    assert Leads(subs, k);
  }

  /** The sequence goes on from its `i`th element, the first `k` of those parsed being done. */
  lemma {:induction false} InTurnFrom(g: Grammar, s: string, n: nat, es: seq<nat>, start: nat, act: bool, at: seq<nat>, subs: seq<Step>, i: nat, k: nat)
    requires g.Valid() && n < |g.nodes| && g.KindOk(n, And(es)) && start <= |s|
    requires InTurn(g, es, start, act, at, subs) && AllParses(g, s, subs) && |at| == |subs|
    requires 1 <= k <= |subs| && at[k - 1] < i <= |es| && (k < |subs| ==> i <= at[k]) && subs[k - 1].r.Ok?
    requires start <= subs[k - 1].r.end <= |s| && (g.Consumed(es[..i]) ==> start < subs[k - 1].r.end)
    ensures AndRest(g, s, n, es, i, start, subs[k - 1].r.end, Joined(subs[..k]), StopBefore(g, es, i), act) == AfterAll(g, es, at, subs)
    decreases |es| - i
  {
    hide Parse, AndRest, Grammar.KindOk, Joined, InTurn;
    var loc := subs[k - 1].r.end;
    TurnBounds(g, es, start, act, at, subs, i, k);
    if i == |es| {
      assert k == |subs| && subs[..k] == subs;
      AndEnd(g, s, n, es, start, loc, Joined(subs), StopBefore(g, es, i), act);
    } else {
      AndStep(g, s, n, es, i, start, loc, Joined(subs[..k]), StopBefore(g, es, i), act);
      if IsStop(g, es[i]) {
        assert StopBefore(g, es, i + 1);
        InTurnFrom(g, s, n, es, start, act, at, subs, i + 1, k);
      } else {
        assert StopBefore(g, es, i + 1) <==> StopBefore(g, es, i);
        NextInTurn(g, es, start, act, at, subs, i, k);
        assert IsParse(g, s, subs[k]);
        JoinedOnward(subs, k);
        if subs[k].r.Ok? {
          InTurnFrom(g, s, n, es, start, act, at, subs, i + 1, k + 1);
        }
      }
    }
  }

  lemma TurnBounds(g: Grammar, es: seq<nat>, start: nat, act: bool, at: seq<nat>, subs: seq<Step>, i: nat, k: nat)
    requires InTurn(g, es, start, act, at, subs) && 1 <= k <= |subs| && at[k - 1] < i <= |es|
    ensures k < |subs| ==> at[k] < |es| && (i < |es| && IsStop(g, es[i]) ==> at[k] != i)
  {
    assert k < |subs| ==> at[k] in at && at[k] <= at[|at| - 1];
  }

  lemma NextInTurn(g: Grammar, es: seq<nat>, start: nat, act: bool, at: seq<nat>, subs: seq<Step>, i: nat, k: nat)
    requires InTurn(g, es, start, act, at, subs) && 1 <= k <= |subs| && at[k - 1] < i < |es| && (k < |subs| ==> i <= at[k])
    requires subs[k - 1].r.Ok? && !IsStop(g, es[i])
    ensures k < |subs| && at[k] == i && subs[k] == Step(es[i], subs[k - 1].r.end, act, true, subs[k].r)
    ensures subs[k].r.Fail? ==> k + 1 == |subs|
    ensures k + 1 < |subs| ==> i < at[k + 1]
  {
    assert i in at;
    var m :| 0 <= m < |at| && at[m] == i;
    assert m >= k;
    ChainStep(start, act, subs, k - 1);
    if k + 1 < |subs| {
      ChainStep(start, act, subs, k);
    }
  }

  lemma AndDerived(g: Grammar, s: string, n: nat, es: seq<nat>, start: nat, act: bool, at: seq<nat>, subs: seq<Step>)
    requires g.Valid() && n < |g.nodes| && g.KindOk(n, And(es)) && start <= |s|
    requires InTurn(g, es, start, act, at, subs) && AllParses(g, s, subs)
    ensures Impl(g, s, n, And(es), start, act) == AfterAll(g, es, at, subs)
  {
    hide Parse, AndRest;
    assert IsParse(g, s, subs[0]) && es[..1] == [es[0]];
    assert !StopBefore(g, es, 1);
    if subs[0].r.Ok? {
      assert Joined(subs[..1]) == subs[0].r.toks by { JoinedOnward(subs, 0); }
      InTurnFrom(g, s, n, es, start, act, at, subs, 1, 1);
    } else if |subs| > 1 {
      ChainStep(start, act, subs, 0);
    }
  }

  lemma {:induction false} RunFrom(g: Grammar, s: string, n: nat, e: nat, start: nat, act: bool, subs: seq<Step>, k: nat)
    requires g.Valid() && n < |g.nodes| && g.Below(e, n) && g.consumes[e] && start <= |s|
    requires AgainAndAgain(e, start, act, subs) && AllParses(g, s, subs) && 1 <= k < |subs|
    requires subs[k - 1].r.Ok? && subs[k - 1].r.end <= |s|
    ensures Many(g, s, n, e, subs[k - 1].r.end, Joined(subs[..k]), act) == AfterRun(subs)
    decreases |subs| - k
  {
    hide Parse, Joined;
    assert IsParse(g, s, subs[k]);
    ChainStep(start, act, subs, k - 1);
    JoinedOnward(subs, k);
    if k + 1 < |subs| {
      ChainStep(start, act, subs, k);
      RunFrom(g, s, n, e, start, act, subs, k + 1);
    }
  }

  lemma RepeatDerived(g: Grammar, s: string, n: nat, e: nat, start: nat, act: bool, subs: seq<Step>)
    requires g.Valid() && n < |g.nodes| && g.Below(e, n) && g.consumes[e] && start <= |s|
    requires AgainAndAgain(e, start, act, subs) && AllParses(g, s, subs)
    ensures Repeat(g, s, n, e, start, act) == AfterRun(subs)
    ensures subs != [] && (|subs| > 1 ==> AfterRun(subs).Ok? || AfterRun(subs).fatal)
    ensures |subs| == 1 ==> AfterRun(subs) == subs[0].r
  {
    hide Parse, Many;
    assert IsParse(g, s, subs[0]);
    if |subs| > 1 {
      ChainStep(start, act, subs, 0);
      assert Joined(subs[..1]) == subs[0].r.toks by { JoinedOnward(subs, 0); }
      RunFrom(g, s, n, e, start, act, subs, 1);
      ChainStep(start, act, subs, |subs| - 2);
    }
  }

  // --- the furthest failure ------------------------------------------------------------------------------------------------

  ghost predicate IsWorst(worst: Option<nat>, fails: set<nat>) {
    && (worst.None? <==> fails == {})
    && (worst.Some? ==> worst.value in fails && forall f :: f in fails ==> f <= worst.value)
  }

  lemma WorstOnward(worst: Option<nat>, fails: set<nat>, loc: nat)
    requires IsWorst(worst, fails)
    ensures IsWorst(Further(worst, loc), fails + {loc})
  {
    assert loc in fails + {loc};
  }

  lemma WorstIsFurthest(worst: Option<nat>, fails: set<nat>, start: nat, raw: Outcome)
    requires IsWorst(worst, fails)
    ensures IsFurthest(start, fails, raw) <==> raw == Worst(worst, start)
  {}

  // --- choices --------------------------------------------------------------------------------------------------------------

  lemma FailsOnward(subs: seq<Step>, k: nat)
    requires k < |subs|
    ensures FailsIn(subs[..k + 1]) == FailsIn(subs[..k]) + if subs[k].r.Fail? then {subs[k].r.loc} else {}
  {
    var a, b := subs[..k], subs[..k + 1];
    forall f | f in FailsIn(b) ensures f in FailsIn(a) || (subs[k].r.Fail? && f == subs[k].r.loc) {
      var i :| 0 <= i < |b| && b[i].r.Fail? && b[i].r.loc == f;
      if i < k { assert a[i] == b[i]; }
    }
    forall f | f in FailsIn(a) ensures f in FailsIn(b) {
      var i :| 0 <= i < |a| && a[i].r.Fail? && a[i].r.loc == f;
      assert b[i] == a[i];
    }
    if subs[k].r.Fail? {
      assert b[k] == subs[k];
    }
  }

  lemma {:induction false} FirstFrom(g: Grammar, s: string, n: nat, es: seq<nat>, start: nat, act: bool, subs: seq<Step>, raw: Outcome, k: nat, worst: Option<nat>)
    requires g.Valid() && n < |g.nodes| && g.KindOk(n, MatchFirst(es)) && start <= |s|
    requires FirstThatFits(es, start, act, subs) && IsFirst(es, start, subs, raw) && AllParses(g, s, subs)
    requires k <= |subs| && IsWorst(worst, FailsIn(subs[..k])) && (k == |subs| ==> subs == [] || !Settles(subs[k - 1].r))
    ensures FirstOf(g, s, n, es, k, start, worst, act) == raw
    decreases |subs| - k
  {
    hide Parse, FailsIn;
    if k < |subs| {
      assert IsParse(g, s, subs[k]) && es[k] in es;
      FailsOnward(subs, k);
      if !Settles(subs[k].r) {
        WorstOnward(worst, FailsIn(subs[..k]), subs[k].r.loc);
        FirstFrom(g, s, n, es, start, act, subs, raw, k + 1, Further(worst, subs[k].r.loc));
      }
    } else {
      assert subs[..k] == subs;
      WorstIsFurthest(worst, FailsIn(subs), start, raw);
    }
  }

  // --- the longest match ---------------------------------------------------------------------------------------------------

  /** `rank` names the alternatives of the sorted matches. */
  ghost predicate Lists(es: seq<nat>, trials: seq<Step>, rank: seq<nat>, sorted: seq<Ending>) {
    && |rank| == |sorted| && |trials| == |es|
    && (forall m :: 0 <= m < |rank| ==> Fits(trials, rank[m]) && sorted[m] == (trials[rank[m]].r.end, es[rank[m]]))
    && (forall l, m :: 0 <= l < m < |rank| ==> Ahead(trials, rank[l], rank[m]))
  }

  lemma PutFirst(es: seq<nat>, trials: seq<Step>, x: nat, rank: seq<nat>, sorted: seq<Ending>)
    requires Lists(es, trials, rank, sorted) && Fits(trials, x) && forall k :: k in rank ==> Fits(trials, k) && Ahead(trials, x, k)
    ensures Lists(es, trials, [x] + rank, [(trials[x].r.end, es[x])] + sorted)
  {
    var xs := [x] + rank;
    forall l, m | 0 <= l < m < |xs| ensures Ahead(trials, xs[l], xs[m]) {
      if l == 0 {
        assert xs[m] in rank;
      } else {
        assert Ahead(trials, rank[l - 1], rank[m - 1]);
      }
    }
  }

  lemma {:induction false} InsertRank(es: seq<nat>, trials: seq<Step>, rank: seq<nat>, sorted: seq<Ending>, i: nat) returns (r: seq<nat>)
    requires Lists(es, trials, rank, sorted) && |trials| == |es| && Fits(trials, i) && forall k :: k in rank ==> i < k
    ensures Lists(es, trials, r, InsertDown((trials[i].r.end, es[i]), sorted))
    ensures forall k :: k in r <==> k in rank || k == i
    decreases |rank|
  {
    hide Lists, Ahead;
    var m := (trials[i].r.end, es[i]);
    FirstListed(es, trials, rank, sorted);
    if sorted == [] || sorted[0].0 <= m.0 {
      AheadOfAll(es, trials, rank, sorted, i);
      r := [i] + rank;
      PutFirst(es, trials, i, rank, sorted);
    } else {
      assert rank == [rank[0]] + rank[1..];
      ListsOnward(es, trials, rank, sorted);
      assert forall k :: k in rank[1..] ==> k in rank;
      var rest := InsertRank(es, trials, rank[1..], sorted[1..], i);
      LongerAhead(trials, rank[0], i);
      r := [rank[0]] + rest;
      PutFirst(es, trials, rank[0], rest, InsertDown(m, sorted[1..]));
    }
  }

  lemma FirstListed(es: seq<nat>, trials: seq<Step>, rank: seq<nat>, sorted: seq<Ending>)
    requires Lists(es, trials, rank, sorted)
    ensures |rank| == |sorted| && (rank != [] ==> Fits(trials, rank[0]) && rank[0] < |es| && sorted[0] == (trials[rank[0]].r.end, es[rank[0]]))
  {}

  lemma LongerAhead(trials: seq<Step>, j: nat, k: nat)
    requires Fits(trials, j) && Fits(trials, k) && trials[j].r.end > trials[k].r.end
    ensures Ahead(trials, j, k)
  {}

  lemma ListsOnward(es: seq<nat>, trials: seq<Step>, rank: seq<nat>, sorted: seq<Ending>)
    requires Lists(es, trials, rank, sorted) && rank != []
    ensures Lists(es, trials, rank[1..], sorted[1..]) && forall k :: k in rank[1..] ==> Fits(trials, k) && Ahead(trials, rank[0], k)
  {
    var rest := rank[1..];
    forall l, m | 0 <= l < m < |rest| ensures Ahead(trials, rest[l], rest[m]) {
      assert Ahead(trials, rank[l + 1], rank[m + 1]);
    }
    forall k | k in rest ensures Fits(trials, k) && Ahead(trials, rank[0], k) {
      var m :| 0 <= m < |rest| && rest[m] == k;
      assert Ahead(trials, rank[0], rank[m + 1]);
    }
  }

  lemma AheadOfAll(es: seq<nat>, trials: seq<Step>, rank: seq<nat>, sorted: seq<Ending>, i: nat)
    requires Lists(es, trials, rank, sorted) && Fits(trials, i) && forall k :: k in rank ==> i < k
    requires sorted != [] ==> sorted[0].0 <= trials[i].r.end
    ensures forall k :: k in rank ==> Fits(trials, k) && Ahead(trials, i, k)
  {
    forall k | k in rank ensures Fits(trials, k) && Ahead(trials, i, k) {
      var m :| 0 <= m < |rank| && rank[m] == k;
      assert m > 0 ==> Ahead(trials, rank[0], rank[m]);
    }
  }

  ghost predicate TrialsParse(g: Grammar, s: string, es: seq<nat>, start: nat, trials: seq<Step>)
    requires g.Valid()
  {
    Tries(es, start, trials) && AllParses(g, s, trials)
  }

  lemma TriedIs(g: Grammar, s: string, es: seq<nat>, start: nat, trials: seq<Step>, k: nat)
    requires g.Valid() && Alternatives(g, es) && start <= |s| && TrialsParse(g, s, es, start, trials) && k < |es|
    ensures Tried(g, s, es, start, k) == trials[k].r
  {
    hide Parse;
    assert IsParse(g, s, trials[k]);
  }

  lemma {:induction false} SortedRank(g: Grammar, s: string, es: seq<nat>, start: nat, trials: seq<Step>, i: nat) returns (rank: seq<nat>)
    requires g.Valid() && Alternatives(g, es) && start <= |s| && TrialsParse(g, s, es, start, trials) && i <= |es|
    ensures Lists(es, trials, rank, SortDown(MatchesFrom(g, s, es, start, i)))
    ensures forall k: nat :: k in rank <==> i <= k && Fits(trials, k)
    decreases |es| - i
  {
    hide Tried, Lists, AllParses, MatchesFrom, SortDown, InsertDown, Grammar.Valid, Alternatives;
    SortedOnward(g, s, es, start, trials, i);
    if i == |es| {
      rank := [];
      NothingListed(es, trials);
    } else {
      rank := SortedRank(g, s, es, start, trials, i + 1);
      if trials[i].r.Ok? {
        rank := InsertRank(es, trials, rank, SortDown(MatchesFrom(g, s, es, start, i + 1)), i);
      }
    }
  }

  lemma SortedOnward(g: Grammar, s: string, es: seq<nat>, start: nat, trials: seq<Step>, i: nat)
    requires g.Valid() && Alternatives(g, es) && start <= |s| && TrialsParse(g, s, es, start, trials) && i <= |es|
    ensures |trials| == |es|
    ensures var sorted := SortDown(MatchesFrom(g, s, es, start, i));
            if i == |es| then sorted == SortDown([])
            else if trials[i].r.Ok? then sorted == InsertDown((trials[i].r.end, es[i]), SortDown(MatchesFrom(g, s, es, start, i + 1)))
            else sorted == SortDown(MatchesFrom(g, s, es, start, i + 1))
  {
    hide Tried, AllParses, InsertDown;
    if i < |es| {
      TriedIs(g, s, es, start, trials, i);
      var rest := MatchesFrom(g, s, es, start, i + 1);
      if trials[i].r.Ok? {
        var m := (trials[i].r.end, es[i]);
        assert MatchesFrom(g, s, es, start, i) == [m] + rest && ([m] + rest)[1..] == rest;
      } else {
        assert MatchesFrom(g, s, es, start, i) == rest;
      }
    }
  }

  lemma NothingListed(es: seq<nat>, trials: seq<Step>)
    requires |trials| == |es|
    ensures Lists(es, trials, [], SortDown([]))
  {}

  ghost predicate Descends(trials: seq<Step>, xs: seq<nat>) {
    && (forall m :: 0 <= m < |xs| ==> Fits(trials, xs[m]))
    && (forall l, m :: 0 <= l < m < |xs| ==> Ahead(trials, xs[l], xs[m]))
    && (forall m, k: nat :: 0 <= m < |xs| && Fits(trials, k) && k !in xs ==> Ahead(trials, xs[m], k))
  }

  /** What is not among the first is not ahead of the next. */
  lemma NextTop(trials: seq<Step>, xs: seq<nat>, m: nat, x: nat)
    requires Descends(trials, xs) && m < |xs| && Fits(trials, x) && x !in xs[..m]
    ensures x == xs[m] || Ahead(trials, xs[m], x)
  {
    if x in xs {
      var p :| 0 <= p < |xs| && xs[p] == x;
      assert forall q :: 0 <= q < m ==> xs[..m][q] == xs[q];
    }
  }

  lemma NotAmongFirst(trials: seq<Step>, xs: seq<nat>, m: nat)
    requires Descends(trials, xs) && m < |xs|
    ensures xs[m] !in xs[..m]
  {
    forall l | 0 <= l < m ensures xs[l] != xs[m] {
      assert Ahead(trials, xs[l], xs[m]);
    }
  }

  /** The alternatives parsed again are the first of the sorted ones. */
  lemma {:induction false} SameRank(trials: seq<Step>, at: seq<nat>, rank: seq<nat>, m: nat)
    requires Descends(trials, at) && Descends(trials, rank) && m <= |at| && forall k: nat :: Fits(trials, k) ==> k in rank
    ensures m <= |rank| && at[..m] == rank[..m]
    decreases m
  {
    if m > 0 {
      var k := m - 1;
      SameRank(trials, at, rank, k);
      NotAmongFirst(trials, at, k);
      assert at[k] in rank;
      var q :| 0 <= q < |rank| && rank[q] == at[k];
      assert forall r :: 0 <= r < k ==> rank[..k][r] == rank[r];
      NotAmongFirst(trials, rank, k);
      NextTop(trials, rank, k, at[k]);
      NextTop(trials, at, k, rank[k]);
      assert at[..m] == at[..k] + [at[k]] && rank[..m] == rank[..k] + [rank[k]];
    }
  }

  lemma RankIsAt(es: seq<nat>, start: nat, act: bool, at: seq<nat>, trials: seq<Step>, agains: seq<Step>, rank: seq<nat>, sorted: seq<Ending>)
    requires Ranked(es, start, act, at, trials, agains) && Lists(es, trials, rank, sorted) && forall k: nat :: k in rank <==> Fits(trials, k)
    ensures |at| <= |rank| && at == rank[..|at|]
  {
    assert Descends(trials, at) && Descends(trials, rank);
    SameRank(trials, at, rank, |at|);
    assert at[..|at|] == at;
  }

  // --- the matches parsed again --------------------------------------------------------------------------------------------

  /** The longest so far. */
  ghost predicate IsLongestOf(agains: seq<Step>, longest: Option<(nat, seq<string>)>) {
    match longest
    case None => forall l :: 0 <= l < |agains| ==> agains[l].r.Fail?
    case Some(best) => exists l :: 0 <= l < |agains| && Tops(agains, l) && agains[l].r == Ok(best.0, best.1)
  }

  lemma LongestStep(agains: seq<Step>, m: nat, longest: Option<(nat, seq<string>)>)
    requires m < |agains| && IsLongestOf(agains[..m], longest)
    ensures IsLongestOf(agains[..m + 1], Longer(longest, agains[m].r))
  {
    var a, b := agains[..m], agains[..m + 1];
    assert b == a + [agains[m]];
    if agains[m].r.Ok? && (longest.None? || agains[m].r.end > longest.value.0) {
      assert Tops(b, m);
    } else if longest.Some? {
      var l :| 0 <= l < |a| && Tops(a, l) && a[l].r == Ok(longest.value.0, longest.value.1);
      assert Tops(b, l);
    }
  }

  lemma TopIsOne(agains: seq<Step>, k: nat, l: nat)
    requires k < |agains| && l < |agains| && Tops(agains, k) && Tops(agains, l)
    ensures k == l
  {}

  ghost predicate Passed(at: seq<nat>, trials: seq<Step>, agains: seq<Step>, m: nat) {
    && m <= |at| == |agains| && (forall k :: 0 <= k < |at| ==> at[k] < |trials|)
    && forall k :: 0 <= k < m ==> !Final(trials[at[k]], agains[k])
  }

  lemma {:induction false} ScanFrom(g: Grammar, s: string, n: nat, es: seq<nat>, start: nat, at: seq<nat>, trials: seq<Step>, agains: seq<Step>, raw: Outcome,
                                    rank: seq<nat>, sorted: seq<Ending>, m: nat, longest: Option<(nat, seq<string>)>, worst: Option<nat>)
    requires g.Valid() && n < |g.nodes| && g.KindOk(n, Or(es)) && start <= |s| && (forall e :: e in sorted ==> e.1 in es)
    requires Ranked(es, start, true, at, trials, agains) && at != [] && ParsedAgain(start, at, trials, agains, raw) && AllParses(g, s, agains)
    requires Lists(es, trials, rank, sorted) && (forall k: nat :: k in rank <==> Fits(trials, k)) && |at| <= |rank| && at == rank[..|at|]
    requires Passed(at, trials, agains, m) && IsLongestOf(agains[..m], longest) && IsWorst(worst, TrialFails(start, trials) + FailsIn(agains[..m]))
    requires longest.Some? ==> InText(s, start, g.consumes[n], Ok(longest.value.0, longest.value.1))
    ensures Scan(g, s, n, es, sorted, m, start, longest, worst) == raw
    decreases |at| - m
  {
    hide Parse, Scan, FailsIn, TrialFails, IsLongestOf, IsWorst, Grammar.Valid, Grammar.KindOk;
    if m == |at| {
      assert agains[..m] == agains;
      ScanEnds(g, s, n, es, start, at, trials, agains, raw, rank, sorted, longest, worst);
    } else {
      assert at[m] == rank[m] && IsParse(g, s, agains[m]);
      NotStopped(at, trials, agains, m, longest);
      ScanStep(g, s, n, es, sorted, m, start, longest, worst);
      FailsOnward(agains, m);
      LongestStep(agains, m, longest);
      if !Final(trials[at[m]], agains[m]) {
        var fails := TrialFails(start, trials) + FailsIn(agains[..m]);
        if agains[m].r.Fail? {
          WorstOnward(worst, fails, agains[m].r.loc);
          assert fails + {agains[m].r.loc} == TrialFails(start, trials) + FailsIn(agains[..m + 1]);
          ScanFrom(g, s, n, es, start, at, trials, agains, raw, rank, sorted, m + 1, longest, Further(worst, agains[m].r.loc));
        } else {
          assert FailsIn(agains[..m + 1]) == FailsIn(agains[..m]);
          ScanFrom(g, s, n, es, start, at, trials, agains, raw, rank, sorted, m + 1, Longer(longest, agains[m].r), worst);
        }
      }
    }
  }

  function Longer(longest: Option<(nat, seq<string>)>, r: Outcome): Option<(nat, seq<string>)> {
    if r.Ok? && (longest.None? || r.end > longest.value.0) then Some((r.end, r.toks)) else longest
  }

  lemma ScanStep(g: Grammar, s: string, n: nat, es: seq<nat>, ms: seq<Ending>, i: nat, loc: nat, longest: Option<(nat, seq<string>)>, worst: Option<nat>)
    requires g.Valid() && n < |g.nodes| && g.KindOk(n, Or(es)) && i < |ms| && loc <= |s| && (forall m :: m in ms ==> m.1 in es)
    requires longest.Some? ==> longest.value.0 < ms[i].0 && InText(s, loc, g.consumes[n], Ok(longest.value.0, longest.value.1))
    ensures ms[i].1 < |g.nodes|
    ensures var r := Parse(g, s, ms[i].1, loc, true, true);
            && (Longer(longest, r).Some? ==> InText(s, loc, g.consumes[n], Ok(Longer(longest, r).value.0, Longer(longest, r).value.1)))
            && Scan(g, s, n, es, ms, i, loc, longest, worst) ==
                 (if r.Fail? then if r.fatal then r else Scan(g, s, n, es, ms, i + 1, loc, longest, Further(worst, r.loc))
                  else if r.end >= ms[i].0 then r else Scan(g, s, n, es, ms, i + 1, loc, Longer(longest, r), worst))
  {
    hide Parse;
    assert ms[i] in ms;
    ConsumesLike(g, n, es, ms[i].1);
  }

  lemma ConsumesLike(g: Grammar, n: nat, es: seq<nat>, e: nat)
    requires g.Valid() && n < |g.nodes| && g.KindOk(n, Or(es)) && e in es
    ensures e < |g.nodes| && (g.consumes[n] ==> g.consumes[e])
  {}

  lemma NotStopped(at: seq<nat>, trials: seq<Step>, agains: seq<Step>, m: nat, longest: Option<(nat, seq<string>)>)
    requires m < |at| == |agains| && at[m] < |trials| && trials[at[m]].r.Ok? && IsLongestOf(agains[..m], longest)
    requires forall k :: 0 <= k < |at| ==> at[k] < |trials| && trials[at[k]].r.Ok?
    requires forall l, k :: 0 <= l < k < |at| && agains[l].r.Ok? ==> agains[l].r.end < trials[at[k]].r.end
    ensures longest.Some? ==> longest.value.0 < trials[at[m]].r.end
  {
    if longest.Some? {
      var a := agains[..m];
      var l :| 0 <= l < |a| && Tops(a, l) && a[l].r == Ok(longest.value.0, longest.value.1);
      assert a[l] == agains[l];
    }
  }

  /** All that are parsed again are passed: the longest is taken, or there is none left. */
  lemma ScanEnds(g: Grammar, s: string, n: nat, es: seq<nat>, start: nat, at: seq<nat>, trials: seq<Step>, agains: seq<Step>, raw: Outcome,
                 rank: seq<nat>, sorted: seq<Ending>, longest: Option<(nat, seq<string>)>, worst: Option<nat>)
    requires g.Valid() && n < |g.nodes| && g.KindOk(n, Or(es)) && start <= |s| && (forall e :: e in sorted ==> e.1 in es)
    requires |agains| == |at| && at != [] && (forall m :: 0 <= m < |at| ==> at[m] < |trials| && trials[at[m]].r.Ok?)
    requires ParsedAgain(start, at, trials, agains, raw) && Passed(at, trials, agains, |at|)
    requires Lists(es, trials, rank, sorted) && (forall k: nat :: k in rank <==> Fits(trials, k)) && |at| <= |rank| && at == rank[..|at|]
    requires IsLongestOf(agains, longest) && IsWorst(worst, TrialFails(start, trials) + FailsIn(agains))
    requires longest.Some? ==> InText(s, start, g.consumes[n], Ok(longest.value.0, longest.value.1))
    ensures Scan(g, s, n, es, sorted, |at|, start, longest, worst) == raw
  {
    hide Parse, FailsIn, TrialFails, IsWorst, Grammar.Valid, Grammar.KindOk;
    var m := |at|;
    if longest.Some? {
      var l :| 0 <= l < |agains| && Tops(agains, l) && agains[l].r == Ok(longest.value.0, longest.value.1);
      var k :| 0 <= k < |agains| && Tops(agains, k) && raw == agains[k].r;
      TopIsOne(agains, k, l);
      if m < |rank| {
        NotInFront(trials, rank, m);
        assert Fits(trials, rank[m]) && sorted[m].0 == trials[rank[m]].r.end;
      }
    } else {
      NoneLeft(trials, rank, m);
      WorstIsFurthest(worst, TrialFails(start, trials) + FailsIn(agains), start, raw);
    }
  }

  lemma NotInFront(trials: seq<Step>, rank: seq<nat>, m: nat)
    requires m < |rank| && (forall k :: 0 <= k < |rank| ==> Fits(trials, rank[k]))
    requires forall l, k :: 0 <= l < k < |rank| ==> Ahead(trials, rank[l], rank[k])
    ensures rank[m] !in rank[..m]
  {
    forall l | 0 <= l < m ensures rank[l] != rank[m] {
      assert Ahead(trials, rank[l], rank[m]);
    }
  }

  lemma NoneLeft(trials: seq<Step>, rank: seq<nat>, m: nat)
    requires m <= |rank| && (forall k :: 0 <= k < |rank| ==> Fits(trials, rank[k])) && (forall k: nat :: Fits(trials, k) ==> k in rank[..m])
    requires forall l, k :: 0 <= l < k < |rank| ==> Ahead(trials, rank[l], rank[k])
    ensures m == |rank|
  {
    if m < |rank| {
      NotInFront(trials, rank, m);
    }
  }

  // --- the trials --------------------------------------------------------------------------------------------------------------

  lemma {:induction false} WorstOfTrials(g: Grammar, s: string, es: seq<nat>, start: nat, trials: seq<Step>, i: nat, worst: Option<nat>)
    requires g.Valid() && Alternatives(g, es) && start <= |s| && TrialsParse(g, s, es, start, trials) && i <= |es|
    requires IsWorst(worst, TrialFails(start, trials[..i]))
    ensures IsWorst(WorstFrom(g, s, es, start, i, worst), TrialFails(start, trials))
    decreases |es| - i
  {
    hide Tried, IsWorst, AllParses;
    if i < |es| {
      TriedIs(g, s, es, start, trials, i);
      TrialFailsOnward(start, trials, i);
      if trials[i].r.Ok? {
        WorstOfTrials(g, s, es, start, trials, i + 1, worst);
      } else {
        var f := FailedAt(g, s, es, start, i);
        WorstOnward(worst, TrialFails(start, trials[..i]), f);
        WorstOfTrials(g, s, es, start, trials, i + 1, Further(worst, f));
      }
    } else {
      assert trials[..i] == trials;
    }
  }

  lemma TrialFailsOnward(start: nat, trials: seq<Step>, k: nat)
    requires k < |trials|
    ensures trials[k].r.Ok? ==> TrialFails(start, trials[..k + 1]) == TrialFails(start, trials[..k])
    ensures trials[k].r.Fail? ==>
      TrialFails(start, trials[..k + 1]) == TrialFails(start, trials[..k]) + {if trials[k].r.fatal then start else trials[k].r.loc}
  {
    var a, b := trials[..k], trials[..k + 1];
    assert b == a + [trials[k]];
    forall f | f in TrialFails(start, a) ensures f in TrialFails(start, b) {
      var i :| 0 <= i < |a| && a[i].r.Fail? && f == if a[i].r.fatal then start else a[i].r.loc;
      assert b[i] == a[i];
    }
    forall f | f in TrialFails(start, b) ensures f in TrialFails(start, a) || (trials[k].r.Fail? && f == if trials[k].r.fatal then start else trials[k].r.loc) {
      var i :| 0 <= i < |b| && b[i].r.Fail? && f == if b[i].r.fatal then start else b[i].r.loc;
      if i < k { assert a[i] == b[i]; }
    }
    if trials[k].r.Fail? {
      assert b[k] == trials[k];
    }
  }

  lemma OrDerived(g: Grammar, s: string, n: nat, es: seq<nat>, start: nat, act: bool, at: seq<nat>, trials: seq<Step>, agains: seq<Step>, raw: Outcome)
    requires g.Valid() && n < |g.nodes| && g.KindOk(n, Or(es)) && start <= |s|
    requires TrialsParse(g, s, es, start, trials) && AllParses(g, s, agains) && Chosen(es, start, act, at, trials, agains, raw)
    ensures Impl(g, s, n, Or(es), start, act) == raw
  {
    hide Parse, Scan, FailsIn, TrialFails, MatchesFrom, WorstFrom, SortDown, Lists, ParsedAgain, IsWorst, AllParses, Tries;
    TryAllCollects(g, s, n, es, 0, start, [], None);
    var ms, worst := MatchesFrom(g, s, es, start, 0), WorstFrom(g, s, es, start, 0, None);
    assert [] + ms == ms;
    NoTrials(start, trials);
    WorstOfTrials(g, s, es, start, trials, 0, None);
    var rank := SortedRank(g, s, es, start, trials, 0);
    SortedAre(ms);
    RankIsAt(es, start, act, at, trials, agains, rank, SortDown(ms));
    FirstListed(es, trials, rank, SortDown(ms));
    if forall k: nat :: !Fits(trials, k) {
      WorstIsFurthest(worst, TrialFails(start, trials), start, raw);
    } else {
      var k: nat :| Fits(trials, k);
      assert k in rank;
      if act {
        NoneAgain(agains, start, trials);
        ScanFrom(g, s, n, es, start, at, trials, agains, raw, rank, SortDown(ms), 0, None, worst);
      } else {
        assert AllParses(g, s, agains) ==> IsParse(g, s, agains[0]) by { OneParses(g, s, agains); }
        assert at[0] == rank[0];
      }
    }
  }

  lemma OneParses(g: Grammar, s: string, subs: seq<Step>)
    requires g.Valid() && subs != []
    ensures AllParses(g, s, subs) ==> IsParse(g, s, subs[0])
  {}

  lemma NoTrials(start: nat, trials: seq<Step>)
    ensures IsWorst(None, TrialFails(start, trials[..0]))
  {}

  lemma NoneAgain(agains: seq<Step>, start: nat, trials: seq<Step>)
    ensures IsLongestOf(agains[..0], None) && TrialFails(start, trials) + FailsIn(agains[..0]) == TrialFails(start, trials)
  {}

  // --- all kinds of elements -----------------------------------------------------------------------------------------------

  lemma RuleIsImpl(g: Grammar, s: string, n: nat, kind: Kind, start: nat, act: bool, at: seq<nat>, subs: seq<Step>, raw: Outcome)
    requires g.Valid() && n < |g.nodes| && g.KindOk(n, kind) && start <= |s|
    requires AllParses(g, s, subs) && Rule(g, s, kind, start, act, at, subs, raw)
    ensures Impl(g, s, n, kind, start, act) == raw
  {
    hide Parse, AndRest, FirstOf, Repeat, TryAll, Scan, InTurn, AfterAll, FirstThatFits, IsFirst, Tries, Chosen, AgainAndAgain, AfterRun, AllParses, WordEnd;
    match kind {
      case Literal(text) => StandsMatches(s, start, text);
      case Word(init, body) =>
        if start < |s| && s[start] in init {
          RunEnds(s, body, start + 1, raw.end);
        }
      case And(es) => AndDerived(g, s, n, es, start, act, at, subs);
      case MatchFirst(es) =>
        NoFails(subs);
        FirstFrom(g, s, n, es, start, act, subs, raw, 0, None);
      case Or(es) =>
        SomeParse(g, s, subs, |es|);
        OrDerived(g, s, n, es, start, act, at, subs[..|es|], subs[|es|..], raw);
      case OneOrMore(e) => RepeatDerived(g, s, n, e, start, act, subs);
      case ZeroOrMore(e) => RepeatDerived(g, s, n, e, start, act, subs);
      case Optional(e) => OneParses(g, s, subs);
      case Forward(e) => OneParses(g, s, subs);
      case _ =>
    }
  }

  lemma NoFails(subs: seq<Step>)
    ensures IsWorst(None, FailsIn(subs[..0]))
  {}

  lemma SomeParse(g: Grammar, s: string, subs: seq<Step>, k: nat)
    requires g.Valid() && AllParses(g, s, subs) && k <= |subs|
    ensures AllParses(g, s, subs[..k]) && AllParses(g, s, subs[k..])
  {}

  // --- actions ---------------------------------------------------------------------------------------------------------------

  lemma {:induction false} ActsFrom(actions: seq<Action>, s: string, start: nat, end: nat, states: seq<seq<string>>, r: Outcome, k: nat)
    requires 0 < |states| <= |actions| + 1 && k < |states|
    requires forall i :: 0 <= i < |states| - 1 ==> Leaves(actions[i](s, start, states[i]), states[i], states[i + 1])
    requires if |states| == |actions| + 1 then r == Ok(end, states[|states| - 1])
             else Refuses(actions[|states| - 1](s, start, states[|states| - 1]), r)
    ensures RunActions(actions[k..], s, start, end, states[k]) == r
    decreases |states| - k
  {
    if k < |actions| {
      assert actions[k..][0] == actions[k] && actions[k..][1..] == actions[k + 1..];
      if k + 1 < |states| {
        ActsFrom(actions, s, start, end, states, r, k + 1);
      }
    }
  }

  // --- derivations -----------------------------------------------------------------------------------------------------------

  /** Whatever is derived is what parsing gives. */
  lemma {:induction false} DerivedIsParse(g: Grammar, s: string, t: Tree)
    requires g.Valid() && Derives(g, s, t)
    ensures IsParse(g, s, t.step)
    decreases t
  {
    hide Impl, Rule, RunActions;
    var node := g.nodes[t.step.n];
    BehindIsStart(node, s, t.step.loc, t.step.pre, t.start);
    forall k | 0 <= k < |Steps(t.subs)| ensures IsParse(g, s, Steps(t.subs)[k]) {
      assert t.subs[k] in t.subs;
      DerivedIsParse(g, s, t.subs[k]);
    }
    assert g.KindOk(t.step.n, node.kind);
    RuleIsImpl(g, s, t.step.n, node.kind, t.start, t.step.act, t.at, Steps(t.subs), t.raw);
    if t.raw.Ok? && (t.step.act || node.duringTry) {
      ActsFrom(node.actions, s, t.start, t.raw.end, t.states, t.step.r, 0);
      assert node.actions[0..] == node.actions;
    }
  }
}
