/** What parsing gives can be derived, so that parsing gives exactly what can be derived. */
module ParsedIsDerived {
  import opened Options
  import opened ParserCore
  import opened OrChoice
  import opened Derivations
  import opened DerivedIsParsed

  ghost function StepOf(g: Grammar, s: string, n: nat, loc: nat, act: bool, pre: bool): Step
    requires g.Valid() && n < |g.nodes| && loc <= |s|
  {
    Step(n, loc, act, pre, Parse(g, s, n, loc, act, pre))
  }

  /** The step is further on in the text, or of an element of lower rank. */
  ghost predicate Lower(g: Grammar, s: string, n: nat, start: nat, sub: Step)
    requires g.Valid() && n < |g.nodes|
  {
    IsParse(g, s, sub) && start <= sub.loc && (start < sub.loc || g.rank[sub.n] < g.rank[n])
  }

  ghost predicate AllLower(g: Grammar, s: string, n: nat, start: nat, subs: seq<Step>)
    requires g.Valid() && n < |g.nodes|
  {
    forall k :: 0 <= k < |subs| ==> Lower(g, s, n, start, subs[k])
  }

  lemma LowerParses(g: Grammar, s: string, n: nat, start: nat, subs: seq<Step>)
    requires g.Valid() && n < |g.nodes| && AllLower(g, s, n, start, subs)
    ensures AllParses(g, s, subs)
  {}

  // --- sequences -----------------------------------------------------------------------------------------------------------

  /** The elements before the `i`th are gone through, and match. */
  ghost predicate Partly(g: Grammar, es: seq<nat>, start: nat, act: bool, at: seq<nat>, subs: seq<Step>, i: nat) {
    && Chained(start, act, subs) && |at| == |subs| && at[0] == 0 && i <= |es| && subs[|subs| - 1].r.Ok?
    && (forall k :: 0 <= k < |at| ==> at[k] < i && subs[k].n == es[at[k]])
    && (forall j, k :: 0 <= j < k < |at| ==> at[j] < at[k])
    && (forall j :: 0 < j < i ==> (j in at <==> !IsStop(g, es[j])))
  }

  lemma PartlyOn(g: Grammar, es: seq<nat>, start: nat, act: bool, at: seq<nat>, subs: seq<Step>, i: nat, sub: Step)
    requires Partly(g, es, start, act, at, subs, i) && i < |es| && !IsStop(g, es[i])
    requires sub == Step(es[i], subs[|subs| - 1].r.end, act, true, sub.r)
    ensures sub.r.Ok? ==> Partly(g, es, start, act, at + [i], subs + [sub], i + 1)
    ensures sub.r.Fail? ==> InTurn(g, es, start, act, at + [i], subs + [sub])
  {
    var at', subs' := at + [i], subs + [sub];
    assert Chained(start, act, subs') by { ChainOn(start, act, subs, sub); }
    forall j | 0 < j <= i ensures j in at' <==> !IsStop(g, es[j]) {
      if j == i {
        assert at'[|at|] == i;
      } else {
        assert j in at' <==> j in at;
      }
    }
  }

  lemma ChainOn(start: nat, act: bool, subs: seq<Step>, sub: Step)
    requires Chained(start, act, subs) && subs[|subs| - 1].r.Ok? && sub.act == act && sub.pre && sub.loc == subs[|subs| - 1].r.end
    ensures Chained(start, act, subs + [sub])
  {
    var now := subs + [sub];
    forall k | 0 <= k < |now| - 1 ensures Leads(now, k) {
      assert k < |subs| - 1 ==> Leads(subs, k);
    }
  }

  lemma {:induction false} TurnTo(g: Grammar, s: string, n: nat, es: seq<nat>, start: nat, act: bool, i: nat, at: seq<nat>, subs: seq<Step>)
    returns (at': seq<nat>, subs': seq<Step>)
    requires g.Valid() && n < |g.nodes| && g.KindOk(n, And(es)) && 1 <= i <= |es| && start <= |s|
    requires Partly(g, es, start, act, at, subs, i) && AllLower(g, s, n, start, subs)
    requires subs != [] && subs[|subs| - 1].r.Ok? && start <= subs[|subs| - 1].r.end <= |s| && (g.Consumed(es[..i]) ==> start < subs[|subs| - 1].r.end)
    ensures InTurn(g, es, start, act, at', subs') && AllLower(g, s, n, start, subs')
    decreases |es| - i
  {
    hide Parse, Grammar.KindOk, InTurn, Partly;
    if i == |es| {
      at', subs' := at, subs;
      AllThrough(g, es, start, act, at, subs);
    } else {
      var loc := subs[|subs| - 1].r.end;
      AndStep(g, s, n, es, i, start, loc, [], false, act);
      if IsStop(g, es[i]) {
        PartlyStop(g, es, start, act, at, subs, i);
        at', subs' := TurnTo(g, s, n, es, start, act, i + 1, at, subs);
      } else {
        var sub := StepOf(g, s, es[i], loc, act, true);
        PartlyOn(g, es, start, act, at, subs, i, sub);
        if sub.r.Ok? {
          at', subs' := TurnTo(g, s, n, es, start, act, i + 1, at + [i], subs + [sub]);
        } else {
          at', subs' := at + [i], subs + [sub];
        }
      }
    }
  }

  lemma PartlyStop(g: Grammar, es: seq<nat>, start: nat, act: bool, at: seq<nat>, subs: seq<Step>, i: nat)
    requires Partly(g, es, start, act, at, subs, i) && i < |es| && IsStop(g, es[i])
    ensures Partly(g, es, start, act, at, subs, i + 1)
  {}

  lemma AllThrough(g: Grammar, es: seq<nat>, start: nat, act: bool, at: seq<nat>, subs: seq<Step>)
    requires Partly(g, es, start, act, at, subs, |es|)
    ensures InTurn(g, es, start, act, at, subs)
  {}

  lemma AndApplies(g: Grammar, s: string, n: nat, es: seq<nat>, start: nat, act: bool) returns (at: seq<nat>, subs: seq<Step>)
    requires g.Valid() && n < |g.nodes| && g.KindOk(n, And(es)) && start <= |s|
    ensures InTurn(g, es, start, act, at, subs) && AllLower(g, s, n, start, subs)
  {
    hide Parse;
    assert !g.Consumed(es[..0]) && g.Below(es[0], n) && es[..1] == [es[0]];
    at, subs := [0], [StepOf(g, s, es[0], start, act, false)];
    if subs[0].r.Ok? {
      at, subs := TurnTo(g, s, n, es, start, act, 1, at, subs);
    }
  }

  // --- repetitions ---------------------------------------------------------------------------------------------------------

  lemma {:induction false} RunTo(g: Grammar, s: string, n: nat, e: nat, start: nat, act: bool, subs: seq<Step>) returns (subs': seq<Step>)
    requires g.Valid() && n < |g.nodes| && g.Below(e, n) && g.consumes[e]
    requires Chained(start, act, subs) && (forall k :: 0 <= k < |subs| ==> subs[k].n == e) && AllLower(g, s, n, start, subs)
    requires subs[|subs| - 1].r.Ok? ==> start < subs[|subs| - 1].r.end <= |s|
    ensures AgainAndAgain(e, start, act, subs') && AllLower(g, s, n, start, subs')
    decreases if subs[|subs| - 1].r.Ok? then |s| - subs[|subs| - 1].r.end + 1 else 0
  {
    hide Parse;
    if subs[|subs| - 1].r.Fail? {
      subs' := subs;
    } else {
      var sub := StepOf(g, s, e, subs[|subs| - 1].r.end, act, true);
      ChainOn(start, act, subs, sub);
      subs' := RunTo(g, s, n, e, start, act, subs + [sub]);
    }
  }

  lemma RepeatApplies(g: Grammar, s: string, n: nat, e: nat, start: nat, act: bool) returns (subs: seq<Step>)
    requires g.Valid() && n < |g.nodes| && g.Below(e, n) && g.consumes[e] && start <= |s|
    ensures AgainAndAgain(e, start, act, subs) && AllLower(g, s, n, start, subs)
  {
    hide Parse;
    subs := RunTo(g, s, n, e, start, act, [StepOf(g, s, e, start, act, false)]);
  }

  // --- choices ----------------------------------------------------------------------------------------------------------------

  lemma {:induction false} FurthestOf(start: nat, fails: set<nat>) returns (raw: Outcome)
    ensures IsFurthest(start, fails, raw)
    decreases |fails|
  {
    if fails == {} {
      raw := Fail(start, false);
    } else {
      var f :| f in fails;
      var rest := FurthestOf(start, fails - {f});
      raw := if fails == {f} || rest.loc < f then Fail(f, false) else rest;
      assert fails != {f} ==> fails - {f} != {} by { OneMore(fails, f); }
      assert forall x :: x in fails ==> x == f || x in fails - {f};
    }
  }

  lemma OneMore(fails: set<nat>, f: nat)
    requires f in fails
    ensures fails - {f} == {} <==> fails == {f}
  {
    if fails - {f} == {} {
      assert fails == (fails - {f}) + {f};
    }
  }

  lemma {:induction false} FitsTo(g: Grammar, s: string, n: nat, es: seq<nat>, start: nat, act: bool, subs: seq<Step>) returns (subs': seq<Step>)
    requires g.Valid() && n < |g.nodes| && g.KindOk(n, MatchFirst(es)) && start <= |s| && |subs| <= |es|
    requires forall k :: 0 <= k < |subs| ==> subs[k] == Step(es[k], start, act, true, subs[k].r) && !Settles(subs[k].r)
    requires AllLower(g, s, n, start, subs)
    ensures FirstThatFits(es, start, act, subs') && AllLower(g, s, n, start, subs')
    decreases |es| - |subs|
  {
    hide Parse;
    if |subs| == |es| {
      subs' := subs;
    } else {
      var k := |subs|;
      assert es[k] in es;
      var sub := StepOf(g, s, es[k], start, act, true);
      if Settles(sub.r) {
        subs' := subs + [sub];
      } else {
        subs' := FitsTo(g, s, n, es, start, act, subs + [sub]);
      }
    }
  }

  lemma {:induction false} TrialsTo(g: Grammar, s: string, n: nat, es: seq<nat>, start: nat, k: nat) returns (trials: seq<Step>)
    requires g.Valid() && n < |g.nodes| && g.KindOk(n, Or(es)) && start <= |s| && k <= |es|
    ensures Tries(es[..k], start, trials) && AllLower(g, s, n, start, trials)
    decreases k
  {
    hide Parse;
    if k == 0 {
      trials := [];
    } else {
      trials := TrialsTo(g, s, n, es, start, k - 1);
      assert es[k - 1] in es && es[..k] == es[..k - 1] + [es[k - 1]];
      trials := trials + [StepOf(g, s, es[k - 1], start, false, true)];
    }
  }

  /** The first `m` of the ranked matches are parsed again, and none is final. */
  ghost predicate AgainTo(es: seq<nat>, start: nat, rank: seq<nat>, trials: seq<Step>, agains: seq<Step>, m: nat) {
    && |agains| == m <= |rank| && Descends(trials, rank) && |trials| == |es|
    && (forall k :: 0 <= k < m ==> rank[k] < |es| && agains[k] == Step(es[rank[k]], start, true, true, agains[k].r) && !Final(trials[rank[k]], agains[k]))
    && (forall l, k :: 0 <= l < k < m && agains[l].r.Ok? ==> agains[l].r.end < trials[rank[k]].r.end)
  }

  lemma RankedSoFar(es: seq<nat>, start: nat, rank: seq<nat>, trials: seq<Step>, agains: seq<Step>, m: nat)
    requires Descends(trials, rank) && |agains| == m <= |rank| && |trials| == |es| && forall k: nat :: Fits(trials, k) ==> k in rank
    requires forall k :: 0 <= k < m ==> rank[k] < |es| && agains[k] == Step(es[rank[k]], start, true, true, agains[k].r)
    ensures Ranked(es, start, true, rank[..m], trials, agains)
  {
    var at := rank[..m];
    forall l, k: nat | 0 <= l < |at| && Fits(trials, k) && k !in at ensures Ahead(trials, at[l], k) {
      var q :| 0 <= q < |rank| && rank[q] == k;
      assert forall p :: 0 <= p < m ==> at[p] == rank[p];
      assert Ahead(trials, rank[l], rank[q]);
    }
  }

  lemma {:induction false} TopOf(agains: seq<Step>) returns (l: nat)
    requires exists k :: 0 <= k < |agains| && agains[k].r.Ok?
    ensures l < |agains| && Tops(agains, l)
    decreases |agains|
  {
    var n := |agains| - 1;
    var front := agains[..n];
    if exists k :: 0 <= k < n && agains[k].r.Ok? {
      var k :| 0 <= k < n && agains[k].r.Ok?;
      assert front[k] == agains[k];
      l := TopOf(front);
      assert forall i :: 0 <= i < n ==> front[i] == agains[i];
      if agains[n].r.Ok? && agains[n].r.end > agains[l].r.end {
        l := n;
      }
    } else {
      l := n;
    }
  }

  lemma {:induction false} AgainFrom(g: Grammar, s: string, n: nat, es: seq<nat>, start: nat, rank: seq<nat>, trials: seq<Step>, agains: seq<Step>, m: nat)
    returns (m': nat, agains': seq<Step>, raw: Outcome)
    requires g.Valid() && n < |g.nodes| && g.KindOk(n, Or(es)) && start <= |s| && rank != [] && (forall k: nat :: Fits(trials, k) ==> k in rank)
    requires AgainTo(es, start, rank, trials, agains, m) && AllLower(g, s, n, start, agains)
    ensures 0 < m' <= |rank| && Ranked(es, start, true, rank[..m'], trials, agains') && AllLower(g, s, n, start, agains')
    ensures ParsedAgain(start, rank[..m'], trials, agains', raw)
    decreases |rank| - m
  {
    hide Parse, Grammar.Valid, Grammar.KindOk, IsFurthest, TrialFails, FailsIn, ParsedAgain, Tops, Final, AgainTo, Ranked, AllLower, Fits;
    SoFar(es, start, rank, trials, agains, m);
    var found := exists k :: 0 <= k < |agains| && agains[k].r.Ok?;
    var l := 0;
    if found {
      l := TopOf(agains);
      TopMatches(agains, l);
    }
    if m == |rank| || (found && trials[rank[m]].r.end <= agains[l].r.end) {
      m', agains' := m, agains;
      RankedHere(es, start, rank, trials, agains, m);
      if found {
        raw := agains[l].r;
        TakesLongest(es, start, rank, trials, agains, m, l);
      } else {
        raw := FurthestOf(start, TrialFails(start, trials) + FailsIn(agains));
        TakesFurthest(es, start, rank, trials, agains, raw);
      }
    } else {
      AlternativeLower(g, s, n, es, start, rank[m], true);
      var sub := StepOf(g, s, es[rank[m]], start, true, true);
      var now := agains + [sub];
      LowerOnward(g, s, n, start, agains, sub);
      if found {
        TopIsLongest(agains, l);
      }
      RankedOnward(es, start, rank, trials, agains, m, sub);
      if Final(trials[rank[m]], sub) {
        m', agains', raw := m + 1, now, sub.r;
        TakesFinal(es, start, rank, trials, agains, m, sub);
      } else {
        m', agains', raw := AgainFrom(g, s, n, es, start, rank, trials, now, m + 1);
      }
    }
  }

  lemma SoFar(es: seq<nat>, start: nat, rank: seq<nat>, trials: seq<Step>, agains: seq<Step>, m: nat)
    requires AgainTo(es, start, rank, trials, agains, m)
    ensures |agains| == m <= |rank|
    ensures m < |rank| ==> rank[m] < |es| == |trials| && trials[rank[m]].r.Ok?
  {}

  lemma LowerOnward(g: Grammar, s: string, n: nat, start: nat, subs: seq<Step>, sub: Step)
    requires g.Valid() && n < |g.nodes| && AllLower(g, s, n, start, subs) && AllLower(g, s, n, start, [sub])
    ensures AllLower(g, s, n, start, subs + [sub])
  {
    hide Lower;
    assert Lower(g, s, n, start, [sub][0]);
  }

  lemma RankedHere(es: seq<nat>, start: nat, rank: seq<nat>, trials: seq<Step>, agains: seq<Step>, m: nat)
    requires AgainTo(es, start, rank, trials, agains, m) && forall k: nat :: Fits(trials, k) ==> k in rank
    ensures Ranked(es, start, true, rank[..m], trials, agains)
  {
    hide Ranked;
    RankedSoFar(es, start, rank, trials, agains, m);
  }

  lemma RankedOnward(es: seq<nat>, start: nat, rank: seq<nat>, trials: seq<Step>, agains: seq<Step>, m: nat, sub: Step)
    requires AgainTo(es, start, rank, trials, agains, m) && m < |rank| && rank[m] < |es| == |trials|
    requires sub == Step(es[rank[m]], start, true, true, sub.r) && trials[rank[m]].r.Ok? && forall k: nat :: Fits(trials, k) ==> k in rank
    requires forall k :: 0 <= k < |agains| && agains[k].r.Ok? ==> agains[k].r.end < trials[rank[m]].r.end
    ensures Ranked(es, start, true, rank[..m + 1], trials, agains + [sub])
    ensures !Final(trials[rank[m]], sub) ==> AgainTo(es, start, rank, trials, agains + [sub], m + 1)
  {
    hide Ranked, Fits, Descends, Final;
    var now := agains + [sub];
    assert forall k :: 0 <= k < m ==> now[k] == agains[k];
    RankedSoFar(es, start, rank, trials, now, m + 1);
  }

  lemma TopMatches(agains: seq<Step>, l: nat)
    requires l < |agains| && Tops(agains, l)
    ensures agains[l].r.Ok?
  {}

  lemma TopIsLongest(agains: seq<Step>, l: nat)
    requires l < |agains| && Tops(agains, l)
    ensures agains[l].r.Ok? && forall k :: 0 <= k < |agains| && agains[k].r.Ok? ==> agains[k].r.end <= agains[l].r.end
  {}

  lemma TakesLongest(es: seq<nat>, start: nat, rank: seq<nat>, trials: seq<Step>, agains: seq<Step>, m: nat, l: nat)
    requires AgainTo(es, start, rank, trials, agains, m) && m > 0 && l < |agains| && Tops(agains, l) && agains[l].r.Ok?
    requires forall k: nat :: Fits(trials, k) ==> k in rank
    requires m == |rank| || trials[rank[m]].r.end <= agains[l].r.end
    ensures ParsedAgain(start, rank[..m], trials, agains, agains[l].r)
  {
    var at := rank[..m];
    forall k: nat | Fits(trials, k) && k !in at ensures trials[k].r.end <= agains[l].r.end {
      var q :| 0 <= q < |rank| && rank[q] == k;
      assert forall p :: 0 <= p < m ==> at[p] == rank[p];
      assert q > m ==> Ahead(trials, rank[m], rank[q]);
    }
  }

  lemma TakesFurthest(es: seq<nat>, start: nat, rank: seq<nat>, trials: seq<Step>, agains: seq<Step>, raw: Outcome)
    requires AgainTo(es, start, rank, trials, agains, |rank|) && rank != [] && !exists k :: 0 <= k < |agains| && agains[k].r.Ok?
    requires IsFurthest(start, TrialFails(start, trials) + FailsIn(agains), raw) && forall k: nat :: Fits(trials, k) ==> k in rank
    ensures ParsedAgain(start, rank[..|rank|], trials, agains, raw)
  {
    assert rank[..|rank|] == rank;
  }

  lemma TakesFinal(es: seq<nat>, start: nat, rank: seq<nat>, trials: seq<Step>, agains: seq<Step>, m: nat, sub: Step)
    requires AgainTo(es, start, rank, trials, agains, m) && m < |rank| && Final(trials[rank[m]], sub)
    requires forall k :: 0 <= k < m && agains[k].r.Ok? ==> agains[k].r.end < trials[rank[m]].r.end
    ensures ParsedAgain(start, rank[..m + 1], trials, agains + [sub], sub.r)
  {
    hide Final, Tops, IsFurthest;
    var at, now := rank[..m + 1], agains + [sub];
    assert forall k :: 0 <= k < m ==> now[k] == agains[k] && at[k] == rank[k];
    assert now[m] == sub && at[m] == rank[m];
  }

  lemma OrApplies(g: Grammar, s: string, n: nat, es: seq<nat>, start: nat, act: bool) returns (at: seq<nat>, trials: seq<Step>, agains: seq<Step>, raw: Outcome)
    requires g.Valid() && n < |g.nodes| && g.KindOk(n, Or(es)) && start <= |s|
    ensures Tries(es, start, trials) && Chosen(es, start, act, at, trials, agains, raw)
    ensures AllLower(g, s, n, start, trials) && AllLower(g, s, n, start, agains)
  {
    hide Parse, MatchesFrom, SortDown, ParsedAgain, Tries, AllLower, Grammar.KindOk, TrialFails;
    trials := TrialsTo(g, s, n, es, start, |es|);
    assert es[..|es|] == es;
    LowerParses(g, s, n, start, trials);
    AlternativesIn(g, n, es);
    var rank := SortedRank(g, s, es, start, trials, 0);
    RankDescends(es, trials, rank, SortDown(MatchesFrom(g, s, es, start, 0)));
    NoneLower(g, s, n, start);
    if rank == [] {
      at, agains := [], [];
      raw := FurthestOf(start, TrialFails(start, trials));
    } else if act {
      var m: nat;
      m, agains, raw := AgainFrom(g, s, n, es, start, rank, trials, [], 0);
      at := rank[..m];
      assert Fits(trials, rank[0]);
    } else {
      AlternativeLower(g, s, n, es, start, rank[0], false);
      at, agains := [rank[0]], [StepOf(g, s, es[rank[0]], start, false, true)];
      raw := agains[0].r;
      TopIsRanked(es, start, rank, trials, agains);
    }
  }

  lemma NoneLower(g: Grammar, s: string, n: nat, start: nat)
    requires g.Valid() && n < |g.nodes|
    ensures AllLower(g, s, n, start, [])
  {}

  lemma AlternativesIn(g: Grammar, n: nat, es: seq<nat>)
    requires g.Valid() && n < |g.nodes| && g.KindOk(n, Or(es))
    ensures Alternatives(g, es)
  {
    assert forall k :: 0 <= k < |es| ==> es[k] in es;
  }

  lemma AlternativeLower(g: Grammar, s: string, n: nat, es: seq<nat>, start: nat, k: nat, act: bool)
    requires g.Valid() && n < |g.nodes| && g.KindOk(n, Or(es)) && start <= |s| && k < |es|
    ensures es[k] < |g.nodes| && AllLower(g, s, n, start, [StepOf(g, s, es[k], start, act, true)])
  {
    hide Parse;
    assert es[k] in es;
  }

  lemma RankDescends(es: seq<nat>, trials: seq<Step>, rank: seq<nat>, sorted: seq<Ending>)
    requires Lists(es, trials, rank, sorted) && forall k: nat :: Fits(trials, k) ==> k in rank
    ensures Descends(trials, rank) && |trials| == |es|
  {}

  lemma TopIsRanked(es: seq<nat>, start: nat, rank: seq<nat>, trials: seq<Step>, agains: seq<Step>)
    requires Descends(trials, rank) && rank != [] && |trials| == |es| && (forall k: nat :: Fits(trials, k) ==> k in rank)
    requires rank[0] < |es| && |agains| == 1 && agains[0] == Step(es[rank[0]], start, false, true, agains[0].r)
    ensures Ranked(es, start, false, [rank[0]], trials, agains)
  {
    forall k: nat | Fits(trials, k) && k != rank[0] ensures Ahead(trials, rank[0], k) {
      var q :| 0 <= q < |rank| && rank[q] == k;
    }
  }

  // --- all kinds of elements --------------------------------------------------------------------------------------------------

  lemma RuleApplies(g: Grammar, s: string, n: nat, kind: Kind, start: nat, act: bool) returns (at: seq<nat>, subs: seq<Step>, raw: Outcome)
    requires g.Valid() && n < |g.nodes| && g.KindOk(n, kind) && start <= |s|
    ensures Rule(g, s, kind, start, act, at, subs, raw) && AllLower(g, s, n, start, subs)
  {
    hide Parse, InTurn, AfterAll, FirstThatFits, IsFurthest, Tries, Chosen, AgainAndAgain, AfterRun, FailsIn, WordEnd;
    at, subs := [], [];
    match kind {
      case Literal(text) => raw := if Stands(s, start, text) then Ok(start + |text|, [text]) else Fail(start, false);
      case Word(init, body) =>
        if start < |s| && s[start] in init {
          RunIs(s, body, start);
          raw := Ok(WordEnd(body, s, start + 1), [s[start..WordEnd(body, s, start + 1)]]);
        } else {
          raw := Fail(start, false);
        }
      case Empty => raw := Ok(start, []);
      case Stop => raw := Ok(start, []);
      case And(es) =>
        at, subs := AndApplies(g, s, n, es, start, act);
        TurnNotEmpty(g, es, start, act, at, subs);
        raw := AfterAll(g, es, at, subs);
      case MatchFirst(es) =>
        subs := FitsTo(g, s, n, es, start, act, []);
        if subs != [] && Settles(subs[|subs| - 1].r) {
          raw := subs[|subs| - 1].r;
        } else {
          raw := FurthestOf(start, FailsIn(subs));
        }
      case Or(es) =>
        var trials, agains;
        at, trials, agains, raw := OrApplies(g, s, n, es, start, act);
        TriesAll(es, start, trials);
        subs := trials + agains;
        assert subs[..|es|] == trials && subs[|es|..] == agains;
      case OneOrMore(e) =>
        subs := RepeatApplies(g, s, n, e, start, act);
        RunNotEmpty(e, start, act, subs);
        raw := AfterRun(subs);
      case ZeroOrMore(e) =>
        subs := RepeatApplies(g, s, n, e, start, act);
        RunNotEmpty(e, start, act, subs);
        raw := if |subs| == 1 then OrNothing(start, subs[0].r) else AfterRun(subs);
      case Optional(e) =>
        subs := [StepOf(g, s, e, start, act, false)];
        raw := OrNothing(start, subs[0].r);
      case Forward(e) =>
        subs := [StepOf(g, s, e, start, act, false)];
        raw := subs[0].r;
    }
  }

  lemma TurnNotEmpty(g: Grammar, es: seq<nat>, start: nat, act: bool, at: seq<nat>, subs: seq<Step>)
    requires InTurn(g, es, start, act, at, subs)
    ensures subs != [] && |at| == |subs|
  {}

  lemma TriesAll(es: seq<nat>, start: nat, trials: seq<Step>)
    requires Tries(es, start, trials)
    ensures |trials| == |es|
  {}

  lemma RunNotEmpty(e: nat, start: nat, act: bool, subs: seq<Step>)
    requires AgainAndAgain(e, start, act, subs)
    ensures subs != []
  {}

  lemma RunIs(s: string, body: set<char>, start: nat)
    requires start < |s|
    ensures IsRun(s, body, start, WordEnd(body, s, start + 1))
  {
    RunGoesOn(s, body, start + 1);
  }

  lemma {:induction false} RunGoesOn(s: string, body: set<char>, i: nat)
    requires i <= |s|
    ensures var e := WordEnd(body, s, i);
            (forall k :: i <= k < e ==> s[k] in body) && (e < |s| ==> s[e] !in body)
    decreases |s| - i
  {
    if i < |s| && s[i] in body {
      RunGoesOn(s, body, i + 1);
    }
  }

  lemma {:induction false} SkipIsBehind(node: Node, s: string, loc: nat)
    requires loc <= |s| && node.skips
    ensures var start := Skip(node, s, loc);
            (forall i :: loc <= i < start ==> s[i] in node.white) && (start < |s| ==> s[start] !in node.white)
    decreases |s| - loc
  {
    if loc < |s| && s[loc] in node.white {
      SkipIsBehind(node, s, loc + 1);
    }
  }

  // --- actions ------------------------------------------------------------------------------------------------------------------

  /** The tokens before each of the actions from the `k`th on. */
  lemma {:induction false} ActsTo(node: Node, s: string, start: nat, raw: Outcome, states: seq<seq<string>>) returns (states': seq<seq<string>>, r: Outcome)
    requires raw.Ok? && 0 < |states| <= |node.actions| + 1 && states[0] == raw.toks
    requires forall i :: 0 <= i < |states| - 1 ==> Leaves(node.actions[i](s, start, states[i]), states[i], states[i + 1])
    ensures Acted(node, s, true, start, raw, states', r)
    decreases |node.actions| + 1 - |states|
  {
    var k := |states| - 1;
    if k == |node.actions| {
      states', r := states, Ok(raw.end, states[k]);
    } else {
      match node.actions[k](s, start, states[k]) {
        case Keep => states', r := ActsTo(node, s, start, raw, states + [states[k]]);
        case Replace(toks) => states', r := ActsTo(node, s, start, raw, states + [toks]);
        case Reject(loc, fatal) => states', r := states, Fail(loc, fatal);
      }
    }
  }

  // --- derivations ----------------------------------------------------------------------------------------------------------------

  lemma {:induction false} ParseIsDerived(g: Grammar, s: string, n: nat, loc: nat, act: bool, pre: bool) returns (t: Tree)
    requires g.Valid() && n < |g.nodes| && loc <= |s|
    ensures Derives(g, s, t) && t.step == StepOf(g, s, n, loc, act, pre)
    decreases |s| - loc, g.rank[n], 1, 0
  {
    hide Parse, Rule, Acted, AllLower;
    var node := g.nodes[n];
    var start := Start(node, s, loc, pre);
    if pre && node.callPreparse && node.skips {
      SkipIsBehind(node, s, loc);
    }
    assert g.KindOk(n, node.kind);
    var at, subs, raw := RuleApplies(g, s, n, node.kind, start, act);
    var states, r;
    if raw.Ok? && (act || node.duringTry) {
      states, r := ActsTo(node, s, start, raw, [raw.toks]);
      AlsoActed(node, s, act, start, raw, states, r);
    } else {
      states, r := [], raw;
      NotActed(node, s, act, start, raw);
    }
    var trees := TreesFor(g, s, n, start, subs);
    assert Steps(trees) == subs;
    t := Tree(Step(n, loc, act, pre, r), start, raw, at, states, trees);
    DerivedIsParse(g, s, t);
  }

  lemma AlsoActed(node: Node, s: string, act: bool, start: nat, raw: Outcome, states: seq<seq<string>>, r: Outcome)
    requires raw.Ok? && (act || node.duringTry) && Acted(node, s, true, start, raw, states, r)
    ensures Acted(node, s, act, start, raw, states, r)
  {}

  lemma NotActed(node: Node, s: string, act: bool, start: nat, raw: Outcome)
    requires !(raw.Ok? && (act || node.duringTry))
    ensures Acted(node, s, act, start, raw, [], raw)
  {}

  lemma {:induction false} TreesFor(g: Grammar, s: string, n: nat, start: nat, subs: seq<Step>) returns (trees: seq<Tree>)
    requires g.Valid() && n < |g.nodes| && AllLower(g, s, n, start, subs) && start <= |s|
    ensures Steps(trees) == subs && forall t :: t in trees ==> Derives(g, s, t)
    decreases |s| - start, g.rank[n], 0, |subs|
  {
    hide Parse, Derives;
    if subs == [] {
      trees := [];
    } else {
      var k := |subs| - 1;
      trees := TreesFor(g, s, n, start, subs[..k]);
      assert Lower(g, s, n, start, subs[k]);
      var t := ParseIsDerived(g, s, subs[k].n, subs[k].loc, subs[k].act, subs[k].pre);
      trees := trees + [t];
      assert subs == subs[..k] + [subs[k]];
    }
  }

  /** Parsing an element gives an outcome exactly when the outcome can be derived. */
  lemma ParsesWhatIsDerived(g: Grammar, s: string, n: nat, loc: nat, act: bool, pre: bool, r: Outcome)
    requires g.Valid() && n < |g.nodes| && loc <= |s|
    ensures Parse(g, s, n, loc, act, pre) == r <==> Derivable(g, s, Step(n, loc, act, pre, r))
  {
    hide Parse, Derives;
    if Parse(g, s, n, loc, act, pre) == r {
      var t := ParseIsDerived(g, s, n, loc, act, pre);
    }
    if Derivable(g, s, Step(n, loc, act, pre, r)) {
      var t :| Derives(g, s, t) && t.step == Step(n, loc, act, pre, r);
      DerivedIsParse(g, s, t);
    }
  }

  /** A word is the longest run of its characters, from the first that is no whitespace. */
  ghost predicate IsWordFrom(node: Node, s: string, start: nat, r: Outcome)
    requires node.kind.Word?
  {
    if start < |s| && s[start] in node.kind.init then
      r.Ok? && IsRun(s, node.kind.body, start, r.end) && r.toks == [s[start..r.end]]
    else
      r == Fail(start, false)
  }

  lemma WordsAreWhole(g: Grammar, s: string, n: nat, loc: nat, act: bool, pre: bool)
    requires g.Valid() && n < |g.nodes| && loc <= |s| && g.nodes[n].kind.Word? && g.nodes[n].actions == []
    ensures exists start :: Behind(g.nodes[n], s, loc, pre, start) && IsWordFrom(g.nodes[n], s, start, Parse(g, s, n, loc, act, pre))
  {
    hide Parse;
    var t := ParseIsDerived(g, s, n, loc, act, pre);
    assert Behind(g.nodes[n], s, loc, pre, t.start);
  }

  /** So a name of the input language, with its underscore, is one word. */
  lemma OfPortIsOneWord(g: Grammar, n: nat, act: bool)
    requires g.Valid() && n < |g.nodes| && g.nodes[n].actions == [] && g.nodes[n].white == {' '}
    requires g.nodes[n].kind == Word({'o', 'f', '_', 'p', 'r', 't'}, {'o', 'f', '_', 'p', 'r', 't'})
    ensures Parse(g, "of_port", n, 0, act, true) == Ok(7, ["of_port"])
  {
    hide Parse;
    var s := "of_port";
    WordsAreWhole(g, s, n, 0, act, true);
    assert s[0] == 'o' && s[1] == 'f' && s[2] == '_' && s[3] == 'p' && s[4] == 'o' && s[5] == 'r' && s[6] == 't' && s[0..7] == s;
  }
}
