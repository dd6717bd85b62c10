/** What a grammar accepts, said by derivations: each kind of element has a rule of its own, and parsing gives exactly what
    can be derived. */
module Derivations {
  import opened Options
  import opened ParserCore

  /** The element `n` entered at `loc`, with or without actions, before or behind the whitespace, ends with `r`. */
  datatype Step = Step(n: nat, loc: nat, act: bool, pre: bool, r: Outcome)

  /** A derivation. The element begins at `start`, behind the whitespace; `raw` is its outcome before its actions ran, and
      `states` are the tokens before each action. `at` names the elements or alternatives that the later steps belong to. */
  datatype Tree = Tree(step: Step, start: nat, raw: Outcome, at: seq<nat>, states: seq<seq<string>>, subs: seq<Tree>)

  function Steps(trees: seq<Tree>): (steps: seq<Step>)
    ensures |steps| == |trees| && forall i :: 0 <= i < |trees| ==> steps[i] == trees[i].step
  {
    seq(|trees|, i requires 0 <= i < |trees| => trees[i].step)
  }

  ghost predicate Derives(g: Grammar, s: string, t: Tree)
    decreases t
  {
    && t.step.n < |g.nodes| && t.step.loc <= |s|
    && (forall sub :: sub in t.subs ==> Derives(g, s, sub))
    && Behind(g.nodes[t.step.n], s, t.step.loc, t.step.pre, t.start)
    && Rule(g, s, g.nodes[t.step.n].kind, t.start, t.step.act, t.at, Steps(t.subs), t.raw)
    && Acted(g.nodes[t.step.n], s, t.step.act, t.start, t.raw, t.states, t.step.r)
  }

  ghost predicate Derivable(g: Grammar, s: string, step: Step) {
    exists t :: Derives(g, s, t) && t.step == step
  }

  // --- the rules ----------------------------------------------------------------------------------------------------------

  /** `start` is the first character from `loc` on that is no whitespace, if the element skips that, and `loc` if not. */
  ghost predicate Behind(node: Node, s: string, loc: nat, pre: bool, start: nat) {
    if pre && node.callPreparse && node.skips then
      loc <= start <= |s| && (forall i :: loc <= i < start ==> s[i] in node.white) && (start < |s| ==> s[start] !in node.white)
    else
      start == loc
  }

  ghost predicate Stands(s: string, loc: nat, text: string) {
    loc + |text| <= |s| && forall i :: 0 <= i < |text| ==> s[loc + i] == text[i]
  }

  /** The longest run: all characters after the first are of the body, and the next is not. */
  ghost predicate IsRun(s: string, body: set<char>, start: nat, end: nat) {
    start < end <= |s| && (forall i :: start < i < end ==> s[i] in body) && (end < |s| ==> s[end] !in body)
  }

  ghost predicate Rule(g: Grammar, s: string, kind: Kind, start: nat, act: bool, at: seq<nat>, subs: seq<Step>, raw: Outcome) {
    match kind
    case Literal(text) => subs == [] && raw == if Stands(s, start, text) then Ok(start + |text|, [text]) else Fail(start, false)
    case Word(init, body) =>
      subs == [] &&
      if start < |s| && s[start] in init then
        raw.Ok? && IsRun(s, body, start, raw.end) && raw.toks == [s[start..raw.end]]
      else
        raw == Fail(start, false)
    case Empty => subs == [] && raw == Ok(start, [])
    case Stop => subs == [] && raw == Ok(start, [])
    case And(es) => InTurn(g, es, start, act, at, subs) && raw == AfterAll(g, es, at, subs)
    case MatchFirst(es) => FirstThatFits(es, start, act, subs) && IsFirst(es, start, subs, raw)
    case Or(es) => |subs| >= |es| && Tries(es, start, subs[..|es|]) && Chosen(es, start, act, at, subs[..|es|], subs[|es|..], raw)
    case OneOrMore(e) => AgainAndAgain(e, start, act, subs) && raw == AfterRun(subs)
    case ZeroOrMore(e) => AgainAndAgain(e, start, act, subs) && raw == if |subs| == 1 then OrNothing(start, subs[0].r) else AfterRun(subs)
    case Optional(e) => |subs| == 1 && subs[0] == Step(e, start, act, false, subs[0].r) && raw == OrNothing(start, subs[0].r)
    case Forward(e) => |subs| == 1 && subs[0] == Step(e, start, act, false, raw)
  }

  function OrNothing(start: nat, r: Outcome): Outcome {
    if r.Fail? && !r.fatal then Ok(start, []) else r
  }

  /** The tokens of matches in turn. */
  function Joined(subs: seq<Step>): seq<string> {
    if subs == [] then [] else Joined(subs[..|subs| - 1]) + if subs[|subs| - 1].r.Ok? then subs[|subs| - 1].r.toks else []
  }

  /** Each begins where the one before ended, the first at `start` with the whitespace skipped already; all but the last
      match. */
  ghost predicate Chained(start: nat, act: bool, subs: seq<Step>) {
    && subs != [] && (forall k :: 0 <= k < |subs| ==> subs[k].act == act && subs[k].pre == (k > 0))
    && subs[0].loc == start && forall k :: 0 <= k < |subs| - 1 ==> Leads(subs, k)
  }

  ghost predicate Leads(subs: seq<Step>, k: nat) {
    k + 1 < |subs| && subs[k].r.Ok? && subs[k + 1].loc == subs[k].r.end
  }

  ghost predicate IsStop(g: Grammar, e: nat) {
    e < |g.nodes| && g.nodes[e].kind.Stop?
  }

  /** The elements of a sequence in turn, but for error stops behind the first, to the end or the first that fails. */
  ghost predicate InTurn(g: Grammar, es: seq<nat>, start: nat, act: bool, at: seq<nat>, subs: seq<Step>) {
    && Chained(start, act, subs) && |at| == |subs| && at[0] == 0
    && (forall k :: 0 <= k < |at| ==> at[k] < |es| && subs[k].n == es[at[k]])
    && (forall j, k :: 0 <= j < k < |at| ==> at[j] < at[k])
    && (forall i :: 0 < i < |es| && (i <= at[|at| - 1] || subs[|subs| - 1].r.Ok?) ==> (i in at <==> !IsStop(g, es[i])))
  }

  /** A failure behind an error stop is fatal. */
  ghost function AfterAll(g: Grammar, es: seq<nat>, at: seq<nat>, subs: seq<Step>): Outcome
    requires subs != [] && |at| == |subs|
  {
    match subs[|subs| - 1].r
    case Ok(end, _) => Ok(end, Joined(subs))
    case Fail(loc, fatal) => Fail(loc, fatal || StopBefore(g, es, at[|at| - 1]))
  }

  ghost predicate StopBefore(g: Grammar, es: seq<nat>, i: nat) {
    exists j :: 0 < j < i && j < |es| && IsStop(g, es[j])
  }

  ghost predicate Settles(r: Outcome) {
    r.Ok? || r.fatal
  }

  /** The alternatives in order, to the first that matches or fails for good. */
  ghost predicate FirstThatFits(es: seq<nat>, start: nat, act: bool, subs: seq<Step>) {
    && |subs| <= |es| && (forall k :: 0 <= k < |subs| ==> subs[k] == Step(es[k], start, act, true, subs[k].r))
    && (forall k :: 0 <= k < |subs| - 1 ==> !Settles(subs[k].r))
    && (|subs| == |es| || (subs != [] && Settles(subs[|subs| - 1].r)))
  }

  ghost predicate IsFirst(es: seq<nat>, start: nat, subs: seq<Step>, raw: Outcome) {
    if subs != [] && Settles(subs[|subs| - 1].r) then raw == subs[|subs| - 1].r
    else IsFurthest(start, FailsIn(subs), raw)
  }

  ghost function FailsIn(subs: seq<Step>): set<nat> {
    set k | 0 <= k < |subs| && subs[k].r.Fail? :: subs[k].r.loc
  }

  /** The failure that got the furthest; where nothing was tried, at the start. */
  ghost predicate IsFurthest(start: nat, fails: set<nat>, raw: Outcome) {
    && raw.Fail? && !raw.fatal && raw.loc in (if fails == {} then {start} else fails)
    && forall f :: f in fails ==> f <= raw.loc
  }

  /** First every alternative is tried without actions. */
  ghost predicate Tries(es: seq<nat>, start: nat, trials: seq<Step>) {
    |trials| == |es| && forall k :: 0 <= k < |es| ==> trials[k] == Step(es[k], start, false, true, trials[k].r)
  }

  ghost predicate Fits(trials: seq<Step>, k: nat) {
    k < |trials| && trials[k].r.Ok?
  }

  /** Longer matches before shorter ones, of equally long ones the earlier. */
  ghost predicate Ahead(trials: seq<Step>, j: nat, k: nat)
    requires Fits(trials, j) && Fits(trials, k)
  {
    trials[j].r.end > trials[k].r.end || (trials[j].r.end == trials[k].r.end && j < k)
  }

  /** The matching alternatives in that order, as far as they are parsed again. */
  ghost predicate Ranked(es: seq<nat>, start: nat, act: bool, at: seq<nat>, trials: seq<Step>, agains: seq<Step>) {
    && |agains| == |at|
    && (forall m :: 0 <= m < |at| ==> Fits(trials, at[m]) && at[m] < |es| && agains[m] == Step(es[at[m]], start, act, true, agains[m].r))
    && (forall l, m :: 0 <= l < m < |at| ==> Ahead(trials, at[l], at[m]))
    && (forall m, k: nat :: 0 <= m < |at| && Fits(trials, k) && k !in at ==> Ahead(trials, at[m], k))
  }

  ghost predicate Chosen(es: seq<nat>, start: nat, act: bool, at: seq<nat>, trials: seq<Step>, agains: seq<Step>, raw: Outcome) {
    Ranked(es, start, act, at, trials, agains) &&
    if forall k: nat :: !Fits(trials, k) then
      at == [] && IsFurthest(start, TrialFails(start, trials), raw)
    else if !act then
      |at| == 1 && raw == agains[0].r
    else
      at != [] && ParsedAgain(start, at, trials, agains, raw)
  }

  /** Where alternatives failed; what was fatal counts as failing at once. */
  ghost function TrialFails(start: nat, trials: seq<Step>): set<nat> {
    set k | 0 <= k < |trials| && trials[k].r.Fail? :: if trials[k].r.fatal then start else trials[k].r.loc
  }

  /** Parsed again, the match is as long as it was, or longer, or fails for good. */
  ghost predicate Final(trial: Step, again: Step) {
    match again.r
    case Ok(end, _) => trial.r.Ok? && end >= trial.r.end
    case Fail(_, fatal) => fatal
  }

  /** The matches parsed again in order, to the first that is final, or until none is left that was longer than the longest
      so far: then that one is taken, the first of equals. */
  ghost predicate ParsedAgain(start: nat, at: seq<nat>, trials: seq<Step>, agains: seq<Step>, raw: Outcome)
    requires |agains| == |at| && at != [] && forall m :: 0 <= m < |at| ==> at[m] < |trials| && trials[at[m]].r.Ok?
  {
    var last := |at| - 1;
    && (forall m :: 0 <= m < last ==> !Final(trials[at[m]], agains[m]))
    && (forall l, m :: 0 <= l < m < |at| && agains[l].r.Ok? ==> agains[l].r.end < trials[at[m]].r.end)
    && if Final(trials[at[last]], agains[last]) then
         raw == agains[last].r
       else if exists l :: 0 <= l < |agains| && agains[l].r.Ok? then
         && (exists l :: 0 <= l < |agains| && Tops(agains, l) && raw == agains[l].r)
         && (forall k: nat :: Fits(trials, k) && k !in at ==> raw.Ok? && trials[k].r.end <= raw.end)
       else
         && (forall k: nat :: Fits(trials, k) ==> k in at)
         && IsFurthest(start, TrialFails(start, trials) + FailsIn(agains), raw)
  }

  ghost predicate Tops(agains: seq<Step>, l: nat)
    requires l < |agains|
  {
    && agains[l].r.Ok?
    && (forall k :: 0 <= k < |agains| && agains[k].r.Ok? ==> agains[k].r.end <= agains[l].r.end)
    && (forall k :: 0 <= k < l && agains[k].r.Ok? ==> agains[k].r.end < agains[l].r.end)
  }

  /** The same element until it fails. */
  ghost predicate AgainAndAgain(e: nat, start: nat, act: bool, subs: seq<Step>) {
    Chained(start, act, subs) && (forall k :: 0 <= k < |subs| ==> subs[k].n == e) && subs[|subs| - 1].r.Fail?
  }

  /** The last failure ends the repetition, but for the first one or a fatal one. */
  ghost function AfterRun(subs: seq<Step>): Outcome
    requires subs != []
  {
    var last := |subs| - 1;
    if |subs| == 1 || subs[last].r.Ok? || subs[last].r.fatal || subs[last - 1].r.Fail? then subs[last].r
    else Ok(subs[last - 1].r.end, Joined(subs[..last]))
  }

  /** The actions in turn, on the tokens that the one before left, to the end or the first that refuses. */
  ghost predicate Acted(node: Node, s: string, act: bool, start: nat, raw: Outcome, states: seq<seq<string>>, r: Outcome) {
    if raw.Ok? && (act || node.duringTry) then
      && 0 < |states| <= |node.actions| + 1 && states[0] == raw.toks
      && (forall i :: 0 <= i < |states| - 1 ==> Leaves(node.actions[i](s, start, states[i]), states[i], states[i + 1]))
      && if |states| == |node.actions| + 1 then
           r == Ok(raw.end, states[|states| - 1])
         else
           Refuses(node.actions[|states| - 1](s, start, states[|states| - 1]), r)
    else
      r == raw
  }

  predicate Leaves(a: ActionResult, before: seq<string>, after: seq<string>) {
    match a
    case Keep => after == before
    case Replace(toks) => after == toks
    case Reject(_, _) => false
  }

  predicate Refuses(a: ActionResult, r: Outcome) {
    a.Reject? && r == Fail(a.loc, a.fatal)
  }
}
