/** The `switch` that an accessor is given: adjacent versions with equal offset and length share one body. */
module AccessorSwitch {
  import opened Options

  /** A member in one version: its type and its offset, -1 when that has to be computed. */
  datatype Entry = Entry(version: int, mtype: string, offset: int)

  /** The length of the member as C has it: computed by a macro, or a constant. */
  datatype LengthExpr = Macro | Bytes(bytes: int)

  /** The statements that are emitted. */
  datatype Stmt = Case(version: int) | SetOffset(offset: int) | SetLength(length: LengthExpr) | Break | Default

  /** What is known of types: `length_of`, the length of a type in a version, if there is one; the versions in which the
      type of the member is a class of fixed length; and whether it is the match type. */
  datatype Types = Types(lengthOf: (string, int) -> Option<int>, fixed: set<int>, isMatch: bool)

  // --- what a C switch does ----------------------------------------------------------------------------------------

  /** What a body has assigned; the offset is 0 before. */
  datatype State = State(offset: int, length: Option<LengthExpr>)

  datatype Outcome = Left(state: State) | AssertionFailed

  /** The statement at which the switch is entered. */
  function Entered(stmts: seq<Stmt>, version: int): (i: nat)
    ensures i <= |stmts|
  {
    if exists i :: 0 <= i < |stmts| && stmts[i] == Case(version) then First(stmts, Case(version)) else First(stmts, Default)
  }

  function First(stmts: seq<Stmt>, s: Stmt): (i: nat)
    ensures i <= |stmts| && (i < |stmts| ==> stmts[i] == s) && forall k :: 0 <= k < i ==> stmts[k] != s
  {
    if stmts == [] || stmts[0] == s then 0 else 1 + First(stmts[1..], s)
  }

  /** Execution falls through labels until a break or the end; the body of `default` asserts 0. */
  function Exec(stmts: seq<Stmt>, i: nat, st: State): Outcome
    requires i <= |stmts|
    decreases |stmts| - i
  {
    if i == |stmts| then Left(st)
    else match stmts[i]
      case Case(_) => Exec(stmts, i + 1, st)
      case SetOffset(o) => Exec(stmts, i + 1, st.(offset := o))
      case SetLength(v) => Exec(stmts, i + 1, st.(length := Some(v)))
      case Break => Left(st)
      case Default => AssertionFailed
  }

  const START := State(0, None)

  function Run(stmts: seq<Stmt>, version: int): Outcome {
    Exec(stmts, Entered(stmts, version), START)
  }

  // --- the emitter --------------------------------------------------------------------------------------------------------

  function LengthOf(types: Types, e: Entry): Option<int> {
    types.lengthOf(e.mtype, e.version)
  }

  /** The length expression that is generated for a version. */
  function ExprFor(types: Types, e: Entry): LengthExpr {
    if types.isMatch || e.version !in types.fixed || LengthOf(types, e).None? then Macro else Bytes(LengthOf(types, e).value)
  }

  /** `gen_accessor_offsets`: a computed offset is only known for special members. */
  function Body(types: Types, e: Entry, offset: int, scalar: bool, special: bool): Option<seq<Stmt>> {
    if offset == -1 && !special then None
    else Some([SetOffset(offset)] + (if scalar then [] else [SetLength(ExprFor(types, e))]) + [Break])
  }

  /** The member has offset and length in common in both versions. */
  predicate Alike(types: Types, a: Entry, b: Entry) {
    a.offset == b.offset && LengthOf(types, a) == LengthOf(types, b)
  }

  /** The first of the adjacent versions that are alike and end with the one at `k`. */
  function RunStart(entries: seq<Entry>, types: Types, k: nat): (p: nat)
    requires k < |entries|
    ensures p <= k && Alike(types, entries[k], entries[p])
  {
    if k == 0 then 0
    else
      var p := RunStart(entries, types, k - 1);
      if Alike(types, entries[k], entries[p]) then p else k
  }

  /** The version for which the body is generated that the one at `k` reaches: the first of its run, but in the last run
      the last. */
  function BodyOf(entries: seq<Entry>, types: Types, k: nat): (r: nat)
    requires k < |entries|
    ensures r < |entries|
  {
    var last := |entries| - 1;
    if RunStart(entries, types, k) == RunStart(entries, types, last) then last else RunStart(entries, types, k)
  }

  function EndOf(entries: seq<Entry>, types: Types, k: nat, r: nat, scalar: bool): State
    requires k < |entries| && r < |entries|
  {
    State(entries[k].offset, if scalar then None else Some(ExprFor(types, entries[r])))
  }

  /** Entering at the version at `k` leaves with its offset, and with the length expression of that at `r`. */
  ghost predicate Serves(stmts: seq<Stmt>, entries: seq<Entry>, types: Types, k: nat, r: nat, scalar: bool)
    requires k < |entries| && r < |entries|
  {
    exists i :: 0 <= i < |stmts| && stmts[i] == Case(entries[k].version)
      && BreaksWith(stmts, i, START, EndOf(entries, types, k, r, scalar))
  }

  /** From `i` on, execution reaches a break with the state. */
  ghost predicate BreaksWith(stmts: seq<Stmt>, i: nat, st: State, end: State)
    decreases |stmts| - i
  {
    i < |stmts| && match stmts[i]
      case Case(_) => BreaksWith(stmts, i + 1, st, end)
      case SetOffset(o) => BreaksWith(stmts, i + 1, st.(offset := o), end)
      case SetLength(v) => BreaksWith(stmts, i + 1, st.(length := Some(v)), end)
      case Break => st == end
      case Default => false
  }

  lemma {:induction false} BreaksIsLeft(stmts: seq<Stmt>, i: nat, st: State, end: State)
    requires BreaksWith(stmts, i, st, end)
    ensures i < |stmts| && Exec(stmts, i, st) == Left(end)
    decreases |stmts| - i
  {
    match stmts[i] {
      case Case(_) => BreaksIsLeft(stmts, i + 1, st, end);
      case SetOffset(o) => BreaksIsLeft(stmts, i + 1, st.(offset := o), end);
      case SetLength(v) => BreaksIsLeft(stmts, i + 1, st.(length := Some(v)), end);
      case Break =>
    }
  }

  lemma {:induction false} BreaksStill(stmts: seq<Stmt>, more: seq<Stmt>, i: nat, st: State, end: State)
    requires BreaksWith(stmts, i, st, end)
    ensures BreaksWith(stmts + more, i, st, end)
    decreases |stmts| - i
  {
    assert (stmts + more)[i] == stmts[i];
    match stmts[i] {
      case Case(_) => BreaksStill(stmts, more, i + 1, st, end);
      case SetOffset(o) => BreaksStill(stmts, more, i + 1, st.(offset := o), end);
      case SetLength(v) => BreaksStill(stmts, more, i + 1, st.(length := Some(v)), end);
      case Break =>
    }
  }

  /** Nothing but labels from `i` on. */
  ghost predicate OnlyCases(stmts: seq<Stmt>, i: nat) {
    forall k :: i <= k < |stmts| ==> stmts[k].Case?
  }

  lemma {:induction false} CasesFallThrough(stmts: seq<Stmt>, body: seq<Stmt>, i: nat, st: State, end: State)
    requires i <= |stmts| && OnlyCases(stmts, i) && BreaksWith(stmts + body, |stmts|, st, end)
    ensures BreaksWith(stmts + body, i, st, end)
    decreases |stmts| - i
  {
    if i < |stmts| {
      assert (stmts + body)[i] == stmts[i];
      CasesFallThrough(stmts, body, i + 1, st, end);
    }
  }

  lemma BodyBreaks(stmts: seq<Stmt>, types: Types, e: Entry, offset: int, scalar: bool, special: bool)
    requires Body(types, e, offset, scalar, special).Some?
    ensures BreaksWith(stmts + Body(types, e, offset, scalar, special).value, |stmts|, START,
                       State(offset, if scalar then None else Some(ExprFor(types, e))))
  {}

  // --- the invariant of the loop --------------------------------------------------------------------------------------------

  /** The labels are those of the first `n` versions, each once, with no default. */
  ghost predicate LabelsOf(stmts: seq<Stmt>, entries: seq<Entry>, n: nat)
    requires n <= |entries|
  {
    && (forall i :: 0 <= i < |stmts| ==> stmts[i] != Default)
    && (forall i, j :: 0 <= i < j < |stmts| && stmts[i].Case? ==> stmts[i] != stmts[j])
    && (forall i :: 0 <= i < |stmts| && stmts[i].Case? ==> exists k :: 0 <= k < n && entries[k].version == stmts[i].version)
  }

  /** The version waits for the next body: only labels follow its own. */
  ghost predicate Waits(stmts: seq<Stmt>, e: Entry) {
    exists i :: 0 <= i < |stmts| && stmts[i] == Case(e.version) && OnlyCases(stmts, i)
  }

  /** The versions before `p` are served by the bodies of their runs, those from `p` to `n` wait and are one run. */
  ghost predicate Progress(stmts: seq<Stmt>, entries: seq<Entry>, types: Types, p: nat, n: nat, scalar: bool)
    requires p < n <= |entries|
  {
    && LabelsOf(stmts, entries, n)
    && (forall k :: 0 <= k < p ==> RunStart(entries, types, k) < p && Serves(stmts, entries, types, k, RunStart(entries, types, k), scalar))
    && (forall k :: p <= k < n ==> Waits(stmts, entries[k]) && RunStart(entries, types, k) == p)
  }

  ghost predicate Distinct(entries: seq<Entry>) {
    forall i, j :: 0 <= i < j < |entries| ==> entries[i].version != entries[j].version
  }

  lemma ServesStill(stmts: seq<Stmt>, more: seq<Stmt>, entries: seq<Entry>, types: Types, k: nat, r: nat, scalar: bool)
    requires k < |entries| && r < |entries| && Serves(stmts, entries, types, k, r, scalar)
    ensures Serves(stmts + more, entries, types, k, r, scalar)
  {
    hide BreaksWith, EndOf;
    var i :| 0 <= i < |stmts| && stmts[i] == Case(entries[k].version) && BreaksWith(stmts, i, START, EndOf(entries, types, k, r, scalar));
    BreaksStill(stmts, more, i, START, EndOf(entries, types, k, r, scalar));
    assert (stmts + more)[i] == Case(entries[k].version);
  }

  /** One more label. */
  lemma LabelAdded(stmts: seq<Stmt>, entries: seq<Entry>, n: nat)
    requires n < |entries| && Distinct(entries) && LabelsOf(stmts, entries, n)
    ensures LabelsOf(stmts + [Case(entries[n].version)], entries, n + 1)
    ensures Waits(stmts + [Case(entries[n].version)], entries[n])
    ensures forall e :: Waits(stmts, e) ==> Waits(stmts + [Case(entries[n].version)], e)
  {
    var now := stmts + [Case(entries[n].version)];
    assert now[|stmts|] == Case(entries[n].version);
    forall e | Waits(stmts, e) ensures Waits(now, e) {
      var i :| 0 <= i < |stmts| && stmts[i] == Case(e.version) && OnlyCases(stmts, i);
      assert now[i] == Case(e.version) && OnlyCases(now, i);
    }
  }

  lemma CaseJoined(stmts: seq<Stmt>, entries: seq<Entry>, types: Types, p: nat, n: nat, scalar: bool)
    requires p < n < |entries| && Distinct(entries) && Progress(stmts, entries, types, p, n, scalar)
    requires Alike(types, entries[n], entries[p])
    ensures Progress(stmts + [Case(entries[n].version)], entries, types, p, n + 1, scalar)
  {
    hide Serves, Waits, LabelsOf, Alike;
    LabelAdded(stmts, entries, n);
    forall k | 0 <= k < p
      ensures Serves(stmts + [Case(entries[n].version)], entries, types, k, RunStart(entries, types, k), scalar)
    {
      ServesStill(stmts, [Case(entries[n].version)], entries, types, k, RunStart(entries, types, k), scalar);
    }
  }

  /** All versions before `n` are served: those of the run that starts at `p` by the body of the version at `r`. */
  ghost predicate AllServed(stmts: seq<Stmt>, entries: seq<Entry>, types: Types, p: nat, n: nat, r: nat, scalar: bool)
    requires p < n <= |entries| && r < |entries|
  {
    && LabelsOf(stmts, entries, n)
    && (forall k :: 0 <= k < p ==> RunStart(entries, types, k) < p && Serves(stmts, entries, types, k, RunStart(entries, types, k), scalar))
    && (forall k :: p <= k < n ==> RunStart(entries, types, k) == p && Serves(stmts, entries, types, k, r, scalar))
  }

  /** A body is emitted for those that wait. */
  lemma BodyAdded(stmts: seq<Stmt>, entries: seq<Entry>, types: Types, p: nat, n: nat, r: nat, scalar: bool, special: bool)
    requires p < n <= |entries| && Progress(stmts, entries, types, p, n, scalar) && r < |entries|
    requires Body(types, entries[r], entries[p].offset, scalar, special).Some?
    ensures AllServed(stmts + Body(types, entries[r], entries[p].offset, scalar, special).value, entries, types, p, n, r, scalar)
  {
    hide Serves, Waits, BreaksWith, RunStart;
    var body := Body(types, entries[r], entries[p].offset, scalar, special).value;
    var now := stmts + body;
    assert forall i :: 0 <= i < |body| ==> !body[i].Case? && body[i] != Default;
    forall k | 0 <= k < p ensures Serves(now, entries, types, k, RunStart(entries, types, k), scalar) {
      ServesStill(stmts, body, entries, types, k, RunStart(entries, types, k), scalar);
    }
    forall k | p <= k < n ensures Serves(now, entries, types, k, r, scalar) {
      WaitsServed(stmts, entries, types, p, k, r, scalar, special);
    }
  }

  lemma WaitsServed(stmts: seq<Stmt>, entries: seq<Entry>, types: Types, p: nat, k: nat, r: nat, scalar: bool, special: bool)
    requires p <= k < |entries| && r < |entries| && Waits(stmts, entries[k]) && RunStart(entries, types, k) == p
    requires Body(types, entries[r], entries[p].offset, scalar, special).Some?
    ensures Serves(stmts + Body(types, entries[r], entries[p].offset, scalar, special).value, entries, types, k, r, scalar)
  {
    hide BreaksWith, Body;
    var body := Body(types, entries[r], entries[p].offset, scalar, special).value;
    var i :| 0 <= i < |stmts| && stmts[i] == Case(entries[k].version) && OnlyCases(stmts, i);
    BodyBreaks(stmts, types, entries[r], entries[p].offset, scalar, special);
    CasesFallThrough(stmts, body, i, START, EndOf(entries, types, k, r, scalar));
    assert (stmts + body)[i] == stmts[i];
  }

  lemma NextRun(stmts: seq<Stmt>, entries: seq<Entry>, types: Types, p: nat, n: nat, scalar: bool)
    requires p < n < |entries| && Distinct(entries) && AllServed(stmts, entries, types, p, n, p, scalar)
    requires !Alike(types, entries[n], entries[p])
    ensures Progress(stmts + [Case(entries[n].version)], entries, types, n, n + 1, scalar)
  {
    hide Serves, Waits, LabelsOf, Alike;
    LabelAdded(stmts, entries, n);
    assert RunStart(entries, types, n - 1) == p;
    forall k | 0 <= k < n
      ensures Serves(stmts + [Case(entries[n].version)], entries, types, k, RunStart(entries, types, k), scalar)
    {
      ServesStill(stmts, [Case(entries[n].version)], entries, types, k, RunStart(entries, types, k), scalar);
    }
  }

  /** The part of `gen_unified_acc_body` that writes the switch, over the versions in ascending order. It ends the
      run when there is no version, a length is unknown, or an offset has to be computed for no special member. */
  method GenSwitch(entries: seq<Entry>, types: Types, scalar: bool, special: bool) returns (out: Option<seq<Stmt>>)
    requires Distinct(entries)
    ensures out.Some? ==>
      && (forall k :: 0 <= k < |entries| ==> Assigned(out.value, entries, types, k, scalar))
      && (forall v :: (forall k :: 0 <= k < |entries| ==> entries[k].version != v) ==> Run(out.value, v) == AssertionFailed)
    ensures out.None? ==> entries == [] || exists e :: e in entries && (LengthOf(types, e).None? || (e.offset == -1 && !special))
  {
    hide Progress, Body, AllServed, Assigned, Run;
    if entries == [] || LengthOf(types, entries[0]).None? {
      return None;
    }
    var prev := 0;
    var prevLength := LengthOf(types, entries[0]);
    var stmts := [Case(entries[0].version)];
    FirstCase(entries, types, scalar);
    for n := 1 to |entries|
      invariant 0 <= prev < n && Progress(stmts, entries, types, prev, n, scalar)
      invariant prevLength == LengthOf(types, entries[prev])
    {
      var e := entries[n];
      var length := LengthOf(types, e);
      if length.None? {
        return None;
      }
      if e.offset == entries[prev].offset && length == prevLength {
        CaseJoined(stmts, entries, types, prev, n, scalar);
        stmts := stmts + [Case(e.version)];
      } else {
        var body := Body(types, entries[prev], entries[prev].offset, scalar, special);
        if body.None? {
          NoBody(types, entries[prev], entries[prev].offset, scalar, special);
          return None;
        }
        BodyAdded(stmts, entries, types, prev, n, prev, scalar, special);
        NextRun(stmts + body.value, entries, types, prev, n, scalar);
        stmts := stmts + body.value + [Case(e.version)];
        prev, prevLength := n, length;
      }
    }
    // the last body is generated for the last version, with the offset of its run
    var last := |entries| - 1;
    var body := Body(types, entries[last], entries[prev].offset, scalar, special);
    if body.None? {
      NoBody(types, entries[last], entries[prev].offset, scalar, special);
      return None;
    }
    BodyAdded(stmts, entries, types, prev, |entries|, last, scalar, special);
    AllAssigned(stmts + body.value, entries, types, prev, scalar);
    return Some(stmts + body.value + [Default]);
  }

  lemma NoBody(types: Types, e: Entry, offset: int, scalar: bool, special: bool)
    requires Body(types, e, offset, scalar, special).None?
    ensures offset == -1 && !special
  {}

  lemma FirstCase(entries: seq<Entry>, types: Types, scalar: bool)
    requires entries != []
    ensures Progress([Case(entries[0].version)], entries, types, 0, 1, scalar)
  {
    var stmts := [Case(entries[0].version)];
    assert stmts[0] == Case(entries[0].version) && OnlyCases(stmts, 0);
  }

  /** Running the switch for the version at `k` leaves its own offset, and the length expression of the version for which
      the body of its run is generated. */
  ghost predicate Assigned(stmts: seq<Stmt>, entries: seq<Entry>, types: Types, k: nat, scalar: bool)
    requires k < |entries|
  {
    Run(stmts, entries[k].version) == Left(EndOf(entries, types, k, BodyOf(entries, types, k), scalar))
  }

  lemma AllAssigned(stmts: seq<Stmt>, entries: seq<Entry>, types: Types, p: nat, scalar: bool)
    requires p < |entries| && AllServed(stmts, entries, types, p, |entries|, |entries| - 1, scalar)
    ensures forall k :: 0 <= k < |entries| ==> Assigned(stmts + [Default], entries, types, k, scalar)
    ensures forall v :: (forall k :: 0 <= k < |entries| ==> entries[k].version != v) ==> Run(stmts + [Default], v) == AssertionFailed
  {
    hide Serves, LabelsOf, Run, EndOf, RunStart;
    forall k | 0 <= k < |entries| ensures Assigned(stmts + [Default], entries, types, k, scalar) {
      ServedIsAssigned(stmts, entries, types, k, BodyOf(entries, types, k), scalar);
    }
    forall v | forall k :: 0 <= k < |entries| ==> entries[k].version != v ensures Run(stmts + [Default], v) == AssertionFailed {
      OthersFail(stmts, entries, v);
    }
  }

  lemma ServedIsAssigned(stmts: seq<Stmt>, entries: seq<Entry>, types: Types, k: nat, r: nat, scalar: bool)
    requires k < |entries| && r < |entries| && LabelsOf(stmts, entries, |entries|) && Serves(stmts, entries, types, k, r, scalar)
    ensures Run(stmts + [Default], entries[k].version) == Left(EndOf(entries, types, k, r, scalar))
  {
    hide BreaksWith, Exec, EndOf;
    var all, v := stmts + [Default], entries[k].version;
    var i :| 0 <= i < |stmts| && stmts[i] == Case(v) && BreaksWith(stmts, i, START, EndOf(entries, types, k, r, scalar));
    BreaksStill(stmts, [Default], i, START, EndOf(entries, types, k, r, scalar));
    BreaksIsLeft(all, i, START, EndOf(entries, types, k, r, scalar));
    assert all[i] == Case(v);
    assert First(all, Case(v)) == i by {
      assert all[|stmts|] == Default && forall k :: 0 <= k < |stmts| ==> all[k] == stmts[k];
    }
  }

  lemma OthersFail(stmts: seq<Stmt>, entries: seq<Entry>, v: int)
    requires LabelsOf(stmts, entries, |entries|) && forall k :: 0 <= k < |entries| ==> entries[k].version != v
    ensures Run(stmts + [Default], v) == AssertionFailed
  {
    var all := stmts + [Default];
    assert all[|stmts|] == Default && forall k :: 0 <= k < |stmts| ==> all[k] == stmts[k];
    assert First(all, Default) == |stmts|;
  }

  // --- the length expressions ------------------------------------------------------------------------------------------

  /** In every run, all versions have a fixed length, or none has. */
  ghost predicate FixedTogether(entries: seq<Entry>, types: Types) {
    forall j, k :: 0 <= j < |entries| && 0 <= k < |entries| && RunStart(entries, types, j) == RunStart(entries, types, k) ==>
      (entries[j].version in types.fixed <==> entries[k].version in types.fixed)
  }

  /** Every version gets the length expression that is generated for it exactly when the versions of each run agree on
      whether it is fixed; a match is never taken for fixed. */
  lemma OwnLengthsExactly(entries: seq<Entry>, types: Types, stmts: seq<Stmt>)
    requires forall k :: 0 <= k < |entries| ==> Assigned(stmts, entries, types, k, false)
    requires forall e :: e in entries ==> LengthOf(types, e).Some?
    ensures (forall k :: 0 <= k < |entries| ==> OwnsLength(entries, types, stmts, k)) <==> types.isMatch || FixedTogether(entries, types)
  {
    hide Run, Assigned, RunStart, BodyOf, EndOf, LengthOf;
    forall k | 0 <= k < |entries| ensures OwnsLength(entries, types, stmts, k) <==> types.isMatch || FixedAsBody(entries, types, k) {
      assert entries[k] in entries;
      OwnLengthAt(entries, types, stmts, k);
    }
    if FixedTogether(entries, types) {
      forall k | 0 <= k < |entries| ensures FixedAsBody(entries, types, k) {
        BodyInRun(entries, types, k);
      }
    }
    if forall k :: 0 <= k < |entries| ==> FixedAsBody(entries, types, k) {
      forall j, k | 0 <= j < |entries| && 0 <= k < |entries| && RunStart(entries, types, j) == RunStart(entries, types, k)
        ensures entries[j].version in types.fixed <==> entries[k].version in types.fixed
      {
        assert BodyOf(entries, types, j) == BodyOf(entries, types, k) by { OneBody(entries, types, j, k); }
        assert FixedAsBody(entries, types, j) && FixedAsBody(entries, types, k);
      }
    }
  }

  /** Two versions of equal offset and base length, of which one is fixed: they share a body, and one of them gets the
      length expression of the other. */
  lemma FixedApart(stmts: seq<Stmt>)
    requires var (entries, types) := TwoVersions(); forall k :: 0 <= k < 2 ==> Assigned(stmts, entries, types, k, false)
    ensures var (entries, types) := TwoVersions();
            Run(stmts, 1) == Left(State(8, Some(Macro))) && ExprFor(types, entries[0]) == Bytes(4)
  {
    var (entries, types) := TwoVersions();
    assert RunStart(entries, types, 0) == 0 == RunStart(entries, types, 1);
    assert Assigned(stmts, entries, types, 0, false);
  }

  function TwoVersions(): (seq<Entry>, Types) {
    ([Entry(1, "of_port_desc_t", 8), Entry(4, "of_port_desc_t", 8)], Types((_, _) => Some(4), {1}, false))
  }

  /** Running the switch for the version at `k` leaves its own offset and the length expression generated for it. */
  ghost predicate OwnsLength(entries: seq<Entry>, types: Types, stmts: seq<Stmt>, k: nat)
    requires k < |entries|
  {
    Run(stmts, entries[k].version) == Left(EndOf(entries, types, k, k, false))
  }

  ghost predicate FixedAsBody(entries: seq<Entry>, types: Types, k: nat)
    requires k < |entries|
  {
    entries[k].version in types.fixed <==> entries[BodyOf(entries, types, k)].version in types.fixed
  }

  lemma OneBody(entries: seq<Entry>, types: Types, j: nat, k: nat)
    requires j < |entries| && k < |entries| && RunStart(entries, types, j) == RunStart(entries, types, k)
    ensures BodyOf(entries, types, j) == BodyOf(entries, types, k)
  {}

  lemma BodyInRun(entries: seq<Entry>, types: Types, k: nat)
    requires k < |entries|
    ensures RunStart(entries, types, BodyOf(entries, types, k)) == RunStart(entries, types, k)
    ensures LengthOf(types, entries[BodyOf(entries, types, k)]) == LengthOf(types, entries[k])
  {
    hide RunStart;
    RunStartsItself(entries, types, k);
    assert Alike(types, entries[k], entries[RunStart(entries, types, k)]);
    assert Alike(types, entries[|entries| - 1], entries[RunStart(entries, types, |entries| - 1)]);
  }

  lemma OwnLengthAt(entries: seq<Entry>, types: Types, stmts: seq<Stmt>, k: nat)
    requires k < |entries| && Assigned(stmts, entries, types, k, false) && LengthOf(types, entries[k]).Some?
    ensures OwnsLength(entries, types, stmts, k) <==> types.isMatch || FixedAsBody(entries, types, k)
  {
    hide Run, BodyOf;
    BodyInRun(entries, types, k);
  }

  lemma {:induction false} RunStartsItself(entries: seq<Entry>, types: Types, k: nat)
    requires k < |entries|
    ensures RunStart(entries, types, RunStart(entries, types, k)) == RunStart(entries, types, k)
  {
    hide Alike;
    if k > 0 && RunStart(entries, types, k) != k {
      RunStartsItself(entries, types, k - 1);
    }
  }
}
