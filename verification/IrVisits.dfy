/** What the order of visits can change: which declarations id classes hide, and which lengths come from the tables. */
module IrVisits {
  import opened Options
  import opened Results
  import opened IrInput
  import opened IrLayout
  import opened IrBuilder
  import opened IrTheorems
  import opened IrIds
  import opened IrOrders

  // --- which id classes there are ------------------------------------------------------------------------------------

  /** Below a root by the declarations, and nothing in between is hidden: then below it in the build. */
  lemma {:induction false} InstanceAsDeclared(inp: Input, classes: map<string, IrClass>, order: seq<string>, ids: map<string, Origin>, n: string, root: string)
    requires Inv(inp, classes, order, ids, []) && n in classes && n in order && Above(inp, n, root)
    requires forall y :: Above(inp, n, y) ==> y !in ids
    ensures classes[n].IsInstanceOf(root)
    decreases Position(order, n)
  {
    hide Made, Above, Position, Origins;
    AboveSelf(inp, n);
    SuperclassFirst(inp, classes, order, ids, [], n);
    if n != root {
      AboveIsSelfOrOnward(inp, n, root);
      var s := inp.decls[n].superclass.value;
      forall y | Above(inp, s, y) ensures y !in ids {
        AboveOnward(inp, n, s, y);
      }
      InstanceAsDeclared(inp, classes, order, ids, s, root);
    }
  }

  /** Both builds hide the same declarations. */
  ghost predicate SameHidden(inp: Input, ids: map<string, Origin>, ids': map<string, Origin>) {
    forall h :: h in inp.decls ==> (h in ids <==> h in ids')
  }

  lemma SameIdAgain(inp: Input, classes: map<string, IrClass>, order: seq<string>, ids: map<string, Origin>,
                    classes': map<string, IrClass>, order': seq<string>, ids': map<string, Origin>, n: string)
    requires Completed(inp, classes, order, ids) && Completed(inp, classes', order', ids') && Tidy(inp, ids) && Tidy(inp, ids')
    requires SameHidden(inp, ids, ids') && n in ids
    ensures n in ids' && ids'[n] == ids[n]
  {
    hide Made, IdName, Above, PrefixedBelow, Inv, Warranted, HasWarrant, Position, HasIds;
    var (root, o) := (ids[n].root, ids[n].orig);
    var x := Warrant(inp, classes, order, ids, n);
    BelowRoot(inp, classes, order, ids, x, root);
    assert AsDeclared(inp, classes, order, ids, x, o, root);
    BelowRoot(inp, classes, order, ids, o, root);
    forall y | Above(inp, o, y) ensures y !in ids' {
      assert AsDeclared(inp, classes, order, ids, o, y, root);
    }
    Listed(inp, classes', order', ids', []);
    AboveSelf(inp, o);
    InstanceAsDeclared(inp, classes', order', ids', o, root);
    OriginOf(inp, classes, order, ids, n);
    HiddenIds(inp, classes, order, ids);
    IdThereToo(inp, classes', order', ids', root, o);
    BelowRootIsMirrored(inp, classes', order', ids', o, root);
    OriginsArePrefixed(inp, classes', order', ids');
    DerivedFrom(inp, classes', order', ids', [], root, o);
  }

  lemma IdThereToo(inp: Input, classes: map<string, IrClass>, order: seq<string>, ids: map<string, Origin>, root: string, o: string)
    requires Completed(inp, classes, order, ids) && inp.version >= 4 && o in inp.decls && root in ID_ROOTS
    requires o in classes && classes[o].IsInstanceOf(root)
    ensures IdName(root, o) in classes && (IdName(root, o) in inp.decls || IdName(root, o) in ids)
  {
    hide Made, IdName, Warranted;
    assert HasIds(inp, o, classes);
    MadeAt(inp, classes, order, ids, [], IdName(root, o));
  }

  /** There are id classes from version 4 on only. */
  lemma HiddenIds(inp: Input, classes: map<string, IrClass>, order: seq<string>, ids: map<string, Origin>)
    requires Completed(inp, classes, order, ids) && ids != map[]
    ensures inp.version >= 4
  {
    hide Inv, Warranted;
  }

  lemma SameHiddenSameIds(inp: Input, classes: map<string, IrClass>, order: seq<string>, ids: map<string, Origin>,
                          classes': map<string, IrClass>, order': seq<string>, ids': map<string, Origin>)
    requires Completed(inp, classes, order, ids) && Completed(inp, classes', order', ids') && Tidy(inp, ids) && Tidy(inp, ids')
    requires SameHidden(inp, ids, ids')
    ensures ids == ids' && classes.Keys == classes'.Keys && Declared(inp, classes, ids) == Declared(inp, classes', ids')
  {
    hide Made, Tidy, Inv, Warranted, HasIds, Used;
    forall n | n in ids ensures n in ids' && ids'[n] == ids[n] {
      SameIdAgain(inp, classes, order, ids, classes', order', ids', n);
    }
    forall n | n in ids' ensures n in ids {
      SameIdAgain(inp, classes', order', ids', classes, order, ids, n);
    }
    KeysAre(inp, classes, order, ids);
    KeysAre(inp, classes', order', ids');
  }

  lemma KeysAre(inp: Input, classes: map<string, IrClass>, order: seq<string>, ids: map<string, Origin>)
    requires Completed(inp, classes, order, ids)
    ensures forall n :: n in classes <==> n in inp.decls || n in ids
  {
    hide Made, Warranted, HasIds;
    forall n | n in classes ensures n in inp.decls || n in ids {
      MadeAt(inp, classes, order, ids, [], n);
    }
  }

  /** Two completed builds in different orders agree on every class and every id class, when each contained class is built
      in time in every order or the tables agree, and the id classes hide the same declarations. */
  lemma OrderIsIrrelevant(inp: Input, classes: map<string, IrClass>, order: seq<string>, ids: map<string, Origin>,
                          classes': map<string, IrClass>, order': seq<string>, ids': map<string, Origin>, rank: map<string, nat>)
    requires Completed(inp, classes, order, ids) && Completed(inp, classes', order', ids') && Tidy(inp, ids) && Tidy(inp, ids')
    requires Ranked(inp, Declared(inp, classes, ids), rank) && OrderFree(inp, Declared(inp, classes, ids), ids, rank)
    requires SameHidden(inp, ids, ids')
    ensures classes == classes' && ids == ids'
  {
    hide Completed, Tidy, Ranked, OrderFree, Declared, MadeAlike;
    SameHiddenSameIds(inp, classes, order, ids, classes', order', ids');
    forall n | n in classes ensures MadeAlike(inp, classes, ids, rank, classes', ids', n) {
      SameDeclsAlike(inp, classes, order, ids, rank, classes', n);
    }
    BuildsAgreeExactly(inp, classes, order, ids, rank, classes', order', ids', rank);
  }

  lemma SameDeclsAlike(inp: Input, classes: map<string, IrClass>, order: seq<string>, ids: map<string, Origin>, rank: map<string, nat>,
                       classes': map<string, IrClass>, n: string)
    requires Completed(inp, classes, order, ids) && Ranked(inp, Declared(inp, classes, ids), rank)
    requires OrderFree(inp, Declared(inp, classes, ids), ids, rank) && n in classes
    requires Declared(inp, classes', ids) == Declared(inp, classes, ids)
    ensures MadeAlike(inp, classes, ids, rank, classes', ids, n)
  {
    hide Completed, Ranked, OrderFree, Declared, PlainLens, Laid, Sum, AllFixed;
    ClassIsLaid(inp, classes, order, ids, rank, n);
  }

  // --- inputs in which it makes no difference to the rest which declarations id classes hide -----------------------------

  /** Named like the id class of a class below a root. */
  ghost predicate Namesake(inp: Input, h: string) {
    exists root, o :: root in ID_ROOTS && o in inp.decls && Above(inp, o, root) && h == IdName(root, o)
  }

  /** The declaration depends on no class, and no member is of its type. */
  ghost predicate Inert(inp: Input, h: string) {
    && (forall b :: !DependsOn(inp, h, b))
    && (forall n, m :: n in inp.decls && m in inp.decls[n].members ==> ClassNamed(inp, m) != Some(h))
  }

  /** Roots have no superclass, the classes below them have their prefix, and declarations named like id classes are like
      those of `of_action_id` and `of_instruction_id`. */
  ghost predicate Regular(inp: Input) {
    RootsOnTop(inp) && PrefixedBelow(inp) && forall h :: h in inp.decls && Namesake(inp, h) ==> Inert(inp, h)
  }

  lemma RegularIsTidy(inp: Input, ids: map<string, Origin>)
    requires Regular(inp)
    ensures Tidy(inp, ids)
  {
    hide IdName, Above, PrefixedBelow;
    forall x, root | x in inp.decls && root in ID_ROOTS && Above(inp, x, root) && IdName(root, x) in inp.decls
      ensures inp.decls[IdName(root, x)].superclass.None?
    {
      assert Namesake(inp, IdName(root, x));
      NoSuperclass(inp, IdName(root, x));
    }
  }

  lemma NoSuperclass(inp: Input, h: string)
    requires h in inp.decls && Inert(inp, h)
    ensures inp.decls[h].superclass.None?
  {
    if inp.decls[h].superclass.Some? {
      assert DependsOn(inp, h, inp.decls[h].superclass.value);
    }
  }

  /** Of two superclasses of a class one of which is a root, the root is above the other. */
  lemma RootAbove(inp: Input, o: string, y: string, root: string)
    requires RootsOnTop(inp) && root in ID_ROOTS && Above(inp, o, root) && Above(inp, o, y)
    ensures Above(inp, y, root)
  {
    hide IsUp;
    var path: seq<string> :| |path| >= 1 && path[0] == o && path[|path| - 1] == root && IsUp(inp, path);
    RootAboveOnPath(inp, path, y, root);
  }

  lemma {:induction false} RootAboveOnPath(inp: Input, path: seq<string>, y: string, root: string)
    requires RootsOnTop(inp) && root in ID_ROOTS && |path| >= 1 && path[|path| - 1] == root && IsUp(inp, path) && Above(inp, path[0], y)
    ensures Above(inp, y, root)
    decreases |path|
  {
    if y == path[0] {
      assert Above(inp, path[0], root);
    } else {
      AboveIsSelfOrOnward(inp, path[0], y);
      assert |path| > 1;
      assert path[0 + 1] == path[1..][0];
      forall i | 0 <= i < |path[1..]| - 1 ensures path[1..][i] in inp.decls && inp.decls[path[1..][i]].superclass == Some(path[1..][i + 1]) {
        assert path[1..][i] == path[i + 1] && path[1..][i + 1] == path[i + 1 + 1];
      }
      RootAboveOnPath(inp, path[1..], y, root);
    }
  }

  // --- which declaration is built -------------------------------------------------------------------------------------------

  ghost predicate NeedsId(inp: Input, root: string, o: string) {
    inp.version >= 4 && root in ID_ROOTS && o in inp.decls && Above(inp, o, root)
  }

  lemma IdIsNeeded(inp: Input, classes: map<string, IrClass>, order: seq<string>, ids: map<string, Origin>, n: string)
    requires Completed(inp, classes, order, ids) && Tidy(inp, ids) && n in ids
    ensures NeedsId(inp, ids[n].root, ids[n].orig) && n == IdName(ids[n].root, ids[n].orig) && ids[n].orig !in ids
    ensures Namesake(inp, n)
  {
    hide Made, IdName, Above, Inv, Warranted, HasWarrant, Complete, Position, PrefixedBelow;
    var x := Warrant(inp, classes, order, ids, n);
    OriginOf(inp, classes, order, ids, n);
    BelowRoot(inp, classes, order, ids, x, ids[n].root);
    assert AsDeclared(inp, classes, order, ids, x, ids[n].orig, ids[n].root);
    HiddenIds(inp, classes, order, ids);
  }

  lemma HiddenIsInert(inp: Input, classes: map<string, IrClass>, order: seq<string>, ids: map<string, Origin>, h: string)
    requires Regular(inp) && Completed(inp, classes, order, ids) && h in ids && h in inp.decls
    ensures Inert(inp, h)
  {
    hide Completed, Inert, Namesake, Tidy;
    RegularIsTidy(inp, ids);
    IdIsNeeded(inp, classes, order, ids, h);
  }

  /** What is above a class below a root is not hidden. */
  lemma AboveUnhidden(inp: Input, classes: map<string, IrClass>, order: seq<string>, ids: map<string, Origin>, root: string, o: string, y: string)
    requires Regular(inp) && Completed(inp, classes, order, ids) && NeedsId(inp, root, o) && Above(inp, o, y)
    ensures y !in ids
  {
    hide Completed, Inert, Namesake, Above, IdName;
    RootAbove(inp, o, y, root);
    if y != root {
      AboveIsSelfOrOnward(inp, y, root);
    }
    if y in ids {
      RegularIsTidy(inp, ids);
      IdIsNeeded(inp, classes, order, ids, y);
      IdNameIsNoRoot(ids[y].root, ids[y].orig, root);
      HiddenIsInert(inp, classes, order, ids, y);
      NoSuperclass(inp, y);
    }
  }

  lemma NeededIsThere(inp: Input, classes: map<string, IrClass>, order: seq<string>, ids: map<string, Origin>, root: string, o: string)
    requires Regular(inp) && Completed(inp, classes, order, ids) && NeedsId(inp, root, o)
    ensures classes[o].IsInstanceOf(root) && IdName(root, o) in classes
  {
    hide Made, IdName, Above, Warranted, Position, Regular;
    Listed(inp, classes, order, ids, []);
    forall y | Above(inp, o, y) ensures y !in ids {
      AboveUnhidden(inp, classes, order, ids, root, o, y);
    }
    InstanceAsDeclared(inp, classes, order, ids, o, root);
    assert HasIds(inp, o, classes);
  }

  // --- one set of declarations to measure all builds by -------------------------------------------------------------------

  /** The given declarations, and those of the id classes under names that are not declared. */
  ghost predicate IsPlan(inp: Input, decls: map<string, Decl>) {
    && (forall n :: n in inp.decls ==> n in decls && decls[n] == inp.decls[n])
    && (forall n :: n in decls && n !in inp.decls ==> exists root, o :: NeedsId(inp, root, o) && n == IdName(root, o))
    && (forall root, o :: NeedsId(inp, root, o) ==> InPlan(inp, decls, root, o))
  }

  ghost predicate InPlan(inp: Input, decls: map<string, Decl>, root: string, o: string)
    requires o in inp.decls
  {
    IdName(root, o) in decls && (IdName(root, o) in inp.decls || decls[IdName(root, o)] == IdDecl(root, inp.decls[o]))
  }

  /** The declaration that the class `n` is made from. */
  function Source(ids: map<string, Origin>, n: string): string {
    if n in ids then ids[n].orig else n
  }

  ghost function Hidden(inp: Input, ids: map<string, Origin>): set<string> {
    set h | h in ids && h in inp.decls
  }

  /** Every class of a build is made from a given declaration, and its own as planned unless it is hidden. */
  ghost predicate FromPlan(inp: Input, ids: map<string, Origin>, built: map<string, Decl>, decls: map<string, Decl>, n: string)
    requires n in built && n in decls
  {
    var src := Source(ids, n);
    && src in inp.decls && src !in ids && (forall m :: m in built[n].members ==> m in inp.decls[src].members)
    && (n !in Hidden(inp, ids) ==> built[n] == decls[n])
  }

  lemma BuiltFromPlan(inp: Input, classes: map<string, IrClass>, order: seq<string>, ids: map<string, Origin>, decls: map<string, Decl>)
    requires Regular(inp) && IsPlan(inp, decls) && Completed(inp, classes, order, ids)
    ensures Declared(inp, classes, ids).Keys == decls.Keys == classes.Keys
    ensures forall n :: n in decls ==> FromPlan(inp, ids, Declared(inp, classes, ids), decls, n)
  {
    hide Made, IdName, Above, Inv, Warranted, HasWarrant, Complete, Position, IdDecl, Regular, NeedsId, Used, FromPlan;
    KeysAre(inp, classes, order, ids);
    AllDeclared(inp, classes, order, ids, []);
    RegularIsTidy(inp, ids);
    forall n | n in classes ensures n in decls {
      if n in ids {
        IdIsNeeded(inp, classes, order, ids, n);
        OriginOf(inp, classes, order, ids, n);
        assert InPlan(inp, decls, ids[n].root, ids[n].orig);
      }
    }
    forall n | n in decls ensures n in classes {
      if n !in inp.decls {
        var root, o :| NeedsId(inp, root, o) && n == IdName(root, o);
        NeededIsThere(inp, classes, order, ids, root, o);
      }
    }
    forall n | n in decls ensures FromPlan(inp, ids, Declared(inp, classes, ids), decls, n) {
      OneFromPlan(inp, classes, order, ids, decls, n);
    }
  }

  lemma OneFromPlan(inp: Input, classes: map<string, IrClass>, order: seq<string>, ids: map<string, Origin>, decls: map<string, Decl>, n: string)
    requires Regular(inp) && IsPlan(inp, decls) && Completed(inp, classes, order, ids) && n in decls && n in classes
    ensures n in Declared(inp, classes, ids) && FromPlan(inp, ids, Declared(inp, classes, ids), decls, n)
  {
    hide Made, IdName, Above, Inv, Warranted, HasWarrant, Complete, Position, IdDecl, Regular, NeedsId;
    AllDeclared(inp, classes, order, ids, []);
    RegularIsTidy(inp, ids);
    if n in ids {
      IdIsNeeded(inp, classes, order, ids, n);
      OriginOf(inp, classes, order, ids, n);
      assert InPlan(inp, decls, ids[n].root, ids[n].orig);
      forall m | m in Declared(inp, classes, ids)[n].members ensures m in inp.decls[ids[n].orig].members {
        KeptOfOriginal(ids[n].root, inp.decls[ids[n].orig], m);
      }
    }
  }

  lemma KeptOfOriginal(root: string, d: Decl, m: Member)
    requires m in IdDecl(root, d).members
    ensures m in d.members
  {
    KeptAreMembers(d.members);
  }

  /** No class contains one that is hidden, so that the rest is as planned. */
  lemma PlannedBut(inp: Input, classes: map<string, IrClass>, order: seq<string>, ids: map<string, Origin>, decls: map<string, Decl>)
    requires Regular(inp) && IsPlan(inp, decls) && Completed(inp, classes, order, ids)
    ensures SamePlanBut(inp, Declared(inp, classes, ids), decls, Hidden(inp, ids))
    ensures forall n, m :: n in inp.decls && m in inp.decls[n].members ==> ContainsNoneOf(inp, m, Hidden(inp, ids))
  {
    hide Completed, Regular, IsPlan, Declared;
    BuiltFromPlan(inp, classes, order, ids, decls);
    forall n, m | n in inp.decls && m in inp.decls[n].members ensures ContainsNoneOf(inp, m, Hidden(inp, ids)) {
      if ClassNamed(inp, m).Some? && ClassNamed(inp, m).value in Hidden(inp, ids) {
        HiddenIsInert(inp, classes, order, ids, ClassNamed(inp, m).value);
      }
    }
    assert forall n :: n in decls ==> FromPlan(inp, ids, Declared(inp, classes, ids), decls, n);
  }

  /** A hidden name gets the rank of what its id class contains. */
  ghost function RankIn(inp: Input, ids: map<string, Origin>, rank: map<string, nat>): map<string, nat> {
    map n | n in rank :: if n in Hidden(inp, ids) && ids[n].orig in rank then rank[ids[n].orig] else rank[n]
  }

  lemma RankedAsBuilt(inp: Input, classes: map<string, IrClass>, order: seq<string>, ids: map<string, Origin>, decls: map<string, Decl>, rank: map<string, nat>)
    requires Regular(inp) && IsPlan(inp, decls) && Completed(inp, classes, order, ids) && Ranked(inp, decls, rank)
    ensures Ranked(inp, Declared(inp, classes, ids), RankIn(inp, ids, rank))
  {
    hide Completed, Regular, Declared;
    var built, rank' := Declared(inp, classes, ids), RankIn(inp, ids, rank);
    BuiltFromPlan(inp, classes, order, ids, decls);
    PlannedBut(inp, classes, order, ids, decls);
    forall n, m | n in built && m in built[n].members ensures ContainsBelow(inp, built, rank', n, m) {
      assert FromPlan(inp, ids, built, decls, n);
      assert ContainsBelow(inp, decls, rank, Source(ids, n), m) && ContainsNoneOf(inp, m, Hidden(inp, ids));
      if n !in Hidden(inp, ids) {
        assert ContainsBelow(inp, decls, rank, n, m);
      }
    }
  }

  lemma PlannedLen(inp: Input, classes: map<string, IrClass>, order: seq<string>, ids: map<string, Origin>, decls: map<string, Decl>, rank: map<string, nat>,
                   n: string, m: Member)
    requires Regular(inp) && IsPlan(inp, decls) && Completed(inp, classes, order, ids) && Ranked(inp, decls, rank)
    requires n in Declared(inp, classes, ids) && m in Declared(inp, classes, ids)[n].members
    ensures Ranked(inp, Declared(inp, classes, ids), RankIn(inp, ids, rank))
    ensures Source(ids, n) in decls && m in decls[Source(ids, n)].members && Source(ids, n) !in ids && Source(ids, n) in inp.decls
    ensures PlainLen(inp, Declared(inp, classes, ids), RankIn(inp, ids, rank), n, m) == PlainLen(inp, decls, rank, Source(ids, n), m)
  {
    hide Completed, Regular, Declared, Ranked, SamePlanBut, PlainLen, Hidden, RankIn;
    RankedAsBuilt(inp, classes, order, ids, decls, rank);
    BuiltFromPlan(inp, classes, order, ids, decls);
    PlannedBut(inp, classes, order, ids, decls);
    assert FromPlan(inp, ids, Declared(inp, classes, ids), decls, n);
    SamePlainLen(inp, Declared(inp, classes, ids), RankIn(inp, ids, rank), decls, rank, Hidden(inp, ids), n, m, Source(ids, n), m);
  }

  // --- when the lengths are plain in every order ---------------------------------------------------------------------------

  /** What a caller can check before the build: each class that a member contains is one that the written types lead to,
      or the tables alone give the member its plain length. */
  ghost predicate InputOrderFree(inp: Input, decls: map<string, Decl>, rank: map<string, nat>)
    requires Ranked(inp, decls, rank) && IsPlan(inp, decls)
  {
    forall n, m :: n in inp.decls && m in inp.decls[n].members && ClassNamed(inp, m).Some? && ClassNamed(inp, m).value in decls ==>
      TableAgrees(inp, decls, rank, n, m) || Follows(inp, map[], n, ClassNamed(inp, m).value)
  }

  /** A hidden declaration leads nowhere. */
  lemma FollowsUnhidden(inp: Input, classes: map<string, IrClass>, order: seq<string>, ids: map<string, Origin>, a: string, b: string)
    requires Regular(inp) && Completed(inp, classes, order, ids) && Follows(inp, map[], a, b)
    ensures Follows(inp, ids, a, b)
  {
    hide Completed, Regular;
    var none: map<string, Origin> := map[];
    var path: seq<string> :|
      |path| >= 2 && path[0] == a && path[|path| - 1] == b && IsPath(inp, path) && forall k :: 0 <= k < |path| - 1 ==> path[k] !in none;
    forall k | 0 <= k < |path| - 1 ensures path[k] !in ids {
      assert DependsOn(inp, path[k], path[k + 1]);
      if path[k] in ids {
        HiddenIsInert(inp, classes, order, ids, path[k]);
      }
    }
  }

  lemma InputOrderFreeIsOrderFree(inp: Input, classes: map<string, IrClass>, order: seq<string>, ids: map<string, Origin>, decls: map<string, Decl>, rank: map<string, nat>)
    requires Regular(inp) && IsPlan(inp, decls) && Completed(inp, classes, order, ids) && Ranked(inp, decls, rank)
    requires InputOrderFree(inp, decls, rank)
    ensures Ranked(inp, Declared(inp, classes, ids), RankIn(inp, ids, rank))
    ensures OrderFree(inp, Declared(inp, classes, ids), ids, RankIn(inp, ids, rank))
  {
    hide Completed, Ranked, IsPlan, ClassNamed, Regular, TableAgrees, Follows, Declared, RankIn, LedTo, InputOrderFree;
    RankedAsBuilt(inp, classes, order, ids, decls, rank);
    var built, rank' := Declared(inp, classes, ids), RankIn(inp, ids, rank);
    forall n, m | n in built && m in built[n].members && ClassNamed(inp, m).Some? && ClassNamed(inp, m).value in built
      ensures TableAgrees(inp, built, rank', n, m) || LedTo(inp, ids, n, ClassNamed(inp, m).value)
    {
      OneFree(inp, classes, order, ids, decls, rank, n, m);
    }
  }

  lemma OneFree(inp: Input, classes: map<string, IrClass>, order: seq<string>, ids: map<string, Origin>, decls: map<string, Decl>, rank: map<string, nat>,
                n: string, m: Member)
    requires Regular(inp) && IsPlan(inp, decls) && Completed(inp, classes, order, ids) && Ranked(inp, decls, rank) && InputOrderFree(inp, decls, rank)
    requires n in Declared(inp, classes, ids) && m in Declared(inp, classes, ids)[n].members
    requires ClassNamed(inp, m).Some? && ClassNamed(inp, m).value in Declared(inp, classes, ids)
    ensures Ranked(inp, Declared(inp, classes, ids), RankIn(inp, ids, rank))
    ensures TableAgrees(inp, Declared(inp, classes, ids), RankIn(inp, ids, rank), n, m) || LedTo(inp, ids, n, ClassNamed(inp, m).value)
  {
    hide Completed, Ranked, ClassNamed, Regular, Follows, Declared, RankIn, Unhidden, PlainLen, MemberLen;
    var src, cls := Source(ids, n), ClassNamed(inp, m).value;
    BuiltFromPlan(inp, classes, order, ids, decls);
    PlannedLen(inp, classes, order, ids, decls, rank, n, m);
    if Follows(inp, map[], src, cls) {
      FollowsUnhidden(inp, classes, order, ids, src, cls);
      if n in ids {
        OriginalUnhidden(inp, classes, order, ids, n);
      }
    }
  }

  lemma OriginalUnhidden(inp: Input, classes: map<string, IrClass>, order: seq<string>, ids: map<string, Origin>, n: string)
    requires Regular(inp) && Completed(inp, classes, order, ids) && n in ids
    ensures Unhidden(inp, ids, ids[n].orig)
  {
    hide Completed, Regular, Above, Inert;
    RegularIsTidy(inp, ids);
    IdIsNeeded(inp, classes, order, ids, n);
    forall y | y in inp.decls && Above(inp, y, ids[n].orig) ensures y !in ids {
      if y in ids {
        HiddenIsInert(inp, classes, order, ids, y);
        NoSuperclass(inp, y);
        if y != ids[n].orig {
          AboveIsSelfOrOnward(inp, y, ids[n].orig);
        }
      }
    }
  }

  /** Before the class that is visited first, only classes are built that it leads to. */
  lemma FirstVisitLeads(inp: Input, classes: map<string, IrClass>, order: seq<string>, ids: map<string, Origin>, n: string, cls: string)
    requires Completed(inp, classes, order, ids) && VisitedFirst(inp, n, classes, order, ids) && cls != n
    ensures n in order && n in classes && n !in ids && (cls in order[..Position(order, n)] <==> Follows(inp, map[], n, cls))
  {
    hide Made, Above, Reaches, IdName, Warranted, Complete, Origins, Position;
    var k: nat, k': nat :| FirstVisit(inp, n, classes, order, ids, k, k');
    var p :| 0 <= p < k && order[p] == n;
    PositionOf(inp, classes, order, ids, p);
    if cls in order[..p] {
      var j :| 0 <= j < p && order[j] == cls;
      ReachesOther(inp, n, cls);
    }
    if Follows(inp, map[], n, cls) {
      FirstVisitPath(inp, classes, order, ids, n, cls, k);
    }
  }

  lemma {:induction false} FirstVisitDescends(inp: Input, classes: map<string, IrClass>, order: seq<string>, ids: map<string, Origin>, path: seq<string>, k: nat, i: nat)
    requires Inv(inp, classes, order, ids, []) && IsPath(inp, path) && i < |path| && k <= |order|
    requires path[0] in order[..k] && forall j :: 0 <= j < k ==> order[j] !in ids
    ensures path[i] in order[..k]
    decreases i
  {
    hide Made, DependsOn, Origins, Position;
    if i > 0 {
      FirstVisitDescends(inp, classes, order, ids, path, k, i - 1);
      var j :| 0 <= j < k && order[j] == path[i - 1];
      PositionOf(inp, classes, order, ids, j);
      assert DependsOn(inp, path[i - 1], path[i - 1 + 1]);
      StepDown(inp, classes, order, ids, [], path[i - 1], path[i]);
      assert order[..k][Position(order, path[i])] == path[i];
    }
  }

  lemma FirstVisitPath(inp: Input, classes: map<string, IrClass>, order: seq<string>, ids: map<string, Origin>, n: string, cls: string, k: nat)
    requires Inv(inp, classes, order, ids, []) && n in classes && Follows(inp, map[], n, cls)
    requires k <= |order| && n in order[..k] && forall j :: 0 <= j < k ==> order[j] !in ids
    ensures n in order && cls in order[..Position(order, n)]
  {
    hide Made, DependsOn, Origins, Position, IsPath;
    var none: map<string, Origin> := map[];
    var path: seq<string> :|
      |path| >= 2 && path[0] == n && path[|path| - 1] == cls && IsPath(inp, path) && forall i :: 0 <= i < |path| - 1 ==> path[i] !in none;
    forall i | 0 <= i < |path| - 1 ensures path[i] !in ids {
      FirstVisitDescends(inp, classes, order, ids, path, k, i);
    }
    FollowersAreBefore(inp, classes, order, ids, [], n, cls);
  }

  /** A class that is reached from another is reached by a path of two or more. */
  lemma ReachesOther(inp: Input, a: string, b: string)
    requires Reaches(inp, a, b) && a != b
    ensures Follows(inp, map[], a, b)
  {
    var path: seq<string> :| |path| >= 1 && path[0] == a && path[|path| - 1] == b && IsPath(inp, path);
    assert |path| >= 2;
  }

  /** When `n` is visited first, a member whose class its written types do not lead to has its length from the tables:
      its plain length exactly when the tables give that. */
  lemma FirstVisitUsesTable(inp: Input, classes: map<string, IrClass>, order: seq<string>, ids: map<string, Origin>, decls: map<string, Decl>, rank: map<string, nat>,
                            n: string, m: Member)
    requires Completed(inp, classes, order, ids) && VisitedFirst(inp, n, classes, order, ids)
    requires Ranked(inp, decls, rank) && n in decls && m in decls[n].members && ClassNamed(inp, m).Some?
    requires ClassNamed(inp, m).value in decls && !Follows(inp, map[], n, ClassNamed(inp, m).value)
    ensures n in order && n in classes && n !in ids && ClassNamed(inp, m).value !in order[..Position(order, n)]
    ensures forall k :: k in order ==> k in classes
    ensures MemberLen(inp, m, Sizes(Before(classes, order, Position(order, n)))) == MemberLen(inp, m, map[])
    ensures MemberLen(inp, m, Sizes(Before(classes, order, Position(order, n)))) == PlainLen(inp, decls, rank, n, m)
            <==> TableAgrees(inp, decls, rank, n, m)
  {
    hide Inv, Complete, Warranted, Ranked, PlainLen, MemberLen, ClassNamed, Follows, VisitedFirst, Position;
    Listed(inp, classes, order, ids, []);
    assert ContainsBelow(inp, decls, rank, n, m) by { ContainsItself(inp, decls, rank, n, m); }
    FirstVisitLeads(inp, classes, order, ids, n, ClassNamed(inp, m).value);
    SizesOf(Before(classes, order, Position(order, n)));
    WithoutItsClass(inp, m, Sizes(Before(classes, order, Position(order, n))));
  }

  lemma ContainsItself(inp: Input, decls: map<string, Decl>, rank: map<string, nat>, n: string, m: Member)
    requires Ranked(inp, decls, rank) && n in decls && m in decls[n].members
    ensures n in rank && (forall k :: k in decls ==> k in rank) && ContainsBelow(inp, decls, rank, n, m)
    ensures ClassNamed(inp, m).Some? && ClassNamed(inp, m).value in decls ==> ClassNamed(inp, m).value != n
  {
    assert ContainsBelow(inp, decls, rank, n, m);
  }

  /** Every member of every class as it was built has its plain length. */
  ghost predicate AllPlain(inp: Input, classes: map<string, IrClass>, order: seq<string>, ids: map<string, Origin>, decls: map<string, Decl>, rank: map<string, nat>)
    requires Ranked(inp, decls, rank)
  {
    && (forall n :: n in order ==> n in classes)
    && forall i, m :: 0 <= i < |order| && order[i] in Declared(inp, classes, ids) && m in Declared(inp, classes, ids)[order[i]].members ==>
         IsPlain(inp, decls, rank, Source(ids, order[i]), m, Sizes(Before(classes, order, i)))
  }

  ghost predicate IsPlain(inp: Input, decls: map<string, Decl>, rank: map<string, nat>, n: string, m: Member, sizes: map<string, ClassSize>)
    requires Ranked(inp, decls, rank)
  {
    n in decls && m in decls[n].members && MemberLen(inp, m, sizes) == PlainLen(inp, decls, rank, n, m)
  }

  /** If a build completes whichever class is visited first: the builds in all orders give every member its plain length
      exactly when the input meets the condition. */
  lemma PlainInEveryOrder(inp: Input, decls: map<string, Decl>, rank: map<string, nat>)
    requires Regular(inp) && IsPlan(inp, decls) && Ranked(inp, decls, rank)
    requires forall n :: n in inp.decls ==> exists classes, order, ids :: Completed(inp, classes, order, ids) && VisitedFirst(inp, n, classes, order, ids)
    ensures InputOrderFree(inp, decls, rank) <==>
            forall classes, order, ids :: Completed(inp, classes, order, ids) ==> AllPlain(inp, classes, order, ids, decls, rank)
  {
    hide Completed, VisitedFirst, Ranked, Regular, IsPlan, AllPlain, InputOrderFree;
    if InputOrderFree(inp, decls, rank) {
      forall classes, order, ids | Completed(inp, classes, order, ids) ensures AllPlain(inp, classes, order, ids, decls, rank) {
        InputOrderFreeIsPlain(inp, classes, order, ids, decls, rank);
      }
    } else {
      NotFree(inp, decls, rank);
    }
  }

  lemma InputOrderFreeIsPlain(inp: Input, classes: map<string, IrClass>, order: seq<string>, ids: map<string, Origin>, decls: map<string, Decl>, rank: map<string, nat>)
    requires Regular(inp) && IsPlan(inp, decls) && Completed(inp, classes, order, ids) && Ranked(inp, decls, rank)
    requires InputOrderFree(inp, decls, rank)
    ensures AllPlain(inp, classes, order, ids, decls, rank)
  {
    hide Inv, Complete, Warranted, Ranked, Regular, IsPlan, OrderFree, InputOrderFree, Settled, PlainLen, MemberLen, Declared, RankIn;
    InputOrderFreeIsOrderFree(inp, classes, order, ids, decls, rank);
    OrderFreeIsSettled(inp, classes, order, ids, RankIn(inp, ids, rank));
    Listed(inp, classes, order, ids, []);
    forall i, m | 0 <= i < |order| && order[i] in Declared(inp, classes, ids) && m in Declared(inp, classes, ids)[order[i]].members
      ensures IsPlain(inp, decls, rank, Source(ids, order[i]), m, Sizes(Before(classes, order, i)))
    {
      LenIsPlain(inp, classes, order, ids, [], RankIn(inp, ids, rank), i, m);
      PlannedLen(inp, classes, order, ids, decls, rank, order[i], m);
    }
  }

  lemma NotFree(inp: Input, decls: map<string, Decl>, rank: map<string, nat>)
    requires IsPlan(inp, decls) && Ranked(inp, decls, rank) && !InputOrderFree(inp, decls, rank)
    requires forall n :: n in inp.decls ==> exists classes, order, ids :: Completed(inp, classes, order, ids) && VisitedFirst(inp, n, classes, order, ids)
    ensures exists classes, order, ids :: Completed(inp, classes, order, ids) && !AllPlain(inp, classes, order, ids, decls, rank)
  {
    hide Completed, VisitedFirst, Ranked, TableAgrees, Follows, ClassNamed, MemberLen, PlainLen, Position;
    var n, m :| n in inp.decls && m in inp.decls[n].members && ClassNamed(inp, m).Some? && ClassNamed(inp, m).value in decls &&
      !TableAgrees(inp, decls, rank, n, m) && !Follows(inp, map[], n, ClassNamed(inp, m).value);
    var classes, order, ids :| Completed(inp, classes, order, ids) && VisitedFirst(inp, n, classes, order, ids);
    FirstVisitUsesTable(inp, classes, order, ids, decls, rank, n, m);
    assert order[Position(order, n)] == n && n in Declared(inp, classes, ids) && Declared(inp, classes, ids)[n] == inp.decls[n];
    assert !IsPlain(inp, decls, rank, Source(ids, n), m, Sizes(Before(classes, order, Position(order, n))));
  }

  /** For such inputs the order of visits changes no size, but of declarations that an id class may hide, and nothing at
      all when both orders hide the same ones. */
  lemma InputOrderIsIrrelevant(inp: Input, decls: map<string, Decl>, rank: map<string, nat>, classes: map<string, IrClass>, order: seq<string>, ids: map<string, Origin>,
                               classes': map<string, IrClass>, order': seq<string>, ids': map<string, Origin>)
    requires Regular(inp) && IsPlan(inp, decls) && Ranked(inp, decls, rank) && InputOrderFree(inp, decls, rank)
    requires Completed(inp, classes, order, ids) && Completed(inp, classes', order', ids')
    ensures classes.Keys == classes'.Keys
    ensures forall n :: n in classes && !Namesake(inp, n) ==> classes[n].Size() == classes'[n].Size()
    ensures SameHidden(inp, ids, ids') ==> classes == classes' && ids == ids'
  {
    hide Completed, Regular, Ranked, IsPlan, InputOrderFree, Declared, RankIn, OrderFree, SameHidden, Namesake, Tidy;
    BuiltFromPlan(inp, classes, order, ids, decls);
    BuiltFromPlan(inp, classes', order', ids', decls);
    forall n | n in classes && !Namesake(inp, n) ensures classes[n].Size() == classes'[n].Size() {
      PlannedSize(inp, decls, rank, classes, order, ids, n);
      PlannedSize(inp, decls, rank, classes', order', ids', n);
    }
    if SameHidden(inp, ids, ids') {
      RegularIsTidy(inp, ids);
      RegularIsTidy(inp, ids');
      InputOrderFreeIsOrderFree(inp, classes, order, ids, decls, rank);
      OrderIsIrrelevant(inp, classes, order, ids, classes', order', ids', RankIn(inp, ids, rank));
    }
  }

  lemma PlannedSize(inp: Input, decls: map<string, Decl>, rank: map<string, nat>, classes: map<string, IrClass>, order: seq<string>, ids: map<string, Origin>, n: string)
    requires Regular(inp) && IsPlan(inp, decls) && Ranked(inp, decls, rank) && InputOrderFree(inp, decls, rank)
    requires Completed(inp, classes, order, ids) && n in classes && n in decls && !Namesake(inp, n)
    ensures PlainSize(inp, decls, rank, n) == Ok(classes[n].Size())
  {
    hide Inv, Complete, Warranted, Regular, Ranked, IsPlan, InputOrderFree, Declared, RankIn, OrderFree, Settled, Namesake, Tidy, PlainSize, SamePlanBut, PlainLens;
    RegularIsTidy(inp, ids);
    if n in ids {
      IdIsNeeded(inp, classes, order, ids, n);
    }
    BuiltFromPlan(inp, classes, order, ids, decls);
    PlannedBut(inp, classes, order, ids, decls);
    InputOrderFreeIsOrderFree(inp, classes, order, ids, decls, rank);
    OrderFreeIsSettled(inp, classes, order, ids, RankIn(inp, ids, rank));
    SizeIsPlain(inp, classes, order, ids, [], RankIn(inp, ids, rank), n);
    SamePlainSize(inp, Declared(inp, classes, ids), RankIn(inp, ids, rank), decls, rank, Hidden(inp, ids), n);
  }
}
