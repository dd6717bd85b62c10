/** In which order the classes are visited: when it makes no difference, and what it makes a difference to. */
module IrOrders {
  import opened Options
  import opened Results
  import opened IrInput
  import opened IrLayout
  import opened IrBuilder
  import opened IrTheorems
  import opened IrIds

  // --- what is built before a class in every order ------------------------------------------------------------------

  /** `b` is reached from `a` by one dependency or more, of classes that no id class hides. */
  ghost predicate Follows(inp: Input, ids: map<string, Origin>, a: string, b: string) {
    exists path: seq<string> ::
      |path| >= 2 && path[0] == a && path[|path| - 1] == b && IsPath(inp, path) && forall k :: 0 <= k < |path| - 1 ==> path[k] !in ids
  }

  lemma FollowersAreBefore(inp: Input, classes: map<string, IrClass>, order: seq<string>, ids: map<string, Origin>, trail: seq<string>, a: string, b: string)
    requires Inv(inp, classes, order, ids, trail) && a in classes && Follows(inp, ids, a, b)
    ensures a in order && b in order[..Position(order, a)]
  {
    hide Made, Position, Origins;
    var path: seq<string> :|
      |path| >= 2 && path[0] == a && path[|path| - 1] == b && IsPath(inp, path) && forall k :: 0 <= k < |path| - 1 ==> path[k] !in ids;
    PathDescends(inp, classes, order, ids, trail, path, 0, |path| - 1);
    assert order[..Position(order, a)][Position(order, b)] == b;
  }

  /** No class that inherits from `o` is hidden by an id class, nor is `o`. */
  ghost predicate Unhidden(inp: Input, ids: map<string, Origin>, o: string) {
    forall y :: y in inp.decls && Above(inp, y, o) ==> y !in ids
  }

  lemma {:induction false} SuperclassesAreBefore(inp: Input, classes: map<string, IrClass>, order: seq<string>, ids: map<string, Origin>, x: string, o: string)
    requires Inv(inp, classes, order, ids, []) && x in classes && Above(inp, x, o) && Unhidden(inp, ids, o) && o in inp.decls
    ensures o in classes && o in order && x in order && Position(order, o) <= Position(order, x)
    decreases Position(order, x)
  {
    hide Made, Above, Position, Origins;
    if x != o {
      AboveIsSelfOrOnward(inp, x, o);
      var s := inp.decls[x].superclass.value;
      SuperclassIsDependency(inp, x);
      StepDown(inp, classes, order, ids, [], x, s);
      SuperclassesAreBefore(inp, classes, order, ids, s, o);
    }
  }

  /** The class `cls` is built before `n`, whatever the order: the written types of `n` lead to it, or for an id class
      those of its original, which is built before. */
  ghost predicate LedTo(inp: Input, ids: map<string, Origin>, n: string, cls: string) {
    if n in ids then Unhidden(inp, ids, ids[n].orig) && Follows(inp, ids, ids[n].orig, cls) else Follows(inp, ids, n, cls)
  }

  lemma LedToIsBefore(inp: Input, classes: map<string, IrClass>, order: seq<string>, ids: map<string, Origin>, n: string, cls: string)
    requires Completed(inp, classes, order, ids) && n in classes && LedTo(inp, ids, n, cls)
    ensures n in order && cls in order[..Position(order, n)]
  {
    hide Inv, Position, Follows, Above, Unhidden, Complete, Warranted;
    if n in ids {
      var x := Warrant(inp, classes, order, ids, n);
      var o := ids[n].orig;
      OriginOf(inp, classes, order, ids, n);
      SuperclassesAreBefore(inp, classes, order, ids, x, o);
      FollowersAreBefore(inp, classes, order, ids, [], o, cls);
      assert order[..Position(order, n)][..Position(order, o)] == order[..Position(order, o)];
    } else {
      FollowersAreBefore(inp, classes, order, ids, [], n, cls);
    }
  }

  /** Each class that a member contains is one that is built before in every order, or the tables alone give the member
      its plain length. */
  ghost predicate OrderFree(inp: Input, decls: map<string, Decl>, ids: map<string, Origin>, rank: map<string, nat>)
    requires Ranked(inp, decls, rank)
  {
    forall n, m :: n in decls && m in decls[n].members && ClassNamed(inp, m).Some? && ClassNamed(inp, m).value in decls ==>
      TableAgrees(inp, decls, rank, n, m) || LedTo(inp, ids, n, ClassNamed(inp, m).value)
  }

  /** Then the build is settled, whatever the order, and also when id classes hide declarations. */
  lemma OrderFreeIsSettled(inp: Input, classes: map<string, IrClass>, order: seq<string>, ids: map<string, Origin>, rank: map<string, nat>)
    requires Completed(inp, classes, order, ids) && Ranked(inp, Declared(inp, classes, ids), rank)
    requires OrderFree(inp, Declared(inp, classes, ids), ids, rank)
    ensures Settled(inp, classes, order, ids, rank)
  {
    hide Inv, Complete, Warranted, Ranked, TableAgrees, LedTo, ClassNamed, Position;
    var decls := Declared(inp, classes, ids);
    forall i, m | 0 <= i < |order| && order[i] in decls && m in decls[order[i]].members
      ensures InTime(inp, decls, rank, order[..i], order[i], m)
    {
      PositionOf(inp, classes, order, ids, i);
      if ClassNamed(inp, m).Some? && LedTo(inp, ids, order[i], ClassNamed(inp, m).value) {
        LedToIsBefore(inp, classes, order, ids, order[i], ClassNamed(inp, m).value);
      }
    }
  }

  // --- which builds agree --------------------------------------------------------------------------------------------------

  /** The members of a class that is made of declared members with given lengths. */
  function Laid(version: nat, members: seq<Member>, lens: seq<Len>): (r: seq<IrMember>)
    requires |lens| == |members|
    ensures |r| == |members|
  {
    seq(|members|, i requires 0 <= i < |members| => BuiltMember(version, members[i], InfoAt(lens, LastEqual(members, i))))
  }

  /** Both declarations make the same class: nothing but the kinds of members that come out alike may differ. */
  ghost predicate Alike(version: nat, d: Decl, e: Decl, lens: seq<Len>) {
    && d.superclass == e.superclass && d.isVirtual == e.isVirtual && d.params == e.params
    && |d.members| == |e.members| == |lens| && Laid(version, d.members, lens) == Laid(version, e.members, lens)
  }

  /** What a type string says is all that matters for a length. */
  predicate SameType(a: Member, b: Member) {
    if a.Pad? || b.Pad? then a == b else a.oftype == b.oftype
  }

  ghost predicate SameTypes(ms: seq<Member>, ns: seq<Member>) {
    |ms| == |ns| && forall i :: 0 <= i < |ms| ==> SameType(ms[i], ns[i])
  }

  lemma AlikeSameTypes(version: nat, d: Decl, e: Decl, lens: seq<Len>)
    requires Alike(version, d, e, lens)
    ensures SameTypes(d.members, e.members)
  {
    forall i | 0 <= i < |d.members| ensures SameType(d.members[i], e.members[i]) {
      assert Laid(version, d.members, lens)[i] == Laid(version, e.members, lens)[i];
    }
  }

  /** The same classes, made of declarations of the same types. */
  ghost predicate SamePlan(decls: map<string, Decl>, decls': map<string, Decl>) {
    decls.Keys == decls'.Keys && forall n :: n in decls ==> SameSize(decls[n], decls'[n])
  }

  ghost predicate SameSize(d: Decl, e: Decl) {
    d.isVirtual == e.isVirtual && d.params == e.params && SameTypes(d.members, e.members)
  }

  /** The same but for some names, of which no class contains one. */
  ghost predicate SamePlanBut(inp: Input, decls: map<string, Decl>, decls': map<string, Decl>, others: set<string>) {
    && decls.Keys == decls'.Keys && (forall n :: n in decls && n !in others ==> SameSize(decls[n], decls'[n]))
    && (forall n, m :: n in decls && n !in others && m in decls[n].members ==> ContainsNoneOf(inp, m, others))
  }

  lemma SamePlanIsBut(inp: Input, decls: map<string, Decl>, decls': map<string, Decl>)
    requires SamePlan(decls, decls')
    ensures SamePlanBut(inp, decls, decls', {})
  {
    hide SameSize;
  }

  ghost predicate ContainsNoneOf(inp: Input, m: Member, others: set<string>) {
    ClassNamed(inp, m).Some? ==> ClassNamed(inp, m).value !in others
  }

  lemma {:induction false} SamePlainLen(inp: Input, decls: map<string, Decl>, rank: map<string, nat>, decls': map<string, Decl>, rank': map<string, nat>,
                     others: set<string>, n: string, m: Member, n': string, m': Member)
    requires Ranked(inp, decls, rank) && Ranked(inp, decls', rank') && SamePlanBut(inp, decls, decls', others) && n in decls && n' in decls'
    requires m in decls[n].members && m' in decls'[n'].members && SameType(m, m') && ContainsNoneOf(inp, m, others)
    ensures PlainLen(inp, decls, rank, n, m) == PlainLen(inp, decls', rank', n', m')
    decreases rank[n], 0
  {
    hide SameTypes;
    assert ContainsBelow(inp, decls, rank, n, m);
    if !m.Pad? {
      match ShapeOf(inp, m.oftype) {
        case Ok(Elements(count, base, cls)) =>
          if cls in decls {
            hide PlainSize;
            SamePlainSize(inp, decls, rank, decls', rank', others, cls);
          }
        case _ =>
      }
    }
  }

  lemma {:induction false} SamePlainLens(inp: Input, decls: map<string, Decl>, rank: map<string, nat>, decls': map<string, Decl>, rank': map<string, nat>,
                      others: set<string>, n: string, ms: seq<Member>, ms': seq<Member>)
    requires Ranked(inp, decls, rank) && Ranked(inp, decls', rank') && SamePlanBut(inp, decls, decls', others) && n in decls && n !in others
    requires SameTypes(ms, ms') && (forall m :: m in ms ==> m in decls[n].members) && forall m :: m in ms' ==> m in decls'[n].members
    ensures PlainLens(inp, decls, rank, n, ms) == PlainLens(inp, decls', rank', n, ms')
    decreases rank[n], 1, |ms|
  {
    hide PlainLen, Ranked, ContainsNoneOf, SameSize;
    if ms != [] {
      SamePlainLens(inp, decls, rank, decls', rank', others, n, ms[..|ms| - 1], ms'[..|ms'| - 1]);
      SamePlainLen(inp, decls, rank, decls', rank', others, n, ms[|ms| - 1], n, ms'[|ms'| - 1]);
    }
  }

  lemma {:induction false} SamePlainSize(inp: Input, decls: map<string, Decl>, rank: map<string, nat>, decls': map<string, Decl>, rank': map<string, nat>,
                      others: set<string>, n: string)
    requires Ranked(inp, decls, rank) && Ranked(inp, decls', rank') && SamePlanBut(inp, decls, decls', others) && n in decls && n !in others
    ensures PlainSize(inp, decls, rank, n) == PlainSize(inp, decls', rank', n)
    ensures PlainLens(inp, decls, rank, n, decls[n].members) == PlainLens(inp, decls', rank', n, decls'[n].members)
    decreases rank[n], 2
  {
    hide PlainLens, Ranked, ContainsNoneOf;
    SamePlainLens(inp, decls, rank, decls', rank', others, n, decls[n].members, decls'[n].members);
  }

  /** What a class of a completed build is made of. */
  lemma ClassIsLaid(inp: Input, classes: map<string, IrClass>, order: seq<string>, ids: map<string, Origin>, rank: map<string, nat>, n: string)
    requires Completed(inp, classes, order, ids) && Ranked(inp, Declared(inp, classes, ids), rank)
    requires OrderFree(inp, Declared(inp, classes, ids), ids, rank) && n in classes
    ensures n in Declared(inp, classes, ids)
    ensures var d, c := Declared(inp, classes, ids)[n], classes[n];
            var lens := PlainLens(inp, Declared(inp, classes, ids), rank, n, d.members);
            && lens.Ok? && c.name == n && c.isVirtual == d.isVirtual && c.params == d.params
            && c.members == Laid(inp.version, d.members, lens.value)
            && c.bytes == Sum(lens.value) && c.fixed == (AllFixed(lens.value) && !d.isVirtual)
  {
    hide Inv, Complete, Warranted, Ranked, OrderFree, Settled, HasLayout, InfoAt, LastEqual, PlainLens, Sum, AllFixed, Used, MemberLens;
    OrderFreeIsSettled(inp, classes, order, ids, rank);
    SuperclassFirst(inp, classes, order, ids, [], n);
    MadeAt(inp, classes, order, ids, [], n);
    SizeIsPlain(inp, classes, order, ids, [], rank, n);
    var d := Declared(inp, classes, ids)[n];
    LayoutSizes(inp, d, PlainLens(inp, Declared(inp, classes, ids), rank, n, d.members).value, classes[n]);
  }

  /** The class `n` of both builds is made of declarations that come out alike. */
  ghost predicate MadeAlike(inp: Input, classes: map<string, IrClass>, ids: map<string, Origin>, rank: map<string, nat>,
                            classes': map<string, IrClass>, ids': map<string, Origin>, n: string)
    requires Ranked(inp, Declared(inp, classes, ids), rank)
  {
    var decls, decls' := Declared(inp, classes, ids), Declared(inp, classes', ids');
    n in decls && n in decls' &&
    match PlainLens(inp, decls, rank, n, decls[n].members)
    case Ok(lens) => Alike(inp.version, decls[n], decls'[n], lens)
    case Err(_) => false
  }

  lemma AllAlikeSamePlan(inp: Input, classes: map<string, IrClass>, order: seq<string>, ids: map<string, Origin>, rank: map<string, nat>,
                         classes': map<string, IrClass>, order': seq<string>, ids': map<string, Origin>)
    requires Completed(inp, classes, order, ids) && Completed(inp, classes', order', ids') && classes.Keys == classes'.Keys
    requires Ranked(inp, Declared(inp, classes, ids), rank)
    requires forall n :: n in classes ==> MadeAlike(inp, classes, ids, rank, classes', ids', n)
    ensures SamePlan(Declared(inp, classes, ids), Declared(inp, classes', ids'))
  {
    hide Inv, Complete, Warranted, Ranked, PlainLens, Used, Alike, SameTypes;
    AllDeclared(inp, classes, order, ids, []);
    AllDeclared(inp, classes', order', ids', []);
    var decls, decls' := Declared(inp, classes, ids), Declared(inp, classes', ids');
    forall n | n in decls ensures SameSize(decls[n], decls'[n]) {
      assert MadeAlike(inp, classes, ids, rank, classes', ids', n);
      var lens := PlainLens(inp, decls, rank, n, decls[n].members).value;
      AlikeSameTypes(inp.version, decls[n], decls'[n], lens);
      AlikeRest(inp.version, decls[n], decls'[n], lens);
    }
  }

  lemma AlikeRest(version: nat, d: Decl, e: Decl, lens: seq<Len>)
    requires Alike(version, d, e, lens)
    ensures d.superclass == e.superclass && d.isVirtual == e.isVirtual && d.params == e.params
    ensures |d.members| == |e.members| == |lens| && Laid(version, d.members, lens) == Laid(version, e.members, lens)
  {}

  lemma {:induction false} AlikeIsSame(inp: Input, classes: map<string, IrClass>, order: seq<string>, ids: map<string, Origin>, rank: map<string, nat>,
                    classes': map<string, IrClass>, order': seq<string>, ids': map<string, Origin>, rank': map<string, nat>, n: string)
    requires Completed(inp, classes, order, ids) && Completed(inp, classes', order', ids') && classes.Keys == classes'.Keys
    requires Ranked(inp, Declared(inp, classes, ids), rank) && Ranked(inp, Declared(inp, classes', ids'), rank')
    requires OrderFree(inp, Declared(inp, classes, ids), ids, rank) && OrderFree(inp, Declared(inp, classes', ids'), ids', rank')
    requires (forall m :: m in classes ==> MadeAlike(inp, classes, ids, rank, classes', ids', m)) && n in classes && n in order
    ensures classes[n] == classes'[n]
    decreases Position(order, n)
  {
    hide Inv, Complete, Warranted, Ranked, OrderFree, PlainLens, Sum, AllFixed, Laid, Used, Alike, SamePlan, SamePlanBut, Position;
    var decls, decls' := Declared(inp, classes, ids), Declared(inp, classes', ids');
    ClassIsLaid(inp, classes, order, ids, rank, n);
    ClassIsLaid(inp, classes', order', ids', rank', n);
    AllAlikeSamePlan(inp, classes, order, ids, rank, classes', order', ids');
    SamePlanIsBut(inp, decls, decls');
    SamePlainSize(inp, decls, rank, decls', rank', {}, n);
    assert MadeAlike(inp, classes, ids, rank, classes', ids', n);
    AlikeRest(inp.version, decls[n], decls'[n], PlainLens(inp, decls, rank, n, decls[n].members).value);
    SuperclassFirst(inp, classes, order, ids, [], n);
    SuperclassFirst(inp, classes', order', ids', [], n);
    Listed(inp, classes, order, ids, []);
    if decls[n].superclass.Some? {
      AlikeIsSame(inp, classes, order, ids, rank, classes', order', ids', rank', decls[n].superclass.value);
    }
  }

  /** Two completed builds agree on every class exactly when they have the same names and each class is made of
      declarations that come out alike. */
  lemma BuildsAgreeExactly(inp: Input, classes: map<string, IrClass>, order: seq<string>, ids: map<string, Origin>, rank: map<string, nat>,
                           classes': map<string, IrClass>, order': seq<string>, ids': map<string, Origin>, rank': map<string, nat>)
    requires Completed(inp, classes, order, ids) && Completed(inp, classes', order', ids')
    requires Ranked(inp, Declared(inp, classes, ids), rank) && Ranked(inp, Declared(inp, classes', ids'), rank')
    requires OrderFree(inp, Declared(inp, classes, ids), ids, rank) && OrderFree(inp, Declared(inp, classes', ids'), ids', rank')
    ensures classes == classes' <==>
            classes.Keys == classes'.Keys && forall n :: n in classes ==> MadeAlike(inp, classes, ids, rank, classes', ids', n)
  {
    hide Inv, Complete, Warranted, Ranked, OrderFree, Declared, MadeAlike, Position;
    Listed(inp, classes, order, ids, []);
    if classes.Keys == classes'.Keys && forall n :: n in classes ==> MadeAlike(inp, classes, ids, rank, classes', ids', n) {
      forall n | n in classes ensures classes[n] == classes'[n] {
        AlikeIsSame(inp, classes, order, ids, rank, classes', order', ids', rank', n);
      }
    }
    if classes == classes' {
      SameClassesSamePlan(inp, classes, order, ids, rank, order', ids', rank');
      forall n | n in classes ensures MadeAlike(inp, classes, ids, rank, classes', ids', n) {
        SameIsAlike(inp, classes, order, ids, rank, order', ids', rank', n);
      }
    }
  }

  lemma LaidSameTypes(version: nat, ms: seq<Member>, lens: seq<Len>, ns: seq<Member>, lens': seq<Len>)
    requires |lens| == |ms| && |lens'| == |ns| && Laid(version, ms, lens) == Laid(version, ns, lens')
    ensures SameTypes(ms, ns)
  {
    forall i | 0 <= i < |ms| ensures SameType(ms[i], ns[i]) {
      assert Laid(version, ms, lens)[i] == Laid(version, ns, lens')[i];
    }
  }

  lemma SameClassesSamePlan(inp: Input, classes: map<string, IrClass>, order: seq<string>, ids: map<string, Origin>, rank: map<string, nat>,
                            order': seq<string>, ids': map<string, Origin>, rank': map<string, nat>)
    requires Completed(inp, classes, order, ids) && Completed(inp, classes, order', ids')
    requires Ranked(inp, Declared(inp, classes, ids), rank) && Ranked(inp, Declared(inp, classes, ids'), rank')
    requires OrderFree(inp, Declared(inp, classes, ids), ids, rank) && OrderFree(inp, Declared(inp, classes, ids'), ids', rank')
    ensures SamePlan(Declared(inp, classes, ids), Declared(inp, classes, ids'))
  {
    hide Inv, Complete, Warranted, Ranked, OrderFree, PlainLens, Sum, AllFixed, Laid, Used, SameTypes;
    AllDeclared(inp, classes, order, ids, []);
    AllDeclared(inp, classes, order', ids', []);
    var decls, decls' := Declared(inp, classes, ids), Declared(inp, classes, ids');
    forall n | n in decls ensures SameSize(decls[n], decls'[n]) {
      ClassIsLaid(inp, classes, order, ids, rank, n);
      ClassIsLaid(inp, classes, order', ids', rank', n);
      LaidSameTypes(inp.version, decls[n].members, PlainLens(inp, decls, rank, n, decls[n].members).value,
                    decls'[n].members, PlainLens(inp, decls', rank', n, decls'[n].members).value);
    }
  }

  lemma SameIsAlike(inp: Input, classes: map<string, IrClass>, order: seq<string>, ids: map<string, Origin>, rank: map<string, nat>,
                    order': seq<string>, ids': map<string, Origin>, rank': map<string, nat>, n: string)
    requires Completed(inp, classes, order, ids) && Completed(inp, classes, order', ids')
    requires Ranked(inp, Declared(inp, classes, ids), rank) && Ranked(inp, Declared(inp, classes, ids'), rank')
    requires OrderFree(inp, Declared(inp, classes, ids), ids, rank) && OrderFree(inp, Declared(inp, classes, ids'), ids', rank')
    requires SamePlan(Declared(inp, classes, ids), Declared(inp, classes, ids')) && n in classes
    ensures MadeAlike(inp, classes, ids, rank, classes, ids', n)
  {
    hide Inv, Complete, Warranted, Ranked, OrderFree, PlainLens, Sum, AllFixed, Laid, Used, SamePlanBut, Position;
    ClassIsLaid(inp, classes, order, ids, rank, n);
    ClassIsLaid(inp, classes, order', ids', rank', n);
    SamePlanIsBut(inp, Declared(inp, classes, ids), Declared(inp, classes, ids'));
    SamePlainSize(inp, Declared(inp, classes, ids), rank, Declared(inp, classes, ids'), rank', {}, n);
    SuperclassFirst(inp, classes, order, ids, [], n);
    SuperclassFirst(inp, classes, order', ids', [], n);
  }
}
