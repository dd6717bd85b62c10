/** Superclass chains in a completed build, and how the id classes mirror those of actions and instructions. */
module IrIds {
  import opened Options
  import opened Results
  import opened IrInput
  import opened IrLayout
  import opened IrBuilder
  import IrTheorems

  /** The names of a class and its superclasses. */
  function Chain(c: IrClass): seq<string> {
    [c.name] + (if c.superclass.None? then [] else Chain(c.superclass.value))
  }

  lemma {:induction false} InstanceOfIsInChain(c: IrClass, ancestor: string)
    ensures c.IsInstanceOf(ancestor) <==> ancestor in Chain(c)
  {
    if c.superclass.Some? {
      InstanceOfIsInChain(c.superclass.value, ancestor);
    }
  }

  /** A superclass is itself in the class list, before the class. */
  lemma SuperclassFirst(inp: Input, classes: map<string, IrClass>, order: seq<string>, ids: map<string, Origin>, trail: seq<string>, n: string)
    requires Inv(inp, classes, order, ids, trail) && n in classes
    ensures classes[n].name == n && Used(inp, ids, n).Some?
    ensures classes[n].superclass.None? <==> Used(inp, ids, n).value.superclass.None?
    ensures classes[n].superclass.Some? ==>
      var s := Used(inp, ids, n).value.superclass.value;
      && s in classes && classes[n].superclass.value == classes[s] && classes[s].name == s
      && Position(order, s) < Position(order, n)
  {
    hide HasLayout, DependsOn, MemberLens, Position, IdDecl;
    MadeAt(inp, classes, order, ids, trail, n);
    var decl := Used(inp, ids, n).value;
    NameUsed(inp, classes, order, ids, trail, n);
    if decl.superclass.Some? {
      var s := decl.superclass.value;
      assert s in order[..Position(order, n)];
      MadeAt(inp, classes, order, ids, trail, s);
      NameUsed(inp, classes, order, ids, trail, s);
    }
  }

  lemma MadeAt(inp: Input, classes: map<string, IrClass>, order: seq<string>, ids: map<string, Origin>, trail: seq<string>, n: string)
    requires Inv(inp, classes, order, ids, trail) && n in classes
    ensures Used(inp, ids, n).Some?
    ensures BuiltFrom(inp, Used(inp, ids, n).value, Before(classes, order, Position(order, n)), classes[n])
    ensures n in ids ==> classes[n].isVirtual || classes[n].fixed
  {
    hide BuiltFrom, DependsOn;
    assert Made(inp, classes, order, ids, Position(order, n));
  }

  lemma NameUsed(inp: Input, classes: map<string, IrClass>, order: seq<string>, ids: map<string, Origin>, trail: seq<string>, n: string)
    requires Inv(inp, classes, order, ids, trail) && n in classes && Used(inp, ids, n).Some?
    ensures Used(inp, ids, n).value.name == n
  {}

  /** The renaming, on a sequence of class names. */
  function IdNames(root: string, names: seq<string>): seq<string> {
    if names == [] then [] else [IdName(root, names[0])] + IdNames(root, names[1..])
  }

  /** The renaming is injective over both roots, for classes named with their root's prefix. */
  lemma IdNameIsInjective(root: string, a: string, root': string, b: string)
    requires root in ID_ROOTS && root' in ID_ROOTS && StartsWith(a, root) && StartsWith(b, root')
    requires IdName(root, a) == IdName(root', b)
    ensures root == root' && a == b
  {
    var x, y := IdName(root, a), IdName(root', b);
    assert x[3] == root[3] && y[3] == root'[3];
    assert root == root';
    assert a == root + a[|root|..] && b == root + b[|root|..];
    assert a[|root|..] == x[|root| + 3..] == b[|root|..];
  }

  /** Every class that has an id class is named with the root's prefix. */
  predicate Prefixed(ids: map<string, Origin>) {
    forall n :: n in ids ==> StartsWith(ids[n].orig, ids[n].root)
  }

  /** A class that was built from its own declaration, and whose id class was built too. */
  ghost predicate Mirrored(root: string, n: string, ids: map<string, Origin>) {
    StartsWith(n, root) && n !in ids && IdName(root, n) in ids
  }

  /** The superclass chain of an id class is that of its original, renamed. */
  lemma {:induction false} IdChainMirrors(inp: Input, classes: map<string, IrClass>, order: seq<string>, ids: map<string, Origin>, trail: seq<string>, root: string, o: string)
    requires Inv(inp, classes, order, ids, trail) && Prefixed(ids) && root in ID_ROOTS && o in classes
    requires forall n :: n in Chain(classes[o]) ==> Mirrored(root, n, ids)
    ensures IdName(root, o) in classes && Chain(classes[IdName(root, o)]) == IdNames(root, Chain(classes[o]))
    decreases Position(order, o)
  {
    hide Made, IdName, Inv, Position;
    var name := IdName(root, o);
    SuperclassFirst(inp, classes, order, ids, trail, o);
    assert Chain(classes[o])[0] == o;
    assert Mirrored(root, o, ids);
    DerivedFrom(inp, classes, order, ids, trail, root, o);
    SuperclassFirst(inp, classes, order, ids, trail, name);
    if classes[o].superclass.Some? {
      var s := inp.decls[o].superclass.value;
      assert Chain(classes[o])[1..] == Chain(classes[s]);
      IdChainMirrors(inp, classes, order, ids, trail, root, s);
    }
  }

  lemma DerivedFrom(inp: Input, classes: map<string, IrClass>, order: seq<string>, ids: map<string, Origin>, trail: seq<string>, root: string, o: string)
    requires Inv(inp, classes, order, ids, trail) && Prefixed(ids) && root in ID_ROOTS && Mirrored(root, o, ids)
    ensures IdName(root, o) in classes && ids[IdName(root, o)] == Origin(root, o) && o in inp.decls
    ensures Used(inp, ids, IdName(root, o)) == Some(IdDecl(root, inp.decls[o]))
  {
    hide Made, IdName;
    var origin := ids[IdName(root, o)];
    IdNameIsInjective(root, o, origin.root, origin.orig);
  }

  /** Below the id classes, as below their originals: instance-of is the same question under the renaming. */
  lemma IdInstanceMirrors(inp: Input, classes: map<string, IrClass>, order: seq<string>, ids: map<string, Origin>, trail: seq<string>, root: string, o: string, a: string)
    requires Inv(inp, classes, order, ids, trail) && Prefixed(ids) && root in ID_ROOTS && o in classes
    requires forall n :: n in Chain(classes[o]) ==> Mirrored(root, n, ids)
    requires StartsWith(a, root)
    ensures IdName(root, o) in classes && (classes[IdName(root, o)].IsInstanceOf(IdName(root, a)) <==> classes[o].IsInstanceOf(a))
  {
    hide Inv, IdName, IsPath;
    IdChainMirrors(inp, classes, order, ids, trail, root, o);
    InstanceOfIsInChain(classes[o], a);
    InstanceOfIsInChain(classes[IdName(root, o)], IdName(root, a));
    IdNamesContain(root, Chain(classes[o]), a);
  }

  lemma {:induction false} IdNamesContain(root: string, names: seq<string>, a: string)
    requires root in ID_ROOTS && StartsWith(a, root) && forall n :: n in names ==> StartsWith(n, root)
    ensures IdName(root, a) in IdNames(root, names) <==> a in names
  {
    hide IdName;
    if names != [] {
      IdNamesContain(root, names[1..], a);
      assert names[0] in names;
      if IdName(root, a) == IdName(root, names[0]) {
        IdNameIsInjective(root, a, root, names[0]);
      }
    }
  }

  // --- the classes below a root ---------------------------------------------------------------------------------------

  predicate RootsOnTop(inp: Input) {
    forall root :: root in ID_ROOTS && root in inp.decls ==> inp.decls[root].superclass.None?
  }

  ghost predicate PrefixedBelow(inp: Input) {
    forall x, root :: x in inp.decls && root in ID_ROOTS && Above(inp, x, root) ==> StartsWith(x, root)
  }

  /** No declaration stands where the id class of a class below a root would. */
  ghost predicate NoneTaken(inp: Input, ids: map<string, Origin>) {
    forall x, root :: x in inp.decls && root in ID_ROOTS && Above(inp, x, root) && IdName(root, x) in inp.decls ==> IdName(root, x) in ids
  }

  /** A declaration that stands where an id class would has no superclass. */
  ghost predicate NamesakesOnTop(inp: Input, ids: map<string, Origin>) {
    forall x, root :: x in inp.decls && root in ID_ROOTS && Above(inp, x, root) && IdName(root, x) in inp.decls ==>
      IdName(root, x) in ids || inp.decls[IdName(root, x)].superclass.None?
  }

  ghost predicate Tidy(inp: Input, ids: map<string, Origin>) {
    RootsOnTop(inp) && PrefixedBelow(inp) && NamesakesOnTop(inp, ids)
  }

  lemma TakenIsTidy(inp: Input, ids: map<string, Origin>)
    requires RootsOnTop(inp) && PrefixedBelow(inp) && NoneTaken(inp, ids)
    ensures Tidy(inp, ids)
  {
    hide PrefixedBelow, Above;
  }

  lemma PositionOf(inp: Input, classes: map<string, IrClass>, order: seq<string>, ids: map<string, Origin>, i: nat)
    requires Inv(inp, classes, order, ids, []) && i < |order|
    ensures Position(order, order[i]) == i
  {
    hide Made, Origins;
  }

  lemma IdNameIsNoRoot(root: string, o: string, r: string)
    requires root in ID_ROOTS && r in ID_ROOTS
    ensures IdName(root, o) != r
  {
    var n := IdName(root, o);
    assert n[3] == root[3] && |n| > |root|;
    assert r[3] == n[3] ==> r == root;
  }

  /** A class below a root was built from its own declaration, and so were all its superclasses, up to the root. */
  lemma {:induction false} BelowRoot(inp: Input, classes: map<string, IrClass>, order: seq<string>, ids: map<string, Origin>, n: string, r: string)
    requires Completed(inp, classes, order, ids) && Tidy(inp, ids) && n in classes && r in ID_ROOTS && classes[n].IsInstanceOf(r)
    ensures n in order && n !in ids && n in inp.decls && Above(inp, n, r)
    ensures forall o :: Above(inp, n, o) ==> AsDeclared(inp, classes, order, ids, n, o, r)
    decreases Position(order, n)
  {
    hide Made, IdName, Above, PrefixedBelow, Inv, Warranted, HasWarrant, Complete, IdDecl;
    SuperclassFirst(inp, classes, order, ids, [], n);
    Listed(inp, classes, order, ids, []);
    if n in ids {
      IdNotBelowRoot(inp, classes, order, ids, n, r);
    } else {
      AboveSelf(inp, n);
      if n != r {
        var s := inp.decls[n].superclass.value;
        BelowRoot(inp, classes, order, ids, s, r);
        AboveOnward(inp, n, s, r);
      }
      forall o | Above(inp, n, o) ensures AsDeclared(inp, classes, order, ids, n, o, r) {
        if o != n {
          AboveIsSelfOrOnward(inp, n, o);
          assert AsDeclared(inp, classes, order, ids, inp.decls[n].superclass.value, o, r);
        }
      }
    }
  }

  /** `o` is a class above `n`, built from its own declaration before it, and below the root `r`. */
  ghost predicate AsDeclared(inp: Input, classes: map<string, IrClass>, order: seq<string>, ids: map<string, Origin>, n: string, o: string, r: string)
    requires n in order
  {
    && o in inp.decls && o !in ids && o in classes && o in order && Position(order, o) <= Position(order, n)
    && classes[o].IsInstanceOf(r) && Above(inp, o, r)
  }

  /** No id class is below a root: its superclass would be an id class, too. */
  lemma {:induction false} IdNotBelowRoot(inp: Input, classes: map<string, IrClass>, order: seq<string>, ids: map<string, Origin>, n: string, r: string)
    requires Completed(inp, classes, order, ids) && Tidy(inp, ids) && n in ids && n in classes && n in order && r in ID_ROOTS
    ensures !classes[n].IsInstanceOf(r)
    decreases Position(order, n), 0
  {
    hide Made, IdName, Above, PrefixedBelow, Inv, HasWarrant, Complete;
    if classes[n].IsInstanceOf(r) {
      var (root, o) := (ids[n].root, ids[n].orig);
      var x := Warrant(inp, classes, order, ids, n);
      BelowRoot(inp, classes, order, ids, x, root);
      assert AsDeclared(inp, classes, order, ids, x, o, root);
      OriginOf(inp, classes, order, ids, n);
      IdNameIsNoRoot(root, o, r);
      SuperclassFirst(inp, classes, order, ids, [], n);
      var s := inp.decls[o].superclass.value;
      BelowRootAgain(inp, o, s, root);
      AboveSelf(inp, s);
      AboveOnward(inp, o, s, s);
      BelowRoot(inp, classes, order, ids, o, root);
      assert AsDeclared(inp, classes, order, ids, o, s, root);
      Listed(inp, classes, order, ids, []);
      if IdName(root, s) in ids {
        BelowRoot(inp, classes, order, ids, IdName(root, s), r);
      } else {
        SuperclassFirst(inp, classes, order, ids, [], IdName(root, s));
        IdNameIsNoRoot(root, s, r);
      }
    }
  }

  lemma OriginOf(inp: Input, classes: map<string, IrClass>, order: seq<string>, ids: map<string, Origin>, n: string)
    requires Inv(inp, classes, order, ids, []) && n in ids
    ensures ids[n].root in ID_ROOTS && ids[n].orig in inp.decls && n == IdName(ids[n].root, ids[n].orig)
    ensures Used(inp, ids, n) == Some(IdDecl(ids[n].root, inp.decls[ids[n].orig]))
  {
    hide Made;
  }

  /** The class for which an id class was made. */
  lemma Warrant(inp: Input, classes: map<string, IrClass>, order: seq<string>, ids: map<string, Origin>, n: string) returns (x: string)
    requires Completed(inp, classes, order, ids) && n in ids
    ensures n in order && x in order && x in inp.decls && x in classes && Position(order, x) < Position(order, n)
    ensures ids[n].root in ID_ROOTS && classes[x].IsInstanceOf(ids[n].root) && Above(inp, x, ids[n].orig)
  {
    hide Inv, Complete, Above, IrClass.IsInstanceOf;
    assert HasWarrant(inp, classes, order, n, ids[n]);
    var i, j :| 0 <= i < j < |order| && order[j] == n && order[i] in inp.decls && order[i] in classes
      && classes[order[i]].IsInstanceOf(ids[n].root) && Above(inp, order[i], ids[n].orig);
    x := order[i];
    OriginOf(inp, classes, order, ids, n);
    PositionOf(inp, classes, order, ids, i);
    PositionOf(inp, classes, order, ids, j);
  }

  lemma BelowRootAgain(inp: Input, o: string, s: string, root: string)
    requires RootsOnTop(inp) && root in ID_ROOTS && Above(inp, o, root) && o in inp.decls && inp.decls[o].superclass == Some(s)
    ensures Above(inp, s, root)
  {
    hide Above;
    if o != root {
      AboveIsSelfOrOnward(inp, o, root);
    }
  }

  // --- members and lengths ----------------------------------------------------------------------------------------------

  /** Where the type of a kept member contains a class, it was there for the original and for the id class alike. */
  ghost predicate KeptAlike(inp: Input, members: seq<Member>, sizes: map<string, ClassSize>, sizes': map<string, ClassSize>) {
    forall m :: m in members && IsKept(m) ==> MemberLen(inp, m, sizes) == MemberLen(inp, m, sizes')
  }

  lemma {:induction false} KeptSum(inp: Input, members: seq<Member>, sizes: map<string, ClassSize>, sizes': map<string, ClassSize>)
    requires MemberLens(inp, members, sizes).Ok? && KeptAlike(inp, members, sizes, sizes')
    ensures MemberLens(inp, Kept(members), sizes').Ok?
    ensures Sum(MemberLens(inp, Kept(members), sizes').value) <= Sum(MemberLens(inp, members, sizes).value)
  {
    hide MemberLen;
    if members != [] {
      var front, last := members[..|members| - 1], members[|members| - 1];
      KeptSum(inp, front, sizes, sizes');
      OneMoreLen(MemberLens(inp, front, sizes).value, MemberLen(inp, last, sizes).value);
      if IsKept(last) {
        OneMoreMember(inp, Kept(front), sizes', last);
        OneMoreLen(MemberLens(inp, Kept(front), sizes').value, MemberLen(inp, last, sizes').value);
      }
    }
  }

  /** An id class has exactly the kept members of its original, in order, at the offsets of their own layout; it is
      virtual or of fixed length, never longer than the original, and without parameters. */
  lemma IdMembersMirror(inp: Input, classes: map<string, IrClass>, order: seq<string>, ids: map<string, Origin>, trail: seq<string>, root: string, o: string)
    requires Inv(inp, classes, order, ids, trail) && Prefixed(ids) && root in ID_ROOTS && o in classes && Mirrored(root, o, ids)
    requires o in inp.decls && IdName(root, o) in classes &&
      KeptAlike(inp, inp.decls[o].members, Sizes(Before(classes, order, Position(order, o))),
                Sizes(Before(classes, order, Position(order, IdName(root, o)))))
    ensures var id, kept := classes[IdName(root, o)], Kept(inp.decls[o].members);
            var lens := MemberLens(inp, kept, Sizes(Before(classes, order, Position(order, IdName(root, o)))));
            && lens.Ok? && id.bytes == Sum(lens.value) <= classes[o].bytes
            && id.params == map[] && id.isVirtual == classes[o].isVirtual && (id.isVirtual || id.fixed)
            && |id.members| == |kept|
            && forall i :: 0 <= i < |kept| ==> id.members[i] == BuiltMember(inp.version, kept[i], InfoAt(lens.value, LastEqual(kept, i)))
  {
    hide Made, Origins, IdName, MemberLens, Sum, AllFixed, HasLayout, Kept, LastEqual, Before, Sizes, Position, KeptAlike, InfoAt;
    var name := IdName(root, o);
    DerivedFrom(inp, classes, order, ids, trail, root, o);
    MadeAt(inp, classes, order, ids, trail, o);
    MadeAt(inp, classes, order, ids, trail, name);
    SuperclassFirst(inp, classes, order, ids, trail, name);
    var sizes := Sizes(Before(classes, order, Position(order, o)));
    var sizes' := Sizes(Before(classes, order, Position(order, name)));
    KeptSum(inp, inp.decls[o].members, sizes, sizes');
    IrTheorems.LayoutSizes(inp, inp.decls[o], MemberLens(inp, inp.decls[o].members, sizes).value, classes[o]);
    IrTheorems.LayoutSizes(inp, IdDecl(root, inp.decls[o]), MemberLens(inp, Kept(inp.decls[o].members), sizes').value, classes[name]);
  }

  // --- the mirror in a completed build -----------------------------------------------------------------------------------

  lemma {:induction false} ChainIsAsDeclared(inp: Input, classes: map<string, IrClass>, order: seq<string>, ids: map<string, Origin>, o: string, root: string)
    requires Completed(inp, classes, order, ids) && Tidy(inp, ids) && o in classes && root in ID_ROOTS && classes[o].IsInstanceOf(root)
    ensures o in order && forall n :: n in Chain(classes[o]) ==> Above(inp, o, n) && AsDeclared(inp, classes, order, ids, o, n, root)
    decreases Position(order, o)
  {
    hide Made, IdName, Above, PrefixedBelow, Inv, Warranted, HasWarrant, Complete, AsDeclared;
    BelowRoot(inp, classes, order, ids, o, root);
    SuperclassFirst(inp, classes, order, ids, [], o);
    AboveSelf(inp, o);
    if classes[o].superclass.Some? {
      var s := inp.decls[o].superclass.value;
      ChainIsAsDeclared(inp, classes, order, ids, s, root);
      forall n | n in Chain(classes[s]) ensures Above(inp, o, n) {
        AboveOnward(inp, o, s, n);
      }
    }
  }

  lemma OriginsArePrefixed(inp: Input, classes: map<string, IrClass>, order: seq<string>, ids: map<string, Origin>)
    requires Completed(inp, classes, order, ids) && Tidy(inp, ids)
    ensures Prefixed(ids)
  {
    hide Made, IdName, Above, Inv, Warranted, HasWarrant, Complete;
    forall n | n in ids ensures StartsWith(ids[n].orig, ids[n].root) {
      var x := Warrant(inp, classes, order, ids, n);
      BelowRoot(inp, classes, order, ids, x, ids[n].root);
      assert AsDeclared(inp, classes, order, ids, x, ids[n].orig, ids[n].root);
    }
  }

  lemma BelowRootIsMirrored(inp: Input, classes: map<string, IrClass>, order: seq<string>, ids: map<string, Origin>, n: string, root: string)
    requires Completed(inp, classes, order, ids) && PrefixedBelow(inp) && inp.version >= 4 && root in ID_ROOTS
    requires n in inp.decls && n in classes && n !in ids && classes[n].IsInstanceOf(root) && Above(inp, n, root)
    requires IdName(root, n) in inp.decls ==> IdName(root, n) in ids
    ensures Mirrored(root, n, ids)
  {
    hide Made, IdName, Above, Inv, Warranted;
    assert HasIds(inp, n, classes);
    MadeAt(inp, classes, order, ids, [], IdName(root, n));
  }

  /** The kept members of the class are of types that name no class, neither a declared one nor an id class. */
  predicate KeepsNoClass(inp: Input, o: string) {
    o in inp.decls && forall m :: m in inp.decls[o].members && IsKept(m) && ClassNamed(inp, m).Some? ==>
      ClassNamed(inp, m).value !in inp.decls && forall root :: root in ID_ROOTS ==> !StartsWith(ClassNamed(inp, m).value, root + "_id")
  }

  lemma KeptLensAlike(inp: Input, classes: map<string, IrClass>, order: seq<string>, ids: map<string, Origin>, o: string, i: nat, j: nat)
    requires Inv(inp, classes, order, ids, []) && KeepsNoClass(inp, o) && i <= |order| && j <= |order|
    ensures KeptAlike(inp, inp.decls[o].members, Sizes(Before(classes, order, i)), Sizes(Before(classes, order, j)))
  {
    hide Made, ClassNamed, TableLength;
    forall m | m in inp.decls[o].members && IsKept(m)
      ensures MemberLen(inp, m, Sizes(Before(classes, order, i))) == MemberLen(inp, m, Sizes(Before(classes, order, j)))
    {
      if ClassNamed(inp, m).Some? && ClassNamed(inp, m).value in classes {
        DeclaredOrIdNamed(inp, classes, order, ids, ClassNamed(inp, m).value);
      }
      IrTheorems.WithoutItsClass(inp, m, Sizes(Before(classes, order, i)));
      IrTheorems.WithoutItsClass(inp, m, Sizes(Before(classes, order, j)));
    }
  }

  lemma DeclaredOrIdNamed(inp: Input, classes: map<string, IrClass>, order: seq<string>, ids: map<string, Origin>, cls: string)
    requires Inv(inp, classes, order, ids, []) && cls in classes
    ensures cls in inp.decls || exists root :: root in ID_ROOTS && StartsWith(cls, root + "_id")
  {
    hide BuiltFrom, DependsOn, HasLayout;
    MadeAt(inp, classes, order, ids, [], cls);
    if cls in ids {
      assert StartsWith(cls, ids[cls].root + "_id");
    }
  }

  lemma ChainIsMirrored(inp: Input, classes: map<string, IrClass>, order: seq<string>, ids: map<string, Origin>, o: string, root: string)
    requires Completed(inp, classes, order, ids) && RootsOnTop(inp) && PrefixedBelow(inp) && NoneTaken(inp, ids) && inp.version >= 4
    requires o in classes && root in ID_ROOTS && classes[o].IsInstanceOf(root)
    ensures Prefixed(ids) && o in order && forall n :: n in Chain(classes[o]) ==> Mirrored(root, n, ids)
  {
    hide Completed, IdName, Above, AsDeclared, PrefixedBelow, Tidy, Chain, Mirrored, Prefixed;
    TakenIsTidy(inp, ids);
    OriginsArePrefixed(inp, classes, order, ids);
    ChainIsAsDeclared(inp, classes, order, ids, o, root);
    forall n | n in Chain(classes[o]) ensures Mirrored(root, n, ids) {
      AsDeclaredIs(inp, classes, order, ids, o, n, root);
      BelowRootIsMirrored(inp, classes, order, ids, n, root);
    }
  }

  /** From version 4 on, every class below a root has an id class: with the same superclass chain and the same instances
      under the renaming, and with exactly its kept members at the offsets of their own layout. */
  lemma HierarchyMirrors(inp: Input, classes: map<string, IrClass>, order: seq<string>, ids: map<string, Origin>, o: string, root: string)
    requires Completed(inp, classes, order, ids) && RootsOnTop(inp) && PrefixedBelow(inp) && NoneTaken(inp, ids) && inp.version >= 4
    requires o in classes && root in ID_ROOTS && classes[o].IsInstanceOf(root) && KeepsNoClass(inp, o)
    ensures IdName(root, o) in classes && Chain(classes[IdName(root, o)]) == IdNames(root, Chain(classes[o]))
    ensures forall a :: StartsWith(a, root) ==> (classes[IdName(root, o)].IsInstanceOf(IdName(root, a)) <==> classes[o].IsInstanceOf(a))
    ensures var id, kept := classes[IdName(root, o)], Kept(inp.decls[o].members);
            var lens := MemberLens(inp, kept, map[]);
            && lens.Ok? && id.bytes == Sum(lens.value) <= classes[o].bytes
            && id.params == map[] && id.isVirtual == classes[o].isVirtual && (id.isVirtual || id.fixed) && |id.members| == |kept|
            && forall i :: 0 <= i < |kept| ==> id.members[i] == BuiltMember(inp.version, kept[i], InfoAt(lens.value, LastEqual(kept, i)))
  {
    hide Inv, Complete, Warranted, IdName, Above, AsDeclared, PrefixedBelow, NoneTaken, KeepsNoClass, InfoAt, LastEqual, Sum, MemberLens, KeptAlike,
         Kept, Before, Sizes, Position, Chain, IdNames;
    ChainIsMirrored(inp, classes, order, ids, o, root);
    SelfInChain(classes[o]);
    MadeAt(inp, classes, order, ids, [], o);
    NameUsed(inp, classes, order, ids, [], o);
    IdChainMirrors(inp, classes, order, ids, [], root, o);
    forall a | StartsWith(a, root) ensures classes[IdName(root, o)].IsInstanceOf(IdName(root, a)) <==> classes[o].IsInstanceOf(a) {
      IdInstanceMirrors(inp, classes, order, ids, [], root, o, a);
    }
    Listed(inp, classes, order, ids, []);
    var i, j := Position(order, o), Position(order, IdName(root, o));
    KeptLensAlike(inp, classes, order, ids, o, i, j);
    IdMembersMirror(inp, classes, order, ids, [], root, o);
    KeptLensFromTables(inp, classes, order, ids, o, j);
  }

  lemma AsDeclaredIs(inp: Input, classes: map<string, IrClass>, order: seq<string>, ids: map<string, Origin>, o: string, n: string, root: string)
    requires o in order && AsDeclared(inp, classes, order, ids, o, n, root)
    ensures n in inp.decls && n !in ids && n in classes && classes[n].IsInstanceOf(root) && Above(inp, n, root)
  {}

  lemma SelfInChain(c: IrClass)
    ensures c.name in Chain(c)
  {}

  /** No class is contained, so that the lengths of the kept members come from the tables alone. */
  lemma KeptLensFromTables(inp: Input, classes: map<string, IrClass>, order: seq<string>, ids: map<string, Origin>, o: string, j: nat)
    requires Inv(inp, classes, order, ids, []) && KeepsNoClass(inp, o) && j <= |order|
    ensures MemberLens(inp, Kept(inp.decls[o].members), Sizes(Before(classes, order, j))) == MemberLens(inp, Kept(inp.decls[o].members), map[])
  {
    hide Made, MemberLens, Kept, MemberLen;
    KeptLensAlike(inp, classes, order, ids, o, j, 0);
    IrTheorems.KeptAreMembers(inp.decls[o].members);
    assert Sizes(Before(classes, order, 0)) == map[];
    SameLens(inp, Kept(inp.decls[o].members), Sizes(Before(classes, order, j)), map[]);
  }

  lemma {:induction false} SameLens(inp: Input, members: seq<Member>, sizes: map<string, ClassSize>, sizes': map<string, ClassSize>)
    requires forall m :: m in members ==> MemberLen(inp, m, sizes) == MemberLen(inp, m, sizes')
    ensures MemberLens(inp, members, sizes) == MemberLens(inp, members, sizes')
  {
    hide MemberLen;
    if members != [] {
      SameLens(inp, members[..|members| - 1], sizes, sizes');
    }
  }
}
