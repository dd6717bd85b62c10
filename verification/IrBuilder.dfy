/** The memoised depth-first build of the classes of one protocol version. */
module IrBuilder {
  import opened Options
  import opened Results
  import opened IrInput
  import opened IrLayout
  import OrderedSets

  datatype IrMember = IrMember(decl: Member, info: LengthInfo)

  datatype IrClass = IrClass(
    name: string, superclass: Option<IrClass>, members: seq<IrMember>, isVirtual: bool, params: map<string, string>,
    fixed: bool, bytes: nat)
  {
    function Size(): ClassSize {
      ClassSize(bytes, fixed, HasExternalAlignment(params))
    }

    /** `is_instanceof`: the class itself or one of its superclasses bears the name. */
    predicate IsInstanceOf(ancestor: string) {
      name == ancestor || (superclass.Some? && superclass.value.IsInstanceOf(ancestor))
    }
  }

  datatype BuildError = Cycle(path: seq<string>) | NotFound(name: string) | BadType(error: TypeError)
                     | NotFixed(name: string) | Endless(path: seq<string>) | Clash(root: string, name: string)

  function Sizes(classes: map<string, IrClass>): map<string, ClassSize> {
    map n | n in classes :: classes[n].Size()
  }

  /** `build_member`: a version member becomes a type member whose value is the wire version. */
  function BuiltMember(version: nat, m: Member, info: LengthInfo): IrMember {
    IrMember(if m.Version? then TypeValue(m.name, m.oftype, version) else m, info)
  }

  ghost predicate HasLayout(inp: Input, decl: Decl, lens: seq<Len>, c: IrClass) {
    exists layout ::
      && IsLayout(decl, lens, layout)
      && c.bytes == layout.bytes && c.fixed == layout.fixed
      && c.members == seq(|decl.members|, i requires 0 <= i < |decl.members| && KeyOf(decl.members[i]) in layout.infos =>
           BuiltMember(inp.version, decl.members[i], layout.infos[KeyOf(decl.members[i])]))
  }

  /** `c` is what the builder makes of a declaration when the classes in `before` exist. */
  ghost predicate BuiltFrom(inp: Input, decl: Decl, before: map<string, IrClass>, c: IrClass) {
    && c.name == decl.name && c.isVirtual == decl.isVirtual && c.params == decl.params
    && (decl.superclass.None? ==> c.superclass.None?)
    && (decl.superclass.Some? ==> decl.superclass.value in before && c.superclass == Some(before[decl.superclass.value]))
    && MemberLens(inp, decl.members, Sizes(before)).Ok?
    && HasLayout(inp, decl, MemberLens(inp, decl.members, Sizes(before)).value, c)
  }

  /** The classes built before position `i`. */
  function Before(classes: map<string, IrClass>, order: seq<string>, i: nat): map<string, IrClass>
    requires i <= |order| && forall n :: n in order ==> n in classes
  {
    map n | n in order[..i] :: classes[n]
  }

  function Position(order: seq<string>, n: string): (i: nat)
    requires n in order
    ensures i < |order| && order[i] == n
  {
    if order[0] == n then 0 else 1 + Position(order[1..], n)
  }

  // --- id classes ------------------------------------------------------------------------------------------

  /** From which class, below which root, an id class was derived. */
  datatype Origin = Origin(root: string, orig: string)

  /** The name of an id class: the root's name in front becomes the root's name and `_id`. */
  function IdName(root: string, orig: string): string {
    root + "_id" + (if |orig| >= |root| then orig[|root|..] else "")
  }

  predicate IsKept(m: Member) {
    !m.Data? && !m.Pad?
  }

  /** The members of an id class: neither data nor padding, in order. */
  function Kept(members: seq<Member>): seq<Member> {
    if members == [] then
      []
    else
      var rest := Kept(members[..|members| - 1]);
      var last := members[|members| - 1];
      if IsKept(last) then rest + [last] else rest
  }

  /** The declaration that `build_id_class` makes up. */
  function IdDecl(root: string, decl: Decl): Decl {
    Decl(IdName(root, decl.name), match decl.superclass case None => None case Some(s) => Some(IdName(root, s)),
         Kept(decl.members), decl.isVirtual, map[])
  }

  // --- what the builder keeps true ----------------------------------------------------------------------------

  ghost predicate Origins(inp: Input, ids: map<string, Origin>) {
    forall n :: n in ids ==> ids[n].orig in inp.decls && n == IdName(ids[n].root, ids[n].orig) && ids[n].root in ID_ROOTS
  }

  /** The declaration from which the class `n` was made: an id class hides a declaration of the same name. */
  function Used(inp: Input, ids: map<string, Origin>, n: string): Option<Decl> {
    if n in ids then
      if ids[n].orig in inp.decls then Some(IdDecl(ids[n].root, inp.decls[ids[n].orig])) else None
    else if n in inp.decls then Some(inp.decls[n]) else None
  }

  /** The class at position `i` is made of its declaration and the classes before it; if it is not an id class,
      these include everything it depends on. */
  ghost predicate Made(inp: Input, classes: map<string, IrClass>, order: seq<string>, ids: map<string, Origin>, i: nat)
    requires i < |order| && forall n :: n in order ==> n in classes
  {
    var n := order[i];
    && Used(inp, ids, n).Some?
    && BuiltFrom(inp, Used(inp, ids, n).value, Before(classes, order, i), classes[n])
    && (n in ids ==> classes[n].isVirtual || classes[n].fixed)
    && (n !in ids ==> forall b :: DependsOn(inp, n, b) ==> b in order[..i])
  }

  /** `order` lists the classes in the order in which they were finished. Classes under way, on `trail`, are not
      among them. */
  ghost predicate Inv(inp: Input, classes: map<string, IrClass>, order: seq<string>, ids: map<string, Origin>, trail: seq<string>) {
    && (forall n :: n in inp.decls ==> inp.decls[n].name == n)
    && (forall n :: n in order <==> n in classes)
    && (forall i, j :: 0 <= i < j < |order| ==> order[i] != order[j])
    && Origins(inp, ids) && (forall n :: n in ids ==> n in classes)
    && (forall i :: 0 <= i < |order| ==> Made(inp, classes, order, ids, i))
    && (forall n :: n in trail ==> n in inp.decls && n !in classes)
  }

  lemma TrailGrows(inp: Input, classes: map<string, IrClass>, order: seq<string>, ids: map<string, Origin>, trail: seq<string>, name: string)
    requires Inv(inp, classes, order, ids, trail) && name in inp.decls && name !in classes
    ensures Inv(inp, classes, order, ids, trail + [name])
  {}

  lemma StillMade(inp: Input, classes: map<string, IrClass>, order: seq<string>, ids: map<string, Origin>,
                  classes': map<string, IrClass>, order': seq<string>, ids': map<string, Origin>, i: nat)
    requires i < |order| <= |order'| && order == order'[..|order|]
    requires forall n :: n in order ==> n in classes && n in classes' && classes'[n] == classes[n]
    requires forall n :: n in order' ==> n in classes'
    requires order[i] in ids <==> order[i] in ids'
    requires order[i] in ids ==> ids'[order[i]] == ids[order[i]]
    requires Made(inp, classes, order, ids, i)
    ensures Made(inp, classes', order', ids', i)
  {
    hide BuiltFrom, DependsOn;
    assert order'[..i] == order[..i];
    assert Before(classes', order', i) == Before(classes, order, i);
  }

  lemma ClassAdded(inp: Input, classes: map<string, IrClass>, order: seq<string>, ids: map<string, Origin>, trail: seq<string>, name: string, c: IrClass)
    requires Inv(inp, classes, order, ids, trail + [name]) && name !in trail
    requires BuiltFrom(inp, inp.decls[name], classes, c)
    requires forall b :: DependsOn(inp, name, b) ==> b in classes
    ensures Inv(inp, classes[name := c], order + [name], ids, trail)
  {
    hide BuiltFrom, DependsOn;
    var classes', order' := classes[name := c], order + [name];
    assert name in trail + [name];
    forall i | 0 <= i < |order'| ensures Made(inp, classes', order', ids, i) {
      if i < |order| {
        StillMade(inp, classes, order, ids, classes', order', ids, i);
      } else {
        assert order'[..i] == order;
        assert Before(classes', order', i) == classes;
      }
    }
    forall n | n in trail ensures n in inp.decls && n !in classes' {
      assert n in trail + [name];
    }
  }

  /** From one state to a later one: classes are only added, and all that are added are reachable from `root`. */
  ghost predicate Grown(inp: Input, root: string, classes: map<string, IrClass>, order: seq<string>, classes': map<string, IrClass>, order': seq<string>) {
    && |order| <= |order'| && order'[..|order|] == order
    && (forall n :: n in classes ==> n in classes' && classes'[n] == classes[n])
    && (forall i :: |order| <= i < |order'| ==> Reaches(inp, root, order'[i]))
  }

  lemma GrownOnward(inp: Input, a: string, b: string, c0: map<string, IrClass>, o0: seq<string>, c1: map<string, IrClass>, o1: seq<string>, c2: map<string, IrClass>, o2: seq<string>)
    requires DependsOn(inp, a, b) && Grown(inp, a, c0, o0, c1, o1) && Grown(inp, b, c1, o1, c2, o2)
    ensures Grown(inp, a, c0, o0, c2, o2)
  {
    hide Reaches, DependsOn;
    forall i | |o0| <= i < |o2|
      ensures Reaches(inp, a, o2[i])
    {
      if i < |o1| {
        assert o2[..|o1|][i] == o1[i];
      } else {
        ReachesOnward(inp, a, b, o2[i]);
      }
    }
    assert o2[..|o0|] == o2[..|o1|][..|o0|];
  }

  ghost predicate Extends(classes: map<string, IrClass>, classes': map<string, IrClass>) {
    forall n :: n in classes ==> n in classes' && classes'[n] == classes[n]
  }

  /** Which errors come from which inputs. */
  ghost predicate Justified(inp: Input, e: BuildError) {
    match e
    case Cycle(path) => ClosesCycle(inp, path)
    case Endless(path) => ClosesCycle(inp, path)
    case NotFound(name) => name !in inp.decls
    case Clash(root, name) => exists a, b :: a != b && IdName(root, a) == name && IdName(root, b) == name
    case _ => true
  }

  /** A reported cycle is met on the path of dependencies that is under way. */
  ghost predicate MetOn(trail: seq<string>, e: BuildError) {
    e.Cycle? ==> trail <= e.path
  }

  class Builder {
    const inp: Input
    const touched: OrderedSets.OrderedSet<string>
    var classes: map<string, IrClass>
    var order: seq<string>
    ghost var ids: map<string, Origin>

    ghost predicate Valid()
      reads this, touched, touched.Repr
    {
      this !in touched.Repr && touched.Valid() && Inv(inp, classes, order, ids, touched.elements)
    }

    constructor (inp: Input)
      requires forall n :: n in inp.decls ==> inp.decls[n].name == n
      ensures Valid() && fresh(touched.Repr) && this.inp == inp
      ensures classes == map[] && order == [] && ids == map[] && touched.elements == []
    {
      this.inp := inp;
      touched := new OrderedSets.OrderedSet<string>([]);
      classes, order, ids := map[], [], map[];
    }

    /** The state while `name` is being built, on top of `trail`, since the classes were `c0` and `o0`. */
    ghost predicate UnderWay(name: string, trail: seq<string>, c0: map<string, IrClass>, o0: seq<string>)
      reads this, touched, touched.Repr
    {
      && Valid() && touched.elements == trail + [name] && name in inp.decls
      && IsPath(inp, trail + [name]) && Grown(inp, name, c0, o0, classes, order)
    }

    /** `build_class`. The touched set, in order, is the path of dependencies that leads to `name`. */
    method BuildClass(name: string) returns (r: Result<IrClass, BuildError>)
      requires Valid() && IsPath(inp, touched.elements + [name])
      modifies this`classes, this`order, touched.Repr
      decreases Untouched(inp, touched.elements), 0
      ensures touched.Valid() && this !in touched.Repr && fresh(touched.Repr - old(touched.Repr))
      ensures r.Ok? ==> Valid() && touched.elements == old(touched.elements)
      ensures r.Ok? ==> name in classes && classes[name] == r.value
      ensures r.Ok? ==> Grown(inp, name, old(classes), old(order), classes, order)
      ensures r.Err? ==> Justified(inp, r.error) && MetOn(old(touched.elements), r.error)
    {
      hide Inv, BuiltFrom, HasLayout, Grown, DependsOn, IsPath, ClosesCycle, IsLayout, MemberLens, SuperclassReady, Untouched;
      if name in classes {
        GrownReflexive(inp, name, classes, order);
        return Ok(classes[name]);
      }
      if touched.Contains(name) {
        var path := touched.Iterate();
        PathCloses(inp, path, name);
        return Err(Cycle(path + [name]));
      }
      if name !in inp.decls {
        return Err(NotFound(name));
      }
      ghost var trail := touched.elements;
      TrailGrows(inp, classes, order, ids, trail, name);
      GrownReflexive(inp, name, classes, order);
      Shrinks(inp, trail, name);
      touched.Add(name);
      var decl := inp.decls[name];
      var superclass := BuildDependencies(name, decl, trail, old(classes), old(order));
      if superclass.Err? {
        return Err(superclass.error);
      }
      r := Finish(name, superclass.value, trail, old(classes), old(order));
    }

    /** The last part of `build_class`: the class object, from the classes on which it depends. */
    method Finish(name: string, superclass: Option<IrClass>, ghost trail: seq<string>, ghost c0: map<string, IrClass>, ghost o0: seq<string>)
      returns (r: Result<IrClass, BuildError>)
      requires UnderWay(name, trail, c0, o0) && name !in trail
      requires SuperclassReady(inp.decls[name], superclass, classes) && forall b :: DependsOn(inp, name, b) ==> b in classes
      modifies this`classes, this`order, touched.Repr
      ensures touched.Valid() && touched.Repr == old(touched.Repr)
      ensures r.Ok? ==> Valid() && touched.elements == trail
      ensures r.Ok? ==> name in classes && classes[name] == r.value && Grown(inp, name, c0, o0, classes, order)
      ensures r.Err? ==> Justified(inp, r.error) && MetOn(trail, r.error)
    {
      hide Inv, BuiltFrom, Grown, DependsOn, IsPath, ClosesCycle, IsLayout, MemberLens, SuperclassReady;
      var decl := inp.decls[name];
      var layout := CalcLengths(inp, decl, Sizes(classes));
      if layout.Err? {
        return Err(BadType(layout.error));
      }
      var c := MakeClass(inp, decl, superclass, layout.value, classes);
      ClassAdded(inp, classes, order, ids, trail, name, c);
      GrownBySelf(inp, name, c0, o0, classes, order, ids, trail, c);
      classes := classes[name := c];
      order := order + [name];
      OrderedSets.RemovedLast(trail, name);
      touched.Discard(name);
      return Ok(c);
    }

    /** The superclass, and the classes that the members mention: these are built first, for the lengths. */
    method BuildDependencies(name: string, decl: Decl, ghost trail: seq<string>, ghost c0: map<string, IrClass>, ghost o0: seq<string>)
      returns (r: Result<Option<IrClass>, BuildError>)
      requires UnderWay(name, trail, c0, o0) && decl == inp.decls[name]
      modifies this`classes, this`order, touched.Repr
      decreases Untouched(inp, trail + [name]), 3
      ensures touched.Valid() && this !in touched.Repr && fresh(touched.Repr - old(touched.Repr))
      ensures r.Ok? ==> UnderWay(name, trail, c0, o0)
      ensures r.Ok? ==> SuperclassReady(decl, r.value, classes) && forall b :: DependsOn(inp, name, b) ==> b in classes
      ensures r.Err? ==> Justified(inp, r.error) && MetOn(trail + [name], r.error)
    {
      hide Inv, Grown, DependsOn, IsPath, ClosesCycle, SuperclassReady, Extends, Untouched;
      var superclass: Option<IrClass> := None;
      if decl.superclass.Some? {
        SuperclassIsDependency(inp, name);
        var built := BuildDependency(name, decl.superclass.value, trail, c0, o0);
        if built.Err? {
          return Err(built.error);
        }
        superclass := Some(built.value);
      }
      Ready(decl, superclass, classes);
      for i := 0 to |decl.members|
        invariant UnderWay(name, trail, c0, o0) && fresh(touched.Repr - old(touched.Repr))
        invariant SuperclassReady(decl, superclass, classes)
        invariant MentionsBuilt(inp, decl.members[..i], classes)
      {
        ghost var before := classes;
        var failed := BuildMentions(name, decl.members[i], trail, c0, o0);
        if failed.Some? {
          return Err(failed.value);
        }
        StillReady(decl, superclass, before, classes);
        OneMoreMention(inp, decl.members, i, before, classes);
      }
      AllDependenciesBuilt(inp, name, decl, superclass, classes);
      return Ok(superclass);
    }

    /** The classes that one member mentions. */
    method BuildMentions(name: string, m: Member, ghost trail: seq<string>, ghost c0: map<string, IrClass>, ghost o0: seq<string>)
      returns (failed: Option<BuildError>)
      requires UnderWay(name, trail, c0, o0) && m in inp.decls[name].members
      modifies this`classes, this`order, touched.Repr
      decreases Untouched(inp, trail + [name]), 2
      ensures touched.Valid() && this !in touched.Repr && fresh(touched.Repr - old(touched.Repr))
      ensures failed.None? ==> UnderWay(name, trail, c0, o0) && Extends(old(classes), classes)
      ensures failed.None? ==> forall b :: b in inp.decls && Mentions(m, b) ==> b in classes
      ensures failed.Some? ==> Justified(inp, failed.value) && MetOn(trail + [name], failed.value)
    {
      hide Inv, Grown, DependsOn, IsPath, ClosesCycle, Untouched;
      if !m.Pad? {
        if StripT(m.oftype) in inp.decls {
          Mentioned(inp, name, m, StripT(m.oftype));
          var built := BuildDependency(name, StripT(m.oftype), trail, c0, o0);
          if built.Err? {
            return Some(built.error);
          }
        }
        if m.oftype in inp.decls {
          Mentioned(inp, name, m, m.oftype);
          var built := BuildDependency(name, m.oftype, trail, c0, o0);
          if built.Err? {
            return Some(built.error);
          }
        }
      }
      return None;
    }

    /** One recursive call of `build_class`, for a dependency of the class `name` under way. */
    method BuildDependency(name: string, b: string, ghost trail: seq<string>, ghost c0: map<string, IrClass>, ghost o0: seq<string>)
      returns (r: Result<IrClass, BuildError>)
      requires UnderWay(name, trail, c0, o0) && DependsOn(inp, name, b)
      modifies this`classes, this`order, touched.Repr
      decreases Untouched(inp, trail + [name]), 1
      ensures touched.Valid() && this !in touched.Repr && fresh(touched.Repr - old(touched.Repr))
      ensures r.Ok? ==> UnderWay(name, trail, c0, o0) && Extends(old(classes), classes)
      ensures r.Ok? ==> b in classes && classes[b] == r.value
      ensures r.Err? ==> Justified(inp, r.error) && MetOn(trail + [name], r.error)
    {
      hide Inv, DependsOn, IsPath, ClosesCycle, Reaches, Untouched;
      PathOnward(inp, trail + [name], b);
      r := BuildClass(b);
      if r.Ok? {
        GrownOnward(inp, name, b, c0, o0, old(classes), old(order), classes, order);
      }
    }

    /** `build_id_class`. `chain` holds the classes whose id classes wait for this one; coming back to one of them
        would go on for ever. An id class that would replace another of the same name is refused. */
    method BuildIdClass(root: string, orig: string, chain: seq<string>) returns (r: Result<IrClass, BuildError>)
      requires Valid() && touched.elements == [] && IsPath(inp, chain + [orig]) && root in ID_ROOTS
      modifies this`classes, this`order, this`ids
      decreases Untouched(inp, chain)
      ensures r.Ok? ==> Valid() && IdName(root, orig) in classes && classes[IdName(root, orig)] == r.value
      ensures r.Ok? ==> IdsGrown(root, chain, old(classes), old(order), old(ids), classes, order, ids)
      ensures r.Ok? ==> IdsAbove(inp, orig, old(classes), classes, ids)
      ensures r.Err? ==> Justified(inp, r.error)
    {
      hide Inv, BuiltFrom, DependsOn, IsPath, ClosesCycle, IsLayout, MemberLens, SuperclassReady, Untouched, Kept, IdsGrown, Above, IdsAbove;
      var name := IdName(root, orig);
      IdsGrownReflexive(root, chain, classes, order, ids);
      NoneAbove(inp, orig, classes, ids);
      if name in classes {
        return Ok(classes[name]);
      }
      if orig !in inp.decls {
        return Err(NotFound(orig));
      }
      if orig in chain {
        PathCloses(inp, chain, orig);
        return Err(Endless(chain + [orig]));
      }
      var superclass: Option<IrClass> := None;
      if inp.decls[orig].superclass.Some? {
        var s := inp.decls[orig].superclass.value;
        SuperclassIsDependency(inp, orig);
        PathOnward(inp, chain + [orig], s);
        Shrinks(inp, chain, orig);
        var built := BuildIdClass(root, s, chain + [orig]);
        if built.Err? {
          return Err(built.error);
        }
        superclass := Some(built.value);
        if name in classes {
          ClashNamed(inp, root, chain + [orig], old(classes), old(order), old(ids), classes, order, ids, orig);
          return Err(Clash(root, name));
        }
        IdsGrownOnward(root, chain, orig, old(classes), old(order), old(ids), classes, order, ids);
        IdsAboveOnward(inp, orig, s, old(classes), classes, ids);
      }
      Ready(IdDecl(root, inp.decls[orig]), superclass, classes);
      ghost var c1, o1, i1 := classes, order, ids;
      r := FinishIdClass(root, orig, superclass);
      if r.Ok? {
        IdsGrownByOne(root, chain, orig, old(classes), old(order), old(ids), c1, o1, i1, r.value);
        IdsAboveByOne(inp, root, orig, old(classes), c1, i1, r.value);
      }
    }

    /** The last part of `build_id_class`: every id class that is not virtual has a fixed length. */
    method FinishIdClass(root: string, orig: string, superclass: Option<IrClass>) returns (r: Result<IrClass, BuildError>)
      requires Valid() && touched.elements == [] && orig in inp.decls && IdName(root, orig) !in classes && root in ID_ROOTS
      requires SuperclassReady(IdDecl(root, inp.decls[orig]), superclass, classes)
      modifies this`classes, this`order, this`ids
      ensures r.Ok? ==> Valid() && classes == old(classes)[IdName(root, orig) := r.value] && order == old(order) + [IdName(root, orig)]
      ensures r.Ok? ==> IdName(root, orig) !in old(ids) && ids == old(ids)[IdName(root, orig) := Origin(root, orig)]
      ensures r.Err? ==> Justified(inp, r.error)
    {
      hide Inv, BuiltFrom, IsLayout, MemberLens, SuperclassReady, Kept;
      var name := IdName(root, orig);
      var fe := IdDecl(root, inp.decls[orig]);
      var layout := CalcLengths(inp, fe, Sizes(classes));
      if layout.Err? {
        return Err(BadType(layout.error));
      }
      if !fe.isVirtual && !layout.value.fixed {
        return Err(NotFixed(name));
      }
      var c := MakeClass(inp, fe, superclass, layout.value, classes);
      IdClassAdded(inp, classes, order, ids, root, orig, c);
      classes := classes[name := c];
      order := order + [name];
      ids := ids[name := Origin(root, orig)];
      return Ok(c);
    }

    /** The loop of `build_protocol`, over the declared names in any order. */
    method BuildProtocol(names: seq<string>) returns (r: Result<(), BuildError>)
      requires Valid() && touched.elements == [] && classes == map[] && ids == map[]
      requires forall n :: n in names <==> n in inp.decls
      modifies this`classes, this`order, this`ids, touched.Repr
      ensures r.Ok? ==> Valid() && touched.elements == [] && Completed(inp, classes, order, ids)
      ensures r.Ok? && names != [] ==> VisitedFirst(inp, names[0], classes, order, ids)
      ensures r.Err? ==> Justified(inp, r.error)
    {
      hide Inv, Grown, Reaches, IsPath, ClosesCycle, HasIds, IdName, Above, HasWarrant, FirstVisit;
      IsolatedPath(inp);
      NothingYet(inp, order);
      Listed(inp, classes, order, ids, []);
      for i := 0 to |names|
        invariant Valid() && touched.elements == [] && fresh(touched.Repr - old(touched.Repr))
        invariant forall n :: n in names[..i] ==> n in classes && HasIds(inp, n, classes)
        invariant inp.version < 4 ==> ids == map[]
        invariant Warranted(inp, classes, order, ids)
        invariant i == 0 ==> order == [] && classes == map[] && ids == map[]
        invariant i > 0 ==> VisitedFirst(inp, names[0], classes, order, ids)
      {
        ghost var c0, o0, i0 := classes, order, ids;
        assert i == 0 || VisitedFirst(inp, names[0], c0, o0, i0);
        var failed := Visit(names[i], i == 0);
        if failed.Some? {
          return Err(failed.value);
        }
        if i > 0 {
          Listed(inp, c0, o0, i0, []);
          FirstVisitStays(inp, names[0], c0, o0, i0, classes, order, ids);
        }
        StillHaveIds(inp, names, i, c0, classes);
      }
      return Ok(());
    }

    /** One pass of that loop: a class, and its id class below each root. */
    method Visit(name: string, ghost first: bool) returns (failed: Option<BuildError>)
      requires Valid() && touched.elements == [] && name in inp.decls && (inp.version < 4 ==> ids == map[])
      requires Warranted(inp, classes, order, ids) && (first ==> order == [] && classes == map[] && ids == map[])
      modifies this`classes, this`order, this`ids, touched.Repr
      ensures touched.Valid() && this !in touched.Repr && fresh(touched.Repr - old(touched.Repr))
      ensures failed.None? ==> Valid() && touched.elements == [] && (inp.version < 4 ==> ids == map[])
      ensures failed.None? ==> Later(old(classes), old(order), old(ids), classes, order, ids)
      ensures failed.None? ==> name in classes && HasIds(inp, name, classes) && Warranted(inp, classes, order, ids)
      ensures failed.None? && first ==> VisitedFirst(inp, name, classes, order, ids)
      ensures failed.Some? ==> Justified(inp, failed.value)
    {
      hide Inv, Grown, Reaches, IsPath, ClosesCycle, IdsGrown, IdsAbove, HasIds, IdName, Above, HasWarrant, FirstVisit, Later, FirstStage;
      IsolatedPath(inp);
      ghost var c0, o0, i0 := classes, order, ids;
      Listed(inp, c0, o0, i0, []);
      var built := BuildClass(name);
      if built.Err? {
        return Some(built.error);
      }
      ghost var c1, o1, i1 := classes, order, ids;
      Listed(inp, c1, o1, i1, []);
      ClassesLater(inp, name, c0, o0, classes, order, ids);
      WarrantsStay(inp, c0, o0, ids, classes, order, ids);
      if first {
        StageReached(inp, name, classes, order, built.value);
      }
      if inp.version >= 4 {
        LaterReflexive(classes, order, ids);
        for k := 0 to |ID_ROOTS|
          invariant Valid() && touched.elements == [] && fresh(touched.Repr - old(touched.Repr))
          invariant Later(c1, o1, i1, classes, order, ids) && Warranted(inp, classes, order, ids)
          invariant first ==> FirstStage(inp, name, built.value, order, ids, |o1|)
          invariant name in classes && classes[name] == built.value
          invariant forall j :: 0 <= j < k && built.value.IsInstanceOf(ID_ROOTS[j]) ==> IdName(ID_ROOTS[j], name) in classes
        {
          if built.value.IsInstanceOf(ID_ROOTS[k]) {
            ghost var c2, o2, i2 := classes, order, ids;
            var id := BuildIdClass(ID_ROOTS[k], name, []);
            if id.Err? {
              return Some(id.error);
            }
            IdsLater(ID_ROOTS[k], c2, o2, i2, classes, order, ids);
            NewWarrants(inp, ID_ROOTS[k], name, c2, o2, i2, classes, order, ids);
            if first {
              StageOnward(inp, ID_ROOTS[k], name, built.value, c2, o2, i2, classes, order, ids, |o1|);
            }
            LaterOnward(c1, o1, i1, c2, o2, i2, classes, order, ids);
            LaterKeeps(c2, o2, i2, classes, order, ids);
          }
        }
        LaterOnward(c0, o0, i0, c1, o1, i1, classes, order, ids);
      }
      IdsThere(inp, name, classes);
      Listed(inp, classes, order, ids, []);
      if first {
        StagesDone(inp, name, classes, order, ids, |o1|);
      }
      return None;
    }
  }

  // --- from one state to a later one ----------------------------------------------------------------------------------

  /** Classes and id classes are only added. */
  ghost predicate Later(c0: map<string, IrClass>, o0: seq<string>, i0: map<string, Origin>, c1: map<string, IrClass>, o1: seq<string>, i1: map<string, Origin>) {
    && Extends(c0, c1) && o0 <= o1
    && (forall n :: n in i0 ==> n in i1 && i1[n] == i0[n])
    && (forall n :: n in i1 && n in c0 ==> n in i0)
  }

  /** What is listed is what there is. */
  lemma Listed(inp: Input, classes: map<string, IrClass>, order: seq<string>, ids: map<string, Origin>, trail: seq<string>)
    requires Inv(inp, classes, order, ids, trail)
    ensures (forall n :: n in order <==> n in classes) && (forall n :: n in ids ==> n in classes)
    ensures classes == map[] ==> order == []
  {
    hide Made, Origins;
    if order != [] { assert order[0] in order; }
  }

  lemma LaterReflexive(c: map<string, IrClass>, o: seq<string>, i: map<string, Origin>)
    ensures Later(c, o, i, c, o, i)
  {}

  lemma LaterKeeps(c0: map<string, IrClass>, o0: seq<string>, i0: map<string, Origin>, c1: map<string, IrClass>, o1: seq<string>, i1: map<string, Origin>)
    requires Later(c0, o0, i0, c1, o1, i1)
    ensures Extends(c0, c1)
  {}

  lemma LaterOnward(c0: map<string, IrClass>, o0: seq<string>, i0: map<string, Origin>, c1: map<string, IrClass>, o1: seq<string>, i1: map<string, Origin>,
                    c2: map<string, IrClass>, o2: seq<string>, i2: map<string, Origin>)
    requires Later(c0, o0, i0, c1, o1, i1) && Later(c1, o1, i1, c2, o2, i2)
    ensures Later(c0, o0, i0, c2, o2, i2)
  {}

  lemma ClassesLater(inp: Input, root: string, c0: map<string, IrClass>, o0: seq<string>, c1: map<string, IrClass>, o1: seq<string>, ids: map<string, Origin>)
    requires Grown(inp, root, c0, o0, c1, o1) && forall n :: n in ids ==> n in c0
    ensures Later(c0, o0, ids, c1, o1, ids)
  {}

  lemma IdsLater(root: string, c0: map<string, IrClass>, o0: seq<string>, i0: map<string, Origin>, c1: map<string, IrClass>, o1: seq<string>, i1: map<string, Origin>)
    requires IdsGrown(root, [], c0, o0, i0, c1, o1, i1)
    ensures Later(c0, o0, i0, c1, o1, i1)
  {}

  // --- why there are id classes -----------------------------------------------------------------------------------------

  /** An id class was made for a declared class below its root, which was built before, or for a superclass of that. */
  ghost predicate HasWarrant(inp: Input, classes: map<string, IrClass>, order: seq<string>, n: string, origin: Origin) {
    exists i, j :: 0 <= i < j < |order| && order[j] == n && order[i] in inp.decls && order[i] in classes
      && classes[order[i]].IsInstanceOf(origin.root) && Above(inp, order[i], origin.orig)
  }

  ghost predicate Warranted(inp: Input, classes: map<string, IrClass>, order: seq<string>, ids: map<string, Origin>) {
    forall n :: n in ids ==> HasWarrant(inp, classes, order, n, ids[n])
  }

  lemma NothingYet(inp: Input, order: seq<string>)
    ensures Warranted(inp, map[], order, map[])
  {}

  lemma WarrantStays(inp: Input, c0: map<string, IrClass>, o0: seq<string>, c1: map<string, IrClass>, o1: seq<string>, n: string, origin: Origin)
    requires HasWarrant(inp, c0, o0, n, origin) && Extends(c0, c1) && o0 <= o1
    ensures HasWarrant(inp, c1, o1, n, origin)
  {
    hide Above, IrClass.IsInstanceOf;
    var i, j :| 0 <= i < j < |o0| && o0[j] == n && o0[i] in inp.decls && o0[i] in c0
      && c0[o0[i]].IsInstanceOf(origin.root) && Above(inp, o0[i], origin.orig);
    assert o1[i] == o0[i] && o1[j] == o0[j];
  }

  lemma WarrantsStay(inp: Input, c0: map<string, IrClass>, o0: seq<string>, i0: map<string, Origin>, c1: map<string, IrClass>, o1: seq<string>, i1: map<string, Origin>)
    requires Warranted(inp, c0, o0, i0) && Later(c0, o0, i0, c1, o1, i1)
    ensures forall n :: n in i0 ==> HasWarrant(inp, c1, o1, n, i1[n])
  {
    hide HasWarrant;
    forall n | n in i0 ensures HasWarrant(inp, c1, o1, n, i1[n]) {
      WarrantStays(inp, c0, o0, c1, o1, n, i0[n]);
    }
  }

  lemma NewWarrants(inp: Input, root: string, name: string, c0: map<string, IrClass>, o0: seq<string>, i0: map<string, Origin>,
                    c1: map<string, IrClass>, o1: seq<string>, i1: map<string, Origin>)
    requires Warranted(inp, c0, o0, i0) && Inv(inp, c0, o0, i0, []) && Inv(inp, c1, o1, i1, [])
    requires IdsGrown(root, [], c0, o0, i0, c1, o1, i1) && IdsAbove(inp, name, c0, c1, i1)
    requires name in inp.decls && name in c0 && c0[name].IsInstanceOf(root)
    ensures Warranted(inp, c1, o1, i1)
  {
    hide HasWarrant, Made, Above, IrClass.IsInstanceOf;
    IdsLater(root, c0, o0, i0, c1, o1, i1);
    WarrantsStay(inp, c0, o0, i0, c1, o1, i1);
    forall n | n in i1 && n !in i0 ensures HasWarrant(inp, c1, o1, n, i1[n]) {
      assert n in c1 && n !in c0 && n in o1 && name in o0;
      NewWarrant(inp, root, name, o0, c1, o1, n, i1[n]);
    }
  }

  lemma NewWarrant(inp: Input, root: string, name: string, o0: seq<string>, c1: map<string, IrClass>, o1: seq<string>, n: string, origin: Origin)
    requires o0 <= o1 && name in o0 && n in o1 && n !in o0 && name in inp.decls && name in c1
    requires origin.root == root && c1[name].IsInstanceOf(root) && Above(inp, name, origin.orig)
    ensures HasWarrant(inp, c1, o1, n, origin)
  {
    var i, j := Position(o0, name), Position(o1, n);
    assert o1[i] == o0[i] == name;
    assert forall m :: 0 <= m < |o0| ==> o1[m] == o0[m] && o0[m] in o0;
  }

  // --- the class that is visited first --------------------------------------------------------------------------------------

  /** The origin of an id class of `n` or of its superclasses, below a root. */
  ghost predicate IdOf(inp: Input, n: string, c: IrClass, origin: Origin) {
    Above(inp, n, origin.orig) && c.IsInstanceOf(origin.root)
  }

  /** First come `n` and classes that it leads to, then id classes of it and its superclasses, with those it must have. */
  ghost predicate FirstVisit(inp: Input, n: string, classes: map<string, IrClass>, order: seq<string>, ids: map<string, Origin>, k: nat, k': nat) {
    && k <= k' <= |order| && n in order[..k]
    && (forall i :: 0 <= i < k ==> order[i] !in ids && Reaches(inp, n, order[i]))
    && (forall i :: k <= i < k' ==> order[i] in ids && n in classes && IdOf(inp, n, classes[n], ids[order[i]]))
    && (forall root :: root in ID_ROOTS && inp.version >= 4 && n in classes && classes[n].IsInstanceOf(root) ==> IdName(root, n) in order[..k'])
  }

  ghost predicate VisitedFirst(inp: Input, n: string, classes: map<string, IrClass>, order: seq<string>, ids: map<string, Origin>) {
    exists k, k' :: FirstVisit(inp, n, classes, order, ids, k, k')
  }

  lemma FirstVisitStays(inp: Input, n: string, c0: map<string, IrClass>, o0: seq<string>, i0: map<string, Origin>, c1: map<string, IrClass>, o1: seq<string>, i1: map<string, Origin>)
    requires VisitedFirst(inp, n, c0, o0, i0) && Later(c0, o0, i0, c1, o1, i1) && forall m :: m in o0 ==> m in c0
    ensures VisitedFirst(inp, n, c1, o1, i1)
  {
    hide Reaches, Above, IdName, IrClass.IsInstanceOf;
    var k: nat, k': nat :| FirstVisit(inp, n, c0, o0, i0, k, k');
    assert o1[..k] == o0[..k] && o1[..k'] == o0[..k'];
    assert forall i :: 0 <= i < k' ==> o1[i] == o0[i] && o0[i] in c0;
    assert n in o0[..k] && n in o0;
    assert FirstVisit(inp, n, c1, o1, i1, k, k');
  }

  /** While the first class is visited: `k` classes that it leads to, then id classes. */
  ghost predicate FirstStage(inp: Input, n: string, c: IrClass, order: seq<string>, ids: map<string, Origin>, k: nat) {
    && k <= |order| && n in order[..k]
    && (forall i :: 0 <= i < k ==> order[i] !in ids && Reaches(inp, n, order[i]))
    && (forall i :: k <= i < |order| ==> order[i] in ids && IdOf(inp, n, c, ids[order[i]]))
  }

  lemma StageReached(inp: Input, n: string, classes: map<string, IrClass>, order: seq<string>, c: IrClass)
    requires Grown(inp, n, map[], [], classes, order) && n in order
    ensures FirstStage(inp, n, c, order, map[], |order|)
  {
    hide Reaches;
    assert order[..|order|] == order;
  }

  lemma StageOnward(inp: Input, root: string, n: string, c: IrClass, c0: map<string, IrClass>, o0: seq<string>, i0: map<string, Origin>,
                    c1: map<string, IrClass>, o1: seq<string>, i1: map<string, Origin>, k: nat)
    requires FirstStage(inp, n, c, o0, i0, k) && c.IsInstanceOf(root) && Inv(inp, c0, o0, i0, []) && Inv(inp, c1, o1, i1, [])
    requires IdsGrown(root, [], c0, o0, i0, c1, o1, i1) && IdsAbove(inp, n, c0, c1, i1)
    ensures FirstStage(inp, n, c, o1, i1, k)
  {
    hide Reaches, Above, Inv, FirstStage, IdsGrown, Later;
    Listed(inp, c0, o0, i0, []);
    IdsLater(root, c0, o0, i0, c1, o1, i1);
    OnlyNewComeLater(inp, c0, o0, i0, c1, o1, i1);
    NewRoots(root, c0, o0, i0, c1, o1, i1);
    StageStays(inp, root, n, c, c0, o0, i0, c1, o1, i1, k);
  }

  lemma NewRoots(root: string, c0: map<string, IrClass>, o0: seq<string>, i0: map<string, Origin>,
                 c1: map<string, IrClass>, o1: seq<string>, i1: map<string, Origin>)
    requires IdsGrown(root, [], c0, o0, i0, c1, o1, i1)
    ensures forall m :: m in c1 && m !in c0 ==> m in i1 && i1[m].root == root
  {}

  lemma StageStays(inp: Input, root: string, n: string, c: IrClass, c0: map<string, IrClass>, o0: seq<string>, i0: map<string, Origin>,
                   c1: map<string, IrClass>, o1: seq<string>, i1: map<string, Origin>, k: nat)
    requires FirstStage(inp, n, c, o0, i0, k) && c.IsInstanceOf(root) && Later(c0, o0, i0, c1, o1, i1) && IdsAbove(inp, n, c0, c1, i1)
    requires (forall i :: 0 <= i < |o0| ==> o0[i] in c0) && forall i :: |o0| <= i < |o1| ==> o1[i] in c1 && o1[i] !in c0
    requires forall m :: m in c1 && m !in c0 ==> m in i1 && i1[m].root == root
    ensures FirstStage(inp, n, c, o1, i1, k)
  {
    hide Reaches, Above, Extends, IrClass.IsInstanceOf;
    assert o1[..k] == o0[..k];
    assert forall i :: 0 <= i < |o0| ==> o1[i] == o0[i];
  }

  lemma OnlyNewComeLater(inp: Input, c0: map<string, IrClass>, o0: seq<string>, i0: map<string, Origin>,
                         c1: map<string, IrClass>, o1: seq<string>, i1: map<string, Origin>)
    requires Inv(inp, c0, o0, i0, []) && Inv(inp, c1, o1, i1, []) && o0 <= o1
    ensures forall i :: |o0| <= i < |o1| ==> o1[i] in c1 && o1[i] !in c0
  {
    hide Made, Origins;
    forall i | |o0| <= i < |o1| ensures o1[i] in c1 && o1[i] !in c0 {
      assert forall j :: 0 <= j < |o0| ==> o0[j] == o1[j];
    }
  }

  lemma StagesDone(inp: Input, n: string, classes: map<string, IrClass>, order: seq<string>, ids: map<string, Origin>, k: nat)
    requires n in classes && FirstStage(inp, n, classes[n], order, ids, k) && HasIds(inp, n, classes) && forall m :: m in classes ==> m in order
    ensures VisitedFirst(inp, n, classes, order, ids)
  {
    hide Reaches, Above, IdName, IrClass.IsInstanceOf;
    assert order[..|order|] == order;
    assert FirstVisit(inp, n, classes, order, ids, k, |order|);
  }

  lemma IdsThere(inp: Input, n: string, classes: map<string, IrClass>)
    requires n in classes && (inp.version >= 4 ==>
      forall k :: 0 <= k < |ID_ROOTS| && classes[n].IsInstanceOf(ID_ROOTS[k]) ==> IdName(ID_ROOTS[k], n) in classes)
    ensures HasIds(inp, n, classes)
  {
    hide IdName, IrClass.IsInstanceOf;
  }

  // --- id classes are only added ------------------------------------------------------------------------------------

  /** From one state to a later one: id classes are added below one root, none for the classes in `chain`. */
  ghost predicate IdsGrown(root: string, chain: seq<string>, classes: map<string, IrClass>, order: seq<string>, ids: map<string, Origin>,
                           classes': map<string, IrClass>, order': seq<string>, ids': map<string, Origin>)
  {
    && Extends(classes, classes') && |order| <= |order'| && order'[..|order|] == order
    && (forall n :: n in ids ==> n in ids' && ids'[n] == ids[n])
    && (forall n :: n in ids' && n in classes ==> n in ids)
    && (forall n :: n in classes' && n !in classes ==> n in ids' && ids'[n].root == root && ids'[n].orig !in chain)
  }

  /** The id classes that are new are those of `orig` and its superclasses. */
  ghost predicate IdsAbove(inp: Input, orig: string, classes: map<string, IrClass>, classes': map<string, IrClass>, ids': map<string, Origin>) {
    forall n :: n in classes' && n !in classes ==> n in ids' && Above(inp, orig, ids'[n].orig)
  }

  lemma NoneAbove(inp: Input, orig: string, classes: map<string, IrClass>, ids: map<string, Origin>)
    ensures IdsAbove(inp, orig, classes, classes, ids)
  {}

  lemma IdsAboveOnward(inp: Input, orig: string, s: string, classes: map<string, IrClass>, classes': map<string, IrClass>, ids': map<string, Origin>)
    requires orig in inp.decls && inp.decls[orig].superclass == Some(s) && IdsAbove(inp, s, classes, classes', ids')
    ensures IdsAbove(inp, orig, classes, classes', ids')
  {
    hide Above;
    forall n | n in classes' && n !in classes ensures Above(inp, orig, ids'[n].orig) {
      AboveOnward(inp, orig, s, ids'[n].orig);
    }
  }

  lemma IdsAboveByOne(inp: Input, root: string, orig: string, classes: map<string, IrClass>, classes': map<string, IrClass>, ids': map<string, Origin>, c: IrClass)
    requires IdsAbove(inp, orig, classes, classes', ids') && IdName(root, orig) !in classes'
    ensures IdsAbove(inp, orig, classes, classes'[IdName(root, orig) := c], ids'[IdName(root, orig) := Origin(root, orig)])
  {
    hide Above;
    AboveSelf(inp, orig);
  }

  lemma IdsGrownReflexive(root: string, chain: seq<string>, classes: map<string, IrClass>, order: seq<string>, ids: map<string, Origin>)
    ensures IdsGrown(root, chain, classes, order, ids, classes, order, ids)
  {}

  lemma IdsGrownOnward(root: string, chain: seq<string>, orig: string, classes: map<string, IrClass>, order: seq<string>, ids: map<string, Origin>,
                       classes': map<string, IrClass>, order': seq<string>, ids': map<string, Origin>)
    requires IdsGrown(root, chain + [orig], classes, order, ids, classes', order', ids')
    ensures IdsGrown(root, chain, classes, order, ids, classes', order', ids')
  {}

  lemma IdsGrownByOne(root: string, chain: seq<string>, orig: string, classes: map<string, IrClass>, order: seq<string>, ids: map<string, Origin>,
                      classes': map<string, IrClass>, order': seq<string>, ids': map<string, Origin>, c: IrClass)
    requires IdsGrown(root, chain, classes, order, ids, classes', order', ids') && orig !in chain && IdName(root, orig) !in classes' && IdName(root, orig) !in ids'
    ensures var name := IdName(root, orig);
            IdsGrown(root, chain, classes, order, ids, classes'[name := c], order' + [name], ids'[name := Origin(root, orig)])
  {}

  lemma ClashNamed(inp: Input, root: string, chain: seq<string>, classes: map<string, IrClass>, order: seq<string>, ids: map<string, Origin>,
                   classes': map<string, IrClass>, order': seq<string>, ids': map<string, Origin>, orig: string)
    requires IdsGrown(root, chain, classes, order, ids, classes', order', ids') && Inv(inp, classes', order', ids', [])
    requires orig in chain && IdName(root, orig) in classes' && IdName(root, orig) !in classes
    ensures Justified(inp, Clash(root, IdName(root, orig)))
  {}

  lemma IdClassAdded(inp: Input, classes: map<string, IrClass>, order: seq<string>, ids: map<string, Origin>, root: string, orig: string, c: IrClass)
    requires Inv(inp, classes, order, ids, []) && orig in inp.decls && IdName(root, orig) !in classes && root in ID_ROOTS
    requires BuiltFrom(inp, IdDecl(root, inp.decls[orig]), classes, c) && (c.isVirtual || c.fixed)
    ensures var name := IdName(root, orig);
            name !in ids && Inv(inp, classes[name := c], order + [name], ids[name := Origin(root, orig)], [])
  {
    hide BuiltFrom, DependsOn, IdDecl, IdName;
    var name := IdName(root, orig);
    var classes', order', ids' := classes[name := c], order + [name], ids[name := Origin(root, orig)];
    forall i | 0 <= i < |order'| ensures Made(inp, classes', order', ids', i) {
      if i < |order| {
        StillMade(inp, classes, order, ids, classes', order', ids', i);
      } else {
        assert order'[..i] == order;
        assert Before(classes', order', i) == classes;
      }
    }
  }

  // --- the completed build ---------------------------------------------------------------------------------------------

  const ID_ROOTS := ["of_action", "of_instruction"]

  /** The class has an id class for every root below which it is. */
  ghost predicate HasIds(inp: Input, n: string, classes: map<string, IrClass>) {
    forall root :: root in ID_ROOTS && inp.version >= 4 && n in classes && classes[n].IsInstanceOf(root) ==> IdName(root, n) in classes
  }

  /** All declared classes are there, with their id classes, from version 4 on. */
  ghost predicate Complete(inp: Input, classes: map<string, IrClass>, ids: map<string, Origin>) {
    && (forall n :: n in inp.decls ==> n in classes && HasIds(inp, n, classes))
    && (inp.version < 4 ==> ids == map[])
  }

  /** What a build leaves when it ends without an error. */
  ghost predicate Completed(inp: Input, classes: map<string, IrClass>, order: seq<string>, ids: map<string, Origin>) {
    Inv(inp, classes, order, ids, []) && Complete(inp, classes, ids) && Warranted(inp, classes, order, ids)
  }

  lemma IsolatedPath(inp: Input)
    ensures forall n: string :: IsPath(inp, [] + [n])
  {}

  lemma StillHaveIds(inp: Input, names: seq<string>, i: nat, before: map<string, IrClass>, classes: map<string, IrClass>)
    requires i < |names| && Extends(before, classes) && names[i] in classes && HasIds(inp, names[i], classes)
    requires forall n :: n in names[..i] ==> n in before && HasIds(inp, n, before)
    ensures forall n :: n in names[..i + 1] ==> n in classes && HasIds(inp, n, classes)
  {
    hide IdName;
    assert names[..i + 1] == names[..i] + [names[i]];
    forall n | n in names[..i] ensures n in classes && HasIds(inp, n, classes) {
      assert HasIds(inp, n, before);
    }
  }

  /** The declared classes that are not under way. */
  ghost function Untouched(inp: Input, trail: seq<string>): set<string> {
    inp.decls.Keys - set n | n in trail
  }

  lemma Shrinks(inp: Input, trail: seq<string>, name: string)
    requires name in inp.decls && name !in trail
    ensures Untouched(inp, trail + [name]) < Untouched(inp, trail)
  {
    assert name in trail + [name];
    assert name in Untouched(inp, trail) && name !in Untouched(inp, trail + [name]);
  }

  ghost predicate SuperclassReady(decl: Decl, superclass: Option<IrClass>, classes: map<string, IrClass>) {
    match decl.superclass
    case None => superclass.None?
    case Some(s) => s in classes && superclass == Some(classes[s])
  }

  lemma Ready(decl: Decl, superclass: Option<IrClass>, classes: map<string, IrClass>)
    requires decl.superclass.None? ==> superclass.None?
    requires decl.superclass.Some? ==> decl.superclass.value in classes && superclass == Some(classes[decl.superclass.value])
    ensures SuperclassReady(decl, superclass, classes)
  {}

  lemma StillReady(decl: Decl, superclass: Option<IrClass>, classes: map<string, IrClass>, classes': map<string, IrClass>)
    requires SuperclassReady(decl, superclass, classes) && Extends(classes, classes')
    ensures SuperclassReady(decl, superclass, classes')
  {}

  ghost predicate MentionsBuilt(inp: Input, members: seq<Member>, classes: map<string, IrClass>) {
    forall m, b :: m in members && b in inp.decls && Mentions(m, b) ==> b in classes
  }

  lemma OneMoreMention(inp: Input, members: seq<Member>, i: nat, classes: map<string, IrClass>, classes': map<string, IrClass>)
    requires i < |members| && MentionsBuilt(inp, members[..i], classes) && Extends(classes, classes')
    requires forall b :: b in inp.decls && Mentions(members[i], b) ==> b in classes'
    ensures MentionsBuilt(inp, members[..i + 1], classes')
  {}

  /** The class object that is made once the lengths are known. */
  function MakeClass(inp: Input, decl: Decl, superclass: Option<IrClass>, layout: Layout, ghost before: map<string, IrClass>): (c: IrClass)
    requires MemberLens(inp, decl.members, Sizes(before)).Ok?
    requires IsLayout(decl, MemberLens(inp, decl.members, Sizes(before)).value, layout)
    requires SuperclassReady(decl, superclass, before)
    ensures BuiltFrom(inp, decl, before, c)
  {
    assert IsLayout(decl, MemberLens(inp, decl.members, Sizes(before)).value, layout);
    var members := seq(|decl.members|, i requires 0 <= i < |decl.members| && KeyOf(decl.members[i]) in layout.infos =>
      BuiltMember(inp.version, decl.members[i], layout.infos[KeyOf(decl.members[i])]));
    IrClass(decl.name, superclass, members, decl.isVirtual, decl.params, layout.fixed, layout.bytes)
  }

  lemma SuperclassIsDependency(inp: Input, name: string)
    requires name in inp.decls && inp.decls[name].superclass.Some?
    ensures DependsOn(inp, name, inp.decls[name].superclass.value)
  {}

  lemma Mentioned(inp: Input, name: string, m: Member, b: string)
    requires name in inp.decls && m in inp.decls[name].members && Mentions(m, b) && b in inp.decls
    ensures DependsOn(inp, name, b)
  {}

  lemma PathOnward(inp: Input, path: seq<string>, b: string)
    requires |path| >= 1 && IsPath(inp, path) && DependsOn(inp, path[|path| - 1], b)
    ensures IsPath(inp, path + [b])
  {}

  lemma AllDependenciesBuilt(inp: Input, name: string, decl: Decl, superclass: Option<IrClass>, classes: map<string, IrClass>)
    requires name in inp.decls && decl == inp.decls[name] && SuperclassReady(decl, superclass, classes)
    requires MentionsBuilt(inp, decl.members[..|decl.members|], classes)
    ensures forall b :: DependsOn(inp, name, b) ==> b in classes
  {}

  lemma GrownBySelf(inp: Input, root: string, c0: map<string, IrClass>, o0: seq<string>, c1: map<string, IrClass>, o1: seq<string>,
                    ids: map<string, Origin>, trail: seq<string>, c: IrClass)
    requires Grown(inp, root, c0, o0, c1, o1) && Inv(inp, c1, o1, ids, trail + [root])
    ensures Grown(inp, root, c0, o0, c1[root := c], o1 + [root])
  {}

  lemma GrownReflexive(inp: Input, root: string, classes: map<string, IrClass>, order: seq<string>)
    ensures Grown(inp, root, classes, order, classes, order)
  {}

  lemma PathCloses(inp: Input, trail: seq<string>, name: string)
    requires IsPath(inp, trail + [name]) && name in trail
    ensures ClosesCycle(inp, trail + [name])
  {
    var i :| 0 <= i < |trail| && trail[i] == name;
    assert (trail + [name])[i] == (trail + [name])[|trail|];
  }
}
