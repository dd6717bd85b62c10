/** What a build means: the plain recursive layout, acyclic dependencies, and id classes that mirror their originals. */
module IrTheorems {
  import opened Options
  import opened Results
  import opened IrInput
  import opened IrLayout
  import opened IrBuilder

  // --- the plain recursive layout ----------------------------------------------------------------------------------

  /** `rank` shows that no class contains itself by value, through array-stripped and version-resolved types. */
  ghost predicate Ranked(inp: Input, decls: map<string, Decl>, rank: map<string, nat>) {
    && (forall n :: n in decls ==> n in rank)
    && (forall n, m :: n in decls && m in decls[n].members ==> ContainsBelow(inp, decls, rank, n, m))
  }

  ghost predicate ContainsBelow(inp: Input, decls: map<string, Decl>, rank: map<string, nat>, n: string, m: Member)
    requires n in rank && forall k :: k in decls ==> k in rank
  {
    match ClassNamed(inp, m)
    case Some(cls) => cls in decls ==> rank[cls] < rank[n]
    case None => true
  }

  /** The length of a member: of a class by value, its own plain size; of anything else, the table's length. */
  ghost function PlainLen(inp: Input, decls: map<string, Decl>, rank: map<string, nat>, n: string, m: Member): Result<Len, TypeError>
    requires Ranked(inp, decls, rank) && n in decls && m in decls[n].members
    decreases rank[n], 0
  {
    if m.Pad? then
      Ok(Len(m.length, true))
    else
      var shape :- ShapeOf(inp, m.oftype);
      match shape
      case Open => Ok(Len(0, false))
      case Elements(count, base, cls) =>
        if cls in decls then
          assert ContainsBelow(inp, decls, rank, n, m);
          var size :- PlainSize(inp, decls, rank, cls);
          Ok(Len(count * size.AsMember().bytes, size.AsMember().fixed))
        else
          var one :- TableLength(inp, base);
          Ok(Len(count * one.bytes, one.fixed))
  }

  ghost function PlainLens(inp: Input, decls: map<string, Decl>, rank: map<string, nat>, n: string, members: seq<Member>): (r: Result<seq<Len>, TypeError>)
    requires Ranked(inp, decls, rank) && n in decls && forall m :: m in members ==> m in decls[n].members
    ensures r.Ok? ==> |r.value| == |members|
    decreases rank[n], 1, |members|
  {
    if members == [] then
      Ok([])
    else
      var lens :- PlainLens(inp, decls, rank, n, members[..|members| - 1]);
      var last :- PlainLen(inp, decls, rank, n, members[|members| - 1]);
      Ok(lens + [last])
  }

  /** The plain size: the sum of the members; fixed when they all are and the class is not virtual. */
  ghost function PlainSize(inp: Input, decls: map<string, Decl>, rank: map<string, nat>, n: string): Result<ClassSize, TypeError>
    requires Ranked(inp, decls, rank) && n in decls
    decreases rank[n], 2
  {
    var lens :- PlainLens(inp, decls, rank, n, decls[n].members);
    Ok(ClassSize(Sum(lens), AllFixed(lens) && !decls[n].isVirtual, HasExternalAlignment(decls[n].params)))
  }

  /** The declarations from which the classes were made. */
  ghost function Declared(inp: Input, classes: map<string, IrClass>, ids: map<string, Origin>): map<string, Decl> {
    map n | n in classes && Used(inp, ids, n).Some? :: Used(inp, ids, n).value
  }

  /** Each class that a member of `order[i]` contains is built before, or the table gives the same length for it. */
  ghost predicate Settled(inp: Input, classes: map<string, IrClass>, order: seq<string>, ids: map<string, Origin>, rank: map<string, nat>)
    requires Ranked(inp, Declared(inp, classes, ids), rank)
  {
    var decls := Declared(inp, classes, ids);
    forall i, m :: 0 <= i < |order| && order[i] in decls && m in decls[order[i]].members ==> InTime(inp, decls, rank, order[..i], order[i], m)
  }

  ghost predicate InTime(inp: Input, decls: map<string, Decl>, rank: map<string, nat>, before: seq<string>, n: string, m: Member)
    requires Ranked(inp, decls, rank) && n in decls && m in decls[n].members
  {
    match ClassNamed(inp, m)
    case Some(cls) => cls in decls && cls !in before ==> TableAgrees(inp, decls, rank, n, m)
    case None => true
  }

  /** The length tables alone give a member its plain length. */
  ghost predicate TableAgrees(inp: Input, decls: map<string, Decl>, rank: map<string, nat>, n: string, m: Member)
    requires Ranked(inp, decls, rank) && n in decls && m in decls[n].members
  {
    MemberLen(inp, m, map[]) == PlainLen(inp, decls, rank, n, m)
  }

  lemma LenIsPlain(inp: Input, classes: map<string, IrClass>, order: seq<string>, ids: map<string, Origin>, trail: seq<string>,
                   rank: map<string, nat>, i: nat, m: Member)
    requires Inv(inp, classes, order, ids, trail) && Ranked(inp, Declared(inp, classes, ids), rank)
    requires Settled(inp, classes, order, ids, rank)
    requires i < |order| && order[i] in Declared(inp, classes, ids) && m in Declared(inp, classes, ids)[order[i]].members
    ensures PlainLen(inp, Declared(inp, classes, ids), rank, order[i], m) == MemberLen(inp, m, Sizes(Before(classes, order, i)))
    decreases rank[order[i]], 0
  {
    hide BuiltFrom, Made, Sum, AllFixed, PlainSize, PlainLen, MemberLen, ClassNamed, Sizes;
    var decls, before := Declared(inp, classes, ids), Before(classes, order, i);
    assert InTime(inp, decls, rank, order[..i], order[i], m);
    assert ContainsBelow(inp, decls, rank, order[i], m);
    SizesOf(before);
    if ClassNamed(inp, m).None? || ClassNamed(inp, m).value !in before {
      WithoutItsClass(inp, m, Sizes(before));
      PlainOfTable(inp, decls, rank, order[i], m);
    } else {
      AllDeclared(inp, classes, order, ids, trail);
      SizeIsPlain(inp, classes, order, ids, trail, rank, ClassNamed(inp, m).value);
      PlainOfClass(inp, decls, rank, order[i], m, Sizes(before));
    }
  }

  lemma SizesOf(classes: map<string, IrClass>)
    ensures Sizes(classes).Keys == classes.Keys && forall n :: n in classes ==> Sizes(classes)[n] == classes[n].Size()
  {}

  lemma WithoutItsClass(inp: Input, m: Member, sizes: map<string, ClassSize>)
    requires ClassNamed(inp, m).Some? ==> ClassNamed(inp, m).value !in sizes
    ensures MemberLen(inp, m, sizes) == MemberLen(inp, m, map[])
  {}

  /** A member that contains no class has its length from the tables. */
  lemma PlainOfTable(inp: Input, decls: map<string, Decl>, rank: map<string, nat>, n: string, m: Member)
    requires Ranked(inp, decls, rank) && n in decls && m in decls[n].members
    ensures ClassNamed(inp, m).None? || ClassNamed(inp, m).value !in decls ==> PlainLen(inp, decls, rank, n, m) == MemberLen(inp, m, map[])
  {
    hide Ranked;
  }

  lemma PlainOfClass(inp: Input, decls: map<string, Decl>, rank: map<string, nat>, n: string, m: Member, sizes: map<string, ClassSize>)
    requires Ranked(inp, decls, rank) && n in decls && m in decls[n].members && ClassNamed(inp, m).Some?
    requires var cls := ClassNamed(inp, m).value; cls in decls && cls in sizes && PlainSize(inp, decls, rank, cls) == Ok(sizes[cls])
    ensures PlainLen(inp, decls, rank, n, m) == MemberLen(inp, m, sizes)
  {
    hide PlainSize;
  }

  lemma AllDeclared(inp: Input, classes: map<string, IrClass>, order: seq<string>, ids: map<string, Origin>, trail: seq<string>)
    requires Inv(inp, classes, order, ids, trail)
    ensures forall n :: n in classes ==> n in Declared(inp, classes, ids)
  {
    hide BuiltFrom, DependsOn;
    forall n | n in classes ensures n in Declared(inp, classes, ids) {
      assert Made(inp, classes, order, ids, Position(order, n));
    }
  }

  lemma {:induction false} LensArePlain(inp: Input, classes: map<string, IrClass>, order: seq<string>, ids: map<string, Origin>, trail: seq<string>,
                     rank: map<string, nat>, i: nat, members: seq<Member>)
    requires Inv(inp, classes, order, ids, trail) && Ranked(inp, Declared(inp, classes, ids), rank)
    requires Settled(inp, classes, order, ids, rank)
    requires i < |order| && order[i] in Declared(inp, classes, ids)
    requires forall m :: m in members ==> m in Declared(inp, classes, ids)[order[i]].members
    ensures PlainLens(inp, Declared(inp, classes, ids), rank, order[i], members) == MemberLens(inp, members, Sizes(Before(classes, order, i)))
    decreases rank[order[i]], 1, |members|
  {
    hide Inv, BuiltFrom, Made, Settled, PlainLen, MemberLen, Ranked, Declared, Before, Sizes;
    if members != [] {
      LensArePlain(inp, classes, order, ids, trail, rank, i, members[..|members| - 1]);
      LenIsPlain(inp, classes, order, ids, trail, rank, i, members[|members| - 1]);
    }
  }

  /** The memoised build gives a class the size and the member layout of the plain recursion. */
  lemma SizeIsPlain(inp: Input, classes: map<string, IrClass>, order: seq<string>, ids: map<string, Origin>, trail: seq<string>,
                    rank: map<string, nat>, n: string)
    requires Inv(inp, classes, order, ids, trail) && Ranked(inp, Declared(inp, classes, ids), rank)
    requires Settled(inp, classes, order, ids, rank) && n in Declared(inp, classes, ids)
    ensures PlainSize(inp, Declared(inp, classes, ids), rank, n) == Ok(classes[n].Size())
    ensures var decl := Declared(inp, classes, ids)[n];
            var lens := PlainLens(inp, Declared(inp, classes, ids), rank, n, decl.members);
            lens.Ok? && HasLayout(inp, decl, lens.value, classes[n])
    decreases rank[n], 2
  {
    hide DependsOn, HasLayout, IsLayout, InfosOf, Settled, PlainLens, MemberLens, Ranked, Sum, AllFixed, Before, Sizes;
    var i, decl := Position(order, n), Declared(inp, classes, ids)[n];
    assert Made(inp, classes, order, ids, i);
    LensArePlain(inp, classes, order, ids, trail, rank, i, decl.members);
    LayoutSizes(inp, decl, MemberLens(inp, decl.members, Sizes(Before(classes, order, i))).value, classes[n]);
  }

  lemma LayoutSizes(inp: Input, decl: Decl, lens: seq<Len>, c: IrClass)
    requires HasLayout(inp, decl, lens, c)
    ensures c.bytes == Sum(lens) && c.fixed == (AllFixed(lens) && !decl.isVirtual)
    ensures |c.members| == |decl.members| == |lens|
    ensures forall i :: 0 <= i < |lens| ==> c.members[i] == BuiltMember(inp.version, decl.members[i], InfoAt(lens, LastEqual(decl.members, i)))
  {
    hide LastEqual, Sum, AllFixed, InfoAt;
    var layout :| IsLayout(decl, lens, layout) && c.bytes == layout.bytes && c.fixed == layout.fixed
      && c.members == seq(|decl.members|, i requires 0 <= i < |decl.members| && KeyOf(decl.members[i]) in layout.infos =>
           BuiltMember(inp.version, decl.members[i], layout.infos[KeyOf(decl.members[i])]));
    forall i | 0 <= i < |lens| ensures c.members[i] == BuiltMember(inp.version, decl.members[i], InfoAt(lens, LastEqual(decl.members, i))) {
      InfoOfLast(decl.members, lens, layout.infos, i);
    }
  }

  /** A member has the information of the last member equal to it: its own offset exactly when something before it is not
      fixed, or all from it to that last one is fixed and empty. */
  lemma OwnOffset(inp: Input, decl: Decl, sizes: map<string, ClassSize>, c: IrClass, i: nat)
    requires MemberLens(inp, decl.members, sizes).Ok? && i < |decl.members|
    requires HasLayout(inp, decl, MemberLens(inp, decl.members, sizes).value, c)
    ensures var lens, last := MemberLens(inp, decl.members, sizes).value, LastEqual(decl.members, i);
            && |c.members| == |decl.members| && c.members[i].info == InfoAt(lens, last)
            && (c.members[i].info == InfoAt(lens, i) <==>
                !AllFixed(lens[..i]) || forall k :: i <= k < last ==> lens[k].fixed && lens[k].bytes == 0)
  {
    hide HasLayout, MemberLen, LastEqual, OffsetAt, AllFixed;
    var lens, last := MemberLens(inp, decl.members, sizes).value, LastEqual(decl.members, i);
    LayoutSizes(inp, decl, lens, c);
    EqualMembersEqualLens(inp, decl.members[i], decl.members[last], sizes);
    SameOffset(lens, i, last);
  }

  /** `of_port_mod` of OpenFlow 1.3 from its sixth member on: the padding after the port number is given the offset of
      the padding at the end. */
  lemma FirstPadMoves(inp: Input, decl: Decl, lens: seq<Len>, c: IrClass)
    requires decl.members == [Pad(4), Data("hw_addr", "of_mac_addr_t"), Pad(2), Data("config", "ofp_port_config"),
                              Data("mask", "ofp_port_config"), Data("advertise", "uint32_t"), Pad(4)]
    requires lens == [Len(4, true), Len(6, true), Len(2, true), Len(4, true), Len(4, true), Len(4, true), Len(4, true)]
    requires HasLayout(inp, decl, lens, c)
    ensures c.members[0].info.offset == Some(24) != OffsetAt(lens, 0)
  {
    hide HasLayout;
    LayoutSizes(inp, decl, lens, c);
    assert LastEqual(decl.members, 0) == 6;
    assert lens[..6] == lens[..5] + [lens[5]] && lens[..5] == lens[..4] + [lens[4]] && lens[..4] == lens[..3] + [lens[3]];
    assert lens[..3] == lens[..2] + [lens[2]] && lens[..2] == lens[..1] + [lens[1]] && lens[..1] == [] + [lens[0]];
    OneMoreLen(lens[..5], lens[5]);
    OneMoreLen(lens[..4], lens[4]);
    OneMoreLen(lens[..3], lens[3]);
    OneMoreLen(lens[..2], lens[2]);
    OneMoreLen(lens[..1], lens[1]);
    OneMoreLen([], lens[0]);
  }

  /** Every completed class has the plain layout: size, and kind, offset, length and fixedness of each member, those of
      the last member equal to it. */
  lemma BuildIsPlain(inp: Input, classes: map<string, IrClass>, order: seq<string>, ids: map<string, Origin>, trail: seq<string>,
                     rank: map<string, nat>, n: string)
    requires Inv(inp, classes, order, ids, trail) && Ranked(inp, Declared(inp, classes, ids), rank)
    requires Settled(inp, classes, order, ids, rank) && n in classes
    ensures n in Declared(inp, classes, ids)
    ensures PlainSize(inp, Declared(inp, classes, ids), rank, n) == Ok(classes[n].Size())
    ensures var decl := Declared(inp, classes, ids)[n];
            var lens := PlainLens(inp, Declared(inp, classes, ids), rank, n, decl.members).value;
            && |classes[n].members| == |decl.members| == |lens|
            && forall i :: 0 <= i < |lens| ==>
                 classes[n].members[i] == BuiltMember(inp.version, decl.members[i], InfoAt(lens, LastEqual(decl.members, i)))
  {
    hide HasLayout, InfoAt, Settled, Ranked, Made, Inv, LastEqual;
    AllDeclared(inp, classes, order, ids, trail);
    SizeIsPlain(inp, classes, order, ids, trail, rank, n);
    var decl := Declared(inp, classes, ids)[n];
    LayoutSizes(inp, decl, PlainLens(inp, Declared(inp, classes, ids), rank, n, decl.members).value, classes[n]);
  }

  lemma {:induction false} KeptAreMembers(members: seq<Member>)
    ensures forall m :: m in Kept(members) ==> m in members && IsKept(m)
  {
    if members != [] {
      KeptAreMembers(members[..|members| - 1]);
    }
  }

  // --- acyclic dependencies ------------------------------------------------------------------------------------------

  lemma StepDown(inp: Input, classes: map<string, IrClass>, order: seq<string>, ids: map<string, Origin>, trail: seq<string>, a: string, b: string)
    requires Inv(inp, classes, order, ids, trail) && a in classes && a !in ids && DependsOn(inp, a, b)
    ensures b in classes && Position(order, b) < Position(order, a)
  {
    hide BuiltFrom, DependsOn;
    assert Made(inp, classes, order, ids, Position(order, a));
    var i :| 0 <= i < Position(order, a) && order[i] == b;
  }

  lemma {:induction false} PathDescends(inp: Input, classes: map<string, IrClass>, order: seq<string>, ids: map<string, Origin>, trail: seq<string>, path: seq<string>, i: nat, j: nat)
    requires Inv(inp, classes, order, ids, trail) && IsPath(inp, path) && i < j < |path|
    requires path[i] in classes && forall k :: i <= k < j ==> path[k] !in ids
    ensures path[j] in classes && Position(order, path[j]) < Position(order, path[i])
    decreases j
  {
    hide Made, DependsOn, Inv, Position;
    if i < j - 1 {
      PathDescends(inp, classes, order, ids, trail, path, i, j - 1);
    }
    assert DependsOn(inp, path[j - 1], path[j - 1 + 1]);
    StepDown(inp, classes, order, ids, trail, path[j - 1], path[j]);
  }

  /** Once all classes are built, every cycle of dependencies runs through a declaration that an id class hides. */
  lemma CompletedIsAcyclic(inp: Input, classes: map<string, IrClass>, order: seq<string>, ids: map<string, Origin>, path: seq<string>)
    requires Inv(inp, classes, order, ids, []) && Complete(inp, classes, ids) && ClosesCycle(inp, path)
    ensures exists n :: n in path && n in ids && n in inp.decls
  {
    hide Made, HasIds, Position;
    var i :| 0 <= i < |path| - 1 && path[i] == path[|path| - 1];
    assert DependsOn(inp, path[i], path[i + 1]);
    if forall k :: i <= k < |path| - 1 ==> path[k] !in ids {
      PathDescends(inp, classes, order, ids, [], path, i, |path| - 1);
    } else {
      var k :| i <= k < |path| - 1 && path[k] in ids;
      assert DependsOn(inp, path[k], path[k + 1]);
      assert path[k] in path;
    }
  }
}
