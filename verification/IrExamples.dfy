/** Inputs for which the order of visits makes a difference. */
module IrExamples {
  import opened Options
  import opened Results
  import opened IrInput
  import opened IrLayout
  import opened IrBuilder
  import opened IrTheorems
  import opened IrIds
  import opened IrOrders
  import opened IrVisits
  import IrRules

  // --- builds, class by class ------------------------------------------------------------------------------------------

  /** The reference layout as a dictionary. */
  ghost function InfosFor(members: seq<Member>, lens: seq<Len>): (infos: map<Key, LengthInfo>)
    requires |lens| == |members|
    ensures InfosOf(members, lens, infos)
  {
    if members == [] then
      map[]
    else
      var ms, ls, m, l := members[..|members| - 1], lens[..|lens| - 1], members[|members| - 1], lens[|lens| - 1];
      OneMoreInfo(ms, ls, InfosFor(ms, ls), m, l);
      assert ms + [m] == members && ls + [l] == lens;
      InfosFor(ms, ls)[KeyOf(m) := LengthInfo(OffsetAt(ls, |ls|), l.bytes, l.fixed)]
  }

  /** The class that is made of a declaration without a superclass when the member lengths are known. */
  ghost function Class(inp: Input, decl: Decl, before: map<string, IrClass>): (c: IrClass)
    requires MemberLens(inp, decl.members, Sizes(before)).Ok? && decl.superclass.None?
    ensures BuiltFrom(inp, decl, before, c)
    ensures var lens := MemberLens(inp, decl.members, Sizes(before)).value;
            c.name == decl.name && c.isVirtual == decl.isVirtual && c.bytes == Sum(lens) && c.fixed == (AllFixed(lens) && !decl.isVirtual)
  {
    var lens := MemberLens(inp, decl.members, Sizes(before)).value;
    MakeClass(inp, decl, None, Layout(Sum(lens), AllFixed(lens) && !decl.isVirtual, InfosFor(decl.members, lens)), before)
  }

  /** A declaration with no superclass whose types mention no declared class depends on nothing. */
  predicate Alone(inp: Input, n: string) {
    && n in inp.decls && inp.decls[n].name == n && inp.decls[n].superclass.None?
    && forall m, b :: m in inp.decls[n].members && b in inp.decls ==> !Mentions(m, b)
  }

  lemma AloneDependsOnNothing(inp: Input, n: string)
    requires Alone(inp, n)
    ensures forall b :: !DependsOn(inp, n, b)
  {}

  lemma FirstClass(inp: Input, n: string)
    requires (forall m :: m in inp.decls ==> inp.decls[m].name == m) && Alone(inp, n) && MemberLens(inp, inp.decls[n].members, map[]).Ok?
    ensures Sizes(map[]) == map[]
    ensures Inv(inp, map[n := Class(inp, inp.decls[n], map[])], [n], map[], [])
  {
    assert Sizes(map[]) == map[];
    assert Inv(inp, map[], [], map[], [n]);
    AloneDependsOnNothing(inp, n);
    assert [] + [n] == [n];
    ClassAdded(inp, map[], [], map[], [], n, Class(inp, inp.decls[n], map[]));
  }

  lemma SecondClass(inp: Input, c0: map<string, IrClass>, n: string, m: string)
    requires Inv(inp, c0, [n], map[], []) && n != m && Alone(inp, m) && MemberLens(inp, inp.decls[m].members, Sizes(c0)).Ok?
    ensures Inv(inp, c0[m := Class(inp, inp.decls[m], c0)], [n, m], map[], [])
  {
    hide Made, HasLayout;
    AloneDependsOnNothing(inp, m);
    TrailGrows(inp, c0, [n], map[], [], m);
    assert [] + [m] == [m] && [n] + [m] == [n, m];
    ClassAdded(inp, c0, [n], map[], [], m, Class(inp, inp.decls[m], c0));
  }

  lemma ReachesItself(inp: Input, n: string)
    ensures Reaches(inp, n, n)
  {
    assert [n][0] == n && IsPath(inp, [n]);
  }

  /** A plain type name, as it is looked up in the tables. */
  lemma PlainType(inp: Input, m: Member, sizes: map<string, ClassSize>)
    requires !m.Pad? && '[' !in m.oftype && !StartsWith(m.oftype, "list(") && !StartsWith(m.oftype, "struct") && m.oftype != "octets"
    requires m.oftype !in inp.tables.mixed && DropTwo(m.oftype) !in sizes && m.oftype !in inp.enums
    ensures MemberLen(inp, m, sizes) == if m.oftype in inp.tables.base then Ok(inp.tables.base[m.oftype]) else Err(UnknownType)
  {}

  // --- of_action_id ----------------------------------------------------------------------------------------------------------

  const TYPE := Discriminator("type", "uint16_t")
  const LEN := Length("len", "uint16_t")

  /** The two declarations as they stand in the inputs from version 1.3 on. */
  function Actions(): Input {
    Input(map["of_action" := Decl("of_action", None, [TYPE, LEN, Pad(4)], true, map[]),
              "of_action_id" := Decl("of_action_id", None, [Data("type", "uint16_t"), LEN], false, map[])],
          map[], 4, Tables(map[], map[], map["uint16_t" := Len(2, true)]))
  }

  lemma ActionsAlone()
    ensures Alone(Actions(), "of_action") && Alone(Actions(), "of_action_id")
  {
    assert StripT("uint16_t") == "uint16";
  }

  /** So the theorems about all orders hold for this input, too. */
  lemma ActionsAreRegular()
    ensures Regular(Actions()) && Namesake(Actions(), "of_action_id")
  {
    hide Inert;
    ActionsAlone();
    ActionIdName();
    AboveSelf(Actions(), "of_action");
    forall x, root | x in Actions().decls && Above(Actions(), x, root) ensures x == root {
      if x != root {
        AboveIsSelfOrOnward(Actions(), x, root);
      }
    }
    forall h | h in Actions().decls ensures Inert(Actions(), h) {
      AloneIsInert(h);
    }
  }

  lemma AloneIsInert(h: string)
    requires h in Actions().decls && Alone(Actions(), h)
    ensures Inert(Actions(), h)
  {
    hide ClassNamed;
    AloneDependsOnNothing(Actions(), h);
    forall n, m | n in Actions().decls && m in Actions().decls[n].members ensures ClassNamed(Actions(), m) != Some(h) {
      NoClassNamed(m);
    }
  }

  lemma NoClassNamed(m: Member)
    requires m.Pad? || m.oftype == "uint16_t"
    ensures ClassNamed(Actions(), m).Some? ==> ClassNamed(Actions(), m).value !in Actions().decls
  {
    hide ShapeOf;
    if !m.Pad? {
      assert "uint16_t"[0] == 'u' && "list("[0] == 'l' && "struct"[0] == 's' && |"octets"| == 6;
      PlainClass(Actions(), m);
      assert DropTwo("uint16_t") == "uint16" && |"of_action"| == 9 && |"of_action_id"| == 12;
    }
  }

  lemma PlainClass(inp: Input, m: Member)
    requires !m.Pad? && '[' !in m.oftype && !StartsWith(m.oftype, "list(") && !StartsWith(m.oftype, "struct") && m.oftype != "octets"
    requires m.oftype !in inp.tables.mixed
    ensures ClassNamed(inp, m) == Some(DropTwo(m.oftype))
  {}

  lemma TwoBytes(m: Member, sizes: map<string, ClassSize>)
    requires !m.Pad? && m.oftype == "uint16_t" && "uint16" !in sizes
    ensures MemberLen(Actions(), m, sizes) == Ok(Len(2, true))
  {
    assert DropTwo("uint16_t") == "uint16";
    assert "uint16_t"[0] == 'u' && "list("[0] == 'l' && "struct"[0] == 's';
    PlainType(Actions(), m, sizes);
  }

  lemma TwoLens(a: Member, b: Member, sizes: map<string, ClassSize>)
    requires !a.Pad? && a.oftype == "uint16_t" && !b.Pad? && b.oftype == "uint16_t" && "uint16" !in sizes
    ensures MemberLens(Actions(), [a, b], sizes) == Ok([Len(2, true), Len(2, true)])
  {
    hide MemberLen;
    TwoBytes(a, sizes);
    TwoBytes(b, sizes);
    NoMembers(Actions(), sizes);
    OneMoreMember(Actions(), [], sizes, a);
    assert [] + [a] == [a] && [] + [Len(2, true)] == [Len(2, true)];
    OneMoreMember(Actions(), [a], sizes, b);
    assert [a] + [b] == [a, b] && [Len(2, true)] + [Len(2, true)] == [Len(2, true), Len(2, true)];
  }

  lemma ThreeLens(sizes: map<string, ClassSize>)
    requires "uint16" !in sizes
    ensures MemberLens(Actions(), [TYPE, LEN, Pad(4)], sizes) == Ok([Len(2, true), Len(2, true), Len(4, true)])
  {
    hide MemberLens;
    TwoLens(TYPE, LEN, sizes);
    OneMoreMember(Actions(), [TYPE, LEN], sizes, Pad(4));
    assert [TYPE, LEN] + [Pad(4)] == [TYPE, LEN, Pad(4)];
    assert [Len(2, true), Len(2, true)] + [Len(4, true)] == [Len(2, true), Len(2, true), Len(4, true)];
  }

  lemma ActionIdName()
    ensures IdName("of_action", "of_action") == "of_action_id"
  {
    assert "of_action"[9..] == "";
    assert "of_action" + "_id" + "" == "of_action_id";
  }

  lemma KeptOfAction()
    ensures Kept([TYPE, LEN, Pad(4)]) == [TYPE, LEN]
  {
    assert [TYPE, LEN, Pad(4)][..2] == [TYPE, LEN] && [TYPE, LEN][..1] == [TYPE] && [TYPE][..0] == [];
    assert Kept([]) == [] && Kept([TYPE]) == [] + [TYPE] && Kept([TYPE, LEN]) == [TYPE] + [LEN];
  }

  /** In the sorted order the id class comes first, and is virtual. */
  lemma ActionFirst() returns (classes: map<string, IrClass>, order: seq<string>, ids: map<string, Origin>)
    ensures Completed(Actions(), classes, order, ids) && VisitedFirst(Actions(), "of_action", classes, order, ids)
    ensures "of_action_id" in ids && "of_action_id" in classes && classes["of_action_id"].isVirtual
  {
    hide Inv, MemberLens, IdName, Kept, InfosFor, HasLayout, IdDecl;
    var inp, n, h := Actions(), "of_action", "of_action_id";
    ActionsAlone();
    ThreeLens(map[]);
    FirstClass(inp, n);
    var c0 := map[n := Class(inp, inp.decls[n], map[])];
    ActionIdName();
    ActionIdDecl();
    TwoLens(TYPE, LEN, Sizes(c0));
    var id := Class(inp, IdDecl(n, inp.decls[n]), c0);
    IdClassAdded(inp, c0, [n], map[], n, n, id);
    assert [n] + [h] == [n, h];
    classes, order, ids := c0[h := id], [n, h], map[][h := Origin(n, n)];
    NoActionsBelow(classes);
    SortedCompleted(classes, order, ids);
  }

  lemma ActionIdDecl()
    ensures IdDecl("of_action", Actions().decls["of_action"]) == Decl("of_action_id", None, [TYPE, LEN], true, map[])
  {
    ActionIdName();
    KeptOfAction();
  }

  lemma SortedCompleted(classes: map<string, IrClass>, order: seq<string>, ids: map<string, Origin>)
    requires Inv(Actions(), classes, order, ids, []) && order == ["of_action", "of_action_id"]
    requires ids == map["of_action_id" := Origin("of_action", "of_action")]
    requires "of_action" in classes && classes["of_action"].name == "of_action"
    requires HasIds(Actions(), "of_action", classes) && HasIds(Actions(), "of_action_id", classes) && "of_action_id" in classes
    requires forall root :: root in ID_ROOTS && classes["of_action"].IsInstanceOf(root) ==> root == "of_action"
    ensures Completed(Actions(), classes, order, ids) && VisitedFirst(Actions(), "of_action", classes, order, ids)
  {
    hide Inv, IdName, Above, Reaches, HasIds;
    var inp, n, h := Actions(), "of_action", "of_action_id";
    ActionIdName();
    AboveSelf(inp, n);
    ReachesItself(inp, n);
    assert order[0] == n && order[1] == h && classes[order[0]].IsInstanceOf(n) && Above(inp, order[0], n);
    assert HasWarrant(inp, classes, order, h, Origin(n, n));
    assert order[..1] == [n] && order[..2] == [n, h] && h in [n, h];
    assert FirstVisit(inp, n, classes, order, ids, 1, 2);
  }

  lemma NoActionsBelow(classes: map<string, IrClass>)
    requires "of_action" in classes && classes["of_action"].name == "of_action" && classes["of_action"].superclass.None?
    requires "of_action_id" in classes && classes["of_action_id"].name == "of_action_id" && classes["of_action_id"].superclass.None?
    ensures HasIds(Actions(), "of_action", classes) && HasIds(Actions(), "of_action_id", classes)
    ensures forall root :: root in ID_ROOTS && classes["of_action"].IsInstanceOf(root) ==> root == "of_action"
    ensures forall root :: root in ID_ROOTS ==> !classes["of_action_id"].IsInstanceOf(root)
  {
    ActionIdName();
  }

  /** When the declared class is visited first, it stays, of a fixed length. */
  lemma ActionIdFirst() returns (classes: map<string, IrClass>, order: seq<string>)
    ensures Completed(Actions(), classes, order, map[]) && VisitedFirst(Actions(), "of_action_id", classes, order, map[])
    ensures "of_action_id" in classes && !classes["of_action_id"].isVirtual && classes["of_action_id"].fixed && classes["of_action_id"].bytes == 4
  {
    hide Inv, MemberLens, IdName, Kept, InfosFor, HasLayout, Sum;
    var inp, n, h := Actions(), "of_action", "of_action_id";
    ActionsAlone();
    TwoLens(Data("type", "uint16_t"), LEN, map[]);
    FourBytes();
    FirstClass(inp, h);
    var c0 := map[h := Class(inp, inp.decls[h], map[])];
    ThreeLens(Sizes(c0));
    SecondClass(inp, c0, h, n);
    classes, order := c0[n := Class(inp, inp.decls[n], c0)], [h, n];
    NoActionsBelow(classes);
    UnsortedCompleted(classes, order);
  }

  lemma FourBytes()
    ensures Sum([Len(2, true), Len(2, true)]) == 4
  {
    assert [Len(2, true)] + [Len(2, true)] == [Len(2, true), Len(2, true)] && [] + [Len(2, true)] == [Len(2, true)];
    OneMoreLen([Len(2, true)], Len(2, true));
    OneMoreLen([], Len(2, true));
  }

  lemma UnsortedCompleted(classes: map<string, IrClass>, order: seq<string>)
    requires Inv(Actions(), classes, order, map[], []) && order == ["of_action_id", "of_action"]
    requires "of_action" in classes && "of_action_id" in classes
    requires HasIds(Actions(), "of_action", classes) && HasIds(Actions(), "of_action_id", classes)
    requires forall root :: root in ID_ROOTS ==> !classes["of_action_id"].IsInstanceOf(root)
    ensures Completed(Actions(), classes, order, map[]) && VisitedFirst(Actions(), "of_action_id", classes, order, map[])
  {
    hide Inv, IdName, Above, Reaches, HasIds;
    ReachesItself(Actions(), "of_action_id");
    assert order[..1] == ["of_action_id"];
    assert FirstVisit(Actions(), "of_action_id", classes, order, map[], 1, 1);
  }

  /** Both builds complete, and differ. */
  lemma ActionIdDependsOnOrder() returns (classes: map<string, IrClass>, order: seq<string>, ids: map<string, Origin>, classes': map<string, IrClass>, order': seq<string>)
    ensures Completed(Actions(), classes, order, ids) && VisitedFirst(Actions(), "of_action", classes, order, ids)
    ensures Completed(Actions(), classes', order', map[]) && VisitedFirst(Actions(), "of_action_id", classes', order', map[])
    ensures classes != classes'
  {
    hide Completed, VisitedFirst;
    classes, order, ids := ActionFirst();
    classes', order' := ActionIdFirst();
  }

  // --- a type of another name in each version ---------------------------------------------------------------------------------

  const MATCH := Data("match", "of_match_t")

  /** The type of the match is a class of another name, which has an entry in the tables, too. */
  function Stats(): Input {
    Input(map["of_flow_stats" := Decl("of_flow_stats", None, [MATCH], false, map[]),
              "of_match_v3" := Decl("of_match_v3", None, [Pad(16)], false, map[])],
          map[], 3, Tables(map[], map["of_match_t" := map[3 := "of_match_v3_t"]], map["of_match_v3_t" := Len(8, false)]))
  }

  lemma MatchLength(sizes: map<string, ClassSize>)
    ensures ClassNamed(Stats(), MATCH) == Some("of_match_v3")
    ensures MemberLen(Stats(), MATCH, sizes) == Ok(if "of_match_v3" in sizes then sizes["of_match_v3"].AsMember() else Len(8, false))
  {
    hide ShapeOf, RoundUp8;
    MatchShape();
    assert TableLength(Stats(), "of_match_v3_t") == Ok(Len(8, false));
  }

  lemma MatchShape()
    ensures ShapeOf(Stats(), "of_match_t") == Ok(Elements(1, "of_match_v3_t", "of_match_v3"))
  {
    assert "of_match_t"[0] == 'o' && "list("[0] == 'l' && "struct"[0] == 's';
    assert DropTwo("of_match_v3_t") == "of_match_v3";
    MixedShape(Stats(), "of_match_t");
  }

  lemma MixedShape(inp: Input, oftype: string)
    requires '[' !in oftype && !StartsWith(oftype, "list(") && !StartsWith(oftype, "struct") && oftype != "octets"
    requires oftype in inp.tables.mixed && inp.version in inp.tables.mixed[oftype]
    ensures var base := inp.tables.mixed[oftype][inp.version];
            ShapeOf(inp, oftype) == Ok(Elements(1, base, DropTwo(base)))
  {}

  lemma StatsAlone()
    ensures Alone(Stats(), "of_flow_stats") && Alone(Stats(), "of_match_v3")
  {
    assert StripT("of_match_t") == "of_match";
  }

  lemma StatsFirst() returns (classes: map<string, IrClass>, order: seq<string>)
    ensures Completed(Stats(), classes, order, map[]) && VisitedFirst(Stats(), "of_flow_stats", classes, order, map[])
    ensures order == ["of_flow_stats", "of_match_v3"] && "of_flow_stats" in classes && "of_match_v3" in classes
    ensures classes["of_flow_stats"].bytes == 8 && !classes["of_flow_stats"].fixed
  {
    hide Inv, MemberLens, InfosFor, HasLayout, MemberLen, ClassNamed;
    var inp, n, h := Stats(), "of_flow_stats", "of_match_v3";
    StatsAlone();
    MatchLength(map[]);
    OneMember(inp, MATCH, map[]);
    FirstClass(inp, n);
    var c0 := map[n := Class(inp, inp.decls[n], map[])];
    PadLength(inp, 16, Sizes(c0));
    OneMember(inp, Pad(16), Sizes(c0));
    SecondClass(inp, c0, n, h);
    classes, order := c0[h := Class(inp, inp.decls[h], c0)], [n, h];
    OldVersionCompleted(inp, classes, order, n);
  }

  /** Before version 4 there are no id classes. */
  lemma OldVersionCompleted(inp: Input, classes: map<string, IrClass>, order: seq<string>, n: string)
    requires Inv(inp, classes, order, map[], []) && inp.version < 4 && forall m :: m in inp.decls ==> m in classes
    requires order != [] && order[0] == n
    ensures Completed(inp, classes, order, map[]) && VisitedFirst(inp, n, classes, order, map[])
  {
    hide Inv, Reaches, IdName, IrClass.IsInstanceOf;
    ReachesItself(inp, n);
    assert order[..1] == [n];
    assert FirstVisit(inp, n, classes, order, map[], 1, 1);
  }

  /** The build completes when the statistics come first; then the match is taken for 8 bytes and more, where the class
      that it contains has 16. */
  lemma LengthDependsOnOrder() returns (classes: map<string, IrClass>, order: seq<string>, rank: map<string, nat>)
    ensures Completed(Stats(), classes, order, map[]) && VisitedFirst(Stats(), "of_flow_stats", classes, order, map[])
    ensures Ranked(Stats(), Stats().decls, rank) && !AllPlain(Stats(), classes, order, map[], Stats().decls, rank)
    ensures PlainLen(Stats(), Stats().decls, rank, "of_flow_stats", MATCH) == Ok(Len(16, true))
    ensures "of_flow_stats" in classes && classes["of_flow_stats"].bytes == 8 && !classes["of_flow_stats"].fixed
  {
    hide Completed, VisitedFirst, Ranked, PlainLen, MemberLen, ClassNamed;
    classes, order := StatsFirst();
    rank := map["of_flow_stats" := 1, "of_match_v3" := 0];
    StatsRanked(rank);
    PlainMatch(rank);
    NothingBefore(classes, order);
    MatchLength(map[]);
    assert MATCH in Stats().decls["of_flow_stats"].members;
    var none: map<string, Origin> := map[];
    assert order[0] in Declared(Stats(), classes, none) && MATCH in Declared(Stats(), classes, none)[order[0]].members;
    assert !IsPlain(Stats(), Stats().decls, rank, Source(none, order[0]), MATCH, Sizes(Before(classes, order, 0)));
  }

  lemma NothingBefore(classes: map<string, IrClass>, order: seq<string>)
    requires forall n :: n in order ==> n in classes
    ensures Sizes(Before(classes, order, 0)) == map[]
  {}

  lemma OneMember(inp: Input, m: Member, sizes: map<string, ClassSize>)
    requires MemberLen(inp, m, sizes).Ok?
    ensures MemberLens(inp, [m], sizes) == Ok([MemberLen(inp, m, sizes).value])
    ensures Sum([MemberLen(inp, m, sizes).value]) == MemberLen(inp, m, sizes).value.bytes
  {
    hide MemberLen;
    OneMoreMember(inp, [], sizes, m);
    assert [] + [m] == [m];
    OneMoreLen([], MemberLen(inp, m, sizes).value);
  }

  lemma PadLength(inp: Input, n: nat, sizes: map<string, ClassSize>)
    ensures MemberLen(inp, Pad(n), sizes) == Ok(Len(n, true))
  {}

  lemma StatsRanked(rank: map<string, nat>)
    requires rank == map["of_flow_stats" := 1, "of_match_v3" := 0]
    ensures Ranked(Stats(), Stats().decls, rank)
  {
    MatchLength(map[]);
  }

  lemma PlainMatch(rank: map<string, nat>)
    requires Ranked(Stats(), Stats().decls, rank)
    ensures PlainLen(Stats(), Stats().decls, rank, "of_flow_stats", MATCH) == Ok(Len(16, true))
  {
    hide MemberLen, MemberLens, Ranked, PlainLen;
    var inp, decls, h, ms := Stats(), Stats().decls, "of_match_v3", Stats().decls["of_match_v3"].members;
    PlainPad(rank);
    MatchLength(map[h := ClassSize(16, true, false)]);
    PlainOfClass(inp, decls, rank, "of_flow_stats", MATCH, map[h := ClassSize(16, true, false)]);
  }

  lemma PlainPad(rank: map<string, nat>)
    requires Ranked(Stats(), Stats().decls, rank)
    ensures PlainSize(Stats(), Stats().decls, rank, "of_match_v3") == Ok(ClassSize(16, true, false))
  {
    hide Ranked;
    var inp, decls, h := Stats(), Stats().decls, "of_match_v3";
    var ms := decls[h].members;
    assert ms[..0] == [] && PlainLens(inp, decls, rank, h, ms[..0]) == Ok([]);
    assert ms[0] == Pad(16) && PlainLen(inp, decls, rank, h, Pad(16)) == Ok(Len(16, true));
    assert PlainLens(inp, decls, rank, h, ms) == Ok([] + [Len(16, true)]);
    OneMoreLen([], Len(16, true));
  }

  // --- of_packet_in ----------------------------------------------------------------------------------------------------------

  /** The members of `of_packet_in` from version 1.3 on. */
  function PacketIn(): seq<Member> {
    [Version("version", "uint8_t"), TypeValue("type", "uint8_t", 10), Length("length", "uint16_t"), Data("xid", "uint32_t"),
     Data("buffer_id", "uint32_t"), Data("total_len", "uint16_t"), Data("reason", "uint8_t"), Data("table_id", "uint8_t"),
     Data("cookie", "uint64_t"), MATCH, Pad(2), Data("data", "of_octets_t")]
  }

  /** The tables that its types need, and that no class stands in their way. */
  ghost predicate PacketTables(inp: Input, classes: map<string, IrClass>) {
    && (forall t :: t in ["uint8_t", "uint16_t", "uint32_t", "uint64_t", "of_octets_t"] ==> t !in inp.tables.mixed && t !in inp.enums && t in inp.tables.base)
    && inp.tables.base["uint8_t"] == Len(1, true) && inp.tables.base["uint16_t"] == Len(2, true) && inp.tables.base["uint32_t"] == Len(4, true)
    && inp.tables.base["uint64_t"] == Len(8, true) && inp.tables.base["of_octets_t"] == Len(0, false)
    && (forall c :: c in ["uint8", "uint16", "uint32", "uint64", "of_octets"] ==> c !in classes)
    && "of_match_t" in inp.tables.mixed && inp.version in inp.tables.mixed["of_match_t"] && inp.tables.mixed["of_match_t"][inp.version] == "of_match_v3_t"
  }

  lemma PlainMeasure(inp: Input, before: map<string, IrClass>, m: Member, len: Len)
    requires !m.Pad? && m.oftype in ["uint8_t", "uint16_t", "uint32_t", "uint64_t", "of_octets_t"]
    requires m.oftype !in inp.tables.mixed && m.oftype !in inp.enums && m.oftype in inp.tables.base && DropTwo(m.oftype) !in before
    requires IrRules.Measures(inp, before, m, len)
    ensures len == inp.tables.base[m.oftype]
  {
    hide MemberLen, Sizes;
    IrRules.MeasuresIs(inp, before, m, len);
    SizesOf(before);
    assert m.oftype[0] == 'u' || m.oftype[0] == 'o';
    assert "list("[0] == 'l' && "struct"[0] == 's' && "octets"[1] == 'c' && "of_octets_t"[1] == 'f';
    PlainType(inp, m, Sizes(before));
  }

  lemma MatchMeasure(inp: Input, before: map<string, IrClass>, len: Len)
    requires "of_match_t" in inp.tables.mixed && inp.version in inp.tables.mixed["of_match_t"] && inp.tables.mixed["of_match_t"][inp.version] == "of_match_v3_t"
    requires "of_match_v3" in before && before["of_match_v3"].bytes == 4 && IrRules.LeavesAlignmentOut(before["of_match_v3"].params)
    requires IrRules.Measures(inp, before, MATCH, len)
    ensures len.bytes == 8
  {
    hide IrRules.Measures, IrRules.IsOfClass;
    MatchIsOfClass(inp);
    IrRules.OneElement(inp, before, MATCH, len, "of_match_v3");
  }

  lemma MatchIsOfClass(inp: Input)
    requires "of_match_t" in inp.tables.mixed && inp.version in inp.tables.mixed["of_match_t"] && inp.tables.mixed["of_match_t"][inp.version] == "of_match_v3_t"
    ensures IrRules.IsOfClass(inp, MATCH, "of_match_v3")
  {
    assert MATCH.oftype == "of_match_t" && "of_match_v3" + "_t" == "of_match_v3_t";
    assert "of_match_t"[0] == 'o' && "list("[0] == 'l' && "struct"[0] == 's' && "octets"[1] == 'c' && "of_match_t"[1] == 'f';
  }

  /** `of_match_v3`, of which the list counts nothing. */
  function MatchV3(): Decl {
    Decl("of_match_v3", None, [TypeValue("type", "uint16_t", 1), Length("length", "uint16_t"), Data("oxm_list", "list(of_oxm_t)")], false,
         map["align" := "8", "length_includes_align" := "False"])
  }

  lemma MatchHasFour(inp: Input, classes: map<string, IrClass>, order: seq<string>, ids: map<string, Origin>)
    requires Inv(inp, classes, order, ids, []) && "of_match_v3" in order && "of_match_v3" in classes && PacketTables(inp, classes)
    requires Used(inp, ids, "of_match_v3") == Some(MatchV3())
    ensures classes["of_match_v3"].bytes == 4 && classes["of_match_v3"].params == MatchV3().params
  {
    hide Made, Origins, Position, IrRules.Measures, IrRules.MemberPlaced, PacketTables;
    IrRules.BuiltByRules(inp, classes, order, ids, [], "of_match_v3");
    var before := Before(classes, order, Position(order, "of_match_v3"));
    var lens: seq<Len>, starts: seq<nat> :| IrRules.LaidByRules(inp, before, MatchV3(), classes["of_match_v3"], lens, starts);
    var ms := MatchV3().members;
    TwoOfTables(inp, classes, before, ms[0], lens[0]);
    TwoOfTables(inp, classes, before, ms[1], lens[1]);
    assert IrRules.Measures(inp, before, ms[2], lens[2]);
    ListIsEmpty(inp, before, ms[2], lens[2]);
    assert starts[0 + 1] == 2 && starts[1 + 1] == 4 && starts[2 + 1] == 4;
  }

  lemma TwoOfTables(inp: Input, classes: map<string, IrClass>, before: map<string, IrClass>, m: Member, len: Len)
    requires !m.Pad? && m.oftype == "uint16_t" && PacketTables(inp, classes) && (forall n :: n in before ==> n in classes)
    requires IrRules.Measures(inp, before, m, len)
    ensures len.bytes == 2
  {
    assert DropTwo("uint16_t") == "uint16";
    hide IrRules.Measures;
    PlainMeasure(inp, before, m, len);
  }

  lemma ListIsEmpty(inp: Input, before: map<string, IrClass>, m: Member, len: Len)
    requires !m.Pad? && m.oftype == "list(of_oxm_t)" && IrRules.Measures(inp, before, m, len)
    ensures len.bytes == 0
  {
    assert IrRules.Begins("list(of_oxm_t)", "list(");
  }

  /** The match of four bytes takes eight in `of_packet_in`, which has 34 with it. */
  lemma PacketInCountsAlignment(inp: Input, classes: map<string, IrClass>, order: seq<string>, ids: map<string, Origin>)
    requires Inv(inp, classes, order, ids, []) && "of_packet_in" in order && "of_packet_in" in classes && PacketTables(inp, classes)
    requires Used(inp, ids, "of_packet_in").Some? && Used(inp, ids, "of_packet_in").value.members == PacketIn()
    requires "of_match_v3" in order[..Position(order, "of_packet_in")] && Used(inp, ids, "of_match_v3") == Some(MatchV3())
    ensures "of_match_v3" in classes && classes["of_match_v3"].bytes == 4 && classes["of_packet_in"].bytes == 34
  {
    hide Made, Origins, Position, IrRules.Measures, IrRules.MemberPlaced, PacketTables, PacketIn;
    MatchHasFour(inp, classes, order, ids);
    IrRules.BuiltByRules(inp, classes, order, ids, [], "of_packet_in");
    var d, before := Used(inp, ids, "of_packet_in").value, Before(classes, order, Position(order, "of_packet_in"));
    var lens: seq<Len>, starts: seq<nat> :| IrRules.LaidByRules(inp, before, d, classes["of_packet_in"], lens, starts);
    PacketSum(inp, classes, before, d, classes["of_packet_in"], lens, starts);
  }

  lemma PacketSum(inp: Input, classes: map<string, IrClass>, before: map<string, IrClass>, d: Decl, c: IrClass, lens: seq<Len>, starts: seq<nat>)
    requires IrRules.LaidByRules(inp, before, d, c, lens, starts) && d.members == PacketIn() && PacketTables(inp, classes)
    requires forall n :: n in before ==> n in classes
    requires "of_match_v3" in before && before["of_match_v3"].bytes == 4
    requires before["of_match_v3"].params == map["align" := "8", "length_includes_align" := "False"]
    ensures c.bytes == 34
  {
    hide IrRules.Measures, IrRules.MemberPlaced;
    var ms := PacketIn();
    assert |ms| == 12;
    forall i | 0 <= i < 12 ensures lens[i].bytes == PacketBytes()[i] {
      PacketMember(inp, classes, before, i, lens[i]);
    }
    PacketTotal(lens, starts);
  }

  function PacketBytes(): seq<nat> {
    [1, 1, 2, 4, 4, 2, 1, 1, 8, 8, 2, 0]
  }

  lemma PacketMember(inp: Input, classes: map<string, IrClass>, before: map<string, IrClass>, i: nat, len: Len)
    requires i < 12 && |PacketIn()| == 12 && IrRules.Measures(inp, before, PacketIn()[i], len) && PacketTables(inp, classes)
    requires forall n :: n in before ==> n in classes
    requires "of_match_v3" in before && before["of_match_v3"].bytes == 4
    requires before["of_match_v3"].params == map["align" := "8", "length_includes_align" := "False"]
    ensures len.bytes == PacketBytes()[i]
  {
    var m := PacketIn()[i];
    if i == 9 {
      MatchMeasure(inp, before, len);
    } else if i != 10 {
      assert DropTwo("uint8_t") == "uint8" && DropTwo("uint16_t") == "uint16" && DropTwo("uint32_t") == "uint32" && DropTwo("uint64_t") == "uint64";
      assert DropTwo("of_octets_t") == "of_octets";
      hide IrRules.Measures;
      PlainMeasure(inp, before, m, len);
    }
  }

  lemma PacketTotal(lens: seq<Len>, starts: seq<nat>)
    requires |lens| == 12 && |starts| == 13 && starts[0] == 0
    requires forall i :: 0 <= i < 12 ==> lens[i].bytes == PacketBytes()[i] && starts[i + 1] == starts[i] + lens[i].bytes
    ensures starts[12] == 34
  {
    assert lens[0].bytes == 1 && lens[1].bytes == 1 && lens[2].bytes == 2 && lens[3].bytes == 4 && lens[4].bytes == 4 && lens[5].bytes == 2;
    assert lens[6].bytes == 1 && lens[7].bytes == 1 && lens[8].bytes == 8 && lens[9].bytes == 8 && lens[10].bytes == 2 && lens[11].bytes == 0;
  }
}
