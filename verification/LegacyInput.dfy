/** The member lists that the legacy unifier is given: those of built classes, which no parsed text can make ambiguous. */
module LegacyInput {
  import opened Options
  import opened Results
  import InputGrammar
  import InputPrint
  import opened IrInput
  import opened IrLayout
  import opened IrBuilder
  import IrTheorems
  import opened Frontend
  import LegacyUnifier

  // --- legacy members ------------------------------------------------------------------------------------------------

  /** `list_name_extract`: the name of the list class. */
  function ListName(oftype: string): string {
    var inner := if |oftype| < 6 then "" else oftype[5..|oftype| - 1];
    "of_list_" + StripT(if StartsWith(inner, "of_") then inner[3..] else inner)
  }

  function LegacyType(enums: map<string, EnumDecl>, oftype: string): string {
    if StartsWith(oftype, "list(") then ListName(oftype) + "_t"
    else if oftype in enums && enums[oftype].wireType.Some? then enums[oftype].wireType.value
    else oftype
  }

  function LegacyMember(enums: map<string, EnumDecl>, m: IrMember): LegacyUnifier.Member
    requires !m.decl.Pad?
  {
    LegacyUnifier.Member(LegacyType(enums, m.decl.oftype), m.decl.name, match m.info.offset case Some(o) => o case None => -1)
  }

  /** `build_ordered_classes`: the members of a class but for padding. */
  function LegacyMembers(enums: map<string, EnumDecl>, ms: seq<IrMember>): (r: seq<LegacyUnifier.Member>)
    ensures forall l :: l in r ==> exists i :: 0 <= i < |ms| && !ms[i].decl.Pad? && l == LegacyMember(enums, ms[i])
  {
    if ms == [] then
      []
    else
      var front, last := LegacyMembers(enums, ms[..|ms| - 1]), ms[|ms| - 1];
      if last.decl.Pad? then front else front + [LegacyMember(enums, last)]
  }

  /** The listed member has the name and the offset, -1 when that is not known, and the type but for lists and enums. */
  ghost predicate IsListed(enums: map<string, EnumDecl>, m: IrMember, l: LegacyUnifier.Member)
    requires !m.decl.Pad?
  {
    && l.name == m.decl.name && (m.info.offset.Some? ==> l.offset == m.info.offset.value) && (m.info.offset.None? ==> l.offset == -1)
    && (m.decl.oftype !in enums && (|m.decl.oftype| < 5 || m.decl.oftype[..5] != "list(") ==> l.mtype == m.decl.oftype)
  }

  lemma MemberListed(enums: map<string, EnumDecl>, m: IrMember)
    requires !m.decl.Pad?
    ensures IsListed(enums, m, LegacyMember(enums, m))
  {}

  /** Every member but padding is listed, in order: `at` tells where. */
  lemma {:induction false} AllButPadding(enums: map<string, EnumDecl>, ms: seq<IrMember>) returns (at: seq<nat>)
    ensures |at| == |LegacyMembers(enums, ms)| && forall k :: 0 <= k < |at| ==> at[k] < |ms|
    ensures forall i, j :: 0 <= i < j < |at| ==> at[i] < at[j]
    ensures forall n :: n in at <==> 0 <= n < |ms| && !ms[n].decl.Pad?
    ensures forall k :: 0 <= k < |at| ==>
      !ms[at[k]].decl.Pad? && IsListed(enums, ms[at[k]], LegacyMembers(enums, ms)[k])
  {
    hide LegacyMember, IsListed;
    at := [];
    if ms != [] {
      var n := |ms| - 1;
      at := AllButPadding(enums, ms[..n]);
      var before := at;
      if !ms[n].decl.Pad? {
        at := at + [n];
        assert at[|before|] == n;
        MemberListed(enums, ms[n]);
      }
      assert forall k :: k in before ==> k in at;
      assert forall k :: 0 <= k < n ==> ms[..n][k] == ms[k];
    }
  }

  /** A list of `of_x_t` has the type `of_list_x_t`; an enum has its wire type. */
  lemma TypesOfLists(enums: map<string, EnumDecl>, x: string, e: string)
    ensures LegacyType(enums, "list(of_" + x + "_t)") == "of_list_" + x + "_t"
    ensures e in enums && enums[e].wireType.Some? && !StartsWith(e, "list(") ==> LegacyType(enums, e) == enums[e].wireType.value
  {
    var t, inner := "list(of_" + x + "_t)", "of_" + x + "_t";
    assert t[..5] == "list(" && t[5..|t| - 1] == inner;
    assert inner[..3] == "of_" && inner[3..] == x + "_t";
    assert (x + "_t")[|x + "_t"| - 2..] == "_t" && (x + "_t")[..|x + "_t"| - 2] == x;
  }

  // --- no separators ----------------------------------------------------------------------------------------------------

  ghost predicate CleanInput(inp: Input) {
    && (forall n :: n in inp.decls ==> CleanDecl(inp.decls[n]))
    && forall n :: n in inp.enums ==> CleanEnum(inp.enums[n])
  }

  lemma TypeStaysClean(enums: map<string, EnumDecl>, oftype: string)
    requires Unseparated(oftype) && forall n :: n in enums ==> CleanEnum(enums[n])
    ensures Unseparated(LegacyType(enums, oftype))
  {
    hide Unseparated;
    if StartsWith(oftype, "list(") {
      ListNameStaysClean(oftype);
      Joined(ListName(oftype), "_t");
    }
  }

  lemma ListNameStaysClean(oftype: string)
    requires Unseparated(oftype)
    ensures Unseparated(ListName(oftype)) && Unseparated("_t")
  {
    var inner := if |oftype| < 6 then "" else oftype[5..|oftype| - 1];
    var short := if StartsWith(inner, "of_") then inner[3..] else inner;
    MarksAreClean();
    hide Unseparated;
    if |oftype| >= 6 {
      PartIsClean(oftype, 5, |oftype| - 1);
    }
    if StartsWith(inner, "of_") {
      PartIsClean(inner, 3, |inner|);
      assert inner[3..|inner|] == inner[3..];
    }
    if |short| >= 2 {
      PartIsClean(short, 0, |short| - 2);
      assert short[0..|short| - 2] == short[..|short| - 2];
    }
    Joined("of_list_", StripT(short));
  }

  lemma PartIsClean(s: string, i: nat, j: nat)
    requires Unseparated(s) && i <= j <= |s|
    ensures Unseparated(s[i..j])
  {}

  lemma MarksAreClean()
    ensures Unseparated("") && Unseparated("_t") && Unseparated("of_list_")
  {}

  lemma Joined(a: string, b: string)
    requires Unseparated(a) && Unseparated(b)
    ensures Unseparated(a + b)
  {}

  lemma MembersAreClean(enums: map<string, EnumDecl>, ms: seq<IrMember>)
    requires forall n :: n in enums ==> CleanEnum(enums[n])
    requires forall i :: 0 <= i < |ms| ==> CleanMember(ms[i].decl)
    ensures LegacyUnifier.Clean(LegacyMembers(enums, ms))
  {
    hide LegacyType, Unseparated;
    var ls := LegacyMembers(enums, ms);
    forall k | 0 <= k < |ls| ensures LegacyUnifier.CleanMember(ls[k]) {
      assert ls[k] in ls;
      var i :| 0 <= i < |ms| && !ms[i].decl.Pad? && ls[k] == LegacyMember(enums, ms[i]);
      TypeStaysClean(enums, ms[i].decl.oftype);
      CleanIsClean(ls[k]);
    }
  }

  lemma CleanIsClean(m: LegacyUnifier.Member)
    requires Unseparated(m.mtype) && Unseparated(m.name)
    ensures LegacyUnifier.CleanMember(m)
  {}

  /** A class that was built of clean declarations has a clean member list. */
  lemma BuiltIsClean(inp: Input, classes: map<string, IrClass>, order: seq<string>, ids: map<string, Origin>, trail: seq<string>, n: string)
    requires Inv(inp, classes, order, ids, trail) && CleanInput(inp) && n in classes
    ensures LegacyUnifier.Clean(LegacyMembers(inp.enums, classes[n].members))
  {
    hide DependsOn, CleanMember, MemberLens, IsLayout;
    var i := Position(order, n);
    assert Made(inp, classes, order, ids, i);
    var decl := Used(inp, ids, n).value;
    UsedIsClean(inp, ids, n);
    MembersKeepDecls(inp, decl, MemberLens(inp, decl.members, Sizes(Before(classes, order, i))).value, classes[n]);
    forall k | 0 <= k < |classes[n].members| ensures CleanMember(classes[n].members[k].decl) {
      assert decl.members[k] in decl.members;
      BuiltMemberIsClean(inp.version, decl.members[k]);
    }
    MembersAreClean(inp.enums, classes[n].members);
  }

  lemma MembersKeepDecls(inp: Input, decl: Decl, lens: seq<Len>, c: IrClass)
    requires HasLayout(inp, decl, lens, c)
    ensures |c.members| == |decl.members|
    ensures forall k :: 0 <= k < |c.members| ==> c.members[k] == BuiltMember(inp.version, decl.members[k], c.members[k].info)
  {}

  lemma UsedIsClean(inp: Input, ids: map<string, Origin>, n: string)
    requires CleanInput(inp) && Used(inp, ids, n).Some?
    ensures CleanDecl(Used(inp, ids, n).value)
  {
    hide CleanMember;
    if n in ids {
      IrTheorems.KeptAreMembers(inp.decls[ids[n].orig].members);
    }
  }

  lemma BuiltMemberIsClean(version: nat, m: Member)
    requires CleanMember(m)
    ensures forall info :: CleanMember(BuiltMember(version, m, info).decl)
  {}

  // --- from the text to the lookup ----------------------------------------------------------------------------------------

  /** The declaration was made of the struct at `i` of a text that parses. */
  ghost predicate ClassParsed(text: string, i: nat, d: Decl) {
    match InputGrammar.Parse(text)
    case Some(ds) => i < |ds| && ds[i].Struct? && CreateClass(ds[i]) == Ok(d)
    case None => false
  }

  ghost predicate EnumParsed(text: string, i: nat, e: EnumDecl) {
    match InputGrammar.Parse(text)
    case Some(ds) => i < |ds| && ds[i].Enum? && CreateEnum(ds[i]) == e
    case None => false
  }

  ghost predicate AllParsed(inp: Input) {
    && (forall n :: n in inp.decls ==> exists text, i :: ClassParsed(text, i, inp.decls[n]))
    && forall n :: n in inp.enums ==> exists text, i :: EnumParsed(text, i, inp.enums[n])
  }

  lemma ParsedInputIsClean(inp: Input)
    requires AllParsed(inp)
    ensures CleanInput(inp)
  {
    hide InputGrammar.Parse, InputGrammar.FileOk, CleanDecl, CleanEnum, CreateClass, CreateEnum;
    forall n | n in inp.decls ensures CleanDecl(inp.decls[n]) {
      var text, i :| ClassParsed(text, i, inp.decls[n]);
      InputPrint.ParsedIsWellFormed(text);
      ParsedIsClean(InputGrammar.Parse(text).value, i);
    }
    forall n | n in inp.enums ensures CleanEnum(inp.enums[n]) {
      var text, i :| EnumParsed(text, i, inp.enums[n]);
      InputPrint.ParsedIsWellFormed(text);
      ParsedIsClean(InputGrammar.Parse(text).value, i);
    }
  }

  /** The member list of a class that was built of parsed declarations, or of a list class, which has no members. */
  ghost predicate CanBeGiven(ms: seq<LegacyUnifier.Member>) {
    ms == [] || exists inp: Input, classes: map<string, IrClass>, order: seq<string>, ids: map<string, Origin>, n: string ::
      AllParsed(inp) && Inv(inp, classes, order, ids, []) && n in classes && ms == LegacyMembers(inp.enums, classes[n].members)
  }

  lemma GivenIsClean(ms: seq<LegacyUnifier.Member>)
    requires CanBeGiven(ms)
    ensures LegacyUnifier.Clean(ms)
  {
    hide AllParsed, Inv, LegacyMembers;
    if ms != [] {
      var inp: Input, classes: map<string, IrClass>, order: seq<string>, ids: map<string, Origin>, n: string :|
        AllParsed(inp) && Inv(inp, classes, order, ids, []) && n in classes && ms == LegacyMembers(inp.enums, classes[n].members);
      ParsedInputIsClean(inp);
      BuiltIsClean(inp, classes, order, ids, [], n);
    }
  }

  /** So, whatever texts the member lists come from, no lookup notices the sharing of versions. */
  lemma SharingNeverNoticed(u: LegacyUnifier.Unified, given: map<int, seq<LegacyUnifier.Member>>, v: int)
    requires LegacyUnifier.Faithful(u, given) && v in given
    requires forall w :: w in given ==> CanBeGiven(given[w])
    ensures LegacyUnifier.Found(u, v) == given[v]
  {
    hide LegacyUnifier.Faithful, LegacyUnifier.Found, LegacyUnifier.Clean, CanBeGiven;
    forall w | w in given ensures LegacyUnifier.Clean(given[w]) {
      GivenIsClean(given[w]);
    }
    LegacyUnifier.SharingUnnoticed(u, given, v);
  }
}
