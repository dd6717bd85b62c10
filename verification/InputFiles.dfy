/** Whole files: parsing any layout of the declarations, and printing and parsing them. */
module InputFiles {
  import opened Options
  import opened InputLexer
  import opened InputGrammar
  import opened InputTokens
  import opened InputRoundTrip

  // --- parameters ------------------------------------------------------------------------------------------------------

  ghost predicate Names(names: seq<string>) {
    forall i :: 0 <= i < |names| ==> IsWord(names[i])
  }

  lemma ParamReads(text: string, loc: nat, names: seq<string>, p: Param, rest: seq<string>) returns (l: nat)
    requires loc <= |text| && Names(names) && p.name in names && IsWord(p.value) && Ready(text, loc)
    requires Reads(text, loc, [p.name, "=", p.value] + rest)
    ensures l <= |text| && ParseParam(text, loc, names) == Ok(p, l)
    ensures Reads(text, l, rest) && EndOf(text, loc, [p.name, "=", p.value] + rest) == EndOf(text, l, rest)
  {
    hide TokenAt, Lit, Word, ParseName;
    assert [p.name, "=", p.value] + rest == [p.name] + (["="] + ([p.value] + rest));
    ReadsCons(text, loc, p.name, ["="] + ([p.value] + rest));
    var l1 := After(text, loc, p.name);
    ReadsCons(text, l1, "=", [p.value] + rest);
    var l2 := After(text, l1, "=");
    ReadsCons(text, l2, p.value, rest);
    l := After(text, l2, p.value);
    NameReads(text, loc, names, p.name);
    LitReads(text, l1, "=");
    WordReads(text, l2, p.value);
  }

  /** Parameters in any of their forms, up to the closing parenthesis. */
  lemma {:induction false} ParamListReads(text: string, loc: nat, names: seq<string>, ps: seq<Param>, toks: seq<string>, rest: seq<string>) returns (l: nat)
    requires loc <= |text| && Names(names) && IsParamList(ps, toks) && ParamsOk(ps, names) && Ready(text, loc)
    requires Reads(text, loc, toks + ([")"] + rest))
    ensures l <= |text| && ParseParamList(text, loc, names) == Ok(ps, l)
    ensures Reads(text, l, [")"] + rest) && EndOf(text, loc, toks + ([")"] + rest)) == EndOf(text, l, [")"] + rest)
    decreases |ps|
  {
    hide TokenAt, Lit, ParseParam;
    var head := [ps[0].name, "=", ps[0].value];
    var close := [")"] + rest;
    if |ps| == 1 && toks[3..] == [] {
      assert toks + close == head + close;
      l := ParamReads(text, loc, names, ps[0], close);
      ReadsCons(text, l, ")", rest);
      LitOther(text, l, ")", ",");
      assert ps == [ps[0]];
    } else {
      var tail := toks[4..];
      assert toks + close == head + ([","] + (tail + close));
      var l1 := ParamReads(text, loc, names, ps[0], [","] + (tail + close));
      ReadsCons(text, l1, ",", tail + close);
      LitReads(text, l1, ",");
      ReadyAfter(text, l1, ",");
      l := After(text, l1, ",");
      if |ps| == 1 {
        assert tail + close == close && ps == [ps[0]];
        ReadsCons(text, l, ")", rest);
        NoParam(text, l, names);
      } else {
        l := ParamListReads(text, l, names, ps[1..], tail, rest);
        assert ps == [ps[0]] + ps[1..];
      }
    }
  }

  lemma {:induction false} NoName(text: string, loc: nat, names: seq<string>)
    requires loc <= |text| && Names(names) && TokenAt(text, loc, ")")
    ensures ParseName(text, loc, names) == Fail
    decreases |names|
  {
    hide TokenAt, Kw;
    if names != [] {
      KwNotWord(text, loc, ")", names[0]);
      NoName(text, loc, names[1..]);
    }
  }

  lemma NoParam(text: string, loc: nat, names: seq<string>)
    requires loc <= |text| && Names(names) && TokenAt(text, loc, ")")
    ensures ParseParam(text, loc, names) == Fail && ParseParamList(text, loc, names) == Fail
  {
    hide TokenAt;
    NoName(text, loc, names);
  }

  /** Parameters, and after them a token that opens no parenthesis. */
  lemma ParamsRead(text: string, loc: nat, names: seq<string>, ps: seq<Param>, toks: seq<string>, next: string, rest: seq<string>) returns (l: nat)
    requires loc <= |text| && Names(names) && ParamsOk(ps, names) && IsParams(ps, toks) && next != "" && next[0] != '('
    requires Reads(text, loc, toks + ([next] + rest))
    ensures l <= |text| && ParseParams(text, loc, names) == Ok(ps, l)
    ensures Reads(text, l, [next] + rest) && EndOf(text, loc, toks + ([next] + rest)) == EndOf(text, l, [next] + rest)
  {
    hide TokenAt, Lit, ParseParamList, IsParamList;
    var tail := [next] + rest;
    if ps == [] {
      assert toks + tail == tail;
      ReadsCons(text, loc, next, rest);
      LitOther(text, loc, next, "(");
      l := loc;
    } else {
      var list :| IsParamList(ps, list) && toks == ["("] + (list + [")"]);
      assert toks + tail == ["("] + (list + ([")"] + tail));
      ReadsCons(text, loc, "(", list + ([")"] + tail));
      LitReads(text, loc, "(");
      ReadyAfter(text, loc, "(");
      var l1 := After(text, loc, "(");
      var l2 := ParamListReads(text, l1, names, ps, list, tail);
      ReadsCons(text, l2, ")", tail);
      LitReads(text, l2, ")");
      l := After(text, l2, ")");
    }
  }

  lemma KeywordNames()
    ensures Names(STRUCT_PARAMS) && Names(ENUM_PARAMS) && Names(ENTRY_PARAMS)
  {}

  // --- declarations --------------------------------------------------------------------------------------------------------

  /** A keyword and a name, which begin structs and enums. */
  lemma HeadReads(text: string, loc: nat, k: string, name: string, rest: seq<string>) returns (l1: nat, l2: nat)
    requires loc <= |text| && IsWord(k) && IsWord(name) && Ready(text, loc) && Reads(text, loc, [k, name] + rest)
    ensures l1 <= |text| && l2 <= |text| && Kw(text, loc, k) == Ok((), l1) && Word(text, l1) == Ok(name, l2) && Ready(text, l1)
    ensures Reads(text, l2, rest) && EndOf(text, loc, [k, name] + rest) == EndOf(text, l2, rest) && TokenAt(text, loc, k)
  {
    hide TokenAt, Kw, Word;
    assert [k, name] + rest == [k] + ([name] + rest);
    ReadsCons(text, loc, k, [name] + rest);
    l1 := After(text, loc, k);
    ReadsCons(text, l1, name, rest);
    l2 := After(text, l1, name);
    KwReads(text, loc, k);
    WordReads(text, l1, name);
    ReadyAfter(text, loc, k);
  }

  lemma CloseReads(text: string, loc: nat, rest: seq<string>) returns (l: nat)
    requires loc <= |text| && Reads(text, loc, ["}", ";"] + rest)
    ensures l <= |text| && ParseClose(text, loc) == Ok((), l) && Ready(text, l)
    ensures Reads(text, l, rest) && EndOf(text, loc, ["}", ";"] + rest) == EndOf(text, l, rest)
  {
    hide TokenAt, Lit;
    assert ["}", ";"] + rest == ["}"] + ([";"] + rest);
    ReadsCons(text, loc, "}", [";"] + rest);
    var l1 := After(text, loc, "}");
    ReadsCons(text, l1, ";", rest);
    l := After(text, l1, ";");
    LitReads(text, loc, "}");
    LitReads(text, l1, ";");
    ReadyAfter(text, l1, ";");
  }

  lemma ParentReads(text: string, loc: nat, p: Option<string>, rest: seq<string>) returns (l: nat, l2: nat)
    requires loc <= |text| && (p.Some? ==> IsWord(p.value)) && Reads(text, loc, ParentTokens(p) + (["{"] + rest))
    ensures l <= |text| && l2 <= |text| && ParseParent(text, loc) == Ok(p, l) && Lit(text, l, "{") == Ok((), l2) && Ready(text, l2)
    ensures Reads(text, l2, rest) && EndOf(text, loc, ParentTokens(p) + (["{"] + rest)) == EndOf(text, l2, rest)
  {
    hide TokenAt, Lit, Word;
    if p.None? {
      assert ParentTokens(p) + (["{"] + rest) == ["{"] + rest;
      ReadsCons(text, loc, "{", rest);
      LitOther(text, loc, "{", ":");
      LitReads(text, loc, "{");
      ReadyAfter(text, loc, "{");
      SkipThenLit(text, loc, "{");
      l, l2 := Skip(text, loc), After(text, loc, "{");
    } else {
      assert ParentTokens(p) + (["{"] + rest) == [":"] + ([p.value] + (["{"] + rest));
      ReadsCons(text, loc, ":", [p.value] + (["{"] + rest));
      var l1 := After(text, loc, ":");
      ReadsCons(text, l1, p.value, ["{"] + rest);
      l := After(text, l1, p.value);
      ReadsCons(text, l, "{", rest);
      LitReads(text, loc, ":");
      WordReads(text, l1, p.value);
      LitReads(text, l, "{");
      ReadyAfter(text, l, "{");
      l2 := After(text, l, "{");
    }
  }

  lemma SkipThenLit(text: string, loc: nat, t: string)
    requires loc <= |text|
    ensures Lit(text, Skip(text, loc), t) == Lit(text, loc, t)
  {
    SkipStops(text, loc);
  }

  lemma BodyReads(text: string, loc: nat, ms: seq<Member>, toks: seq<string>, rest: seq<string>) returns (l1: nat, l: nat)
    requires loc <= |text| && (forall i :: 0 <= i < |ms| ==> MemberOk(ms[i])) && IsMembers(ms, toks) && Ready(text, loc)
    requires Reads(text, loc, toks + (["}", ";"] + rest))
    ensures l1 <= |text| && l <= |text| && ParseMembers(text, loc) == Ok(ms, l1) && ParseClose(text, l1) == Ok((), l) && Ready(text, l)
    ensures Reads(text, l, rest) && EndOf(text, loc, toks + (["}", ";"] + rest)) == EndOf(text, l, rest)
  {
    hide TokenAt, ParseMembers, ParseClose, IsMembers, MemberOk;
    assert ["}", ";"] + rest == ["}"] + ([";"] + rest);
    MembersRead(text, loc, ms, toks, [";"] + rest);
    ReadsAppend(text, loc, toks, ["}", ";"] + rest);
    l1 := EndOf(text, loc, toks);
    l := CloseReads(text, l1, rest);
  }

  lemma StructReads(text: string, loc: nat, d: Decl, toks: seq<string>, rest: seq<string>) returns (l: nat)
    requires loc <= |text| && d.Struct? && DeclOk(d) && IsDecl(d, toks) && Ready(text, loc) && Reads(text, loc, toks + rest)
    ensures l <= |text| && ParseStruct(text, loc) == Ok(d, l) && Ready(text, l)
    ensures Reads(text, l, rest) && EndOf(text, loc, toks + rest) == EndOf(text, l, rest)
  {
    hide Reads, EndOf, TokenAt, Lit, Kw, Word, ParseParams, ParseParent, ParseMembers, ParseClose, IsMembers, IsParams, ParentTokens, MemberOk, ParamsOk;
    var ps, ms :| IsParams(d.params, ps) && IsMembers(d.members, ms) &&
      toks == ["struct", d.name] + (ps + (ParentTokens(d.parent) + (["{"] + (ms + ["}", ";"]))));
    var body := ms + (["}", ";"] + rest);
    var rest1 := ParentTokens(d.parent) + (["{"] + body);
    StructParts(d.name, ps, ParentTokens(d.parent), ms, rest);
    KeywordNames();
    var l1, l2 := HeadReads(text, loc, "struct", d.name, ps + rest1);
    var next, after := ParentFirst(d.parent, body);
    var l3 := ParamsRead(text, l2, STRUCT_PARAMS, d.params, ps, next, after);
    var l4, l5 := ParentReads(text, l3, d.parent, body);
    var l6, l7 := BodyReads(text, l5, d.members, ms, rest);
    l := l7;
  }

  lemma StructParts(name: string, ps: seq<string>, parent: seq<string>, ms: seq<string>, rest: seq<string>)
    ensures ["struct", name] + (ps + (parent + (["{"] + (ms + ["}", ";"])))) + rest ==
            ["struct", name] + (ps + (parent + (["{"] + (ms + (["}", ";"] + rest)))))
  {}

  lemma ParentFirst(p: Option<string>, body: seq<string>) returns (next: string, after: seq<string>)
    ensures ParentTokens(p) + (["{"] + body) == [next] + after && next != "" && next[0] != '('
  {
    if p.None? {
      next, after := "{", body;
    } else {
      next, after := ":", [p.value] + (["{"] + body);
    }
  }

  lemma EntryReads(text: string, loc: nat, e: Entry, toks: seq<string>, rest: seq<string>) returns (l: nat)
    requires loc <= |text| && EntryOk(e) && IsEntry(e, toks) && Reads(text, loc, toks + rest)
    ensures l <= |text| && ParseEntry(text, loc) == Ok(e, l)
    ensures Reads(text, l, rest) && EndOf(text, loc, toks + rest) == EndOf(text, l, rest)
  {
    hide TokenAt, Lit, Word, Integer, ParseParams, IsParams, IsNumber;
    var ps, n :| IsParams(e.params, ps) && IsNumber(n, e.value) && toks == [e.name] + (ps + ["=", n]);
    var rest1 := ["="] + ([n] + rest);
    assert toks + rest == [e.name] + (ps + rest1);
    KeywordNames();
    ReadsCons(text, loc, e.name, ps + rest1);
    var l1 := After(text, loc, e.name);
    WordReads(text, loc, e.name);
    var l2 := ParamsRead(text, l1, ENTRY_PARAMS, e.params, ps, "=", [n] + rest);
    ReadsCons(text, l2, "=", [n] + rest);
    var l3 := After(text, l2, "=");
    ReadsCons(text, l3, n, rest);
    LitReads(text, l2, "=");
    IntegerReads(text, l3, n, e.value);
    l := After(text, l3, n);
  }

  /** Entries in any of their forms, up to the end of the enum. */
  lemma {:induction false} EntriesRead(text: string, loc: nat, es: seq<Entry>, toks: seq<string>, rest: seq<string>) returns (l: nat)
    requires loc <= |text| && (forall i :: 0 <= i < |es| ==> EntryOk(es[i])) && IsEntries(es, toks) && Reads(text, loc, toks + (["}"] + rest))
    ensures l <= |text| && ParseEntries(text, loc) == Ok(es, l)
    ensures Reads(text, l, ["}"] + rest) && EndOf(text, loc, toks + (["}"] + rest)) == EndOf(text, l, ["}"] + rest)
    decreases |es|
  {
    hide TokenAt, Lit, Word, ParseEntry, IsEntry, EntryOk;
    var close := ["}"] + rest;
    if es == [] {
      assert toks + close == close;
      ReadsCons(text, loc, "}", rest);
      NoEntry(text, loc);
      l := loc;
    } else {
      var x, tail :| IsEntry(es[0], x) && IsEntries(es[1..], tail) && (toks == x + ([","] + tail) || (|es| == 1 && toks == x));
      assert es == [es[0]] + es[1..] && (|es| == 1 ==> es == [es[0]]);
      if toks == x + ([","] + tail) {
        assert toks + close == x + ([","] + (tail + close));
        var l1 := EntryReads(text, loc, es[0], x, [","] + (tail + close));
        ReadsCons(text, l1, ",", tail + close);
        LitReads(text, l1, ",");
        l := EntriesRead(text, After(text, l1, ","), es[1..], tail, rest);
      } else {
        l := EntryReads(text, loc, es[0], x, close);
        ReadsCons(text, l, "}", rest);
        LitOther(text, l, "}", ",");
      }
    }
  }

  lemma NoEntry(text: string, loc: nat)
    requires loc <= |text| && TokenAt(text, loc, "}")
    ensures ParseEntry(text, loc) == Fail
  {}

  lemma EnumReads(text: string, loc: nat, d: Decl, toks: seq<string>, rest: seq<string>) returns (l: nat)
    requires loc <= |text| && d.Enum? && DeclOk(d) && IsDecl(d, toks) && Ready(text, loc) && Reads(text, loc, toks + rest)
    ensures l <= |text| && ParseStruct(text, loc) == Fail && ParseEnum(text, loc) == Ok(d, l) && Ready(text, l)
    ensures Reads(text, l, rest) && EndOf(text, loc, toks + rest) == EndOf(text, l, rest)
  {
    hide TokenAt, Lit, Kw, Word, ParseParams, ParseEntries, ParseClose, IsEntries, IsParams, EntryOk, ParamsOk, Reads, EndOf;
    var ps, es :| IsParams(d.params, ps) && IsEntries(d.entries, es) && toks == ["enum", d.name] + (ps + (["{"] + (es + ["}", ";"])));
    var body := es + (["}", ";"] + rest);
    EnumParts(d.name, ps, es, rest);
    KeywordNames();
    var l1, l2 := HeadReads(text, loc, "enum", d.name, ps + (["{"] + body));
    KwOtherWord(text, loc, "enum", "struct");
    var l3 := ParamsRead(text, l2, ENUM_PARAMS, d.params, ps, "{", body);
    ReadsCons(text, l3, "{", body);
    LitReads(text, l3, "{");
    var l4 := After(text, l3, "{");
    assert body == es + (["}"] + ([";"] + rest));
    var l5 := EntriesRead(text, l4, d.entries, es, [";"] + rest);
    assert ["}"] + ([";"] + rest) == ["}", ";"] + rest;
    l := CloseReads(text, l5, rest);
  }

  lemma EnumParts(name: string, ps: seq<string>, es: seq<string>, rest: seq<string>)
    ensures ["enum", name] + (ps + (["{"] + (es + ["}", ";"]))) + rest == ["enum", name] + (ps + (["{"] + (es + (["}", ";"] + rest))))
  {}

  lemma VersionReads(text: string, loc: nat, version: string, rest: seq<string>) returns (l: nat)
    requires loc <= |text| && IsWord(version) && Reads(text, loc, ["#", "version", version] + rest)
    ensures l <= |text| && ParseDecl(text, loc) == Ok(Version(version), l) && Ready(text, l)
    ensures Reads(text, l, rest) && EndOf(text, loc, ["#", "version", version] + rest) == EndOf(text, l, rest)
  {
    hide TokenAt, Lit, Kw, Word, Reads, EndOf;
    assert ["#", "version", version] + rest == ["#"] + (["version", version] + rest);
    ReadsCons(text, loc, "#", ["version", version] + rest);
    KwNotWord(text, loc, "#", "struct");
    KwNotWord(text, loc, "#", "enum");
    LitReads(text, loc, "#");
    ReadyAfter(text, loc, "#");
    var l1 := After(text, loc, "#");
    var l2, l3 := HeadReads(text, l1, "version", version, rest);
    l := l3;
    assert ["version", version] + rest == ["version"] + ([version] + rest);
    ReadsCons(text, l1, "version", [version] + rest);
    KwReads(text, l1, "version");
    ReadsCons(text, l2, version, rest);
    WordReads(text, l2, version);
    ReadyAfter(text, l2, version);
  }

  lemma DeclReads(text: string, loc: nat, d: Decl, toks: seq<string>, rest: seq<string>) returns (l: nat)
    requires loc <= |text| && DeclOk(d) && IsDecl(d, toks) && Ready(text, loc) && Reads(text, loc, toks + rest)
    ensures l <= |text| && ParseDecl(text, loc) == Ok(d, l) && Ready(text, l)
    ensures Reads(text, l, rest) && EndOf(text, loc, toks + rest) == EndOf(text, l, rest)
  {
    hide ParseStruct, ParseEnum, Reads, EndOf;
    match d {
      case Struct(_, _, _, _) => l := StructReads(text, loc, d, toks, rest);
      case Enum(_, _, _) => l := EnumReads(text, loc, d, toks, rest);
      case Version(v) => l := VersionReads(text, loc, v, rest);
    }
  }

  lemma {:induction false} DeclsRead(text: string, loc: nat, ds: seq<Decl>, toks: seq<string>)
    requires loc <= |text| && FileOk(ds) && IsFile(ds, toks) && Ready(text, loc) && Reads(text, loc, toks)
    requires Skip(text, EndOf(text, loc, toks)) == |text|
    ensures ParseDecls(text, loc) == Ok(ds, EndOf(text, loc, toks))
    decreases |ds|
  {
    hide DeclOk, IsDecl, ParseDecl, Skip;
    if ds == [] {
      NoDecl(text, loc);
    } else {
      var x, y :| IsDecl(ds[0], x) && IsFile(ds[1..], y) && toks == x + y;
      var l := DeclReads(text, loc, ds[0], x, y);
      DeclsRead(text, l, ds[1..], y);
      assert ds == [ds[0]] + ds[1..];
    }
  }

  lemma NoDecl(text: string, loc: nat)
    requires loc <= |text| && Skip(text, loc) == |text|
    ensures ParseDecl(text, loc) == Fail
  {}

  /** A text that spells well-formed declarations in any of their forms and in any layout parses to exactly these. */
  lemma AnyLayoutParses(text: string, ds: seq<Decl>, toks: seq<string>)
    requires FileOk(ds) && IsFile(ds, toks) && Reads(text, 0, toks) && Skip(text, EndOf(text, 0, toks)) == |text|
    ensures Parse(text) == Some(ds)
  {
    hide IsFile, FileOk, Skip;
    DeclsRead(text, 0, ds, toks);
  }

  // --- the canonical form --------------------------------------------------------------------------------------------------------

  lemma MemberForm(m: Member)
    ensures IsMember(m, MemberTokens(m))
  {
    hide IsNumber, Dec, TypeTokens;
    if m.Pad? {
      DecIsNumber(m.length);
    } else if m.TypeMember? {
      DecIsNumber(m.value);
    }
  }

  lemma {:induction false} MembersForm(ms: seq<Member>)
    ensures IsMembers(ms, MembersTokens(ms))
  {
    hide IsMember, MemberTokens;
    if ms != [] {
      MemberForm(ms[0]);
      MembersForm(ms[1..]);
    }
  }

  lemma {:induction false} ParamListForm(ps: seq<Param>)
    requires ps != []
    ensures IsParamList(ps, ParamListTokens(ps))
  {
    if |ps| > 1 {
      ParamListForm(ps[1..]);
      assert ParamListTokens(ps)[4..] == ParamListTokens(ps[1..]);
    }
  }

  lemma ParamsForm(ps: seq<Param>)
    ensures IsParams(ps, ParamsTokens(ps))
  {
    hide IsParamList;
    if ps != [] {
      ParamListForm(ps);
    }
  }

  lemma EntryForm(e: Entry)
    ensures IsEntry(e, EntryTokens(e))
  {
    hide IsParams, IsNumber, Dec;
    ParamsForm(e.params);
    DecIsNumber(e.value);
  }

  lemma {:induction false} EntriesForm(es: seq<Entry>)
    ensures IsEntries(es, EntriesTokens(es))
  {
    hide IsEntry, EntryTokens;
    if es != [] {
      EntryForm(es[0]);
      EntriesForm(es[1..]);
    }
  }

  lemma {:induction false} FileForm(ds: seq<Decl>)
    ensures IsFile(ds, FileTokens(ds))
  {
    hide IsParams, IsMembers, IsEntries, MembersTokens, EntriesTokens, ParamsTokens;
    if ds != [] {
      ParamsForm(if ds[0].Version? then [] else ds[0].params);
      MembersForm(if ds[0].Struct? then ds[0].members else []);
      EntriesForm(if ds[0].Enum? then ds[0].entries else []);
      assert IsDecl(ds[0], DeclTokens(ds[0]));
      FileForm(ds[1..]);
    }
  }
}
