/** Printing and parsing give the same declarations exactly when the language can express them. */
module InputPrint {
  import opened Options
  import opened InputLexer
  import opened InputGrammar
  import opened InputTokens
  import opened InputFiles

  // --- printing --------------------------------------------------------------------------------------------------------

  /** A token that cannot be taken for a blank or a comment. */
  predicate Visible(t: string) {
    t != "" && !IsBlank(t[0]) && t[0] != '/'
  }

  predicate AllVisible(toks: seq<string>) {
    forall i :: 0 <= i < |toks| ==> Visible(toks[i])
  }

  lemma {:induction false} PrintReads(front: string, toks: seq<string>)
    requires AllVisible(toks)
    ensures var text := front + Print(toks);
            Reads(text, |front|, toks) && EndOf(text, |front|, toks) == |text|
    decreases |toks|
  {
    var text := front + Print(toks);
    if toks != [] {
      var t, rest := toks[0], Print(toks[1..]);
      TokenPrinted(front, t, rest);
      assert text == front + " " + t + rest;
      PrintReads(front + " " + t, toks[1..]);
    }
  }

  lemma TokenPrinted(front: string, t: string, rest: string)
    requires Visible(t) && (rest != "" ==> rest[0] == ' ')
    ensures var text := front + " " + t + rest;
            TokenAt(text, |front|, t) && After(text, |front|, t) == |front + " " + t|
  {
    var text, p := front + " " + t + rest, |front| + 1;
    assert text[|front|] == ' ' && text[p] == t[0];
    assert text[p..p + |t|] == t;
    AtFirstIf(text, p, "//", 0);
    AtFirstIf(text, p, "/*", 0);
    assert Skip(text, |front|) == Skip(text, p) == p;
  }

  lemma WordVisible(w: string)
    requires IsWord(w)
    ensures Visible(w)
  {}

  lemma DecVisible(n: nat)
    ensures Visible(Dec(n))
  {}

  lemma TypeVisible(t: Type)
    requires TypeOk(t)
    ensures AllVisible(TypeTokens(t))
  {}

  lemma MemberVisible(m: Member)
    requires MemberOk(m)
    ensures AllVisible(MemberTokens(m))
  {
    hide TypeTokens, Dec, Visible;
    FixedVisible();
    if m.Pad? {
      DecVisible(m.length);
    } else {
      TypeVisible(m.oftype);
      WordVisible(m.name);
      if m.TypeMember? { DecVisible(m.value); }
      if m.FieldLength? { WordVisible(m.field); }
    }
  }

  lemma FixedVisible()
    ensures Visible("pad") && Visible("(") && Visible(")") && Visible("==") && Visible("?") && Visible("length") && Visible(";")
    ensures Visible("=") && Visible(",") && Visible(":") && Visible("{") && Visible("}") && Visible("#")
    ensures Visible("struct") && Visible("enum") && Visible("version")
  {}

  lemma {:induction false} MembersVisible(ms: seq<Member>)
    requires forall i :: 0 <= i < |ms| ==> MemberOk(ms[i])
    ensures AllVisible(MembersTokens(ms))
  {
    hide MemberOk, MemberTokens, Visible;
    FixedVisible();
    if ms != [] {
      MemberVisible(ms[0]);
      MembersVisible(ms[1..]);
    }
  }

  lemma {:induction false} ParamListVisible(ps: seq<Param>, names: seq<string>)
    requires ps != [] && ParamsOk(ps, names) && Names(names)
    ensures AllVisible(ParamListTokens(ps))
  {
    hide Visible, IsWord;
    FixedVisible();
    WordVisible(ps[0].name);
    WordVisible(ps[0].value);
    if |ps| > 1 { ParamListVisible(ps[1..], names); }
  }

  lemma ParamsVisible(ps: seq<Param>, names: seq<string>)
    requires ParamsOk(ps, names) && Names(names)
    ensures AllVisible(ParamsTokens(ps))
  {
    hide Visible, ParamListTokens, ParamsOk, Names;
    FixedVisible();
    if ps != [] { ParamListVisible(ps, names); }
  }

  lemma {:induction false} EntriesVisible(es: seq<Entry>)
    requires forall i :: 0 <= i < |es| ==> EntryOk(es[i])
    ensures AllVisible(EntriesTokens(es))
  {
    hide Visible, ParamsTokens, ParamsOk, Dec, IsWord;
    FixedVisible();
    KeywordNames();
    if es != [] {
      WordVisible(es[0].name);
      ParamsVisible(es[0].params, ENTRY_PARAMS);
      DecVisible(es[0].value);
      if |es| > 1 { EntriesVisible(es[1..]); }
    }
  }

  lemma DeclVisible(d: Decl)
    requires DeclOk(d)
    ensures AllVisible(DeclTokens(d))
  {
    hide Visible, ParamsTokens, ParamsOk, MembersTokens, EntriesTokens, MemberOk, EntryOk, IsWord;
    FixedVisible();
    KeywordNames();
    match d {
      case Struct(name, params, parent, members) =>
        WordVisible(name);
        ParamsVisible(params, STRUCT_PARAMS);
        if parent.Some? { WordVisible(parent.value); }
        MembersVisible(members);
      case Enum(name, params, entries) =>
        WordVisible(name);
        ParamsVisible(params, ENUM_PARAMS);
        EntriesVisible(entries);
      case Version(v) => WordVisible(v);
    }
  }

  lemma {:induction false} FileVisible(ds: seq<Decl>)
    requires FileOk(ds)
    ensures AllVisible(FileTokens(ds))
  {
    hide Visible, DeclOk, DeclTokens;
    if ds != [] {
      DeclVisible(ds[0]);
      FileVisible(ds[1..]);
    }
  }

  // --- what the parser can give ------------------------------------------------------------------------------------------

  lemma NotKeyword(text: string, loc: nat, w: string, k: string)
    requires loc <= |text| && At(text, Skip(text, loc), w) && IsWord(w) && NoIdentAt(text, Skip(text, loc) + |w|) && Ready(text, loc)
    requires !Kw(text, loc, k).Ok?
    ensures w != k
  {
    KwBegins(text, loc, w);
  }

  lemma LitReady(text: string, loc: nat, t: string)
    requires loc <= |text| && Lit(text, loc, t).Ok? && t != "" && !IsIdentChar(t[|t| - 1])
    ensures Ready(text, Lit(text, loc, t).loc)
  {}

  /** Where a word follows, no dollar sign stands. */
  lemma WordApart(text: string, loc: nat)
    requires loc <= |text| && Word(text, loc).Ok? && (loc < |text| ==> !IsWordChar(text[loc]))
    ensures NoIdentAt(text, loc)
  {}

  /** A type that is followed by a name, where no padding was found. */
  lemma ParsedTypeOk(text: string, loc: nat)
    requires loc <= |text| && Ready(text, loc) && ParsePad(text, loc).Fail?
    requires ParseType(text, loc).Ok? && Word(text, ParseType(text, loc).loc).Ok?
    ensures TypeOk(ParseType(text, loc).value)
  {
    hide Kw, Skip, TypeOk, ParseEnumType, ParseArrayType, ParseListType, ParsePad, Word;
    FailedKeywords(text, loc);
    if ParseEnumType(text, loc).Ok? || (!ParseArrayType(text, loc).Ok? && ParseListType(text, loc).Ok?) {
      ParsedNameOk(text, loc);
    } else if ParseArrayType(text, loc).Ok? {
      ParsedArrayOk(text, loc);
    } else {
      ParsedScalarOk(text, loc);
    }
  }

  /** What failed, and would not have failed after its keyword, did not find the keyword. */
  lemma FailedKeywords(text: string, loc: nat)
    requires loc <= |text|
    ensures ParsePad(text, loc).Fail? ==> !Kw(text, loc, "pad").Ok?
    ensures ParseEnumType(text, loc).Fail? ==> !Kw(text, loc, "enum").Ok?
    ensures ParseListType(text, loc).Fail? ==> !Kw(text, loc, "list").Ok?
  {}

  lemma ParsedNameOk(text: string, loc: nat)
    requires loc <= |text|
    ensures ParseEnumType(text, loc).Ok? ==> TypeOk(ParseEnumType(text, loc).value)
    ensures ParseListType(text, loc).Ok? ==> TypeOk(ParseListType(text, loc).value)
  {}

  lemma ParsedArrayOk(text: string, loc: nat)
    requires loc <= |text| && Ready(text, loc) && ParseArrayType(text, loc).Ok?
    requires !Kw(text, loc, "enum").Ok? && !Kw(text, loc, "pad").Ok?
    ensures TypeOk(ParseArrayType(text, loc).value)
  {
    hide Kw, Skip, ParseArrayType;
    ParsedArray(text, loc);
    var t := ParseArrayType(text, loc).value;
    NotKeyword(text, loc, t.elem, "enum");
    NotKeyword(text, loc, t.elem, "pad");
  }

  lemma ParsedScalarOk(text: string, loc: nat)
    requires loc <= |text| && Ready(text, loc) && Word(text, loc).Ok? && Word(text, Word(text, loc).loc).Ok?
    requires !Kw(text, loc, "enum").Ok? && !Kw(text, loc, "list").Ok? && !Kw(text, loc, "pad").Ok?
    ensures TypeOk(Scalar(Word(text, loc).value))
  {
    hide Kw, Skip;
    var w := Word(text, loc);
    WordApart(text, w.loc);
    NotKeyword(text, loc, w.value, "enum");
    NotKeyword(text, loc, w.value, "list");
    NotKeyword(text, loc, w.value, "pad");
  }

  lemma ParsedArray(text: string, loc: nat)
    requires loc <= |text| && ParseArrayType(text, loc).Ok?
    ensures var t := ParseArrayType(text, loc).value;
            && t.ArrayType? && IsWord(t.elem) && IsWord(t.count) && At(text, Skip(text, loc), t.elem)
            && NoIdentAt(text, Skip(text, loc) + |t.elem|)
  {
    hide Skip;
    AtFirstIf(text, Word(text, loc).loc, "[", 0);
  }

  lemma ParsedMemberOk(text: string, loc: nat)
    requires loc <= |text| && Ready(text, loc) && ParseMember(text, loc).Ok?
    ensures MemberOk(ParseMember(text, loc).value)
  {
    hide ParseType, ParsePad, Word, Lit, Integer, TypeOk;
    if ParsePad(text, loc).Ok? {
      PadIsPad(text, loc);
    } else {
      assert ParseType(text, loc).Ok? && Word(text, ParseType(text, loc).loc).Ok?;
      ParsedTypeOk(text, loc);
    }
  }

  lemma PadIsPad(text: string, loc: nat)
    requires loc <= |text| && ParsePad(text, loc).Ok?
    ensures ParsePad(text, loc).value.Pad?
  {}

  lemma {:induction false} ParsedMembersOk(text: string, loc: nat)
    requires loc <= |text| && Ready(text, loc) && ParseMembers(text, loc).Ok?
    ensures forall i :: 0 <= i < |ParseMembers(text, loc).value| ==> MemberOk(ParseMembers(text, loc).value[i])
    decreases |text| - loc
  {
    hide ParseMember, MemberOk, Lit;
    var m := ParseMember(text, loc);
    if m.Ok? {
      ParsedMemberOk(text, loc);
      LitReady(text, m.loc, ";");
      ParsedMembersOk(text, Lit(text, m.loc, ";").loc);
    }
  }

  lemma {:induction false} ParsedParamListOk(text: string, loc: nat, names: seq<string>)
    requires loc <= |text| && ParseParamList(text, loc, names).Ok?
    ensures ParamsOk(ParseParamList(text, loc, names).value, names)
    decreases |text| - loc
  {
    hide Kw, Lit, ParseName;
    var p := ParseParam(text, loc, names);
    var comma := Lit(text, p.loc, ",");
    if comma.Ok? && ParseParamList(text, comma.loc, names).Ok? {
      ParsedParamListOk(text, comma.loc, names);
    }
  }

  lemma ParsedParamsOk(text: string, loc: nat, names: seq<string>)
    requires loc <= |text| && ParseParams(text, loc, names).Ok?
    ensures ParamsOk(ParseParams(text, loc, names).value, names)
  {
    hide Lit, ParseParamList;
    var open := Lit(text, loc, "(");
    if open.Ok? {
      ParsedParamListOk(text, open.loc, names);
    }
  }

  lemma {:induction false} ParsedEntriesOk(text: string, loc: nat)
    requires loc <= |text| && ParseEntries(text, loc).Ok?
    ensures forall i :: 0 <= i < |ParseEntries(text, loc).value| ==> EntryOk(ParseEntries(text, loc).value[i])
    decreases |text| - loc
  {
    hide Lit, ParseParams, ParamsOk, Integer;
    var e := ParseEntry(text, loc);
    if e.Ok? {
      ParsedParamsOk(text, Word(text, loc).loc, ENTRY_PARAMS);
      var comma := Lit(text, e.loc, ",");
      if comma.Ok? {
        ParsedEntriesOk(text, comma.loc);
      }
    }
  }

  lemma ParsedStructOk(text: string, loc: nat)
    requires loc <= |text| && ParseStruct(text, loc).Ok?
    ensures DeclOk(ParseStruct(text, loc).value)
  {
    hide Lit, Kw, ParseParams, ParseMembers, ParamsOk, MemberOk, ParseClose, Skip;
    var name := Word(text, Kw(text, loc, "struct").loc);
    var params := ParseParams(text, name.loc, STRUCT_PARAMS);
    ParsedParamsOk(text, name.loc, STRUCT_PARAMS);
    var parent := ParseParent(text, params.loc);
    LitReady(text, parent.loc, "{");
    ParsedMembersOk(text, Lit(text, parent.loc, "{").loc);
  }

  lemma ParsedEnumOk(text: string, loc: nat)
    requires loc <= |text| && ParseEnum(text, loc).Ok?
    ensures DeclOk(ParseEnum(text, loc).value)
  {
    hide Lit, Kw, ParseParams, ParseEntries, ParamsOk, EntryOk, ParseClose, Skip;
    var name := Word(text, Kw(text, loc, "enum").loc);
    var params := ParseParams(text, name.loc, ENUM_PARAMS);
    ParsedParamsOk(text, name.loc, ENUM_PARAMS);
    ParsedEntriesOk(text, Lit(text, params.loc, "{").loc);
  }

  lemma {:induction false} ParsedDeclsOk(text: string, loc: nat)
    requires loc <= |text| && ParseDecls(text, loc).Ok?
    ensures FileOk(ParseDecls(text, loc).value)
    decreases |text| - loc
  {
    hide ParseStruct, ParseEnum, Lit, Kw;
    var d := ParseDecl(text, loc);
    if d.Ok? {
      if ParseStruct(text, loc).Ok? {
        ParsedStructOk(text, loc);
      } else if ParseEnum(text, loc).Ok? {
        ParsedEnumOk(text, loc);
      }
      ParsedDeclsOk(text, d.loc);
    }
  }

  /** Whatever text is parsed, the declarations are well-formed: no type is a scalar named like a keyword of types. */
  lemma ParsedIsWellFormed(text: string)
    requires Parse(text).Some?
    ensures FileOk(Parse(text).value)
  {
    hide ParseDecls, FileOk, Skip;
    ParsedDeclsOk(text, 0);
  }

  // --- the round trip ---------------------------------------------------------------------------------------------------------

  /** Printing declarations and parsing the text gives them back exactly when the language can express them. */
  lemma RoundTrip(ds: seq<Decl>)
    ensures Parse(Print(FileTokens(ds))) == Some(ds) <==> FileOk(ds)
  {
    hide Parse, FileOk, FileTokens, Skip;
    var text := Print(FileTokens(ds));
    if FileOk(ds) {
      FileVisible(ds);
      PrintReads("", FileTokens(ds));
      assert "" + text == text;
      FileForm(ds);
      AnyLayoutParses(text, ds, FileTokens(ds));
    }
    if Parse(text) == Some(ds) {
      ParsedIsWellFormed(text);
    }
  }

}
