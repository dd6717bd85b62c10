/** Every text that parses spells the declarations it parses to. */
module InputSound {
  import opened Options
  import opened InputLexer
  import opened InputGrammar
  import opened InputTokens
  import opened InputFiles
  import opened InputPrint
  import opened InputSpelling

  // --- numbers and types ---------------------------------------------------------------------------------------------------

  lemma {:induction false} ZerosAreZero(t: string)
    requires forall i :: 0 <= i < |t| ==> t[i] == '0'
    ensures Value(t, 10) == 0
  {
    if t != "" {
      ZerosAreZero(t[..|t| - 1]);
    }
  }

  lemma DecimalIsNumber(t: string)
    requires t != "" && (forall i :: 0 <= i < |t| ==> IsDigit(t[i])) && !BadDecimal(t)
    ensures IsNumber(t, Value(t, 10))
  {
    if t[0] == '0' {
      ZerosAreZero(t);
    }
  }

  lemma HexIsNumber(x: string)
    requires x != "" && forall i :: 0 <= i < |x| ==> IsHexDigit(x[i])
    ensures IsNumber("0x" + x, Value(x, 16))
  {
    var t := "0x" + x;
    assert t[..2] == "0x" && t[2..] == x;
    forall i | 2 <= i < |t| ensures IsHexDigit(t[i]) {
      assert t[i] == x[i - 2];
    }
  }

  lemma NumberIsToken(t: string, n: nat)
    requires IsNumber(t, n)
    ensures IsToken(t)
  {
    if |t| > 2 && t[..2] == "0x" {
      assert t[0] == '0' && t[1] == 'x';
    }
  }

  lemma IntegerSpells(text: string, loc: nat) returns (t: string)
    requires loc <= |text| && Integer(text, loc).Ok? && Edge(text, loc)
    ensures IsNumber(t, Integer(text, loc).value) && Spells(text, loc, Integer(text, loc).loc, [t])
  {
    hide Spells, Skip, Edge, IsNumber, Value, BadDecimal, IsHexDigit, IsDigit;
    var p := Skip(text, loc);
    var e := Integer(text, loc).loc;
    t := text[p..e];
    if At(text, p, "0x") {
      assert t == "0x" + text[p + 2..e];
      HexIsNumber(text[p + 2..e]);
    } else {
      DecimalIsNumber(t);
    }
    assert IsToken(t) by { NumberIsToken(t, Integer(text, loc).value); }
    OneToken(text, loc, p, t);
  }

  /** A word in brackets stuck to what is before them is one token with it. */
  lemma TypeSpells(text: string, loc: nat)
    requires loc <= |text| && ParseType(text, loc).Ok? && Edge(text, loc)
    ensures Spells(text, loc, ParseType(text, loc).loc, TypeTokens(ParseType(text, loc).value)) && Edge(text, ParseType(text, loc).loc)
  {
    hide Spells, Kw, Word;
    if ParseEnumType(text, loc).Ok? {
      var k := Kw(text, loc, "enum");
      KwSpells(text, loc, "enum");
      WordSpells(text, k.loc);
      SpellsJoin(text, loc, k.loc, Word(text, k.loc).loc, ["enum"], [Word(text, k.loc).value]);
      assert ["enum"] + [Word(text, k.loc).value] == ["enum", Word(text, k.loc).value];
    } else if ParseArrayType(text, loc).Ok? {
      ArraySpells(text, loc);
    } else if ParseListType(text, loc).Ok? {
      ListSpells(text, loc);
    } else {
      WordSpells(text, loc);
    }
  }

  lemma WordIsToken(w: string)
    requires IsWord(w)
    ensures IsToken(w)
  {}

  lemma TokensJoin(a: string, b: string)
    requires IsToken(a) && IsToken(b)
    ensures IsToken(a + b)
  {}

  lemma ArraySpells(text: string, loc: nat)
    requires loc <= |text| && ParseArrayType(text, loc).Ok? && Edge(text, loc)
    ensures Spells(text, loc, ParseArrayType(text, loc).loc, TypeTokens(ParseArrayType(text, loc).value)) && Edge(text, ParseArrayType(text, loc).loc)
  {
    hide Spells, Skip, RawWord, Edge, IsWordChar;
    var w := Word(text, loc);
    var c := RawWord(text, w.loc + 1);
    var p := Skip(text, loc);
    Pieces(text, p, w.value, "[", c.value, "]");
    WordIsToken(w.value);
    WordIsToken(c.value);
    TokensJoin(w.value, "[");
    TokensJoin(w.value + "[", c.value);
    TokensJoin(w.value + "[" + c.value, "]");
    OneToken(text, loc, p, w.value + "[" + c.value + "]");
    AfterSymbol(text, c.loc + 1);
  }

  lemma ListSpells(text: string, loc: nat)
    requires loc <= |text| && ParseListType(text, loc).Ok? && Edge(text, loc)
    ensures Spells(text, loc, ParseListType(text, loc).loc, TypeTokens(ParseListType(text, loc).value)) && Edge(text, ParseListType(text, loc).loc)
  {
    hide Spells, Skip, RawWord, Edge, IsWordChar, NoIdentAt;
    var k := Kw(text, loc, "list");
    var w := RawWord(text, k.loc + 1);
    var p := Skip(text, loc);
    Pieces(text, p, "list", "(", w.value, ")");
    assert "list(" == "list" + "(";
    WordIsToken(w.value);
    TokensJoin("list(", w.value);
    TokensJoin("list(" + w.value, ")");
    OneToken(text, loc, p, "list(" + w.value + ")");
    AfterSymbol(text, w.loc + 1);
  }

  lemma AfterSymbol(text: string, e: nat)
    requires 0 < e <= |text| && text[e - 1] in {']', ')'}
    ensures Edge(text, e)
  {}

  lemma Pieces(text: string, p: nat, a: string, b: string, c: string, d: string)
    requires At(text, p, a) && At(text, p + |a|, b) && At(text, p + |a| + |b|, c) && At(text, p + |a| + |b| + |c|, d)
    ensures At(text, p, a + b + c + d)
    ensures d != "" ==> text[p + |a + b + c + d| - 1] == d[|d| - 1]
  {
    var t := a + b + c + d;
    assert text[p..p + |t|] == t;
    if d != "" {
      AtFirst(text, p + |a| + |b| + |c|, d, |d| - 1);
    }
  }

  // --- members -------------------------------------------------------------------------------------------------------------

  /** One more token after those that are spelled. */
  lemma ThenLit(text: string, a: nat, loc: nat, toks: seq<string>, t: string) returns (more: seq<string>)
    requires loc <= |text| && Spells(text, a, loc, toks) && Lit(text, loc, t).Ok? && IsToken(t) && (IsWordChar(t[0]) ==> Edge(text, loc))
    ensures more == toks + [t] && Spells(text, a, Lit(text, loc, t).loc, more)
    ensures !IsWordChar(t[|t| - 1]) ==> Edge(text, Lit(text, loc, t).loc)
  {
    hide Spells, Lit, Edge;
    LitSpells(text, loc, t);
    SpellsJoin(text, a, loc, Lit(text, loc, t).loc, toks, [t]);
    more := toks + [t];
  }

  lemma ThenWord(text: string, a: nat, loc: nat, toks: seq<string>) returns (more: seq<string>)
    requires loc <= |text| && Spells(text, a, loc, toks) && Word(text, loc).Ok? && Edge(text, loc)
    ensures more == toks + [Word(text, loc).value] && Spells(text, a, Word(text, loc).loc, more) && Edge(text, Word(text, loc).loc)
  {
    hide Spells, Word, Edge;
    WordSpells(text, loc);
    more := toks + [Word(text, loc).value];
    SpellsJoin(text, a, loc, Word(text, loc).loc, toks, [Word(text, loc).value]);
  }

  lemma ThenNumber(text: string, a: nat, loc: nat, toks: seq<string>) returns (t: string, more: seq<string>)
    requires loc <= |text| && Spells(text, a, loc, toks) && Integer(text, loc).Ok? && Edge(text, loc)
    ensures more == toks + [t] && IsNumber(t, Integer(text, loc).value) && Spells(text, a, Integer(text, loc).loc, more)
  {
    hide Spells, Integer, Edge, IsNumber;
    t := IntegerSpells(text, loc);
    more := toks + [t];
    SpellsJoin(text, a, loc, Integer(text, loc).loc, toks, [t]);
  }

  lemma PadSpells(text: string, loc: nat) returns (toks: seq<string>)
    requires loc <= |text| && ParsePad(text, loc).Ok? && Edge(text, loc)
    ensures IsMember(ParsePad(text, loc).value, toks) && Spells(text, loc, ParsePad(text, loc).loc, toks)
  {
    hide Spells, Kw, Lit, Integer, Edge, IsNumber;
    KwSpells(text, loc, "pad");
    var k := Kw(text, loc, "pad");
    var open := Lit(text, k.loc, "(");
    toks := ThenLit(text, loc, k.loc, ["pad"], "(");
    var t;
    t, toks := ThenNumber(text, loc, open.loc, toks);
    toks := ThenLit(text, loc, Integer(text, open.loc).loc, toks, ")");
    assert toks == ["pad", "(", t, ")"];
  }

  lemma TypedSpells(text: string, loc: nat) returns (toks: seq<string>)
    requires loc <= |text| && ParseTyped(text, loc).Ok? && Edge(text, loc)
    ensures toks == TypeTokens(ParseTyped(text, loc).value.0) + [ParseTyped(text, loc).value.1]
    ensures Spells(text, loc, ParseTyped(text, loc).loc, toks) && Edge(text, ParseTyped(text, loc).loc)
  {
    hide Spells, Word, Edge, ParseType, TypeTokens;
    TypeSpells(text, loc);
    toks := ThenWord(text, loc, ParseType(text, loc).loc, TypeTokens(ParseType(text, loc).value));
  }

  lemma TypeMemberSpells(text: string, loc: nat) returns (toks: seq<string>)
    requires loc <= |text| && ParseTypeMember(text, loc).Ok? && Edge(text, loc)
    ensures IsMember(ParseTypeMember(text, loc).value, toks) && Spells(text, loc, ParseTypeMember(text, loc).loc, toks)
  {
    hide Spells, Lit, Integer, Edge, IsNumber, ParseTyped, TypeTokens;
    var t := ParseTyped(text, loc);
    toks := TypedSpells(text, loc);
    var eq := Lit(text, t.loc, "==");
    toks := ThenLit(text, loc, t.loc, toks, "==");
    var n;
    n, toks := ThenNumber(text, loc, eq.loc, toks);
    assert toks == TypeTokens(t.value.0) + [t.value.1, "==", n];
  }

  lemma DiscriminatorSpells(text: string, loc: nat) returns (toks: seq<string>)
    requires loc <= |text| && ParseDiscriminator(text, loc).Ok? && Edge(text, loc)
    ensures IsMember(ParseDiscriminator(text, loc).value, toks) && Spells(text, loc, ParseDiscriminator(text, loc).loc, toks)
  {
    hide Spells, Lit, Edge, ParseTyped, TypeTokens;
    var t := ParseTyped(text, loc);
    toks := TypedSpells(text, loc);
    toks := ThenLit(text, loc, t.loc, toks, "==");
    toks := ThenLit(text, loc, Lit(text, t.loc, "==").loc, toks, "?");
    assert toks == TypeTokens(t.value.0) + [t.value.1, "==", "?"];
  }

  lemma FieldLengthSpells(text: string, loc: nat) returns (toks: seq<string>)
    requires loc <= |text| && ParseFieldLength(text, loc).Ok? && Edge(text, loc)
    ensures IsMember(ParseFieldLength(text, loc).value, toks) && Spells(text, loc, ParseFieldLength(text, loc).loc, toks)
  {
    hide Spells, Lit, Word, Edge, ParseTyped, TypeTokens;
    var t := ParseTyped(text, loc);
    var eq := Lit(text, t.loc, "==");
    var len := Lit(text, eq.loc, "length");
    var open := Lit(text, len.loc, "(");
    var f := Word(text, open.loc);
    toks := TypedSpells(text, loc);
    toks := ThenLit(text, loc, t.loc, toks, "==");
    toks := ThenLit(text, loc, eq.loc, toks, "length");
    toks := ThenLit(text, loc, len.loc, toks, "(");
    toks := ThenWord(text, loc, open.loc, toks);
    toks := ThenLit(text, loc, f.loc, toks, ")");
    assert toks == TypeTokens(t.value.0) + [t.value.1, "==", "length", "(", f.value, ")"];
  }

  lemma DataSpells(text: string, loc: nat) returns (toks: seq<string>)
    requires loc <= |text| && ParseData(text, loc).Ok? && Edge(text, loc)
    ensures IsMember(ParseData(text, loc).value, toks) && Spells(text, loc, ParseData(text, loc).loc, toks)
  {
    hide Spells, Word, Edge, ParseType, TypeTokens;
    TypeSpells(text, loc);
    toks := ThenWord(text, loc, ParseType(text, loc).loc, TypeTokens(ParseType(text, loc).value));
  }

  lemma MemberSpells(text: string, loc: nat) returns (toks: seq<string>)
    requires loc <= |text| && ParseMember(text, loc).Ok? && Edge(text, loc)
    ensures IsMember(ParseMember(text, loc).value, toks) && Spells(text, loc, ParseMember(text, loc).loc, toks)
  {
    hide Spells, Edge, IsMember, ParsePad, ParseTypeMember, ParseDiscriminator, ParseFieldLength, ParseData;
    if ParsePad(text, loc).Ok? {
      toks := PadSpells(text, loc);
    } else if ParseTypeMember(text, loc).Ok? {
      toks := TypeMemberSpells(text, loc);
    } else if ParseDiscriminator(text, loc).Ok? {
      toks := DiscriminatorSpells(text, loc);
    } else if ParseFieldLength(text, loc).Ok? {
      toks := FieldLengthSpells(text, loc);
    } else {
      toks := DataSpells(text, loc);
    }
  }

  lemma {:induction false} MembersSpell(text: string, loc: nat) returns (toks: seq<string>)
    requires loc <= |text| && ParseMembers(text, loc).Ok? && Edge(text, loc)
    ensures IsMembers(ParseMembers(text, loc).value, toks) && Spells(text, loc, ParseMembers(text, loc).loc, toks)
    ensures Edge(text, ParseMembers(text, loc).loc)
    decreases |text| - loc
  {
    hide Spells, Edge, IsMember, ParseMember, Lit;
    var m := ParseMember(text, loc);
    if m.Fail? {
      NoTokens(text, loc);
      toks := [];
    } else {
      var semi := Lit(text, m.loc, ";");
      var x := MemberSpells(text, loc);
      var front := ThenLit(text, loc, m.loc, x, ";");
      var y := MembersSpell(text, semi.loc);
      toks := x + ([";"] + y);
      assert front + y == toks;
      SpellsJoin(text, loc, semi.loc, ParseMembers(text, semi.loc).loc, front, y);
      var ms := ParseMembers(text, loc).value;
      assert ms[0] == m.value && ms[1..] == ParseMembers(text, semi.loc).value;
    }
  }

  // --- parameters ------------------------------------------------------------------------------------------------------------

  lemma {:induction false} NameSpells(text: string, loc: nat, names: seq<string>)
    requires loc <= |text| && ParseName(text, loc, names).Ok? && Edge(text, loc) && forall i :: 0 <= i < |names| ==> IsToken(names[i])
    ensures Spells(text, loc, ParseName(text, loc, names).loc, [ParseName(text, loc, names).value]) && Edge(text, ParseName(text, loc, names).loc)
    decreases |names|
  {
    hide Spells, Edge, Kw;
    if Kw(text, loc, names[0]).Ok? {
      KwSpells(text, loc, names[0]);
    } else {
      NameSpells(text, loc, names[1..]);
    }
  }

  lemma ParamSpells(text: string, loc: nat, names: seq<string>) returns (toks: seq<string>)
    requires loc <= |text| && ParseParam(text, loc, names).Ok? && Edge(text, loc) && forall i :: 0 <= i < |names| ==> IsToken(names[i])
    ensures var p := ParseParam(text, loc, names);
            toks == [p.value.name, "=", p.value.value] && Spells(text, loc, p.loc, toks) && Edge(text, p.loc)
  {
    hide Spells, Edge, ParseName, Lit, Word;
    var k := ParseName(text, loc, names);
    NameSpells(text, loc, names);
    toks := ThenLit(text, loc, k.loc, [k.value], "=");
    toks := ThenWord(text, loc, Lit(text, k.loc, "=").loc, toks);
  }

  lemma {:induction false} ParamListSpells(text: string, loc: nat, names: seq<string>) returns (toks: seq<string>)
    requires loc <= |text| && ParseParamList(text, loc, names).Ok? && Edge(text, loc) && forall i :: 0 <= i < |names| ==> IsToken(names[i])
    ensures var r := ParseParamList(text, loc, names); IsParamList(r.value, toks) && Spells(text, loc, r.loc, toks) && Edge(text, r.loc)
    decreases |text| - loc
  {
    hide Spells, Edge, ParseParam, Lit;
    var p := ParseParam(text, loc, names);
    var x := ParamSpells(text, loc, names);
    toks := x;
    var comma := Lit(text, p.loc, ",");
    if comma.Ok? {
      toks := ThenLit(text, loc, p.loc, x, ",");
      var rest := ParseParamList(text, comma.loc, names);
      if rest.Ok? {
        var front := toks;
        var y := ParamListSpells(text, comma.loc, names);
        toks := front + y;
        SpellsJoin(text, loc, comma.loc, rest.loc, front, y);
        var ps := ParseParamList(text, loc, names).value;
        assert ps[0] == p.value && ps[1..] == rest.value;
        assert toks[..3] == x && toks[4..] == y;
      } else {
        assert toks[..3] == x && toks[3..] == [","];
      }
    } else {
      assert toks[..3] == x && toks[3..] == [];
    }
  }

  lemma ParamsSpell(text: string, loc: nat, names: seq<string>) returns (toks: seq<string>)
    requires loc <= |text| && ParseParams(text, loc, names).Ok? && Edge(text, loc) && forall i :: 0 <= i < |names| ==> IsToken(names[i])
    ensures var r := ParseParams(text, loc, names); IsParams(r.value, toks) && Spells(text, loc, r.loc, toks) && Edge(text, r.loc)
  {
    hide Spells, Edge, ParseParamList, Lit, IsParamList;
    var open := Lit(text, loc, "(");
    if open.Ok? {
      LitSpells(text, loc, "(");
      var list := ParamListSpells(text, open.loc, names);
      var ps := ParseParamList(text, open.loc, names);
      SpellsJoin(text, loc, open.loc, ps.loc, ["("], list);
      toks := ThenLit(text, loc, ps.loc, ["("] + list, ")");
      assert toks == ["("] + (list + [")"]);
    } else {
      NoTokens(text, loc);
      toks := [];
    }
  }

  // --- declarations -----------------------------------------------------------------------------------------------------------

  lemma GapSpells(text: string, a: nat, b: nat)
    requires Gap(text, a, b)
    ensures Spells(text, a, b, [])
  {}

  lemma ParentSpells(text: string, loc: nat)
    requires loc <= |text| && ParseParent(text, loc).Ok? && Edge(text, loc)
    ensures var r := ParseParent(text, loc); Spells(text, loc, r.loc, ParentTokens(r.value)) && Edge(text, r.loc)
  {
    hide Edge, Lit, Word, Spells, Skip, Gap;
    var colon := Lit(text, loc, ":");
    if colon.Ok? {
      LitSpells(text, loc, ":");
      var toks := ThenWord(text, loc, colon.loc, [":"]);
      assert toks == [":", Word(text, colon.loc).value];
    } else {
      SkipIsGap(text, loc);
      GapSpells(text, loc, Skip(text, loc));
      SkipEdge(text, loc);
    }
  }

  lemma CloseSpells(text: string, a: nat, loc: nat, toks: seq<string>) returns (more: seq<string>)
    requires loc <= |text| && Spells(text, a, loc, toks) && ParseClose(text, loc).Ok?
    ensures more == toks + ["}", ";"] && Spells(text, a, ParseClose(text, loc).loc, more) && Edge(text, ParseClose(text, loc).loc)
  {
    hide Spells, Edge, Lit;
    more := ThenLit(text, a, loc, toks, "}");
    more := ThenLit(text, a, Lit(text, loc, "}").loc, more, ";");
    assert more == toks + ["}", ";"];
  }

  lemma StructSpells(text: string, loc: nat) returns (toks: seq<string>)
    requires loc <= |text| && ParseStruct(text, loc).Ok? && Edge(text, loc)
    ensures var r := ParseStruct(text, loc); IsDecl(r.value, toks) && Spells(text, loc, r.loc, toks) && Edge(text, r.loc)
  {
    hide Spells, Edge, Kw, Word, Lit, ParseParams, ParseParent, ParseMembers, ParseClose, IsParams, IsMembers, ParentTokens;
    var k := Kw(text, loc, "struct");
    var name := Word(text, k.loc);
    var params := ParseParams(text, name.loc, STRUCT_PARAMS);
    var parent := ParseParent(text, params.loc);
    var open := Lit(text, parent.loc, "{");
    var members := ParseMembers(text, open.loc);
    KwSpells(text, loc, "struct");
    toks := ThenWord(text, loc, k.loc, ["struct"]);
    var ps := ParamsSpell(text, name.loc, STRUCT_PARAMS);
    SpellsJoin(text, loc, name.loc, params.loc, toks, ps);
    ParentSpells(text, params.loc);
    SpellsJoin(text, loc, params.loc, parent.loc, toks + ps, ParentTokens(parent.value));
    toks := ThenLit(text, loc, parent.loc, toks + ps + ParentTokens(parent.value), "{");
    var ms := MembersSpell(text, open.loc);
    SpellsJoin(text, loc, open.loc, members.loc, toks, ms);
    toks := CloseSpells(text, loc, members.loc, toks + ms);
    assert toks == ["struct", name.value] + (ps + (ParentTokens(parent.value) + (["{"] + (ms + ["}", ";"]))));
  }

  lemma EntrySpells(text: string, loc: nat) returns (toks: seq<string>)
    requires loc <= |text| && ParseEntry(text, loc).Ok? && Edge(text, loc)
    ensures IsEntry(ParseEntry(text, loc).value, toks) && Spells(text, loc, ParseEntry(text, loc).loc, toks)
  {
    hide Spells, Edge, Word, Lit, Integer, ParseParams, IsParams, IsNumber;
    var name := Word(text, loc);
    var params := ParseParams(text, name.loc, ENTRY_PARAMS);
    var eq := Lit(text, params.loc, "=");
    WordSpells(text, loc);
    var ps := ParamsSpell(text, name.loc, ENTRY_PARAMS);
    SpellsJoin(text, loc, name.loc, params.loc, [name.value], ps);
    toks := ThenLit(text, loc, params.loc, [name.value] + ps, "=");
    var t;
    t, toks := ThenNumber(text, loc, eq.loc, toks);
    assert toks == [name.value] + (ps + ["=", t]);
  }

  lemma {:induction false} EntriesSpell(text: string, loc: nat) returns (toks: seq<string>)
    requires loc <= |text| && ParseEntries(text, loc).Ok? && Edge(text, loc)
    ensures IsEntries(ParseEntries(text, loc).value, toks) && Spells(text, loc, ParseEntries(text, loc).loc, toks)
    decreases |text| - loc
  {
    hide Spells, Edge, IsEntry, ParseEntry, Lit;
    var e := ParseEntry(text, loc);
    if e.Fail? {
      NoTokens(text, loc);
      toks := [];
    } else {
      var x := EntrySpells(text, loc);
      var es := ParseEntries(text, loc).value;
      var comma := Lit(text, e.loc, ",");
      if comma.Ok? {
        var front := ThenLit(text, loc, e.loc, x, ",");
        var y := EntriesSpell(text, comma.loc);
        toks := front + y;
        SpellsJoin(text, loc, comma.loc, ParseEntries(text, comma.loc).loc, front, y);
        assert es[0] == e.value && es[1..] == ParseEntries(text, comma.loc).value;
        assert IsEntry(es[0], x) && IsEntries(es[1..], y);
        assert toks == x + ([","] + y);
      } else {
        toks := x;
        assert es == [e.value] && es[1..] == [];
        assert IsEntry(es[0], x) && IsEntries(es[1..], []);
      }
    }
  }

  lemma EnumSpells(text: string, loc: nat) returns (toks: seq<string>)
    requires loc <= |text| && ParseEnum(text, loc).Ok? && Edge(text, loc)
    ensures var r := ParseEnum(text, loc); IsDecl(r.value, toks) && Spells(text, loc, r.loc, toks) && Edge(text, r.loc)
  {
    hide Spells, Edge, Kw, Word, Lit, ParseParams, ParseEntries, ParseClose, IsParams, IsEntries;
    var k := Kw(text, loc, "enum");
    var name := Word(text, k.loc);
    var params := ParseParams(text, name.loc, ENUM_PARAMS);
    var open := Lit(text, params.loc, "{");
    var entries := ParseEntries(text, open.loc);
    KwSpells(text, loc, "enum");
    toks := ThenWord(text, loc, k.loc, ["enum"]);
    var ps := ParamsSpell(text, name.loc, ENUM_PARAMS);
    SpellsJoin(text, loc, name.loc, params.loc, toks, ps);
    toks := ThenLit(text, loc, params.loc, toks + ps, "{");
    var es := EntriesSpell(text, open.loc);
    SpellsJoin(text, loc, open.loc, entries.loc, toks, es);
    toks := CloseSpells(text, loc, entries.loc, toks + es);
    assert toks == ["enum", name.value] + (ps + (["{"] + (es + ["}", ";"])));
  }

  lemma VersionSpells(text: string, loc: nat) returns (toks: seq<string>)
    requires loc <= |text| && ParseVersion(text, loc).Ok? && Edge(text, loc)
    ensures var r := ParseVersion(text, loc); IsDecl(r.value, toks) && Spells(text, loc, r.loc, toks) && Edge(text, r.loc)
  {
    hide Spells, Edge, Kw, Word, Lit;
    var hash := Lit(text, loc, "#");
    var k := Kw(text, hash.loc, "version");
    LitSpells(text, loc, "#");
    KwSpells(text, hash.loc, "version");
    SpellsJoin(text, loc, hash.loc, k.loc, ["#"], ["version"]);
    toks := ThenWord(text, loc, k.loc, ["#"] + ["version"]);
  }

  lemma DeclSpells(text: string, loc: nat) returns (toks: seq<string>)
    requires loc <= |text| && ParseDecl(text, loc).Ok? && Edge(text, loc)
    ensures var r := ParseDecl(text, loc); IsDecl(r.value, toks) && Spells(text, loc, r.loc, toks) && Edge(text, r.loc)
  {
    hide Spells, Edge, IsDecl, ParseStruct, ParseEnum, ParseVersion;
    if ParseStruct(text, loc).Ok? {
      toks := StructSpells(text, loc);
    } else if ParseEnum(text, loc).Ok? {
      toks := EnumSpells(text, loc);
    } else {
      toks := VersionSpells(text, loc);
    }
  }

  lemma {:induction false} DeclsSpell(text: string, loc: nat) returns (toks: seq<string>)
    requires loc <= |text| && ParseDecls(text, loc).Ok? && Edge(text, loc)
    ensures IsFile(ParseDecls(text, loc).value, toks) && Spells(text, loc, ParseDecls(text, loc).loc, toks)
    decreases |text| - loc
  {
    hide Spells, Edge, IsDecl, ParseDecl;
    var d := ParseDecl(text, loc);
    if d.Fail? {
      NoTokens(text, loc);
      toks := [];
    } else {
      var x := DeclSpells(text, loc);
      var y := DeclsSpell(text, d.loc);
      toks := x + y;
      SpellsJoin(text, loc, d.loc, ParseDecls(text, d.loc).loc, x, y);
      var ds := ParseDecls(text, loc).value;
      assert ds[0] == d.value && ds[1..] == ParseDecls(text, d.loc).value;
    }
  }

  /** A text that parses spells the declarations from its beginning to its end, with nothing else in it but blanks and
      comments; numbers may be hexadecimal, and commas may follow the last of a list. */
  lemma ParsedIsSpelled(text: string) returns (toks: seq<string>)
    requires Parse(text).Some?
    ensures FileOk(Parse(text).value) && IsFile(Parse(text).value, toks) && Spells(text, 0, |text|, toks)
  {
    hide Spells, IsFile, ParseDecls, FileOk;
    ParsedIsWellFormed(text);
    toks := DeclsSpell(text, 0);
    var end := ParseDecls(text, 0).loc;
    SkipIsGap(text, end);
    GapSpells(text, end, |text|);
    SpellsJoin(text, 0, end, |text|, toks, []);
    assert toks + [] == toks;
  }

  // --- and every text that spells declarations parses -----------------------------------------------------------------------------

  lemma {:induction false} LineEndsAt(text: string, loc: nat, e: nat)
    requires loc <= e <= |text| && (forall i :: loc <= i < e && text[i] == '\n' ==> i > loc && text[i - 1] == '\\')
    requires e < |text| ==> text[e] == '\n' && (e > loc ==> text[e - 1] != '\\')
    ensures LineEnd(text, loc) == e
    decreases e - loc
  {
    AtTwo(text, loc, "\\\n");
    if loc < e {
      LineEndsAt(text, if At(text, loc, "\\\n") then loc + 2 else loc + 1, e);
    }
  }

  lemma {:induction false} BlockEndsAt(text: string, loc: nat, e: nat)
    requires loc + 2 <= e <= |text| && text[e - 2] == '*' && text[e - 1] == '/'
    requires forall i :: loc <= i < e - 2 ==> text[i] != '*' || text[i + 1] != '/'
    ensures BlockEnd(text, loc) == e
    decreases e - loc
  {
    AtTwo(text, loc, "*/");
    if loc + 2 < e {
      BlockEndsAt(text, loc + 1, e);
    }
  }

  lemma PieceSkipped(text: string, a: nat, e: nat)
    requires IsBlankOrComment(text, a, e)
    ensures a < e <= |text| && Skip(text, a) == Skip(text, e)
  {
    AtTwo(text, a, "//");
    AtTwo(text, a, "/*");
    if IsLineComment(text, a, e) {
      LineEndsAt(text, a + 2, e);
    } else if IsBlockComment(text, a, e) {
      BlockEndsAt(text, a + 2, e);
    }
  }

  lemma {:induction false} GapSkipped(text: string, a: nat, b: nat)
    requires Gap(text, a, b)
    ensures Skip(text, a) == Skip(text, b)
    decreases b - a
  {
    hide Skip, IsBlankOrComment;
    if a < b {
      var e: nat :| a < e <= b && IsBlankOrComment(text, a, e) && Gap(text, e, b);
      PieceSkipped(text, a, e);
      GapSkipped(text, e, b);
    }
  }

  /** What follows a word is no part of it: a gap begins with a blank or a slash, and the next token is no word. */
  lemma NextApart(text: string, loc: nat, toks: seq<string>)
    requires 0 < loc < |text| && IsWordChar(text[loc - 1]) && Spells(text, loc, |text|, toks)
    ensures !IsIdentChar(text[loc])
  {
    if toks == [] {
      GapBegins(text, loc, |text|);
    } else {
      var p: nat :| Gap(text, loc, p) && Stands(text, p, toks[0]) && Spells(text, p + |toks[0]|, |text|, toks[1..]);
      if loc < p {
        GapBegins(text, loc, p);
      } else {
        assert toks[0][0] == text[p];
      }
    }
  }

  lemma GapBegins(text: string, a: nat, b: nat)
    requires Gap(text, a, b) && a < b
    ensures !IsIdentChar(text[a])
  {}

  lemma TokenThere(text: string, loc: nat, p: nat, t: string)
    requires loc <= |text| && Gap(text, loc, p) && Stands(text, p, t)
    ensures Skip(text, loc) == p && At(text, p, t) && IsIdentChar(t[|t| - 1]) == IsWordChar(text[p + |t| - 1])
  {
    hide Gap;
    GapSkipped(text, loc, p);
    assert text[p] == t[0] && text[p + |t| - 1] == t[|t| - 1];
    AtTwo(text, p, "//");
    AtTwo(text, p, "/*");
  }

  lemma {:induction false} SpelledReads(text: string, loc: nat, toks: seq<string>)
    requires loc <= |text| && Spells(text, loc, |text|, toks)
    ensures Reads(text, loc, toks) && Skip(text, EndOf(text, loc, toks)) == |text|
    decreases |toks|
  {
    hide Gap, Skip, Stands;
    if toks == [] {
      GapSkipped(text, loc, |text|);
      SkipAtEnd(text);
    } else {
      var t := toks[0];
      var p: nat :| Gap(text, loc, p) && Stands(text, p, t) && Spells(text, p + |t|, |text|, toks[1..]);
      TokenThere(text, loc, p, t);
      assert t != "" by { StandsIs(text, p, t); }
      if p + |t| < |text| && IsIdentChar(t[|t| - 1]) {
        NextApart(text, p + |t|, toks[1..]);
      }
      SpelledReads(text, p + |t|, toks[1..]);
    }
  }

  lemma StandsIs(text: string, p: nat, t: string)
    requires Stands(text, p, t)
    ensures t != "" && p + |t| <= |text|
  {}

  lemma SkipAtEnd(text: string)
    ensures Skip(text, |text|) == |text|
  {}

  /** The parser accepts exactly the texts that spell well-formed declarations, and gives these. */
  lemma ParsesWhatIsSpelled(text: string, ds: seq<Decl>)
    ensures Parse(text) == Some(ds) <==> FileOk(ds) && exists toks :: IsFile(ds, toks) && Spells(text, 0, |text|, toks)
  {
    hide Parse, FileOk, IsFile, Spells;
    if Parse(text) == Some(ds) {
      var toks := ParsedIsSpelled(text);
    }
    if FileOk(ds) {
      forall toks | IsFile(ds, toks) && Spells(text, 0, |text|, toks) ensures Parse(text) == Some(ds) {
        SpelledReads(text, 0, toks);
        AnyLayoutParses(text, ds, toks);
      }
    }
  }

  /** The parameters that may be written, of a struct, an enum and an entry. */
  lemma ParamsAre(ps: seq<Param>)
    ensures ParamsOk(ps, STRUCT_PARAMS) <==>
            forall i :: 0 <= i < |ps| ==> ps[i].name in {"align", "length_includes_align"} && IsWord(ps[i].value)
    ensures ParamsOk(ps, ENUM_PARAMS) <==>
            forall i :: 0 <= i < |ps| ==> ps[i].name in {"wire_type", "bitmask", "complete", "stable"} && IsWord(ps[i].value)
    ensures ParamsOk(ps, ENTRY_PARAMS) <==>
            forall i :: 0 <= i < |ps| ==> ps[i].name == "virtual" && IsWord(ps[i].value)
  {}
}
