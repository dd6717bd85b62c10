/** Any text that spells a list of declarations parses to it. */
module InputRoundTrip {
  import opened InputLexer
  import opened InputGrammar
  import opened InputTokens

  // --- types -----------------------------------------------------------------------------------------------------------

  /** The first word of a type, which is what a keyword would be compared with. */
  function FirstWord(t: Type): string {
    match t
    case EnumType(_) => "enum"
    case ArrayType(elem, _) => elem
    case ListType(_) => "list"
    case Scalar(name) => name
  }

  lemma FirstWordStands(text: string, loc: nat, t: Type)
    requires loc <= |text| && TypeOk(t) && Reads(text, loc, TypeTokens(t))
    ensures var p, w := Skip(text, loc), FirstWord(t);
            IsWord(w) && At(text, p, w) && NoIdentAt(text, p + |w|)
  {
    hide At, Skip;
    match t {
      case EnumType(name) =>
      case ArrayType(elem, count) => FirstOfArray(text, loc, elem, count);
      case ListType(elem) => FirstOfList(text, loc, elem);
      case Scalar(name) => FirstOfScalar(text, loc, name);
    }
  }

  lemma FirstOfScalar(text: string, loc: nat, name: string)
    requires loc <= |text| && IsWord(name) && Reads(text, loc, [name])
    ensures At(text, Skip(text, loc), name) && NoIdentAt(text, Skip(text, loc) + |name|)
  {}

  lemma FirstOfArray(text: string, loc: nat, elem: string, count: string)
    requires loc <= |text| && Reads(text, loc, [elem + "[" + count + "]"])
    ensures At(text, Skip(text, loc), elem) && NoIdentAt(text, Skip(text, loc) + |elem|)
  {
    hide Skip, At;
    var token := elem + "[" + count + "]";
    assert [token] == [token] + [];
    ReadsCons(text, loc, token, []);
    assert token == elem + ['['] + (count + "]");
    WordBefore(text, Skip(text, loc), elem, '[', count + "]");
  }

  lemma FirstOfList(text: string, loc: nat, elem: string)
    requires loc <= |text| && Reads(text, loc, ["list(" + elem + ")"])
    ensures IsWord("list") && At(text, Skip(text, loc), "list") && NoIdentAt(text, Skip(text, loc) + 4)
  {
    hide Skip, At;
    var token := "list(" + elem + ")";
    assert [token] == [token] + [];
    ReadsCons(text, loc, token, []);
    assert token == "list" + ['('] + (elem + ")");
    WordBefore(text, Skip(text, loc), "list", '(', elem + ")");
  }

  /** A word and a mark directly after it. */
  lemma WordBefore(text: string, p: nat, w: string, mark: char, rest: string)
    requires At(text, p, w + [mark] + rest) && !IsIdentChar(mark)
    ensures At(text, p, w) && At(text, p + |w|, [mark]) && At(text, p + |w| + 1, rest) && NoIdentAt(text, p + |w|)
  {
    assert w + [mark] + rest == w + ([mark] + rest);
    AtPart(text, p, w, [mark] + rest);
    AtPart(text, p + |w|, [mark], rest);
    AtFirst(text, p + |w|, [mark], 0);
  }

  lemma KwNotOfType(text: string, loc: nat, t: Type, k: string)
    requires loc <= |text| && TypeOk(t) && Reads(text, loc, TypeTokens(t)) && IsWord(k) && k != FirstWord(t)
    ensures Kw(text, loc, k) == Fail
  {
    hide Reads, TypeTokens, TypeOk, FirstWord, Skip, At, NoIdentAt, KwAt;
    FirstWordStands(text, loc, t);
    KwOther(text, Skip(text, loc), FirstWord(t), k);
  }

  lemma EnumTypeReads(text: string, loc: nat, name: string)
    requires loc <= |text| && IsWord(name) && Reads(text, loc, ["enum", name]) && Ready(text, loc)
    ensures ParseEnumType(text, loc) == Ok(EnumType(name), EndOf(text, loc, ["enum", name]))
  {
    hide TokenAt, Kw, Word;
    assert ["enum", name] == ["enum"] + ([name] + []);
    ReadsCons(text, loc, "enum", [name] + []);
    var l := After(text, loc, "enum");
    ReadsCons(text, l, name, []);
    KwReads(text, loc, "enum");
    WordReads(text, l, name);
  }

  lemma ArrayTypeReads(text: string, loc: nat, elem: string, count: string)
    requires loc <= |text| && TypeOk(ArrayType(elem, count)) && TokenAt(text, loc, elem + "[" + count + "]")
    ensures ParseArrayType(text, loc) == Ok(ArrayType(elem, count), After(text, loc, elem + "[" + count + "]"))
  {
    hide RawWord;
    var p := Skip(text, loc);
    assert elem + "[" + count + "]" == elem + ['['] + (count + "]");
    WordBefore(text, p, elem, '[', count + "]");
    assert count + "]" == count + [']'] + "";
    WordBefore(text, p + |elem| + 1, count, ']', "");
    RawWordReads(text, p, elem);
    RawWordReads(text, p + |elem| + 1, count);
  }

  lemma ListTypeReads(text: string, loc: nat, elem: string)
    requires loc <= |text| && IsWord(elem) && TokenAt(text, loc, "list(" + elem + ")") && Ready(text, loc)
    ensures ParseArrayType(text, loc) == Fail
    ensures ParseListType(text, loc) == Ok(ListType(elem), After(text, loc, "list(" + elem + ")"))
  {
    hide RawWord, KwAt, TokenAt;
    var p := Skip(text, loc);
    ListTypeParts(text, loc, elem);
    RawWordReads(text, p, "list");
    AtFirst(text, p + 4, "(", 0);
    AtFirstIf(text, p + 4, "[", 0);
    RawWordReads(text, p + 5, elem);
  }

  lemma ListTypeParts(text: string, loc: nat, elem: string)
    requires loc <= |text| && IsWord(elem) && TokenAt(text, loc, "list(" + elem + ")") && Ready(text, loc)
    ensures var p := Skip(text, loc);
            && At(text, p, "list") && KwAt(text, p, "list") && At(text, p + 4, "(") && NoIdentAt(text, p + 4)
            && At(text, p + 5, elem) && At(text, p + 5 + |elem|, ")") && NoIdentAt(text, p + 5 + |elem|)
            && After(text, loc, "list(" + elem + ")") == p + 5 + |elem| + 1
  {
    hide Skip;
    var p := Skip(text, loc);
    assert "list(" + elem + ")" == "list" + ['('] + (elem + ")");
    WordBefore(text, p, "list", '(', elem + ")");
    assert elem + ")" == elem + [')'] + "";
    WordBefore(text, p + 5, elem, ')', "");
    KwBegins(text, loc, "list");
  }

  lemma ScalarReads(text: string, loc: nat, name: string)
    requires loc <= |text| && IsWord(name) && TokenAt(text, loc, name) && !At(text, After(text, loc, name), "[")
    ensures ParseArrayType(text, loc) == Fail && Word(text, loc) == Ok(name, After(text, loc, name))
  {}

  lemma TypeReads(text: string, loc: nat, t: Type)
    requires loc <= |text| && TypeOk(t) && Reads(text, loc, TypeTokens(t)) && Ready(text, loc)
    requires t.Scalar? ==> !At(text, EndOf(text, loc, TypeTokens(t)), "[")
    ensures ParseType(text, loc) == Ok(t, EndOf(text, loc, TypeTokens(t)))
  {
    hide Kw, Word, ParseArrayType, TokenAt;
    if !t.EnumType? {
      KwNotOfType(text, loc, t, "enum");
    }
    match t {
      case EnumType(name) => EnumTypeReads(text, loc, name);
      case ArrayType(elem, count) =>
        assert TypeTokens(t) == [elem + "[" + count + "]"] + [];
        ReadsCons(text, loc, elem + "[" + count + "]", []);
        ArrayTypeReads(text, loc, elem, count);
      case ListType(elem) =>
        assert TypeTokens(t) == ["list(" + elem + ")"] + [];
        ReadsCons(text, loc, "list(" + elem + ")", []);
        ListTypeReads(text, loc, elem);
      case Scalar(name) =>
        assert TypeTokens(t) == [name] + [];
        ReadsCons(text, loc, name, []);
        ScalarReads(text, loc, name);
        KwNotOfType(text, loc, t, "list");
    }
  }

  // --- members --------------------------------------------------------------------------------------------------------------

  /** The place after the type and the name of a member. */
  ghost function AfterTyped(text: string, loc: nat, t: Type, name: string): (r: nat)
    requires loc <= |text| && Reads(text, loc, TypeTokens(t)) && TokenAt(text, EndOf(text, loc, TypeTokens(t)), name)
    ensures r <= |text|
  {
    After(text, EndOf(text, loc, TypeTokens(t)), name)
  }

  lemma LastTokenOfType(text: string, loc: nat, t: Type)
    requires loc <= |text| && TypeOk(t) && Reads(text, loc, TypeTokens(t)) && t.Scalar?
    ensures NoIdentAt(text, EndOf(text, loc, TypeTokens(t)))
  {}

  lemma TypedReads(text: string, loc: nat, t: Type, name: string, rest: seq<string>)
    requires loc <= |text| && TypeOk(t) && IsWord(name) && Reads(text, loc, TypeTokens(t) + ([name] + rest)) && Ready(text, loc)
    ensures Reads(text, loc, TypeTokens(t)) && TokenAt(text, EndOf(text, loc, TypeTokens(t)), name)
    ensures var l := AfterTyped(text, loc, t, name);
            && Reads(text, l, rest) && EndOf(text, loc, TypeTokens(t) + ([name] + rest)) == EndOf(text, l, rest)
            && ParseType(text, loc) == Ok(t, EndOf(text, loc, TypeTokens(t)))
            && Word(text, EndOf(text, loc, TypeTokens(t))) == Ok(name, l)
            && ParseTyped(text, loc) == Ok((t, name), l)
            && ParsePad(text, loc) == Fail
  {
    hide TokenAt, ParseType, Word, Kw, TypeTokens;
    ReadsAppend(text, loc, TypeTokens(t), [name] + rest);
    var e := EndOf(text, loc, TypeTokens(t));
    ReadsCons(text, e, name, rest);
    if t.Scalar? {
      LastTokenOfType(text, loc, t);
      NoBracket(text, e, name);
    }
    TypeReads(text, loc, t);
    WordReads(text, e, name);
    KwNotOfType(text, loc, t, "pad");
  }

  lemma PadReads(text: string, loc: nat, n: nat, t: string)
    requires loc <= |text| && IsNumber(t, n) && Reads(text, loc, ["pad", "(", t, ")"]) && Ready(text, loc)
    ensures ParseMember(text, loc) == ParsePad(text, loc) == Ok(Pad(n), EndOf(text, loc, ["pad", "(", t, ")"]))
  {
    hide TokenAt, Kw, Lit, Integer, IsNumber;
    assert ["pad", "(", t, ")"] == ["pad"] + (["("] + ([t] + ([")"] + [])));
    ReadsCons(text, loc, "pad", ["("] + ([t] + ([")"] + [])));
    var l1 := After(text, loc, "pad");
    ReadsCons(text, l1, "(", [t] + ([")"] + []));
    var l2 := After(text, l1, "(");
    ReadsCons(text, l2, t, [")"] + []);
    var l3 := After(text, l2, t);
    ReadsCons(text, l3, ")", []);
    KwReads(text, loc, "pad");
    LitReads(text, l1, "(");
    IntegerReads(text, l2, t, n);
    LitReads(text, l3, ")");
  }

  /** A type, a name and `==`. */
  lemma EqualsReads(text: string, loc: nat, t: Type, name: string, tail: seq<string>) returns (l1: nat, l2: nat)
    requires loc <= |text| && TypeOk(t) && IsWord(name) && Reads(text, loc, TypeTokens(t) + ([name] + (["=="] + tail))) && Ready(text, loc)
    ensures l1 <= |text| && l2 <= |text| && ParseTyped(text, loc) == Ok((t, name), l1) && ParsePad(text, loc) == Fail
    ensures Lit(text, l1, "==") == Ok((), l2) && Reads(text, l2, tail)
    ensures EndOf(text, loc, TypeTokens(t) + ([name] + (["=="] + tail))) == EndOf(text, l2, tail)
  {
    hide TokenAt, Lit, ParseTyped, ParsePad, ParseType, Word, TypeTokens;
    TypedReads(text, loc, t, name, ["=="] + tail);
    l1 := AfterTyped(text, loc, t, name);
    ReadsCons(text, l1, "==", tail);
    l2 := After(text, l1, "==");
    LitReads(text, l1, "==");
  }

  lemma TypeMemberReads(text: string, loc: nat, t: Type, name: string, v: nat, n: string)
    requires loc <= |text| && TypeOk(t) && IsWord(name) && IsNumber(n, v) && Ready(text, loc)
    requires Reads(text, loc, TypeTokens(t) + [name, "==", n])
    ensures ParseMember(text, loc) == Ok(TypeMember(t, name, v), EndOf(text, loc, TypeTokens(t) + [name, "==", n]))
  {
    hide TokenAt, Lit, Integer, IsNumber, ParseTyped, ParsePad, TypeTokens;
    assert TypeTokens(t) + [name, "==", n] == TypeTokens(t) + ([name] + (["=="] + ([n] + [])));
    var l1, l2 := EqualsReads(text, loc, t, name, [n] + []);
    ReadsCons(text, l2, n, []);
    IntegerReads(text, l2, n, v);
  }

  lemma DiscriminatorReads(text: string, loc: nat, t: Type, name: string)
    requires loc <= |text| && TypeOk(t) && IsWord(name) && Reads(text, loc, MemberTokens(Discriminator(t, name))) && Ready(text, loc)
    ensures ParseMember(text, loc) == Ok(Discriminator(t, name), EndOf(text, loc, MemberTokens(Discriminator(t, name))))
  {
    hide TokenAt, Lit, Integer, ParseTyped, ParsePad, TypeTokens;
    assert MemberTokens(Discriminator(t, name)) == TypeTokens(t) + ([name] + (["=="] + (["?"] + [])));
    var l1, l2 := EqualsReads(text, loc, t, name, ["?"] + []);
    ReadsCons(text, l2, "?", []);
    IntegerOther(text, l2, "?");
    LitReads(text, l2, "?");
  }

  lemma LengthReads(text: string, loc: nat, f: string) returns (l3: nat, l4: nat, l5: nat)
    requires loc <= |text| && IsWord(f) && Reads(text, loc, ["length"] + (["("] + ([f] + ([")"] + []))))
    ensures l3 <= |text| && l4 <= |text| && l5 <= |text|
    ensures Lit(text, loc, "length") == Ok((), l3) && Lit(text, l3, "(") == Ok((), l4) && Word(text, l4) == Ok(f, l5)
    ensures Lit(text, l5, ")") == Ok((), EndOf(text, loc, ["length"] + (["("] + ([f] + ([")"] + [])))))
    ensures Integer(text, loc) == Fail && Lit(text, loc, "?") == Fail
  {
    hide TokenAt, Lit, Word, Integer;
    ReadsCons(text, loc, "length", ["("] + ([f] + ([")"] + [])));
    l3 := After(text, loc, "length");
    ReadsCons(text, l3, "(", [f] + ([")"] + []));
    l4 := After(text, l3, "(");
    ReadsCons(text, l4, f, [")"] + []);
    l5 := After(text, l4, f);
    ReadsCons(text, l5, ")", []);
    IntegerOther(text, loc, "length");
    LitOther(text, loc, "length", "?");
    LitReads(text, loc, "length");
    LitReads(text, l3, "(");
    WordReads(text, l4, f);
    LitReads(text, l5, ")");
  }

  lemma FieldLengthReads(text: string, loc: nat, t: Type, name: string, f: string)
    requires loc <= |text| && TypeOk(t) && IsWord(name) && IsWord(f) && Ready(text, loc)
    requires Reads(text, loc, MemberTokens(FieldLength(t, name, f)))
    ensures ParseMember(text, loc) == Ok(FieldLength(t, name, f), EndOf(text, loc, MemberTokens(FieldLength(t, name, f))))
  {
    hide TokenAt, Lit, Word, Integer, ParseTyped, ParsePad, TypeTokens;
    var tail := ["length"] + (["("] + ([f] + ([")"] + [])));
    assert MemberTokens(FieldLength(t, name, f)) == TypeTokens(t) + ([name] + (["=="] + tail));
    var l1, l2 := EqualsReads(text, loc, t, name, tail);
    var l3, l4, l5 := LengthReads(text, l2, f);
  }

  lemma DataReads(text: string, loc: nat, t: Type, name: string, rest: seq<string>)
    requires loc <= |text| && TypeOk(t) && IsWord(name) && Reads(text, loc, TypeTokens(t) + ([name] + ([";"] + rest))) && Ready(text, loc)
    ensures Reads(text, loc, MemberTokens(Data(t, name)))
    ensures ParseMember(text, loc) == Ok(Data(t, name), EndOf(text, loc, MemberTokens(Data(t, name))))
  {
    hide TokenAt, Lit, Word, ParseTyped, ParsePad, ParseType, TypeTokens;
    TypedReads(text, loc, t, name, [";"] + rest);
    var toks := MemberTokens(Data(t, name));
    assert toks == TypeTokens(t) + ([name] + []);
    assert TypeTokens(t) + ([name] + ([";"] + rest)) == toks + ([";"] + rest);
    ReadsAppend(text, loc, toks, [";"] + rest);
    TypedReads(text, loc, t, name, []);
    var l1 := AfterTyped(text, loc, t, name);
    ReadsCons(text, l1, ";", rest);
    LitOther(text, l1, ";", "==");
  }

  /** A member in any of its forms, followed by its semicolon. */
  lemma MemberReads(text: string, loc: nat, m: Member, toks: seq<string>, rest: seq<string>)
    requires loc <= |text| && MemberOk(m) && IsMember(m, toks) && Reads(text, loc, toks + ([";"] + rest)) && Ready(text, loc)
    ensures Reads(text, loc, toks) && ParseMember(text, loc) == Ok(m, EndOf(text, loc, toks))
  {
    hide Reads, EndOf, ParseMember, ParsePad, TypeTokens, TypeOk, IsWord, IsNumber;
    ReadsAppend(text, loc, toks, [";"] + rest);
    match m {
      case Pad(n) => PadReads(text, loc, n, toks[2]);
      case TypeMember(t, name, v) => TypeMemberReads(text, loc, t, name, v, toks[|toks| - 1]);
      case Discriminator(t, name) => DiscriminatorReads(text, loc, t, name);
      case FieldLength(t, name, f) => FieldLengthReads(text, loc, t, name, f);
      case Data(t, name) =>
        assert toks + ([";"] + rest) == TypeTokens(t) + ([name] + ([";"] + rest));
        DataReads(text, loc, t, name, rest);
    }
  }

  lemma NoMember(text: string, loc: nat)
    requires loc <= |text| && TokenAt(text, loc, "}")
    ensures ParseMember(text, loc) == Fail
  {
    hide TokenAt, Kw, Word;
    KwNotWord(text, loc, "}", "pad");
    KwNotWord(text, loc, "}", "enum");
    KwNotWord(text, loc, "}", "list");
    WordOther(text, loc, "}");
  }

  lemma NoMembersRead(text: string, loc: nat, toks: seq<string>, rest: seq<string>)
    requires loc <= |text| && toks == [] && Reads(text, loc, toks + (["}"] + rest))
    ensures Reads(text, loc, toks) && EndOf(text, loc, toks) == loc && ParseMember(text, loc) == Fail
  {
    hide TokenAt, ParseMember;
    assert toks + (["}"] + rest) == ["}"] + rest;
    ReadsCons(text, loc, "}", rest);
    NoMember(text, loc);
  }

  /** Members in any of their forms, up to the end of the struct. */
  lemma {:induction false} MembersRead(text: string, loc: nat, ms: seq<Member>, toks: seq<string>, rest: seq<string>)
    requires loc <= |text| && (forall i :: 0 <= i < |ms| ==> MemberOk(ms[i])) && IsMembers(ms, toks)
    requires Reads(text, loc, toks + (["}"] + rest)) && Ready(text, loc)
    ensures Reads(text, loc, toks) && ParseMembers(text, loc) == Ok(ms, EndOf(text, loc, toks))
    decreases |ms|
  {
    hide TokenAt, ParseMember, Lit, MemberOk, IsMember, Reads, EndOf;
    ReadsAppend(text, loc, toks, ["}"] + rest);
    if ms == [] {
      NoMembersRead(text, loc, toks, rest);
    } else {
      var x, tail :| IsMember(ms[0], x) && IsMembers(ms[1..], tail) && toks == x + ([";"] + tail);
      assert toks + (["}"] + rest) == x + ([";"] + (tail + (["}"] + rest)));
      MemberReads(text, loc, ms[0], x, tail + (["}"] + rest));
      ReadsAppend(text, loc, x, [";"] + (tail + (["}"] + rest)));
      ReadsAppend(text, loc, x, [";"] + tail);
      var l := EndOf(text, loc, x);
      ReadsCons(text, l, ";", tail + (["}"] + rest));
      ReadsCons(text, l, ";", tail);
      LitReads(text, l, ";");
      ReadyAfter(text, l, ";");
      MembersRead(text, After(text, l, ";"), ms[1..], tail, rest);
      assert [ms[0]] + ms[1..] == ms;
    }
  }
}
