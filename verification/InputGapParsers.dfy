/** Parsing takes no notice of what stands in a gap: each parser gives the same from places that belong together. */
module InputGapParsers {
  import opened Options
  import opened InputLexer
  import opened InputGrammar
  import opened InputGaps

  /** The same value, ending at places that belong together, or the same failure. */
  ghost predicate Alike<T(!new)>(w: Swap, r: R<T>, r': R<T>) {
    match r
    case Ok(v, l) => r'.Ok? && r'.value == v && Meet(w, l, r'.loc)
    case Fail => r'.Fail?
    case Fatal => r'.Fatal?
  }

  // --- tokens ----------------------------------------------------------------------------------------------------------------

  lemma LitAlike(w: Swap, p: nat, q: nat, tok: string)
    requires IsGap(w) && Meet(w, p, q) && Solid(tok)
    ensures Alike(w, Lit(w.First(), p, tok), Lit(w.Second(), q, tok))
  {
    hide IsGap, Skip, Swap.First, Swap.Second, At, Solid;
    SkipMeets(w, p, q);
    AtMeets(w, Skip(w.First(), p), Skip(w.Second(), q), tok);
  }

  lemma KwAlike(w: Swap, p: nat, q: nat, k: string)
    requires IsGap(w) && Meet(w, p, q) && Solid(k)
    ensures Alike(w, Kw(w.First(), p, k), Kw(w.Second(), q, k))
  {
    hide IsGap, Skip, Swap.First, Swap.Second, At, Solid, NoIdentAt, Meet;
    SkipMeets(w, p, q);
    var p', q' := Skip(w.First(), p), Skip(w.Second(), q);
    AtMeets(w, p', q', k);
    if At(w.First(), p', k) {
      BeforeMeets(w, p', q');
      NextMeets(w, p' + |k|, q' + |k|);
    }
  }

  lemma RawWordAlike(w: Swap, p: nat, q: nat)
    requires IsGap(w) && Meet(w, p, q)
    ensures Alike(w, RawWord(w.First(), p), RawWord(w.Second(), q))
  {
    hide IsGap, Swap.First, Swap.Second;
    WordEndMeets(w, p, q);
  }

  lemma WordAlike(w: Swap, p: nat, q: nat)
    requires IsGap(w) && Meet(w, p, q)
    ensures Alike(w, Word(w.First(), p), Word(w.Second(), q))
  {
    hide IsGap, Skip, Swap.First, Swap.Second, RawWord;
    SkipMeets(w, p, q);
    RawWordAlike(w, Skip(w.First(), p), Skip(w.Second(), q));
  }

  lemma IntegerAlike(w: Swap, p: nat, q: nat)
    requires IsGap(w) && Meet(w, p, q)
    ensures Alike(w, Integer(w.First(), p), Integer(w.Second(), q))
  {
    hide IsGap, Skip, Swap.First, Swap.Second, At, DigitsEnd, Value, BadDecimal;
    SkipMeets(w, p, q);
    var p', q' := Skip(w.First(), p), Skip(w.Second(), q);
    AtMeets(w, p', q', "0x");
    if At(w.First(), p', "0x") {
      DigitsEndMeets(w, p' + 2, q' + 2, true);
    } else {
      DigitsEndMeets(w, p', q', false);
    }
  }

  // --- types and members ------------------------------------------------------------------------------------------------------

  lemma EnumTypeAlike(w: Swap, p: nat, q: nat)
    requires IsGap(w) && Meet(w, p, q)
    ensures Alike(w, ParseEnumType(w.First(), p), ParseEnumType(w.Second(), q))
  {
    hide IsGap, Swap.First, Swap.Second, Kw, Word;
    var t, u := w.First(), w.Second();
    KwAlike(w, p, q, "enum");
    var k, k' := Kw(t, p, "enum"), Kw(u, q, "enum");
    if k.Ok? {
      WordAlike(w, k.loc, k'.loc);
    }
  }

  lemma ArrayTypeAlike(w: Swap, p: nat, q: nat)
    requires IsGap(w) && Meet(w, p, q)
    ensures Alike(w, ParseArrayType(w.First(), p), ParseArrayType(w.Second(), q))
  {
    hide IsGap, Swap.First, Swap.Second, Word, RawWord, At;
    var t, u := w.First(), w.Second();
    WordAlike(w, p, q);
    var n, n' := Word(t, p), Word(u, q);
    if n.Ok? {
      AtMeets(w, n.loc, n'.loc, "[");
      if At(t, n.loc, "[") {
        RawWordAlike(w, n.loc + 1, n'.loc + 1);
        var c, c' := RawWord(t, n.loc + 1), RawWord(u, n'.loc + 1);
        if c.Ok? {
          AtMeets(w, c.loc, c'.loc, "]");
        }
      }
    }
  }

  lemma ListTypeAlike(w: Swap, p: nat, q: nat)
    requires IsGap(w) && Meet(w, p, q)
    ensures Alike(w, ParseListType(w.First(), p), ParseListType(w.Second(), q))
  {
    hide IsGap, Swap.First, Swap.Second, Kw, RawWord, At;
    var t, u := w.First(), w.Second();
    KwAlike(w, p, q, "list");
    var k, k' := Kw(t, p, "list"), Kw(u, q, "list");
    if k.Ok? {
      AtMeets(w, k.loc, k'.loc, "(");
      if At(t, k.loc, "(") {
        RawWordAlike(w, k.loc + 1, k'.loc + 1);
        var c, c' := RawWord(t, k.loc + 1), RawWord(u, k'.loc + 1);
        if c.Ok? {
          AtMeets(w, c.loc, c'.loc, ")");
        }
      }
    }
  }

  lemma TypeAlike(w: Swap, p: nat, q: nat)
    requires IsGap(w) && Meet(w, p, q)
    ensures Alike(w, ParseType(w.First(), p), ParseType(w.Second(), q))
  {
    hide IsGap, Swap.First, Swap.Second, ParseEnumType, ParseArrayType, ParseListType, Word;
    var t, u := w.First(), w.Second();
    EnumTypeAlike(w, p, q);
    ArrayTypeAlike(w, p, q);
    ListTypeAlike(w, p, q);
    WordAlike(w, p, q);
  }

  lemma PadAlike(w: Swap, p: nat, q: nat)
    requires IsGap(w) && Meet(w, p, q)
    ensures Alike(w, ParsePad(w.First(), p), ParsePad(w.Second(), q))
  {
    hide IsGap, Swap.First, Swap.Second, Kw, Lit, Integer;
    var t, u := w.First(), w.Second();
    KwAlike(w, p, q, "pad");
    var k, k' := Kw(t, p, "pad"), Kw(u, q, "pad");
    if k.Ok? {
      LitAlike(w, k.loc, k'.loc, "(");
      var a, a' := Lit(t, k.loc, "("), Lit(u, k'.loc, "(");
      if a.Ok? {
        IntegerAlike(w, a.loc, a'.loc);
        var n, n' := Integer(t, a.loc), Integer(u, a'.loc);
        if n.Ok? {
          LitAlike(w, n.loc, n'.loc, ")");
        }
      }
    }
  }

  lemma TypedAlike(w: Swap, p: nat, q: nat)
    requires IsGap(w) && Meet(w, p, q)
    ensures Alike(w, ParseTyped(w.First(), p), ParseTyped(w.Second(), q))
  {
    hide IsGap, Swap.First, Swap.Second, ParseType, Word;
    var t, u := w.First(), w.Second();
    TypeAlike(w, p, q);
    var a, a' := ParseType(t, p), ParseType(u, q);
    if a.Ok? {
      WordAlike(w, a.loc, a'.loc);
    }
  }

  lemma TypeMemberAlike(w: Swap, p: nat, q: nat)
    requires IsGap(w) && Meet(w, p, q)
    ensures Alike(w, ParseTypeMember(w.First(), p), ParseTypeMember(w.Second(), q))
  {
    hide IsGap, Swap.First, Swap.Second, ParseTyped, Lit, Integer;
    var t, u := w.First(), w.Second();
    TypedAlike(w, p, q);
    var a, a' := ParseTyped(t, p), ParseTyped(u, q);
    if a.Ok? {
      LitAlike(w, a.loc, a'.loc, "==");
      var e, e' := Lit(t, a.loc, "=="), Lit(u, a'.loc, "==");
      if e.Ok? {
        IntegerAlike(w, e.loc, e'.loc);
      }
    }
  }

  lemma DiscriminatorAlike(w: Swap, p: nat, q: nat)
    requires IsGap(w) && Meet(w, p, q)
    ensures Alike(w, ParseDiscriminator(w.First(), p), ParseDiscriminator(w.Second(), q))
  {
    hide IsGap, Swap.First, Swap.Second, ParseTyped, Lit;
    var t, u := w.First(), w.Second();
    TypedAlike(w, p, q);
    var a, a' := ParseTyped(t, p), ParseTyped(u, q);
    if a.Ok? {
      LitAlike(w, a.loc, a'.loc, "==");
      var e, e' := Lit(t, a.loc, "=="), Lit(u, a'.loc, "==");
      if e.Ok? {
        LitAlike(w, e.loc, e'.loc, "?");
      }
    }
  }

  lemma FieldLengthAlike(w: Swap, p: nat, q: nat)
    requires IsGap(w) && Meet(w, p, q)
    ensures Alike(w, ParseFieldLength(w.First(), p), ParseFieldLength(w.Second(), q))
  {
    hide IsGap, Swap.First, Swap.Second, ParseTyped, Lit, Word;
    var t, u := w.First(), w.Second();
    TypedAlike(w, p, q);
    var a, a' := ParseTyped(t, p), ParseTyped(u, q);
    if a.Ok? {
      LitAlike(w, a.loc, a'.loc, "==");
      var e, e' := Lit(t, a.loc, "=="), Lit(u, a'.loc, "==");
      if e.Ok? {
        LitAlike(w, e.loc, e'.loc, "length");
        var n, n' := Lit(t, e.loc, "length"), Lit(u, e'.loc, "length");
        if n.Ok? {
          LitAlike(w, n.loc, n'.loc, "(");
          var b, b' := Lit(t, n.loc, "("), Lit(u, n'.loc, "(");
          if b.Ok? {
            WordAlike(w, b.loc, b'.loc);
            var f, f' := Word(t, b.loc), Word(u, b'.loc);
            if f.Ok? {
              LitAlike(w, f.loc, f'.loc, ")");
            }
          }
        }
      }
    }
  }

  lemma DataAlike(w: Swap, p: nat, q: nat)
    requires IsGap(w) && Meet(w, p, q)
    ensures Alike(w, ParseData(w.First(), p), ParseData(w.Second(), q))
  {
    hide IsGap, Swap.First, Swap.Second, ParseType, Word;
    var t, u := w.First(), w.Second();
    TypeAlike(w, p, q);
    var a, a' := ParseType(t, p), ParseType(u, q);
    if a.Ok? {
      WordAlike(w, a.loc, a'.loc);
    }
  }

  lemma MemberAlike(w: Swap, p: nat, q: nat)
    requires IsGap(w) && Meet(w, p, q)
    ensures Alike(w, ParseMember(w.First(), p), ParseMember(w.Second(), q))
  {
    hide IsGap, Swap.First, Swap.Second, ParsePad, ParseTypeMember, ParseDiscriminator, ParseFieldLength, ParseData;
    var t, u := w.First(), w.Second();
    PadAlike(w, p, q);
    TypeMemberAlike(w, p, q);
    DiscriminatorAlike(w, p, q);
    FieldLengthAlike(w, p, q);
    DataAlike(w, p, q);
  }

  lemma {:induction false} MembersAlike(w: Swap, p: nat, q: nat)
    requires IsGap(w) && Meet(w, p, q)
    ensures Alike(w, ParseMembers(w.First(), p), ParseMembers(w.Second(), q))
    decreases |w.First()| - p
  {
    hide IsGap, Swap.First, Swap.Second, ParseMember, Lit;
    var t, u := w.First(), w.Second();
    MemberAlike(w, p, q);
    var m, m' := ParseMember(t, p), ParseMember(u, q);
    if m.Ok? {
      LitAlike(w, m.loc, m'.loc, ";");
      var e, e' := Lit(t, m.loc, ";"), Lit(u, m'.loc, ";");
      if e.Ok? {
        MembersAlike(w, e.loc, e'.loc);
      }
    }
  }

  // --- parameters --------------------------------------------------------------------------------------------------------------

  ghost predicate AllSolid(names: seq<string>) {
    forall i :: 0 <= i < |names| ==> Solid(names[i])
  }

  lemma {:induction false} NameAlike(w: Swap, p: nat, q: nat, names: seq<string>)
    requires IsGap(w) && Meet(w, p, q) && AllSolid(names)
    ensures Alike(w, ParseName(w.First(), p, names), ParseName(w.Second(), q, names))
    decreases |names|
  {
    hide IsGap, Swap.First, Swap.Second, Kw, Solid;
    var t, u := w.First(), w.Second();
    if names != [] {
      KwAlike(w, p, q, names[0]);
      NameAlike(w, p, q, names[1..]);
    }
  }

  lemma ParamAlike(w: Swap, p: nat, q: nat, names: seq<string>)
    requires IsGap(w) && Meet(w, p, q) && AllSolid(names)
    ensures Alike(w, ParseParam(w.First(), p, names), ParseParam(w.Second(), q, names))
  {
    hide IsGap, Swap.First, Swap.Second, ParseName, Lit, Word, AllSolid;
    var t, u := w.First(), w.Second();
    NameAlike(w, p, q, names);
    var k, k' := ParseName(t, p, names), ParseName(u, q, names);
    if k.Ok? {
      LitAlike(w, k.loc, k'.loc, "=");
      var e, e' := Lit(t, k.loc, "="), Lit(u, k'.loc, "=");
      if e.Ok? {
        WordAlike(w, e.loc, e'.loc);
      }
    }
  }

  lemma {:induction false} ParamListAlike(w: Swap, p: nat, q: nat, names: seq<string>)
    requires IsGap(w) && Meet(w, p, q) && AllSolid(names)
    ensures Alike(w, ParseParamList(w.First(), p, names), ParseParamList(w.Second(), q, names))
    decreases |w.First()| - p
  {
    hide IsGap, Swap.First, Swap.Second, ParseParam, Lit, AllSolid;
    var t, u := w.First(), w.Second();
    ParamAlike(w, p, q, names);
    var a, a' := ParseParam(t, p, names), ParseParam(u, q, names);
    if a.Ok? {
      LitAlike(w, a.loc, a'.loc, ",");
      var c, c' := Lit(t, a.loc, ","), Lit(u, a'.loc, ",");
      if c.Ok? {
        ParamListAlike(w, c.loc, c'.loc, names);
      }
    }
  }

  lemma ParamsAlike(w: Swap, p: nat, q: nat, names: seq<string>)
    requires IsGap(w) && Meet(w, p, q) && AllSolid(names)
    ensures Alike(w, ParseParams(w.First(), p, names), ParseParams(w.Second(), q, names))
  {
    hide IsGap, Swap.First, Swap.Second, ParseParamList, Lit, AllSolid;
    var t, u := w.First(), w.Second();
    LitAlike(w, p, q, "(");
    var a, a' := Lit(t, p, "("), Lit(u, q, "(");
    if a.Ok? {
      ParamListAlike(w, a.loc, a'.loc, names);
      var ps, ps' := ParseParamList(t, a.loc, names), ParseParamList(u, a'.loc, names);
      if ps.Ok? {
        LitAlike(w, ps.loc, ps'.loc, ")");
      }
    }
  }

  // --- declarations --------------------------------------------------------------------------------------------------------------

  lemma ParentAlike(w: Swap, p: nat, q: nat)
    requires IsGap(w) && Meet(w, p, q)
    ensures Alike(w, ParseParent(w.First(), p), ParseParent(w.Second(), q))
  {
    hide IsGap, Swap.First, Swap.Second, Lit, Word, Skip;
    var t, u := w.First(), w.Second();
    SkipMeets(w, p, q);
    LitAlike(w, p, q, ":");
    var c, c' := Lit(t, p, ":"), Lit(u, q, ":");
    if c.Ok? {
      WordAlike(w, c.loc, c'.loc);
    }
  }

  lemma CloseAlike(w: Swap, p: nat, q: nat)
    requires IsGap(w) && Meet(w, p, q)
    ensures Alike(w, ParseClose(w.First(), p), ParseClose(w.Second(), q))
  {
    hide IsGap, Swap.First, Swap.Second, Lit;
    var t, u := w.First(), w.Second();
    LitAlike(w, p, q, "}");
    var c, c' := Lit(t, p, "}"), Lit(u, q, "}");
    if c.Ok? {
      LitAlike(w, c.loc, c'.loc, ";");
    }
  }

  lemma StructAlike(w: Swap, p: nat, q: nat)
    requires IsGap(w) && Meet(w, p, q)
    ensures Alike(w, ParseStruct(w.First(), p), ParseStruct(w.Second(), q))
  {
    hide IsGap, Swap.First, Swap.Second, Kw, Word, Lit, ParseParams, ParseParent, ParseMembers, ParseClose;
    var t, u := w.First(), w.Second();
    KwAlike(w, p, q, "struct");
    var k, k' := Kw(t, p, "struct"), Kw(u, q, "struct");
    if k.Ok? {
      WordAlike(w, k.loc, k'.loc);
      var n, n' := Word(t, k.loc), Word(u, k'.loc);
      if n.Ok? {
        ParamsAlike(w, n.loc, n'.loc, STRUCT_PARAMS);
        var ps, ps' := ParseParams(t, n.loc, STRUCT_PARAMS), ParseParams(u, n'.loc, STRUCT_PARAMS);
        if ps.Ok? {
          ParentAlike(w, ps.loc, ps'.loc);
          var a, a' := ParseParent(t, ps.loc), ParseParent(u, ps'.loc);
          if a.Ok? {
            LitAlike(w, a.loc, a'.loc, "{");
            var b, b' := Lit(t, a.loc, "{"), Lit(u, a'.loc, "{");
            if b.Ok? {
              MembersAlike(w, b.loc, b'.loc);
              var ms, ms' := ParseMembers(t, b.loc), ParseMembers(u, b'.loc);
              if ms.Ok? {
                CloseAlike(w, ms.loc, ms'.loc);
              }
            }
          }
        }
      }
    }
  }

  lemma EntryAlike(w: Swap, p: nat, q: nat)
    requires IsGap(w) && Meet(w, p, q)
    ensures Alike(w, ParseEntry(w.First(), p), ParseEntry(w.Second(), q))
  {
    hide IsGap, Swap.First, Swap.Second, Word, Lit, ParseParams, Integer;
    var t, u := w.First(), w.Second();
    WordAlike(w, p, q);
    var n, n' := Word(t, p), Word(u, q);
    if n.Ok? {
      ParamsAlike(w, n.loc, n'.loc, ENTRY_PARAMS);
      var ps, ps' := ParseParams(t, n.loc, ENTRY_PARAMS), ParseParams(u, n'.loc, ENTRY_PARAMS);
      if ps.Ok? {
        LitAlike(w, ps.loc, ps'.loc, "=");
        var e, e' := Lit(t, ps.loc, "="), Lit(u, ps'.loc, "=");
        if e.Ok? {
          IntegerAlike(w, e.loc, e'.loc);
        }
      }
    }
  }

  lemma {:induction false} EntriesAlike(w: Swap, p: nat, q: nat)
    requires IsGap(w) && Meet(w, p, q)
    ensures Alike(w, ParseEntries(w.First(), p), ParseEntries(w.Second(), q))
    decreases |w.First()| - p
  {
    hide IsGap, Swap.First, Swap.Second, ParseEntry, Lit;
    var t, u := w.First(), w.Second();
    EntryAlike(w, p, q);
    var a, a' := ParseEntry(t, p), ParseEntry(u, q);
    if a.Ok? {
      LitAlike(w, a.loc, a'.loc, ",");
      var c, c' := Lit(t, a.loc, ","), Lit(u, a'.loc, ",");
      if c.Ok? {
        EntriesAlike(w, c.loc, c'.loc);
      }
    }
  }

  lemma EnumAlike(w: Swap, p: nat, q: nat)
    requires IsGap(w) && Meet(w, p, q)
    ensures Alike(w, ParseEnum(w.First(), p), ParseEnum(w.Second(), q))
  {
    hide IsGap, Swap.First, Swap.Second, Kw, Word, Lit, ParseParams, ParseEntries, ParseClose;
    var t, u := w.First(), w.Second();
    KwAlike(w, p, q, "enum");
    var k, k' := Kw(t, p, "enum"), Kw(u, q, "enum");
    if k.Ok? {
      WordAlike(w, k.loc, k'.loc);
      var n, n' := Word(t, k.loc), Word(u, k'.loc);
      if n.Ok? {
        ParamsAlike(w, n.loc, n'.loc, ENUM_PARAMS);
        var ps, ps' := ParseParams(t, n.loc, ENUM_PARAMS), ParseParams(u, n'.loc, ENUM_PARAMS);
        if ps.Ok? {
          LitAlike(w, ps.loc, ps'.loc, "{");
          var b, b' := Lit(t, ps.loc, "{"), Lit(u, ps'.loc, "{");
          if b.Ok? {
            EntriesAlike(w, b.loc, b'.loc);
            var es, es' := ParseEntries(t, b.loc), ParseEntries(u, b'.loc);
            if es.Ok? {
              CloseAlike(w, es.loc, es'.loc);
            }
          }
        }
      }
    }
  }

  lemma VersionAlike(w: Swap, p: nat, q: nat)
    requires IsGap(w) && Meet(w, p, q)
    ensures Alike(w, ParseVersion(w.First(), p), ParseVersion(w.Second(), q))
  {
    hide IsGap, Swap.First, Swap.Second, Kw, Word, Lit;
    var t, u := w.First(), w.Second();
    LitAlike(w, p, q, "#");
    var h, h' := Lit(t, p, "#"), Lit(u, q, "#");
    if h.Ok? {
      KwAlike(w, h.loc, h'.loc, "version");
      var k, k' := Kw(t, h.loc, "version"), Kw(u, h'.loc, "version");
      if k.Ok? {
        WordAlike(w, k.loc, k'.loc);
      }
    }
  }

  lemma DeclAlike(w: Swap, p: nat, q: nat)
    requires IsGap(w) && Meet(w, p, q)
    ensures Alike(w, ParseDecl(w.First(), p), ParseDecl(w.Second(), q))
  {
    hide IsGap, Swap.First, Swap.Second, ParseStruct, ParseEnum, ParseVersion;
    var t, u := w.First(), w.Second();
    StructAlike(w, p, q);
    EnumAlike(w, p, q);
    VersionAlike(w, p, q);
  }

  lemma {:induction false} DeclsAlike(w: Swap, p: nat, q: nat)
    requires IsGap(w) && Meet(w, p, q)
    ensures Alike(w, ParseDecls(w.First(), p), ParseDecls(w.Second(), q))
    decreases |w.First()| - p
  {
    hide IsGap, Swap.First, Swap.Second, ParseDecl;
    var t, u := w.First(), w.Second();
    DeclAlike(w, p, q);
    var d, d' := ParseDecl(t, p), ParseDecl(u, q);
    if d.Ok? {
      DeclsAlike(w, d.loc, d'.loc);
    }
  }

  /** So both texts parse to the same declarations, or neither parses. */
  lemma SameFile(w: Swap)
    requires IsGap(w)
    ensures Parse(w.First()) == Parse(w.Second())
  {
    hide IsGap, Swap.First, Swap.Second, ParseDecls, Skip;
    DeclsAlike(w, 0, 0);
    var ds, ds' := ParseDecls(w.First(), 0), ParseDecls(w.Second(), 0);
    if ds.Ok? {
      SkipMeets(w, ds.loc, ds'.loc);
      GapIsPassed(w);
    }
  }
}
