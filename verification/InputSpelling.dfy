/** What a text must spell to be parsed: said of its characters, and without the parser's own functions. */
module InputSpelling {
  import opened Options
  import opened InputLexer
  import opened InputGrammar
  import opened InputTokens

  // --- gaps ----------------------------------------------------------------------------------------------------------------

  /** A line comment goes on over line ends after a backslash, and up to the first other line end or the end of the text. */
  ghost predicate IsLineComment(text: string, a: nat, e: nat) {
    && a + 2 <= e <= |text| && text[a] == '/' && text[a + 1] == '/'
    && (forall i :: a + 2 <= i < e && text[i] == '\n' ==> i > a + 2 && text[i - 1] == '\\')
    && (e < |text| ==> text[e] == '\n' && (e > a + 2 ==> text[e - 1] != '\\'))
  }

  /** A block comment goes up to its first closing mark. */
  ghost predicate IsBlockComment(text: string, a: nat, e: nat) {
    && a + 4 <= e <= |text| && text[a] == '/' && text[a + 1] == '*' && text[e - 2] == '*' && text[e - 1] == '/'
    && forall i :: a + 2 <= i < e - 2 ==> text[i] != '*' || text[i + 1] != '/'
  }

  ghost predicate IsBlankOrComment(text: string, a: nat, e: nat) {
    || (a < |text| && e == a + 1 && text[a] in {' ', '\t', '\n', '\r'})
    || IsLineComment(text, a, e) || IsBlockComment(text, a, e)
  }

  /** Nothing but blanks and comments. */
  ghost predicate Gap(text: string, a: nat, b: nat)
    decreases b - a
  {
    a <= b <= |text| && (a == b || exists e: nat :: a < e <= b && IsBlankOrComment(text, a, e) && Gap(text, e, b))
  }

  lemma AtTwo(text: string, loc: nat, t: string)
    requires |t| == 2
    ensures At(text, loc, t) <==> loc + 2 <= |text| && text[loc] == t[0] && text[loc + 1] == t[1]
  {}

  lemma {:induction false} LineEndIs(text: string, loc: nat)
    requires loc <= |text|
    ensures var e := LineEnd(text, loc);
            && (forall i :: loc <= i < e && text[i] == '\n' ==> i > loc && text[i - 1] == '\\')
            && (loc < e < |text| ==> text[e - 1] != '\\')
    decreases |text| - loc
  {
    AtTwo(text, loc, "\\\n");
    if loc < |text| {
      if At(text, loc, "\\\n") {
        LineEndIs(text, loc + 2);
      } else if text[loc] != '\n' {
        LineEndIs(text, loc + 1);
      }
    }
  }

  lemma {:induction false} BlockEndIs(text: string, loc: nat)
    requires loc <= |text| && BlockEnd(text, loc) <= |text|
    ensures var e := BlockEnd(text, loc);
            && loc + 2 <= e && text[e - 2] == '*' && text[e - 1] == '/' && forall i :: loc <= i < e - 2 ==> text[i] != '*' || text[i + 1] != '/'
    decreases |text| - loc
  {
    AtTwo(text, loc, "*/");
    if !At(text, loc, "*/") {
      BlockEndIs(text, loc + 1);
    }
  }

  lemma {:induction false} SkipIsGap(text: string, loc: nat)
    requires loc <= |text|
    ensures Gap(text, loc, Skip(text, loc))
    decreases |text| - loc
  {
    hide IsLineComment, IsBlockComment;
    if loc < |text| && IsBlank(text[loc]) {
      SkipIsGap(text, loc + 1);
      GapOnward(text, loc, loc + 1, Skip(text, loc));
    } else if At(text, loc, "//") {
      var e := LineEnd(text, loc + 2);
      LineIsComment(text, loc);
      SkipIsGap(text, e);
      GapOnward(text, loc, e, Skip(text, loc));
    } else if At(text, loc, "/*") && BlockEnd(text, loc + 2) <= |text| {
      var e := BlockEnd(text, loc + 2);
      BlockIsComment(text, loc);
      SkipIsGap(text, e);
      GapOnward(text, loc, e, Skip(text, loc));
    }
  }

  lemma GapOnward(text: string, a: nat, e: nat, b: nat)
    requires a < e && IsBlankOrComment(text, a, e) && Gap(text, e, b)
    ensures Gap(text, a, b)
  {
    hide IsBlankOrComment;
  }

  lemma LineIsComment(text: string, loc: nat)
    requires loc <= |text| && At(text, loc, "//")
    ensures IsLineComment(text, loc, LineEnd(text, loc + 2))
  {
    AtTwo(text, loc, "//");
    LineEndIs(text, loc + 2);
  }

  lemma BlockIsComment(text: string, loc: nat)
    requires loc <= |text| && At(text, loc, "/*") && BlockEnd(text, loc + 2) <= |text|
    ensures IsBlockComment(text, loc, BlockEnd(text, loc + 2))
  {
    AtTwo(text, loc, "/*");
    BlockEndIs(text, loc + 2);
  }

  lemma {:induction false} GapsJoin(text: string, a: nat, b: nat, c: nat)
    requires Gap(text, a, b) && Gap(text, b, c)
    ensures Gap(text, a, c)
    decreases b - a
  {
    hide IsBlankOrComment;
    if a < b {
      var e: nat :| a < e <= b && IsBlankOrComment(text, a, e) && Gap(text, e, b);
      GapsJoin(text, e, b, c);
      GapOnward(text, a, e, c);
    }
  }

  /** No word ends at the end of a gap where one begins. */
  lemma {:induction false} GapParts(text: string, a: nat, b: nat)
    requires Gap(text, a, b) && a < b < |text| && IsWordChar(text[b])
    ensures !IsWordChar(text[b - 1])
    decreases b - a
  {
    var e: nat :| a < e <= b && IsBlankOrComment(text, a, e) && Gap(text, e, b);
    if e < b {
      GapParts(text, e, b);
    }
  }

  // --- spelled tokens --------------------------------------------------------------------------------------------------------

  /** No token has blanks, slashes or dollar signs in it. */
  ghost predicate IsToken(tok: string) {
    tok != "" && forall i :: 0 <= i < |tok| ==> tok[i] !in {' ', '\t', '\n', '\r', '/', '$'}
  }

  /** The token is at a place in the text, and is no part of a word that began before. */
  ghost predicate Stands(text: string, p: nat, tok: string) {
    && IsToken(tok) && p + |tok| <= |text| && text[p..p + |tok|] == tok
    && (p > 0 && IsWordChar(tok[0]) ==> !IsWordChar(text[p - 1]))
  }

  /** From `a` to `b` the text has the tokens in this order, and else but blanks and comments nothing. */
  ghost predicate Spells(text: string, a: nat, b: nat, toks: seq<string>)
    decreases |toks|
  {
    if toks == [] then
      Gap(text, a, b)
    else
      exists p: nat :: Gap(text, a, p) && Stands(text, p, toks[0]) && Spells(text, p + |toks[0]|, b, toks[1..])
  }

  lemma {:induction false} SpellsJoin(text: string, a: nat, b: nat, c: nat, x: seq<string>, y: seq<string>)
    requires Spells(text, a, b, x) && Spells(text, b, c, y)
    ensures Spells(text, a, c, x + y)
    decreases |x|
  {
    hide Gap, Stands;
    if x == [] {
      assert x + y == y;
      if y == [] {
        GapsJoin(text, a, b, c);
      } else {
        var p: nat :| Gap(text, b, p) && Stands(text, p, y[0]) && Spells(text, p + |y[0]|, c, y[1..]);
        GapsJoin(text, a, b, p);
      }
    } else {
      var p: nat :| Gap(text, a, p) && Stands(text, p, x[0]) && Spells(text, p + |x[0]|, b, x[1..]);
      SpellsJoin(text, p + |x[0]|, b, c, x[1..], y);
      assert (x + y)[0] == x[0] && (x + y)[1..] == x[1..] + y;
    }
  }

  /** No word goes on at this place. */
  ghost predicate Edge(text: string, loc: nat) {
    0 < loc < |text| && IsWordChar(text[loc]) ==> !IsWordChar(text[loc - 1])
  }

  lemma SkipEdge(text: string, loc: nat)
    requires loc <= |text| && Edge(text, loc)
    ensures Edge(text, Skip(text, loc))
  {
    SkipIsGap(text, loc);
    var p := Skip(text, loc);
    if loc < p < |text| && IsWordChar(text[p]) {
      GapParts(text, loc, p);
    }
  }

  lemma OneToken(text: string, loc: nat, p: nat, t: string)
    requires loc <= |text| && p == Skip(text, loc) && At(text, p, t) && IsToken(t) && (IsWordChar(t[0]) ==> Edge(text, loc))
    ensures Spells(text, loc, p + |t|, [t])
  {
    SkipIsGap(text, loc);
    AtFirst(text, p, t, 0);
    if IsWordChar(t[0]) {
      SkipEdge(text, loc);
    }
    hide Gap;
    assert Stands(text, p, t);
    NoTokens(text, p + |t|);
    assert [t][1..] == [];
  }

  lemma NoTokens(text: string, loc: nat)
    requires loc <= |text|
    ensures Spells(text, loc, loc, [])
  {}

  lemma LitSpells(text: string, loc: nat, t: string)
    requires loc <= |text| && Lit(text, loc, t).Ok? && IsToken(t) && (IsWordChar(t[0]) ==> Edge(text, loc))
    ensures Spells(text, loc, Lit(text, loc, t).loc, [t])
    ensures !IsWordChar(t[|t| - 1]) ==> Edge(text, Lit(text, loc, t).loc)
  {
    OneToken(text, loc, Skip(text, loc), t);
    AtFirst(text, Skip(text, loc), t, |t| - 1);
  }

  lemma KwSpells(text: string, loc: nat, k: string)
    requires loc <= |text| && Kw(text, loc, k).Ok? && IsToken(k) && Edge(text, loc)
    ensures Spells(text, loc, Kw(text, loc, k).loc, [k]) && Edge(text, Kw(text, loc, k).loc)
  {
    OneToken(text, loc, Skip(text, loc), k);
  }

  lemma WordSpells(text: string, loc: nat)
    requires loc <= |text| && Word(text, loc).Ok? && Edge(text, loc)
    ensures Spells(text, loc, Word(text, loc).loc, [Word(text, loc).value]) && Edge(text, Word(text, loc).loc)
  {
    OneToken(text, loc, Skip(text, loc), Word(text, loc).value);
  }
}
