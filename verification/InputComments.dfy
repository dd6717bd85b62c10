/** Comments and blanks of every form are as good as one blank: said of the characters of the text alone. */
module InputComments {
  import opened Options
  import opened InputLexer
  import opened InputGrammar
  import opened InputTokens
  import opened InputGaps
  import opened InputGapParsers
  import opened InputFiles
  import opened InputPrint

  /** A piece of a text: what is no comment, or a comment to the end of its line, or between its marks. */
  datatype Piece = Code(text: string) | Blanks(blanks: string) | LineComment(words: string) | BlockComment(words: string)

  /** Code has no slash. A line comment has no line end and does not end with a backslash, which would continue it. In a
      block comment no closing mark begins. */
  predicate PieceOk(p: Piece) {
    match p
    case Code(text) => forall i :: 0 <= i < |text| ==> text[i] != '/'
    case Blanks(blanks) => blanks != "" && forall i :: 0 <= i < |blanks| ==> blanks[i] in {' ', '\t', '\n', '\r'}
    case LineComment(words) => (forall i :: 0 <= i < |words| ==> words[i] != '\n') && (words != "" ==> words[|words| - 1] != '\\')
    case BlockComment(words) => forall i :: 0 <= i < |words| - 1 ==> words[i] != '*' || words[i + 1] != '/'
  }

  predicate PiecesOk(ps: seq<Piece>) {
    forall i :: 0 <= i < |ps| ==> PieceOk(ps[i])
  }

  function Spelled(p: Piece): string {
    match p
    case Code(text) => text
    case Blanks(blanks) => blanks
    case LineComment(words) => "//" + words + "\n"
    case BlockComment(words) => "/*" + words + "*/"
  }

  /** One blank in place of all that is no code. */
  function Blanked(p: Piece): string {
    if p.Code? then p.text else " "
  }

  function AllSpelled(ps: seq<Piece>): string {
    if ps == [] then "" else Spelled(ps[0]) + AllSpelled(ps[1..])
  }

  function AllBlanked(ps: seq<Piece>): string {
    if ps == [] then "" else Blanked(ps[0]) + AllBlanked(ps[1..])
  }

  // --- each kind of gap -----------------------------------------------------------------------------------------------------------

  predicate NoSlash(a: string) {
    forall i :: 0 <= i < |a| ==> a[i] != '/'
  }

  lemma {:induction false} BlanksPassed(t: string, loc: nat, k: nat)
    requires loc + k <= |t| && forall i :: loc <= i < loc + k ==> t[i] in {' ', '\t', '\n', '\r'}
    ensures Skip(t, loc) == Skip(t, loc + k)
    decreases k
  {
    if k > 0 {
      BlanksPassed(t, loc + 1, k - 1);
    }
  }

  lemma {:induction false} LineEnds(t: string, loc: nat, end: nat)
    requires loc <= end <= |t| && (forall i :: loc <= i < end ==> t[i] != '\n') && (end == |t| || t[end] == '\n')
    requires loc < end ==> t[end - 1] != '\\'
    ensures LineEnd(t, loc) == end
    decreases end - loc
  {
    AtFirstIf(t, loc, "\\\n", 0);
    AtFirstIf(t, loc, "\\\n", 1);
    if loc < end {
      LineEnds(t, loc + 1, end);
    }
  }

  lemma {:induction false} BlockEnds(t: string, loc: nat, end: nat)
    requires loc <= end && end + 2 <= |t| && t[end] == '*' && t[end + 1] == '/'
    requires forall i :: loc <= i < end ==> t[i] != '*' || t[i + 1] != '/'
    ensures BlockEnd(t, loc) == end + 2
    decreases end - loc
  {
    AtFirstIf(t, loc, "*/", 0);
    AtFirstIf(t, loc, "*/", 1);
    if loc < end {
      BlockEnds(t, loc + 1, end);
    } else {
      assert t[loc..loc + 2] == "*/";
    }
  }

  lemma LinePassed(t: string, loc: nat, words: string)
    requires PieceOk(LineComment(words)) && loc + 3 + |words| <= |t| && t[loc] == '/' && t[loc + 1] == '/' && t[loc + 2 + |words|] == '\n'
    requires forall i :: 0 <= i < |words| ==> t[loc + 2 + i] == words[i]
    ensures Skip(t, loc) == Skip(t, loc + 3 + |words|)
  {
    hide Skip, LineEnd;
    var end := loc + 2 + |words|;
    forall i | loc + 2 <= i < end ensures t[i] != '\n' {
      assert t[loc + 2 + (i - loc - 2)] == words[i - loc - 2];
    }
    if words != "" {
      assert t[loc + 2 + (|words| - 1)] == words[|words| - 1];
    }
    LineEnds(t, loc + 2, end);
    LineSkipped(t, loc, end);
    BlanksPassed(t, end, 1);
  }

  lemma BlockPassed(t: string, loc: nat, words: string)
    requires PieceOk(BlockComment(words)) && loc + 4 + |words| <= |t| && t[loc] == '/' && t[loc + 1] == '*'
    requires t[loc + 2 + |words|] == '*' && t[loc + 3 + |words|] == '/' && forall i :: 0 <= i < |words| ==> t[loc + 2 + i] == words[i]
    ensures Skip(t, loc) == Skip(t, loc + 4 + |words|)
  {
    hide Skip, BlockEnd;
    var end := loc + 2 + |words|;
    forall i | loc + 2 <= i < end ensures t[i] != '*' || t[i + 1] != '/' {
      var k := i - loc - 2;
      assert t[loc + 2 + k] == words[k];
      if k + 1 < |words| {
        assert t[loc + 2 + (k + 1)] == words[k + 1];
      }
    }
    BlockEnds(t, loc + 2, end);
    BlockSkipped(t, loc, end + 2);
  }

  lemma Between(a: string, x: string, b: string)
    ensures |a + x + b| == |a| + |x| + |b| && forall i :: 0 <= i < |x| ==> (a + x + b)[|a| + i] == x[i]
  {}

  lemma PiecePassed(a: string, p: Piece, b: string)
    requires PieceOk(p) && !p.Code?
    ensures Skip(a + Spelled(p) + b, |a|) == Skip(a + Spelled(p) + b, |a| + |Spelled(p)|)
  {
    hide Skip, PieceOk;
    var x := Spelled(p);
    var t := a + x + b;
    Between(a, x, b);
    match p {
      case Blanks(blanks) => BlanksAre(blanks, t, |a|);
      case LineComment(words) =>
        LineIs(words);
        assert t[|a| + 0] == x[0] && t[|a| + 1] == x[1] && t[|a| + (2 + |words|)] == x[2 + |words|];
        forall i | 0 <= i < |words| ensures t[|a| + 2 + i] == words[i] {
          assert t[|a| + (2 + i)] == x[2 + i];
        }
        LinePassed(t, |a|, words);
      case BlockComment(words) =>
        BlockIs(words);
        assert t[|a| + 0] == x[0] && t[|a| + 1] == x[1] && t[|a| + (2 + |words|)] == x[2 + |words|] && t[|a| + (3 + |words|)] == x[3 + |words|];
        forall i | 0 <= i < |words| ensures t[|a| + 2 + i] == words[i] {
          assert t[|a| + (2 + i)] == x[2 + i];
        }
        BlockPassed(t, |a|, words);
    }
  }

  lemma BlanksAre(blanks: string, t: string, loc: nat)
    requires PieceOk(Blanks(blanks)) && loc + |blanks| <= |t| && forall i :: 0 <= i < |blanks| ==> t[loc + i] == blanks[i]
    ensures Skip(t, loc) == Skip(t, loc + |blanks|)
  {
    forall i | loc <= i < loc + |blanks| ensures t[i] in {' ', '\t', '\n', '\r'} {
      assert t[loc + (i - loc)] == blanks[i - loc];
    }
    BlanksPassed(t, loc, |blanks|);
  }

  lemma LineIs(words: string)
    ensures var x := Spelled(LineComment(words));
            && |x| == 3 + |words| && x[0] == '/' && x[1] == '/' && x[2 + |words|] == '\n' && forall i :: 0 <= i < |words| ==> x[2 + i] == words[i]
  {}

  lemma BlockIs(words: string)
    ensures var x := Spelled(BlockComment(words));
            && |x| == 4 + |words| && x[0] == '/' && x[1] == '*' && x[2 + |words|] == '*' && x[3 + |words|] == '/'
            && forall i :: 0 <= i < |words| ==> x[2 + i] == words[i]
  {}

  lemma LineSkipped(t: string, loc: nat, end: nat)
    requires loc + 2 <= |t| && t[loc] == '/' && t[loc + 1] == '/' && LineEnd(t, loc + 2) == end
    ensures Skip(t, loc) == Skip(t, end)
  {
    assert t[loc..loc + 2] == "//";
  }

  lemma BlockSkipped(t: string, loc: nat, end: nat)
    requires loc + 2 <= |t| && t[loc] == '/' && t[loc + 1] == '*' && BlockEnd(t, loc + 2) == end <= |t|
    ensures Skip(t, loc) == Skip(t, end)
  {
    assert t[loc..loc + 2] == "/*" && "/*" != "//";
  }

  lemma BlankPassed(a: string, b: string)
    ensures Skip(a + " " + b, |a|) == Skip(a + " " + b, |a| + 1)
  {
    BlanksPassed(a + " " + b, |a|, 1);
  }

  lemma PieceMarks(p: Piece, b: string)
    requires PieceOk(p) && !p.Code?
    ensures Marks(Spelled(p), b) && Marks(Blanked(p), b)
  {}

  /** One comment after a text without slashes, before any text. */
  lemma OneBlanked(a: string, p: Piece, b: string)
    requires NoSlash(a) && PieceOk(p) && !p.Code?
    ensures Parse(a + Spelled(p) + b) == Parse(a + Blanked(p) + b)
  {
    hide Skip, Parse;
    var w := Swap(a, Spelled(p), Blanked(p), b);
    PiecePassed(a, p, b);
    BlankPassed(a, b);
    PieceMarks(p, b);
    SameFile(w);
  }

  // --- any number of comments -------------------------------------------------------------------------------------------------------

  lemma {:induction false} AllBlankedAfter(a: string, ps: seq<Piece>, b: string)
    requires NoSlash(a) && PiecesOk(ps)
    ensures Parse(a + AllSpelled(ps) + b) == Parse(a + AllBlanked(ps) + b)
    decreases |ps|
  {
    hide Parse, PieceOk, Spelled, Blanked, NoSlash;
    if ps != [] {
      var p, rest := ps[0], ps[1..];
      var x, y := Spelled(p), Blanked(p);
      assert PieceOk(p);
      BlankedCode(a, p);
      Regroup(a, x, AllSpelled(rest), b);
      if !p.Code? {
        OneBlanked(a, p, AllSpelled(rest) + b);
      }
      Regroup(a, y, AllSpelled(rest), b);
      AllBlankedAfter(a + y, rest, b);
      Regroup(a, y, AllBlanked(rest), b);
    }
  }

  lemma BlankedCode(a: string, p: Piece)
    requires NoSlash(a) && PieceOk(p)
    ensures NoSlash(a + Blanked(p)) && (p.Code? ==> Spelled(p) == Blanked(p))
  {}

  lemma Regroup(a: string, x: string, c: string, b: string)
    ensures a + (x + c) + b == a + x + (c + b) == (a + x) + c + b
  {}

  lemma NoFront(x: string, y: string)
    ensures "" + x == x && "" + y == y
  {}

  /** Whatever comes behind them, comments and blanks may all be replaced by single blanks. */
  lemma CommentsAreBlanks(ps: seq<Piece>, b: string)
    requires PiecesOk(ps)
    ensures Parse(AllSpelled(ps) + b) == Parse(AllBlanked(ps) + b)
  {
    hide Parse;
    assert "" + AllSpelled(ps) + b == AllSpelled(ps) + b && "" + AllBlanked(ps) + b == AllBlanked(ps) + b;
    AllBlankedAfter("", ps, b);
  }

  lemma {:induction false} OneMorePiece(ps: seq<Piece>, p: Piece)
    ensures AllSpelled(ps + [p]) == AllSpelled(ps) + Spelled(p) && AllBlanked(ps + [p]) == AllBlanked(ps) + Blanked(p)
    decreases |ps|
  {
    hide Spelled, Blanked;
    if ps == [] {
      assert [] + [p] == [p];
    } else {
      OneMorePiece(ps[1..], p);
      assert (ps + [p])[1..] == ps[1..] + [p];
      Regroup("", Spelled(ps[0]), AllSpelled(ps[1..]), Spelled(p));
      Regroup("", Blanked(ps[0]), AllBlanked(ps[1..]), Blanked(p));
      NoFront(Spelled(ps[0]), Blanked(ps[0]));
    }
  }

  lemma Joined(a: string, x: string, w: string, y: string)
    ensures a + x + w + y == a + (x + w + y)
  {}

  lemma PieceAlso(ps: seq<Piece>, p: Piece)
    requires PiecesOk(ps) && PieceOk(p)
    ensures PiecesOk(ps + [p])
  {}

  /** A line comment is as good as its line end: after code and whole comments, before any text. */
  lemma LineCommentIsLineEnd(ps: seq<Piece>, w: string, b: string)
    requires PiecesOk(ps) && PieceOk(LineComment(w))
    ensures Parse(AllSpelled(ps) + "//" + w + "\n" + b) == Parse(AllSpelled(ps) + "\n" + b)
  {
    var line := Blanks("\n");
    assert PieceOk(line);
    hide Parse, AllSpelled, AllBlanked, PieceOk;
    PieceAlso(ps, LineComment(w));
    PieceAlso(ps, line);
    OneMorePiece(ps, LineComment(w));
    OneMorePiece(ps, line);
    CommentsAreBlanks(ps + [LineComment(w)], b);
    CommentsAreBlanks(ps + [line], b);
    Joined(AllSpelled(ps), "//", w, "\n");
  }

  /** A block comment is as good as a blank. */
  lemma BlockCommentIsBlank(ps: seq<Piece>, w: string, b: string)
    requires PiecesOk(ps) && PieceOk(BlockComment(w))
    ensures Parse(AllSpelled(ps) + "/*" + w + "*/" + b) == Parse(AllSpelled(ps) + " " + b)
  {
    var blank := Blanks(" ");
    assert PieceOk(blank);
    hide Parse, AllSpelled, AllBlanked, PieceOk;
    PieceAlso(ps, BlockComment(w));
    PieceAlso(ps, blank);
    OneMorePiece(ps, BlockComment(w));
    OneMorePiece(ps, blank);
    CommentsAreBlanks(ps + [BlockComment(w)], b);
    CommentsAreBlanks(ps + [blank], b);
    Joined(AllSpelled(ps), "/*", w, "*/");
  }

  /** Whatever comments and blanks stand where the printed form has its blanks, the text parses to the declarations. */
  lemma CommentedParses(ps: seq<Piece>, ds: seq<Decl>)
    requires PiecesOk(ps) && FileOk(ds) && AllBlanked(ps) == Print(FileTokens(ds))
    ensures Parse(AllSpelled(ps)) == Some(ds)
  {
    hide Parse, AllSpelled, AllBlanked, FileOk, FileTokens, Print;
    CommentsAreBlanks(ps, "");
    assert AllSpelled(ps) + "" == AllSpelled(ps) && AllBlanked(ps) + "" == AllBlanked(ps);
    RoundTrip(ds);
  }

  // --- the characters of words ------------------------------------------------------------------------------------------------------

  /** Words are of ASCII digits, letters and underscores. */
  lemma WordsAre(w: string)
    ensures IsWord(w) <==>
            w != "" && forall i :: 0 <= i < |w| ==> 48 <= w[i] as int <= 57 || 65 <= w[i] as int <= 90 || 97 <= w[i] as int <= 122 || w[i] as int == 95
  {}

  // --- a file as it begins in the repository -------------------------------------------------------------------------------------------

  /** At most one blank stands before the next token. */
  lemma TokenNearby(text: string, loc: nat, next: nat, tok: string)
    requires loc <= next <= loc + 1 && next + |tok| <= |text| && (loc < next ==> IsBlank(text[loc]))
    requires tok != "" && !IsBlank(tok[0]) && tok[0] != '/' && text[next..next + |tok|] == tok
    requires IsIdentChar(tok[|tok| - 1]) ==> NoIdentAt(text, next + |tok|)
    ensures TokenAt(text, loc, tok) && After(text, loc, tok) == next + |tok|
  {
    AtFirst(text, next, tok, 0);
    AtFirstIf(text, next, "//", 0);
    AtFirstIf(text, next, "/*", 0);
    assert Skip(text, next) == next && Skip(text, loc) == next;
  }

  lemma ReadsOn(text: string, loc: nat, tok: string, rest: seq<string>)
    requires loc <= |text| && TokenAt(text, loc, tok) && Reads(text, After(text, loc, tok), rest)
    ensures Reads(text, loc, [tok] + rest)
    ensures EndOf(text, loc, [tok] + rest) == EndOf(text, After(text, loc, tok), rest)
  {
    hide TokenAt, After;
    assert ([tok] + rest)[1..] == rest && ([tok] + rest)[0] == tok;
  }

  lemma SmallTokens(ds: seq<Decl>)
    requires ds == [Struct("of_x", [], None, [])]
    ensures FileTokens(ds) == ["struct"] + (["of_x"] + (["{"] + (["}"] + ([";"] + [])))) && FileOk(ds)
  {
    assert ds[1..] == [] && FileTokens([]) == [] && MembersTokens([]) == [];
    WordsAre("of_x");
  }

  ghost predicate IsSmall(text: string) {
    && |text| == 17 && text[1..7] == "struct" && text[8..12] == "of_x" && text[13..14] == "{" && text[15..16] == "}" && text[16..17] == ";"
    && text[0] == '\n' && text[7] == ' ' && text[12] == ' ' && text[14] == ' '
  }

  lemma SmallText()
    ensures IsSmall("\nstruct of_x { };")
  {
    var text := "\nstruct of_x { };";
    assert text[1..7] == "struct" && text[8..12] == "of_x";
    assert text[13..14] == "{" && text[15..16] == "}" && text[16..17] == ";";
  }

  lemma SmallStruct(text: string)
    requires IsSmall(text)
    ensures Parse(text) == Some([Struct("of_x", [], None, [])])
  {
    hide Parse, FileTokens, Reads, EndOf, FileOk, Skip, TokenAt, After;
    var ds := [Struct("of_x", [], None, [])];
    SmallTokens(ds);
    NothingRead(text);
    TokenNearby(text, 16, 16, ";");
    ReadsOn(text, 16, ";", []);
    TokenNearby(text, 14, 15, "}");
    ReadsOn(text, 14, "}", [";"] + []);
    TokenNearby(text, 12, 13, "{");
    ReadsOn(text, 12, "{", ["}"] + ([";"] + []));
    TokenNearby(text, 7, 8, "of_x");
    ReadsOn(text, 7, "of_x", ["{"] + (["}"] + ([";"] + [])));
    TokenNearby(text, 0, 1, "struct");
    ReadsOn(text, 0, "struct", ["of_x"] + (["{"] + (["}"] + ([";"] + []))));
    FileForm(ds);
    AnyLayoutParses(text, ds, FileTokens(ds));
  }

  lemma NothingRead(text: string)
    ensures Reads(text, |text|, []) && EndOf(text, |text|, []) == |text| && Skip(text, |text|) == |text|
  {}

  lemma CopyrightIsSkipped()
    ensures Parse("// c\nstruct of_x { };") == Some([Struct("of_x", [], None, [])])
  {
    hide Parse, IsSmall;
    LineCommentIsLineEnd([], " c", "struct of_x { };");
    assert AllSpelled([]) + "//" + " c" + "\n" + "struct of_x { };" == "// c\nstruct of_x { };";
    assert AllSpelled([]) + "\n" + "struct of_x { };" == "\nstruct of_x { };";
    SmallText();
    SmallStruct("\nstruct of_x { };");
  }
}
