/** The template lines are parsed into nested blocks and joined again, indented by their depth. */
module BlockArranger {
  import opened Options
  import opened Results

  datatype SyntaxError = Missing(word: string) | Mismatch(expected: string, word: string) | NotClosed | UnexpectedEof

  /** A block is made of lines and of the blocks inside it. */
  datatype Item = Line(text: string) | Block(items: seq<Item>)

  // --- lines -----------------------------------------------------------------------------------------------------------

  /** The white space of Python's strings. */
  predicate IsSpace(c: char) {
    var u := c as int;
    || 9 <= u <= 13 || 28 <= u <= 32 || u == 0x85 || u == 0xA0 || u == 0x1680 || 0x2000 <= u <= 0x200A || u == 0x2028 || u == 0x2029
    || u == 0x202F || u == 0x205F || u == 0x3000
  }

  function LeftStripped(line: string): (r: string)
    ensures |r| <= |line| && r == line[|line| - |r|..] && (r != "" ==> !IsSpace(r[0]))
    ensures forall i :: 0 <= i < |line| - |r| ==> IsSpace(line[i])
  {
    if line != "" && IsSpace(line[0]) then LeftStripped(line[1..]) else line
  }

  function Word(line: string): (r: string)
    ensures |r| <= |line| && r == line[..|r|] && (|r| < |line| ==> IsSpace(line[|r|]))
    ensures forall i :: 0 <= i < |r| ==> !IsSpace(r[i])
  {
    if line == "" || IsSpace(line[0]) then "" else [line[0]] + Word(line[1..])
  }

  /** The first word of a line, empty for a blank line. */
  function FirstWord(line: string): string {
    Word(LeftStripped(line))
  }

  predicate Ends(line: string, tail: string) {
    |line| >= |tail| && line[|line| - |tail|..] == tail
  }

  const START_WORDS := {"for", "if", "while", "def", "try:", "with", "class"}
  const END_WORDS := {"#end", "#endfor", "#endif", "#endwhile", "#enddef", "#endtry", "#endwith", "#endclass"}
  const CONT_WORDS := {"elif", "else:", "except", "except:", "finally:"}

  predicate OpensLine(line: string) {
    Ends(line, ":\n") || Ends(line, ":\r\n")
  }

  predicate IsEnd(line: string) {
    FirstWord(line) in END_WORDS
  }

  predicate IsCont(line: string) {
    !IsEnd(line) && OpensLine(line) && FirstWord(line) in CONT_WORDS
  }

  predicate IsStart(line: string) {
    !IsEnd(line) && OpensLine(line) && FirstWord(line) in START_WORDS
  }

  /** Of which kind a line is: told by its first word, and for starts and continuations by the colon at the end of the
      line. No line is of two kinds. */
  lemma LineKinds(line: string)
    ensures IsEnd(line) <==>
            FirstWord(line) in {"#end", "#endfor", "#endif", "#endwhile", "#enddef", "#endtry", "#endwith", "#endclass"}
    ensures IsStart(line) <==> FirstWord(line) in {"for", "if", "while", "def", "try:", "with", "class"} && ColonAtEnd(line)
    ensures IsCont(line) <==> FirstWord(line) in {"elif", "else:", "except", "except:", "finally:"} && ColonAtEnd(line)
    ensures !(IsEnd(line) && IsStart(line)) && !(IsEnd(line) && IsCont(line)) && !(IsStart(line) && IsCont(line))
  {
    hide FirstWord, OpensLine, ColonAtEnd;
    ColonsAre(line);
    WordsApart(FirstWord(line));
  }

  lemma WordsApart(w: string)
    ensures w in START_WORDS ==> w !in END_WORDS && w !in CONT_WORDS
    ensures w in CONT_WORDS ==> w !in END_WORDS
  {
    assert forall v :: v in END_WORDS ==> v[0] == '#';
    assert forall v :: v in START_WORDS ==> v[0] != '#' && v[0] != 'e' && |v| <= 5;
    assert forall v :: v in CONT_WORDS ==> v[0] != '#' && (v[0] == 'e' || |v| == 8);
  }

  ghost predicate ColonAtEnd(line: string) {
    var n := |line|;
    || (n >= 2 && line[n - 2] == ':' && line[n - 1] == '\n')
    || (n >= 3 && line[n - 3] == ':' && line[n - 2] == '\r' && line[n - 1] == '\n')
  }

  lemma ColonsAre(line: string)
    ensures OpensLine(line) <==> ColonAtEnd(line)
  {
    hide Ends;
    EndsTwo(line, ":\n");
    EndsThree(line, ":\r\n");
  }

  lemma EndsTwo(line: string, t: string)
    requires |t| == 2
    ensures Ends(line, t) <==> |line| >= 2 && line[|line| - 2] == t[0] && line[|line| - 1] == t[1]
  {
    var n := |line|;
    if n >= 2 {
      assert line[n - 2..] == [line[n - 2], line[n - 1]] && t == [t[0], t[1]];
    }
  }

  lemma EndsThree(line: string, t: string)
    requires |t| == 3
    ensures Ends(line, t) <==> |line| >= 3 && line[|line| - 3] == t[0] && line[|line| - 2] == t[1] && line[|line| - 1] == t[2]
  {
    var n := |line|;
    if n >= 3 {
      assert line[n - 3..] == [line[n - 3], line[n - 2], line[n - 1]] && t == [t[0], t[1], t[2]];
    }
  }

  /** What closes a block, next to `#end`: for `try:` this is `#endtry:`, which is no end word. */
  function EndOf(word: string): string {
    "#end" + word
  }

  /** A line at a depth; blank lines stay as they are. */
  function Indented(line: string, depth: nat, width: nat): string {
    if line != "" && LeftStripped(line) == "" then line else seq(width * depth, _ => ' ') + LeftStripped(line)
  }

  // --- the one-pass form: a stack of the blocks that are open -----------------------------------------------------------

  /** How deep a line is put when the blocks `open` are open before it. */
  function Outer(line: string, open: seq<string>): int {
    if IsEnd(line) || IsCont(line) then |open| - 1 else |open|
  }

  /** Each line is indented by the number of open blocks; lines that end or continue a block stand outside it. A stray
      `#end` or continuation outside all blocks ends the output. */
  function OnePass(lines: seq<string>, pos: nat, open: seq<string>, width: nat): Result<seq<string>, SyntaxError>
    requires pos <= |lines|
    decreases |lines| - pos
  {
    if pos == |lines| then
      if open == [] then Ok([]) else Err(NotClosed)
    else
      var line := lines[pos];
      var word := FirstWord(line);
      if IsEnd(line) && word != "#end" && (open == [] || word != EndOf(open[|open| - 1])) then
        Err(if open == [] then Missing(word) else Mismatch(EndOf(open[|open| - 1]), word))
      else if (IsEnd(line) || IsCont(line)) && open == [] then
        Ok([])
      else
        var open' := if IsEnd(line) then open[..|open| - 1] else if IsStart(line) then open + [word] else open;
        match OnePass(lines, pos + 1, open', width)
        case Ok(rest) => Ok([Indented(line, Outer(line, open), width)] + rest)
        case Err(e) => Err(e)
  }

  /** What closes a block is an end word for every start word but `try:`. */
  lemma EndWordsKnown(word: string)
    requires word in START_WORDS
    ensures EndOf(word) in END_WORDS <==> word != "try:"
  {
    assert EndOf("for") == "#endfor" && EndOf("if") == "#endif" && EndOf("while") == "#endwhile" && EndOf("def") == "#enddef";
    assert EndOf("with") == "#endwith" && EndOf("class") == "#endclass" && EndOf("try:") == "#endtry:";
    assert "#endtry:" !in END_WORDS by { assert forall w :: w in END_WORDS ==> |w| != 8 || w[7] != ':'; }
  }

  /** So `#endtry` is an error where a `try:` is open, and only `#end` closes it. */
  lemma TryClosedByEndOnly(lines: seq<string>, pos: nat, open: seq<string>, width: nat)
    requires pos < |lines| && IsEnd(lines[pos]) && open != [] && open[|open| - 1] == "try:"
    ensures FirstWord(lines[pos]) != "#end" ==> OnePass(lines, pos, open, width) == Err(Mismatch("#endtry:", FirstWord(lines[pos])))
    ensures FirstWord(lines[pos]) == "#end" ==>
      OnePass(lines, pos, open, width) == After([Indented(lines[pos], |open| - 1, width)], OnePass(lines, pos + 1, open[..|open| - 1], width))
  {
    hide FirstWord, Indented;
    EndWordsKnown("try:");
    assert EndOf("try:") == "#endtry:";
  }

  /** `out` before the result. */
  function After(out: seq<string>, r: Result<seq<string>, SyntaxError>): Result<seq<string>, SyntaxError> {
    match r
    case Ok(rest) => Ok(out + rest)
    case Err(e) => Err(e)
  }

  /** The line at which the output stops although no block is open. */
  predicate IsStray(line: string) {
    (IsEnd(line) && FirstWord(line) == "#end") || IsCont(line)
  }

  lemma {:induction false} IndentedKeeps(line: string, depth: nat, width: nat)
    ensures LeftStripped(Indented(line, depth, width)) == LeftStripped(line)
  {
    if !(line != "" && LeftStripped(line) == "") {
      BlanksStripped(width * depth, LeftStripped(line));
      StrippedTwice(line);
    }
  }

  lemma {:induction false} BlanksStripped(n: nat, line: string)
    ensures LeftStripped(seq(n, _ => ' ') + line) == LeftStripped(line)
  {
    if n > 0 {
      assert (seq(n, _ => ' ') + line)[1..] == seq(n - 1, _ => ' ') + line;
      BlanksStripped(n - 1, line);
    } else {
      assert seq(n, _ => ' ') + line == line;
    }
  }

  lemma {:induction false} StrippedTwice(line: string)
    ensures LeftStripped(LeftStripped(line)) == LeftStripped(line)
  {
    if line != "" && IsSpace(line[0]) {
      StrippedTwice(line[1..]);
    }
  }

  /** The output has each line once, in order, but for leading blanks; it is all of them unless a stray line stops it. */
  lemma {:induction false} EachLineOnce(lines: seq<string>, pos: nat, open: seq<string>, width: nat)
    requires pos <= |lines| && OnePass(lines, pos, open, width).Ok?
    ensures var out := OnePass(lines, pos, open, width).value;
            && pos + |out| <= |lines|
            && (forall k :: 0 <= k < |out| ==> LeftStripped(out[k]) == LeftStripped(lines[pos + k]))
            && (pos + |out| < |lines| ==> IsStray(lines[pos + |out|]))
    decreases |lines| - pos
  {
    hide OnePass, Indented, FirstWord, OpensLine, LeftStripped, IsEnd, IsCont;
    var out := OnePass(lines, pos, open, width).value;
    if out != [] && pos < |lines| {
      var open' := OneStep(lines, pos, open, width);
      EachLineOnce(lines, pos + 1, open', width);
      IndentedKeeps(lines[pos], Outer(lines[pos], open), width);
      forall k | 0 < k < |out| ensures LeftStripped(out[k]) == LeftStripped(lines[pos + k]) {
        assert lines[pos + k] == lines[pos + 1 + (k - 1)];
      }
    } else {
      NothingOut(lines, pos, open, width);
    }
  }

  lemma NothingOut(lines: seq<string>, pos: nat, open: seq<string>, width: nat)
    requires pos <= |lines| && OnePass(lines, pos, open, width).Ok?
    ensures pos == |lines| ==> OnePass(lines, pos, open, width).value == []
    ensures pos < |lines| && OnePass(lines, pos, open, width).value == [] ==> IsStray(lines[pos])
  {
    hide Indented, FirstWord, OpensLine;
  }

  /** How many of the lines start a block. */
  function Starts(lines: seq<string>): nat {
    if lines == [] then 0 else Starts(lines[..|lines| - 1]) + if IsStart(lines[|lines| - 1]) then 1 else 0
  }

  function BlockEnds(lines: seq<string>): nat {
    if lines == [] then 0 else BlockEnds(lines[..|lines| - 1]) + if IsEnd(lines[|lines| - 1]) then 1 else 0
  }

  /** `r` is the line without its leading white space, after `n` blanks. */
  ghost predicate AfterBlanks(r: string, n: int, line: string) {
    0 <= n <= |r| && r[n..] == LeftStripped(line) && forall i :: 0 <= i < n ==> r[i] == ' '
  }

  /** Every line that is put out has `width` blanks for each block that is open there: as many as started before it and
      have not ended up to it, one less for a line that continues a block. Blank lines stay as they are. */
  lemma {:induction false} BlanksByDepth(lines: seq<string>, width: nat, k: nat)
    requires OnePass(lines, 0, [], width).Ok? && k < |OnePass(lines, 0, [], width).value| && k < |lines|
    ensures var out := OnePass(lines, 0, [], width).value;
            var n := Starts(lines[..k]) - BlockEnds(lines[..k + 1]) - if IsCont(lines[k]) then 1 else 0;
            if lines[k] != "" && LeftStripped(lines[k]) == "" then out[k] == lines[k] else AfterBlanks(out[k], width * n, lines[k])
  {
    hide OnePass, IsStart, IsEnd, IsCont, LeftStripped, AfterBlanks, FirstWord;
    NoneBefore(lines[..0]);
    BlanksFrom(lines, 0, [], width, k);
  }

  lemma NoneBefore(lines: seq<string>)
    requires |lines| == 0
    ensures Starts(lines) == BlockEnds(lines) == 0
  {}

  lemma {:induction false} BlanksFrom(lines: seq<string>, pos: nat, open: seq<string>, width: nat, k: nat)
    requires pos <= |lines| && OnePass(lines, pos, open, width).Ok? && k < |OnePass(lines, pos, open, width).value|
    requires |open| == Starts(lines[..pos]) - BlockEnds(lines[..pos]) && pos + k < |lines|
    ensures var out := OnePass(lines, pos, open, width).value;
            var line := lines[pos + k];
            var n := Starts(lines[..pos + k]) - BlockEnds(lines[..pos + k + 1]) - if IsCont(line) then 1 else 0;
            if line != "" && LeftStripped(line) == "" then out[k] == line else AfterBlanks(out[k], width * n, line)
    decreases k
  {
    hide OnePass, Starts, BlockEnds, Indented, AfterBlanks, IsEnd, IsStart, IsCont, FirstWord, LeftStripped;
    var open' := OneStep(lines, pos, open, width);
    StartsStep(lines, pos);
    if k == 0 {
      IndentedIs(lines[pos], Outer(lines[pos], open), width);
    } else {
      BlanksFrom(lines, pos + 1, open', width, k - 1);
    }
  }

  lemma IndentedIs(line: string, depth: nat, width: nat)
    ensures var r := Indented(line, depth, width);
            if line != "" && LeftStripped(line) == "" then r == line else AfterBlanks(r, width * depth, line)
  {
    hide LeftStripped;
  }

  lemma StartsStep(lines: seq<string>, pos: nat)
    requires pos < |lines|
    ensures Starts(lines[..pos + 1]) == Starts(lines[..pos]) + if IsStart(lines[pos]) then 1 else 0
    ensures BlockEnds(lines[..pos + 1]) == BlockEnds(lines[..pos]) + if IsEnd(lines[pos]) then 1 else 0
    ensures !(IsEnd(lines[pos]) && IsStart(lines[pos])) && !(IsCont(lines[pos]) && (IsEnd(lines[pos]) || IsStart(lines[pos])))
  {
    hide FirstWord, OpensLine;
    assert lines[..pos + 1][..pos] == lines[..pos];
  }

  /** The first line of the output, and the blocks that are open after it. */
  lemma OneStep(lines: seq<string>, pos: nat, open: seq<string>, width: nat) returns (open': seq<string>)
    requires pos < |lines| && OnePass(lines, pos, open, width).Ok? && OnePass(lines, pos, open, width).value != []
    ensures Outer(lines[pos], open) >= 0 && OnePass(lines, pos + 1, open', width).Ok?
    ensures OnePass(lines, pos, open, width).value ==
            [Indented(lines[pos], Outer(lines[pos], open), width)] + OnePass(lines, pos + 1, open', width).value
    ensures |open'| == |open| + (if IsStart(lines[pos]) then 1 else 0) - (if IsEnd(lines[pos]) then 1 else 0)
  {
    hide Indented, FirstWord, IsCont;
    var line := lines[pos];
    open' := if IsEnd(line) then open[..|open| - 1] else if IsStart(line) then open + [FirstWord(line)] else open;
  }

  lemma {:induction false} StrippedIs(line: string, n: nat)
    requires n <= |line| && (n < |line| ==> !IsSpace(line[n])) && forall i :: 0 <= i < n ==> IsSpace(line[i])
    ensures LeftStripped(line) == line[n..]
  {
    hide IsSpace;
    if n > 0 {
      StrippedIs(line[1..], n - 1);
    }
  }

  lemma WordIs(line: string, n: nat)
    requires n <= |line| && (n < |line| ==> IsSpace(line[n])) && forall i :: 0 <= i < n ==> !IsSpace(line[i])
    ensures Word(line) == line[..n]
  {
    hide IsSpace, Word;
    var m := |Word(line)|;
    assert forall i :: 0 <= i < m ==> line[i] == Word(line)[i];
  }

  /** The first word of a line is what stands between white space, from `n` on. */
  lemma FirstWordIs(line: string, n: nat, word: string)
    requires n + |word| <= |line| && line[n..n + |word|] == word
    requires forall i :: 0 <= i < n ==> IsSpace(line[i])
    requires forall i :: 0 <= i < |word| ==> !IsSpace(word[i])
    requires n < |line| ==> !IsSpace(line[n])
    requires n + |word| < |line| ==> IsSpace(line[n + |word|])
    ensures FirstWord(line) == word
  {
    hide IsSpace, LeftStripped, Word;
    StrippedIs(line, n);
    var r := line[n..];
    assert r[..|word|] == word;
    assert forall i :: 0 <= i < |word| ==> r[i] == word[i];
    WordIs(r, |word|);
  }

  lemma IndentedAt(line: string, n: nat, depth: nat)
    requires n < |line| && !IsSpace(line[n]) && forall i :: 0 <= i < n ==> IsSpace(line[i])
    ensures Indented(line, depth, 4) == seq(4 * depth, _ => ' ') + line[n..]
  {
    hide IsSpace, LeftStripped;
    StrippedIs(line, n);
  }

  /** Two blocks in each other, the outer one with two parts, and how they are put at four blanks a level. */
  const NESTED := ["if x:\n", "for x in y:\n", "a\n", "#end\n", " else:\n", "#endif\n"]
  const ARRANGED := ["if x:\n", "    for x in y:\n", "        a\n", "    #end\n", "else:\n", "#endif\n"]

  lemma NestedWords()
    ensures FirstWord("if x:\n") == "if" && FirstWord("for x in y:\n") == "for" && FirstWord("a\n") == "a"
    ensures FirstWord("#end\n") == "#end" && FirstWord(" else:\n") == "else:" && FirstWord("#endif\n") == "#endif"
  {
    hide FirstWord;
    FirstWordIs("if x:\n", 0, "if");
    FirstWordIs("for x in y:\n", 0, "for");
    FirstWordIs("a\n", 0, "a");
    FirstWordIs("#end\n", 0, "#end");
    FirstWordIs(" else:\n", 1, "else:");
    FirstWordIs("#endif\n", 0, "#endif");
  }

  lemma NestedKinds()
    ensures IsStart("if x:\n") && IsStart("for x in y:\n") && IsEnd("#end\n") && IsCont(" else:\n") && IsEnd("#endif\n")
    ensures !IsEnd("a\n") && !IsStart("a\n") && !IsCont("a\n") && !IsCont("if x:\n") && !IsCont("for x in y:\n")
  {
    hide FirstWord;
    NestedWords();
    assert Ends("if x:\n", ":\n") && Ends("for x in y:\n", ":\n") && Ends(" else:\n", ":\n");
    assert "for" in START_WORDS;
  }

  lemma NestedIndents()
    ensures Indented("if x:\n", 0, 4) == "if x:\n" && Indented("for x in y:\n", 1, 4) == "    for x in y:\n"
    ensures Indented("a\n", 2, 4) == "        a\n" && Indented("#end\n", 1, 4) == "    #end\n"
    ensures Indented(" else:\n", 0, 4) == "else:\n" && Indented("#endif\n", 0, 4) == "#endif\n"
  {
    hide Indented, LeftStripped;
    IndentedAt("if x:\n", 0, 0);
    IndentedAt("for x in y:\n", 0, 1);
    IndentedAt("a\n", 0, 2);
    IndentedAt("#end\n", 0, 1);
    IndentedAt(" else:\n", 1, 0);
    IndentedAt("#endif\n", 0, 0);
  }

  /** One more line of the example, when the lines after it come out as they should. */
  lemma NestedStep(k: nat, open: seq<string>, open': seq<string>)
    requires k < 6 && OnePass(NESTED, k + 1, open', 4) == Ok(ARRANGED[k + 1..])
    requires OnePass(NESTED, k, open, 4) == After([ARRANGED[k]], OnePass(NESTED, k + 1, open', 4))
    ensures OnePass(NESTED, k, open, 4) == Ok(ARRANGED[k..])
  {
    hide OnePass;
    assert ARRANGED[k..] == [ARRANGED[k]] + ARRANGED[k + 1..];
  }

  lemma NestedEnd()
    ensures OnePass(NESTED, 6, [], 4) == Ok(ARRANGED[6..])
  {
    assert ARRANGED[6..] == [];
  }

  /** Of the nested blocks, the line inside both gets eight blanks; the words that end or continue a block stand where
      the block starts. */
  lemma NestedExample()
    ensures OnePass(NESTED, 0, [], 4) == Ok(ARRANGED)
  {
    hide OnePass, Indented, FirstWord, IsStart, IsEnd, IsCont;
    NestedWords();
    NestedKinds();
    NestedIndents();
    NestedEnd();
    var one, two := ["if"], ["if", "for"];
    assert one == [] + ["if"] && one[..|one| - 1] == [] && two == one + ["for"] && two[..|two| - 1] == one && EndOf("if") == "#endif";
    LineStep(NESTED, 5, one, 4);
    NestedStep(5, one, []);
    LineStep(NESTED, 4, one, 4);
    NestedStep(4, one, one);
    LineStep(NESTED, 3, two, 4);
    NestedStep(3, two, one);
    LineStep(NESTED, 2, two, 4);
    NestedStep(2, two, two);
    LineStep(NESTED, 1, one, 4);
    NestedStep(1, one, two);
    LineStep(NESTED, 0, [], 4);
    NestedStep(0, [], one);
    assert ARRANGED[0..] == ARRANGED;
  }

  // --- joining -----------------------------------------------------------------------------------------------------------

  /** `_join_block`. */
  function Joined(items: seq<Item>, depth: nat, width: nat): seq<string> {
    if items == [] then
      []
    else
      Joined(items[..|items| - 1], depth, width) + JoinedItem(items[|items| - 1], depth, width)
  }

  function JoinedItem(item: Item, depth: nat, width: nat): seq<string> {
    match item
    case Line(text) => [Indented(text, depth, width)]
    case Block(items) => Joined(items, depth + 1, width)
  }

  lemma NothingJoined(items: seq<Item>, depth: nat, width: nat)
    requires |items| == 0
    ensures Joined(items, depth, width) == []
  {}

  lemma JoinedOneMore(items: seq<Item>, item: Item, depth: nat, width: nat)
    ensures Joined(items + [item], depth, width) == Joined(items, depth, width) + JoinedItem(item, depth, width)
  {}

  /** The parsed part joined, then the one-pass result for the rest. */
  ghost predicate Splits(lines: seq<string>, from: nat, open: seq<string>, block: seq<Item>, pos: nat, open': seq<string>, width: nat) {
    from <= |lines| && pos <= |lines| &&
    OnePass(lines, from, open, width) == After(Joined(block, |open|, width), OnePass(lines, pos, open', width))
  }

  lemma SplitsOnward(lines: seq<string>, from: nat, open: seq<string>, block: seq<Item>, pos: nat, open': seq<string>, item: Item, pos': nat, open'': seq<string>, width: nat)
    requires Splits(lines, from, open, block, pos, open', width) && pos' <= |lines|
    requires OnePass(lines, pos, open', width) == After(JoinedItem(item, |open|, width), OnePass(lines, pos', open'', width))
    ensures Splits(lines, from, open, block + [item], pos', open'', width)
  {
    hide OnePass, Joined, JoinedItem, After;
    JoinedOneMore(block, item, |open|, width);
    AfterBoth(Joined(block, |open|, width), JoinedItem(item, |open|, width), OnePass(lines, pos', open'', width));
  }

  lemma AfterBoth(a: seq<string>, b: seq<string>, r: Result<seq<string>, SyntaxError>)
    ensures After(a, After(b, r)) == After(a + b, r)
  {
    if r.Ok? {
      assert a + (b + r.value) == a + b + r.value;
    }
  }

  lemma SplitsAtOnce(lines: seq<string>, from: nat, open: seq<string>, width: nat)
    requires from <= |lines|
    ensures Splits(lines, from, open, [], from, open, width)
  {
    var r := OnePass(lines, from, open, width);
    if r.Ok? { assert [] + r.value == r.value; }
  }

  /** One line outside or at the edge of the open blocks. */
  lemma LineStep(lines: seq<string>, pos: nat, open: seq<string>, width: nat)
    requires pos < |lines|
    ensures var line, word := lines[pos], FirstWord(lines[pos]);
            && (!IsEnd(line) && !IsCont(line) && !IsStart(line) ==>
                  OnePass(lines, pos, open, width) == After([Indented(line, |open|, width)], OnePass(lines, pos + 1, open, width)))
            && (IsStart(line) && !IsCont(line) ==>
                  OnePass(lines, pos, open, width) == After([Indented(line, |open|, width)], OnePass(lines, pos + 1, open + [word], width)))
            && (open != [] && IsCont(line) ==>
                  OnePass(lines, pos, open, width) == After([Indented(line, |open| - 1, width)], OnePass(lines, pos + 1, open, width)))
            && (open != [] && IsEnd(line) && (word == "#end" || word == EndOf(open[|open| - 1])) ==>
                  OnePass(lines, pos, open, width) ==
                    After([Indented(line, |open| - 1, width)], OnePass(lines, pos + 1, open[..|open| - 1], width)))
  {
    hide Indented, FirstWord;
  }

  // --- the template ------------------------------------------------------------------------------------------------------

  /** The shared iterator over the lines. */
  class LineIterator {
    const lines: seq<string>
    var pos: nat

    constructor (lines: seq<string>)
      ensures this.lines == lines && pos == 0
    {
      this.lines, pos := lines, 0;
    }
  }

  class Buffer {
    var lines: seq<string>

    constructor (lines: seq<string>)
      ensures this.lines == lines
    {
      this.lines := lines;
    }
  }

  /** How a block ended: with its end or a continuation (of word `cont`), with the last line, or with an error. */
  datatype Stop = Closed(line: string, cont: Option<string>) | Exhausted | Failed(error: SyntaxError)

  class Template {
    /** How many blanks a level is indented by. */
    const indent: nat
    /** One less than the number of blocks being parsed; what an error leaves behind stays. */
    var depth: int

    constructor (indent: nat)
      ensures this.indent == indent && depth == -1
    {
      this.indent, depth := indent, -1;
    }

    /** `_parse_lines`, inside the blocks `open`. */
    method ParseBlock(iter: LineIterator, ghost open: seq<string>, endBlock: Option<string>) returns (block: seq<Item>, stop: Stop)
      requires iter.pos <= |iter.lines|
      requires endBlock == if open == [] then None else Some(EndOf(open[|open| - 1]))
      modifies iter`pos, this`depth
      decreases |iter.lines| - iter.pos, 0
      ensures old(iter.pos) <= iter.pos <= |iter.lines| && (!stop.Failed? ==> depth == old(depth))
      ensures stop.Exhausted? ==>
        iter.pos == |iter.lines| && Splits(iter.lines, old(iter.pos), open, block, iter.pos, open, indent)
      ensures stop.Closed? ==>
        old(iter.pos) < iter.pos && ClosesAt(iter.lines, old(iter.pos), open, block, iter.pos - 1, stop.line, stop.cont, indent)
      ensures stop.Failed? ==> OnePass(iter.lines, old(iter.pos), open, indent) == Err(stop.error)
    {
      hide Splits, Joined, Indented, FirstWord, OpensLine, IsEnd, IsCont, IsStart, OnePass;
      block := [];
      SplitsAtOnce(iter.lines, iter.pos, open, indent);
      while iter.pos < |iter.lines|
        invariant old(iter.pos) <= iter.pos <= |iter.lines| && depth == old(depth)
        invariant Splits(iter.lines, old(iter.pos), open, block, iter.pos, open, indent)
        decreases |iter.lines| - iter.pos
      {
        var line := iter.lines[iter.pos];
        ghost var here := iter.pos;
        iter.pos := iter.pos + 1;
        LineStep(iter.lines, here, open, indent);
        var word := FirstWord(line);
        if IsEnd(line) {
          if endBlock != Some(word) && word != "#end" {
            var e := if endBlock.None? then Missing(word) else Mismatch(endBlock.value, word);
            WrongEnd(iter.lines, old(iter.pos), open, block, here, indent, e);
            return block, Failed(e);
          }
          return block, Closed(line, None);
        } else if IsCont(line) {
          return block, Closed(line, Some(word));
        }
        LineSplits(iter.lines, old(iter.pos), open, block, here, indent);
        block := block + [Line(line)];
        if IsStart(line) {
          var more, failed := ParseChildren(iter, open, word, old(iter.pos), block);
          if failed.Some? {
            return block, Failed(failed.value);
          }
          block := more;
        }
      }
      return block, Exhausted;
    }

    /** The parts of a block that starts with `word`, up to its end: each continuation begins another part. */
    method ParseChildren(iter: LineIterator, ghost open: seq<string>, word: string, ghost from: nat, before: seq<Item>)
      returns (block: seq<Item>, failed: Option<SyntaxError>)
      requires iter.pos <= |iter.lines| && Splits(iter.lines, from, open, before, iter.pos, open + [word], indent)
      modifies iter`pos, this`depth
      decreases |iter.lines| - iter.pos, 1
      ensures old(iter.pos) <= iter.pos <= |iter.lines|
      ensures failed.None? ==> depth == old(depth) && Splits(iter.lines, from, open, block, iter.pos, open, indent)
      ensures failed.Some? ==> OnePass(iter.lines, from, open, indent) == Err(failed.value)
    {
      hide Splits, Joined, Indented, FirstWord, IsEnd, IsCont, OnePass;
      block := before;
      depth := depth + 1;
      var more := true;
      while more
        invariant old(iter.pos) <= iter.pos <= |iter.lines| && depth == old(depth) + 1
        invariant Splits(iter.lines, from, open, block, iter.pos, if more then open + [word] else open, indent)
        decreases |iter.lines| - iter.pos, more
      {
        ghost var here := iter.pos;
        assert (open + [word])[|open + [word]| - 1] == word;
        var child, stop := ParseBlock(iter, open + [word], Some(EndOf(word)));
        if stop.Exhausted? {
          OpenAtEnd(iter.lines, from, open, block, here, word, child, indent);
          return block, Some(NotClosed);
        }
        if stop.Failed? {
          StaysFailed(iter.lines, from, open, block, here, word, stop.error, indent);
          return block, Some(stop.error);
        }
        ChildSplits(iter.lines, from, open, block, here, word, child, iter.pos - 1, stop.line, stop.cont, indent);
        block := block + [Block(child), Line(stop.line)];
        more := stop.cont.Some?;
      }
      depth := depth - 1;
      return block, None;
    }

    /** `parse_lines`: a stray `#end` or continuation ends the parsing early. The end of the lines is unexpected only
        when an earlier error has left the depth above zero. */
    method ParseLines(lines: seq<string>) returns (r: Result<seq<Item>, SyntaxError>)
      modifies this`depth
      ensures old(depth) <= 0 ==> match r
        case Ok(block) => OnePass(lines, 0, [], indent) == Ok(Joined(block, 0, indent)) && depth == old(depth)
        case Err(e) => OnePass(lines, 0, [], indent) == Err(e)
    {
      hide Splits, Joined, IsEnd, IsCont, OnePass;
      var iter := new LineIterator(lines);
      var block, stop := ParseBlock(iter, [], None);
      match stop {
        case Failed(e) => return Err(e);
        case Exhausted =>
          NothingLeft(lines, block, indent);
          if depth > 0 {
            return Err(UnexpectedEof);
          }
          return Ok(block);
        case Closed(line, cont) =>
          StrayEnd(lines, block, iter.pos - 1, line, cont, indent);
          return Ok(block);
      }
    }

    /** `_join_block`: the buffer grows by the joined lines. */
    method JoinBlock(block: seq<Item>, buf: Buffer, level: nat)
      modifies buf
      decreases block
      ensures buf.lines == old(buf.lines) + Joined(block, level, indent)
    {
      hide Joined, Indented;
      NothingJoined(block[..0], level, indent);
      for i := 0 to |block|
        invariant buf.lines == old(buf.lines) + Joined(block[..i], level, indent)
      {
        ghost var before := buf.lines;
        match block[i] {
          case Line(text) => buf.lines := buf.lines + [Indented(text, level, indent)];
          case Block(items) => JoinBlock(items, buf, level + 1);
        }
        assert block[..i + 1] == block[..i] + [block[i]];
        JoinedOneMore(block[..i], block[i], level, indent);
        assert buf.lines == before + JoinedItem(block[i], level, indent);
      }
      assert block[..|block|] == block;
    }

    /** `_arrange_indent`: the lines in the buffer give way to the arranged ones, as the one-pass form has them; on an
        error the buffer stays. */
    method ArrangeIndent(buf: Buffer) returns (error: Option<SyntaxError>)
      modifies this`depth, buf
      ensures old(depth) <= 0 ==> match error
        case None => OnePass(old(buf.lines), 0, [], indent) == Ok(buf.lines) && depth == old(depth)
        case Some(e) => OnePass(old(buf.lines), 0, [], indent) == Err(e) && buf.lines == old(buf.lines)
    {
      hide OnePass, Joined;
      var block := ParseLines(buf.lines);
      if block.Err? {
        return Some(block.error);
      }
      buf.lines := [];
      JoinBlock(block.value, buf, 0);
      assert [] + Joined(block.value, 0, indent) == Joined(block.value, 0, indent);
      return None;
    }
  }

  /** The block ends at the line `at`, which is its end or a continuation. */
  ghost predicate ClosesAt(lines: seq<string>, from: nat, open: seq<string>, block: seq<Item>, at: nat, line: string, cont: Option<string>, width: nat) {
    && at < |lines| && line == lines[at] && Splits(lines, from, open, block, at, open, width)
    && (cont.Some? ==> IsCont(line))
    && (cont.None? ==> IsEnd(line) && (FirstWord(line) == "#end" || (open != [] && FirstWord(line) == EndOf(open[|open| - 1]))))
  }

  lemma WrongEnd(lines: seq<string>, from: nat, open: seq<string>, block: seq<Item>, at: nat, width: nat, e: SyntaxError)
    requires at < |lines| && Splits(lines, from, open, block, at, open, width) && IsEnd(lines[at])
    requires var word := FirstWord(lines[at]);
             word != "#end" && (if open == [] then e == Missing(word) else word != EndOf(open[|open| - 1]) && e == Mismatch(EndOf(open[|open| - 1]), word))
    ensures OnePass(lines, from, open, width) == Err(e)
  {}

  lemma LineSplits(lines: seq<string>, from: nat, open: seq<string>, block: seq<Item>, at: nat, width: nat)
    requires at < |lines| && Splits(lines, from, open, block, at, open, width) && !IsEnd(lines[at]) && !IsCont(lines[at])
    ensures Splits(lines, from, open, block + [Line(lines[at])], at + 1, if IsStart(lines[at]) then open + [FirstWord(lines[at])] else open, width)
  {
    hide Splits, OnePass, IsEnd, IsCont, IsStart, FirstWord, Indented;
    LineStep(lines, at, open, width);
    SplitsOnward(lines, from, open, block, at, open, Line(lines[at]), at + 1, if IsStart(lines[at]) then open + [FirstWord(lines[at])] else open, width);
  }

  lemma OpenAtEnd(lines: seq<string>, from: nat, open: seq<string>, block: seq<Item>, at: nat, word: string, child: seq<Item>, width: nat)
    requires Splits(lines, from, open, block, at, open + [word], width)
    requires Splits(lines, at, open + [word], child, |lines|, open + [word], width)
    ensures OnePass(lines, from, open, width) == Err(NotClosed)
  {}

  lemma StaysFailed(lines: seq<string>, from: nat, open: seq<string>, block: seq<Item>, at: nat, word: string, e: SyntaxError, width: nat)
    requires Splits(lines, from, open, block, at, open + [word], width) && OnePass(lines, at, open + [word], width) == Err(e)
    ensures OnePass(lines, from, open, width) == Err(e)
  {}

  lemma ChildSplits(lines: seq<string>, from: nat, open: seq<string>, block: seq<Item>, here: nat, word: string, child: seq<Item>,
                    at: nat, line: string, cont: Option<string>, width: nat)
    requires Splits(lines, from, open, block, here, open + [word], width) && ClosesAt(lines, here, open + [word], child, at, line, cont, width)
    ensures Splits(lines, from, open, block + [Block(child), Line(line)], at + 1, if cont.Some? then open + [word] else open, width)
  {
    hide OnePass, IsEnd, IsCont, IsStart, FirstWord, Indented, Joined;
    var inner := open + [word];
    var open' := if cont.Some? then inner else open;
    assert inner[|inner| - 1] == word && inner[..|inner| - 1] == open;
    SplitsOnward(lines, from, open, block, here, inner, Block(child), at, inner, width);
    LineStep(lines, at, inner, width);
    SplitsOnward(lines, from, open, block + [Block(child)], at, inner, Line(line), at + 1, open', width);
    assert block + [Block(child)] + [Line(line)] == block + [Block(child), Line(line)];
  }

  lemma NothingLeft(lines: seq<string>, block: seq<Item>, width: nat)
    requires Splits(lines, 0, [], block, |lines|, [], width)
    ensures OnePass(lines, 0, [], width) == Ok(Joined(block, 0, width))
  {
    assert Joined(block, 0, width) + [] == Joined(block, 0, width);
  }

  lemma StrayEnd(lines: seq<string>, block: seq<Item>, at: nat, line: string, cont: Option<string>, width: nat)
    requires ClosesAt(lines, 0, [], block, at, line, cont, width)
    ensures OnePass(lines, 0, [], width) == Ok(Joined(block, 0, width))
  {
    hide FirstWord, OpensLine;
    assert Joined(block, 0, width) + [] == Joined(block, 0, width);
  }
}
