/** Blanks, comments, words and keywords of the input language, and texts that spell a list of tokens. */
module InputLexer {

  datatype R<+T> = Ok(value: T, loc: nat) | Fail | Fatal

  predicate IsBlank(c: char) {
    c == ' ' || c == '\n' || c == '\t' || c == '\r'
  }

  predicate IsDigit(c: char) {
    '0' <= c <= '9'
  }

  predicate IsWordChar(c: char) {
    IsDigit(c) || 'a' <= c <= 'z' || 'A' <= c <= 'Z' || c == '_'
  }

  /** The characters that may not stand next to a keyword. */
  predicate IsIdentChar(c: char) {
    IsWordChar(c) || c == '$'
  }

  predicate IsWord(w: string) {
    w != "" && forall i :: 0 <= i < |w| ==> IsWordChar(w[i])
  }

  predicate At(text: string, loc: nat, t: string) {
    loc + |t| <= |text| && text[loc..loc + |t|] == t
  }

  // --- blanks and comments ---------------------------------------------------------------------------------------

  /** The end of a line comment, before the line end; a backslash before it continues the comment. */
  function LineEnd(text: string, loc: nat): (r: nat)
    requires loc <= |text|
    ensures loc <= r <= |text| && (r < |text| ==> text[r] == '\n')
    decreases |text| - loc
  {
    if loc == |text| then loc
    else if At(text, loc, "\\\n") then LineEnd(text, loc + 2)
    else if text[loc] == '\n' then loc
    else LineEnd(text, loc + 1)
  }

  /** The end of a block comment, after the closing mark, if there is one. */
  function BlockEnd(text: string, loc: nat): (r: nat)
    requires loc <= |text|
    ensures r <= |text| + 1 && (r <= |text| ==> loc < r && text[r - 1] == '/')
    decreases |text| - loc
  {
    if At(text, loc, "*/") then assert text[loc..loc + 2][1] == '/'; loc + 2
    else if loc == |text| then |text| + 1
    else BlockEnd(text, loc + 1)
  }

  /** Blanks and comments are passed over before every token. */
  function Skip(text: string, loc: nat): (r: nat)
    requires loc <= |text|
    ensures loc <= r <= |text|
    decreases |text| - loc
  {
    if loc < |text| && IsBlank(text[loc]) then Skip(text, loc + 1)
    else if At(text, loc, "//") then Skip(text, LineEnd(text, loc + 2))
    else if At(text, loc, "/*") && BlockEnd(text, loc + 2) <= |text| then Skip(text, BlockEnd(text, loc + 2))
    else loc
  }

  /** It stops at the first place where neither a blank nor a whole comment begins, and passes over both. */
  lemma {:induction false} SkipStops(text: string, loc: nat)
    requires loc <= |text|
    ensures var p := Skip(text, loc);
            && (p < |text| ==> !IsBlank(text[p])) && !At(text, p, "//")
            && (At(text, p, "/*") ==> BlockEnd(text, p + 2) == |text| + 1)
            && (p == loc || IsBlank(text[loc]) || At(text, loc, "//") || At(text, loc, "/*"))
            && Skip(text, p) == p
    decreases |text| - loc
  {
    if loc < |text| && IsBlank(text[loc]) {
      SkipStops(text, loc + 1);
    } else if At(text, loc, "//") {
      SkipStops(text, LineEnd(text, loc + 2));
    } else if At(text, loc, "/*") && BlockEnd(text, loc + 2) <= |text| {
      SkipStops(text, BlockEnd(text, loc + 2));
    }
  }

  // --- single tokens ------------------------------------------------------------------------------------------------

  predicate NoIdentAt(text: string, loc: nat) {
    loc < |text| ==> !IsIdentChar(text[loc])
  }

  function Lit(text: string, loc: nat, t: string): (r: R<()>)
    requires loc <= |text|
    ensures r.Ok? ==> loc <= r.loc <= |text| && (t != "" ==> loc < r.loc)
  {
    var p := Skip(text, loc);
    if At(text, p, t) then Ok((), p + |t|) else Fail
  }

  /** The keyword at a place, between characters that cannot belong to it. */
  predicate KwAt(text: string, p: nat, k: string) {
    At(text, p, k) && NoIdentAt(text, p + |k|) && (p == 0 || NoIdentAt(text, p - 1))
  }

  function Kw(text: string, loc: nat, k: string): (r: R<()>)
    requires loc <= |text|
    ensures r.Ok? ==> loc <= r.loc <= |text| && (k != "" ==> loc < r.loc)
  {
    var p := Skip(text, loc);
    if KwAt(text, p, k) then Ok((), p + |k|) else Fail
  }

  function WordEnd(text: string, loc: nat): (r: nat)
    requires loc <= |text|
    ensures loc <= r <= |text| && (forall i :: loc <= i < r ==> IsWordChar(text[i])) && (r < |text| ==> !IsWordChar(text[r]))
    decreases |text| - loc
  {
    if loc < |text| && IsWordChar(text[loc]) then WordEnd(text, loc + 1) else loc
  }

  /** A word at the very place, with nothing passed over. */
  function RawWord(text: string, loc: nat): (r: R<string>)
    requires loc <= |text|
    ensures r.Ok? ==> loc < r.loc <= |text| && IsWord(r.value) && At(text, loc, r.value) && r.loc == loc + |r.value|
    ensures r.Ok? && r.loc < |text| ==> !IsWordChar(text[r.loc])
    ensures !r.Fatal?
  {
    var e := WordEnd(text, loc);
    if e > loc then Ok(text[loc..e], e) else Fail
  }

  function Word(text: string, loc: nat): (r: R<string>)
    requires loc <= |text|
    ensures r.Ok? ==> loc < r.loc <= |text| && IsWord(r.value)
    ensures r.Ok? && r.loc < |text| ==> !IsWordChar(text[r.loc])
    ensures !r.Fatal?
  {
    RawWord(text, Skip(text, loc))
  }

  // --- integers ----------------------------------------------------------------------------------------------------------

  predicate IsHexDigit(c: char) {
    IsDigit(c) || 'a' <= c <= 'f' || 'A' <= c <= 'F'
  }

  function DigitValue(c: char): nat
    requires IsHexDigit(c)
  {
    if IsDigit(c) then c as nat - '0' as nat else if 'a' <= c <= 'f' then c as nat - 'a' as nat + 10 else c as nat - 'A' as nat + 10
  }

  function Value(digits: string, base: nat): nat
    requires forall i :: 0 <= i < |digits| ==> IsHexDigit(digits[i])
  {
    if digits == "" then
      0
    else
      assert IsHexDigit(digits[|digits| - 1]);
      base * Value(digits[..|digits| - 1], base) + DigitValue(digits[|digits| - 1])
  }

  function DigitsEnd(text: string, loc: nat, hex: bool): (r: nat)
    requires loc <= |text|
    ensures loc <= r <= |text| && forall i :: loc <= i < r ==> (if hex then IsHexDigit(text[i]) else IsDigit(text[i]))
    ensures r < |text| ==> !(if hex then IsHexDigit(text[r]) else IsDigit(text[r]))
    decreases |text| - loc
  {
    if loc < |text| && (if hex then IsHexDigit(text[loc]) else IsDigit(text[loc])) then DigitsEnd(text, loc + 1, hex) else loc
  }

  /** Decimal digits with a leading zero are no Python integer, unless they are all zeros. */
  predicate BadDecimal(digits: string) {
    |digits| > 1 && digits[0] == '0' && exists i :: 0 <= i < |digits| && digits[i] != '0'
  }

  /** After `0x` there must be hexadecimal digits. */
  function Integer(text: string, loc: nat): (r: R<nat>)
    requires loc <= |text|
    ensures r.Ok? ==> loc < r.loc <= |text|
  {
    var p := Skip(text, loc);
    if At(text, p, "0x") then
      var e := DigitsEnd(text, p + 2, true);
      if e > p + 2 then Ok(Value(text[p + 2..e], 16), e) else Fatal
    else
      var e := DigitsEnd(text, p, false);
      if e == p then Fail else if BadDecimal(text[p..e]) then Fatal else Ok(Value(text[p..e], 10), e)
  }

  /** The canonical decimal form. */
  function Dec(n: nat): (s: string)
    ensures s != "" && forall i :: 0 <= i < |s| ==> IsDigit(s[i])
  {
    var last := ['0' + (n % 10) as char];
    if n < 10 then last else Dec(n / 10) + last
  }

  lemma {:induction false} DecValue(n: nat)
    ensures Value(Dec(n), 10) == n && !BadDecimal(Dec(n)) && (n > 0 ==> Dec(n)[0] != '0') && (n >= 10 ==> |Dec(n)| > 1)
  {
    var s := Dec(n);
    if n < 10 {
      assert s[..0] == "";
    } else {
      DecValue(n / 10);
      assert s[..|s| - 1] == Dec(n / 10);
    }
  }

  /** The hexadecimal form, without leading zeros. */
  function Hex(n: nat): (s: string)
    ensures s != "" && forall i :: 0 <= i < |s| ==> IsHexDigit(s[i])
  {
    var d := n % 16;
    var last := [if d < 10 then '0' + d as char else 'a' + (d - 10) as char];
    if n < 16 then last else Hex(n / 16) + last
  }

  lemma {:induction false} HexValue(n: nat)
    ensures Value(Hex(n), 16) == n
  {
    var s := Hex(n);
    if n < 16 {
      assert s[..0] == "";
    } else {
      HexValue(n / 16);
      assert s[..|s| - 1] == Hex(n / 16);
    }
  }

  function Power(base: nat, k: nat): nat {
    if k == 0 then 1 else base * Power(base, k - 1)
  }

  lemma OneDigitMore(digits: string, base: nat)
    requires digits != "" && forall i :: 0 <= i < |digits| ==> IsHexDigit(digits[i])
    ensures Value(digits, base) == base * Value(digits[..|digits| - 1], base) + DigitValue(digits[|digits| - 1])
  {}

  lemma PowerStep(base: nat, k: nat)
    requires k > 0
    ensures Power(base, k) == base * Power(base, k - 1)
  {}

  lemma Distributed(base: nat, d: nat, p: nat, v: nat)
    ensures base * (d * p + v) == d * (base * p) + base * v
  {}

  /** The first digit counts most: it stands for as many powers of the base as there are digits after it. */
  lemma {:induction false} FirstDigitCountsMost(digits: string, base: nat)
    requires digits != "" && forall i :: 0 <= i < |digits| ==> IsHexDigit(digits[i])
    ensures Value(digits, base) == DigitValue(digits[0]) * Power(base, |digits| - 1) + Value(digits[1..], base)
  {
    var n := |digits|;
    if n == 1 {
      assert digits[..0] == "" && digits[1..] == "";
    } else {
      hide IsHexDigit, DigitValue, Value, Power;
      var front, last := digits[..n - 1], DigitValue(digits[n - 1]);
      FirstDigitCountsMost(front, base);
      assert digits[1..][..n - 2] == front[1..];
      OneDigitMore(digits, base);
      OneDigitMore(digits[1..], base);
      Distributed(base, DigitValue(digits[0]), Power(base, n - 2), Value(front[1..], base));
      PowerStep(base, n - 1);
    }
  }

  /** Digits of both kinds, in the order they are read in. */
  lemma DigitsExample()
    ensures Value("1aF", 16) == 0x1AF && Value("102", 10) == 102 && Dec(102) == "102"
  {
    FirstDigitCountsMost("1aF", 16);
    FirstDigitCountsMost("aF", 16);
    FirstDigitCountsMost("F", 16);
    FirstDigitCountsMost("102", 10);
    FirstDigitCountsMost("02", 10);
    FirstDigitCountsMost("2", 10);
    assert "1aF"[1..] == "aF" && "aF"[1..] == "F" && "F"[1..] == "";
    assert "102"[1..] == "02" && "02"[1..] == "2" && "2"[1..] == "";
    assert Power(16, 2) == 256 && Power(10, 2) == 100;
    assert Dec(1) == "1" && Dec(10) == Dec(1) + "0" && Dec(102) == Dec(10) + "2";
  }

  // --- texts that spell tokens ----------------------------------------------------------------------------------------------

  /** The token stands at the next place that is neither blank nor comment, and what follows does not lengthen it. */
  ghost predicate TokenAt(text: string, loc: nat, t: string)
    requires loc <= |text|
  {
    && t != "" && At(text, Skip(text, loc), t)
    && (IsIdentChar(t[|t| - 1]) ==> NoIdentAt(text, Skip(text, loc) + |t|))
  }

  ghost function After(text: string, loc: nat, t: string): (r: nat)
    requires loc <= |text| && TokenAt(text, loc, t)
    ensures loc < r <= |text|
  {
    Skip(text, loc) + |t|
  }

  /** The text spells the tokens from a place on, with any blanks and comments between them. */
  ghost predicate Reads(text: string, loc: nat, toks: seq<string>)
    requires loc <= |text|
    decreases |toks|
  {
    toks != [] ==> TokenAt(text, loc, toks[0]) && Reads(text, After(text, loc, toks[0]), toks[1..])
  }

  ghost function EndOf(text: string, loc: nat, toks: seq<string>): (r: nat)
    requires loc <= |text| && Reads(text, loc, toks)
    ensures loc <= r <= |text|
    decreases |toks|
  {
    if toks == [] then loc else EndOf(text, After(text, loc, toks[0]), toks[1..])
  }

  lemma {:induction false} ReadsAppend(text: string, loc: nat, a: seq<string>, b: seq<string>)
    requires loc <= |text|
    ensures Reads(text, loc, a + b) <==> Reads(text, loc, a) && Reads(text, EndOf(text, loc, a), b)
    ensures Reads(text, loc, a + b) ==> EndOf(text, loc, a + b) == EndOf(text, EndOf(text, loc, a), b)
    decreases |a|
  {
    hide TokenAt;
    if a == [] {
      assert a + b == b;
    } else {
      assert (a + b)[1..] == a[1..] + b;
      if TokenAt(text, loc, a[0]) {
        ReadsAppend(text, After(text, loc, a[0]), a[1..], b);
      }
    }
  }

  /** A place where a keyword may begin: no character that belongs to a word stands directly before one that could. */
  predicate Ready(text: string, loc: nat) {
    loc == 0 || NoIdentAt(text, loc - 1) || NoIdentAt(text, loc)
  }

  lemma ReadyAfter(text: string, loc: nat, t: string)
    requires loc <= |text| && TokenAt(text, loc, t)
    ensures Ready(text, After(text, loc, t))
  {}

  /** Whatever is passed over ends with a character that may stand before a keyword, or ends the text. */
  lemma {:induction false} SkipLeavesClean(text: string, loc: nat)
    requires loc <= |text|
    ensures var p := Skip(text, loc);
            p == loc || p == |text| || !IsIdentChar(text[p - 1])
    decreases |text| - loc
  {
    if loc < |text| && IsBlank(text[loc]) {
      SkipLeavesClean(text, loc + 1);
    } else if At(text, loc, "//") {
      var e := LineEnd(text, loc + 2);
      SkipLeavesClean(text, e);
    } else if At(text, loc, "/*") && BlockEnd(text, loc + 2) <= |text| {
      SkipLeavesClean(text, BlockEnd(text, loc + 2));
    }
  }
}
