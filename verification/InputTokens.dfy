/** How the token parsers act on a text that spells a given token. */
module InputTokens {
  import opened InputLexer
  import opened InputGrammar

  lemma ReadsCons(text: string, loc: nat, t: string, rest: seq<string>)
    requires loc <= |text| && Reads(text, loc, [t] + rest)
    ensures TokenAt(text, loc, t) && Reads(text, After(text, loc, t), rest)
    ensures EndOf(text, loc, [t] + rest) == EndOf(text, After(text, loc, t), rest)
  {}

  lemma AtFirst(text: string, p: nat, t: string, k: nat)
    requires At(text, p, t) && k < |t|
    ensures p + k < |text| && text[p + k] == t[k]
  {}

  lemma AtFirstIf(text: string, p: nat, t: string, k: nat)
    ensures At(text, p, t) && k < |t| ==> p + k < |text| && text[p + k] == t[k]
  {}

  lemma AtPart(text: string, p: nat, a: string, b: string)
    requires At(text, p, a + b)
    ensures At(text, p, a) && At(text, p + |a|, b)
  {
    assert text[p..p + |a + b|][..|a|] == text[p..p + |a|];
    assert text[p..p + |a + b|][|a|..] == text[p + |a|..p + |a| + |b|];
    assert (a + b)[..|a|] == a && (a + b)[|a|..] == b;
  }

  lemma LitReads(text: string, loc: nat, t: string)
    requires loc <= |text| && TokenAt(text, loc, t)
    ensures Lit(text, loc, t) == Ok((), After(text, loc, t))
  {}

  lemma LitOther(text: string, loc: nat, t: string, u: string)
    requires loc <= |text| && TokenAt(text, loc, t) && u != "" && u[0] != t[0]
    ensures Lit(text, loc, u) == Fail
  {}

  // --- words ---------------------------------------------------------------------------------------------------------

  lemma RawWordReads(text: string, p: nat, w: string)
    requires At(text, p, w) && IsWord(w) && (p + |w| < |text| ==> !IsWordChar(text[p + |w|]))
    ensures RawWord(text, p) == Ok(w, p + |w|)
  {}

  lemma WordReads(text: string, loc: nat, w: string)
    requires loc <= |text| && TokenAt(text, loc, w) && IsWord(w)
    ensures Word(text, loc) == Ok(w, After(text, loc, w))
  {}

  lemma WordOther(text: string, loc: nat, t: string)
    requires loc <= |text| && TokenAt(text, loc, t) && !IsWordChar(t[0])
    ensures Word(text, loc) == Fail
  {}

  /** Before a word token that stands apart, the next character is no bracket. */
  lemma NoBracket(text: string, loc: nat, w: string)
    requires loc <= |text| && TokenAt(text, loc, w) && IsWord(w) && NoIdentAt(text, loc)
    ensures !At(text, loc, "[")
  {}

  // --- keywords ----------------------------------------------------------------------------------------------------------

  lemma KwReads(text: string, loc: nat, k: string)
    requires loc <= |text| && TokenAt(text, loc, k) && IsWord(k) && Ready(text, loc)
    ensures Kw(text, loc, k) == Ok((), After(text, loc, k))
  {
    KwBegins(text, loc, k);
  }

  lemma KwBegins(text: string, loc: nat, k: string)
    requires loc <= |text| && At(text, Skip(text, loc), k) && IsWord(k) && Ready(text, loc)
    ensures var p := Skip(text, loc); p == 0 || NoIdentAt(text, p - 1)
  {
    SkipLeavesClean(text, loc);
    AtFirst(text, Skip(text, loc), k, 0);
  }

  /** Another word than the keyword, with a character after it that is no part of a word. */
  lemma KwOther(text: string, p: nat, w: string, k: string)
    requires At(text, p, w) && IsWord(w) && NoIdentAt(text, p + |w|) && IsWord(k) && k != w
    ensures !KwAt(text, p, k)
  {
    AtFirstIf(text, p, w, |k|);
    AtFirstIf(text, p, k, |w|);
  }

  lemma KwNotWord(text: string, loc: nat, t: string, k: string)
    requires loc <= |text| && TokenAt(text, loc, t) && !IsWordChar(t[0]) && IsWord(k)
    ensures Kw(text, loc, k) == Fail
  {
    var p := Skip(text, loc);
    AtFirst(text, p, t, 0);
    AtFirstIf(text, p, k, 0);
  }

  lemma KwOtherWord(text: string, loc: nat, w: string, k: string)
    requires loc <= |text| && TokenAt(text, loc, w) && IsWord(w) && IsWord(k) && k != w
    ensures Kw(text, loc, k) == Fail
  {
    KwOther(text, Skip(text, loc), w, k);
  }

  // --- integers ------------------------------------------------------------------------------------------------------------

  lemma {:induction false} DigitsEndIs(text: string, p: nat, e: nat, hex: bool)
    requires p <= e <= |text| && (forall i :: p <= i < e ==> if hex then IsHexDigit(text[i]) else IsDigit(text[i]))
    requires e < |text| ==> !(if hex then IsHexDigit(text[e]) else IsDigit(text[e]))
    ensures DigitsEnd(text, p, hex) == e
    decreases e - p
  {
    if p < e {
      DigitsEndIs(text, p + 1, e, hex);
    }
  }

  /** A number in any of its forms reads as that number. */
  lemma IntegerReads(text: string, loc: nat, t: string, n: nat)
    requires loc <= |text| && IsNumber(t, n) && TokenAt(text, loc, t)
    ensures Integer(text, loc) == Ok(n, After(text, loc, t))
  {
    hide IsNumber;
    NumberForms(t, n);
    if |t| > 2 && t[..2] == "0x" {
      HexadecimalReads(text, loc, t[2..], n);
      assert t == "0x" + t[2..];
    } else {
      DecimalReads(text, loc, t, n);
    }
  }

  lemma NumberForms(t: string, n: nat)
    requires IsNumber(t, n)
    ensures t != "" && IsIdentChar(t[|t| - 1])
    ensures if |t| > 2 && t[..2] == "0x" then (forall i :: 0 <= i < |t[2..]| ==> IsHexDigit(t[2..][i])) && Value(t[2..], 16) == n
            else (forall i :: 0 <= i < |t| ==> IsDigit(t[i])) && !BadDecimal(t) && Value(t, 10) == n
  {
    if |t| > 2 && t[..2] == "0x" {
      assert t[1] == 'x';
    } else if t[0] == '0' {
      ValueZero(t);
    }
  }

  lemma {:induction false} ValueZero(t: string)
    requires (forall i :: 0 <= i < |t| ==> IsDigit(t[i])) && Value(t, 10) == 0
    ensures forall i :: 0 <= i < |t| ==> t[i] == '0'
  {
    if t != "" {
      ValueZero(t[..|t| - 1]);
    }
  }

  lemma DecimalReads(text: string, loc: nat, s: string, n: nat)
    requires loc <= |text| && s != "" && (forall i :: 0 <= i < |s| ==> IsDigit(s[i])) && !BadDecimal(s) && Value(s, 10) == n
    requires TokenAt(text, loc, s)
    ensures Integer(text, loc) == Ok(n, After(text, loc, s))
  {
    hide Value, BadDecimal;
    var p := Skip(text, loc);
    assert IsDigit(s[|s| - 1]);
    forall i | p <= i < p + |s| ensures IsDigit(text[i]) {
      AtFirst(text, p, s, i - p);
    }
    DigitsEndIs(text, p, p + |s|, false);
    NotHex(text, p, s);
  }

  lemma NotHex(text: string, p: nat, s: string)
    requires At(text, p, s) && s != "" && (forall i :: 0 <= i < |s| ==> IsDigit(s[i])) && NoIdentAt(text, p + |s|)
    ensures !At(text, p, "0x")
  {
    AtFirstIf(text, p, "0x", 1);
    AtFirstIf(text, p, s, 1);
  }

  lemma IntegerOther(text: string, loc: nat, t: string)
    requires loc <= |text| && TokenAt(text, loc, t) && !IsDigit(t[0])
    ensures Integer(text, loc) == Fail
  {
    var p := Skip(text, loc);
    AtFirst(text, p, t, 0);
    AtFirstIf(text, p, "0x", 0);
  }

  lemma HexadecimalReads(text: string, loc: nat, s: string, n: nat)
    requires loc <= |text| && s != "" && (forall i :: 0 <= i < |s| ==> IsHexDigit(s[i])) && Value(s, 16) == n
    requires TokenAt(text, loc, "0x" + s)
    ensures Integer(text, loc) == Ok(n, After(text, loc, "0x" + s))
  {
    hide Value, Skip, BadDecimal;
    var p := Skip(text, loc);
    AtPart(text, p, "0x", s);
    assert IsHexDigit(s[|s| - 1]) && ("0x" + s)[|s| + 1] == s[|s| - 1];
    forall i | p + 2 <= i < p + 2 + |s| ensures IsHexDigit(text[i]) {
      AtFirst(text, p + 2, s, i - p - 2);
    }
    DigitsEndIs(text, p + 2, p + 2 + |s|, true);
    assert text[p + 2..p + 2 + |s|] == s;
  }

  lemma HexReads(text: string, loc: nat, n: nat)
    requires loc <= |text| && TokenAt(text, loc, "0x" + Hex(n))
    ensures Integer(text, loc) == Ok(n, After(text, loc, "0x" + Hex(n)))
  {
    HexValue(n);
    HexadecimalReads(text, loc, Hex(n), n);
  }

  /** The canonical decimal form is a form of the number. */
  lemma DecIsNumber(n: nat)
    ensures IsNumber(Dec(n), n)
  {
    hide Dec, Value;
    DecValue(n);
    if Dec(n)[0] == '0' && n > 0 {
      assert false;
    }
  }

  /** After `0x` it is a number of all hexadecimal digits that follow, or the text is refused altogether. */
  lemma HexIsFinal(text: string, loc: nat)
    requires loc <= |text| && At(text, Skip(text, loc), "0x")
    ensures var p := Skip(text, loc) + 2;
            match Integer(text, loc)
            case Ok(n, e) =>
              && p < e <= |text| && (e < |text| ==> !IsHexDigit(text[e]))
              && (forall i :: p <= i < e ==> IsHexDigit(text[i])) && n == Value(text[p..e], 16)
            case Fatal => p < |text| ==> !IsHexDigit(text[p])
            case Fail => false
  {}

  // --- names of parameters ---------------------------------------------------------------------------------------------------

  lemma {:induction false} NameReads(text: string, loc: nat, names: seq<string>, name: string)
    requires loc <= |text| && name in names && (forall i :: 0 <= i < |names| ==> IsWord(names[i]))
    requires TokenAt(text, loc, name) && Ready(text, loc)
    ensures ParseName(text, loc, names) == Ok(name, After(text, loc, name))
    decreases |names|
  {
    hide TokenAt, Kw;
    var i :| 0 <= i < |names| && names[i] == name;
    if names[0] == name {
      KwReads(text, loc, name);
    } else {
      KwOtherWord(text, loc, name, names[0]);
      assert names == [names[0]] + names[1..];
      NameReads(text, loc, names[1..], name);
    }
  }
}
