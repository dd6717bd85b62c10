/** What may stand between tokens: blanks and comments of every form are as good as one blank. */
module InputGaps {
  import opened Options
  import opened InputLexer
  import opened InputGrammar
  import opened InputTokens

  /** Two texts that differ in one place: `x` in the one, `y` in the other. */
  datatype Swap = Swap(a: string, x: string, y: string, b: string) {
    function First(): string { a + x + b }

    function Second(): string { a + y + b }
  }

  /** Places of the two texts that belong together, before or behind the difference. */
  ghost predicate Meet(w: Swap, p: nat, q: nat) {
    && p <= |w.First()| && q <= |w.Second()|
    && ((p <= |w.a| && q == p) || (|w.a| + |w.x| <= p && q == p - |w.x| + |w.y|))
  }

  ghost predicate Marks(x: string, b: string) {
    x != "" && (x[0] == '/' || IsBlank(x[0])) && (b == "" || !IsIdentChar(x[|x| - 1]))
  }

  /** Nothing before the difference is a comment, and both sides of it are passed over. */
  ghost predicate IsGap(w: Swap) {
    && (forall i :: 0 <= i < |w.a| ==> w.a[i] != '/') && Marks(w.x, w.b) && Marks(w.y, w.b)
    && Skip(w.First(), |w.a|) == Skip(w.First(), |w.a| + |w.x|) && Skip(w.Second(), |w.a|) == Skip(w.Second(), |w.a| + |w.y|)
  }

  // --- what is read behind the difference -------------------------------------------------------------------------------------

  /** The same text follows. */
  ghost predicate SameRest(t: string, p: nat, u: string, q: nat) {
    p <= |t| && q <= |u| && t[p..] == u[q..]
  }

  lemma RestOnward(t: string, p: nat, u: string, q: nat, k: nat)
    requires SameRest(t, p, u, q) && p + k <= |t|
    ensures SameRest(t, p + k, u, q + k)
  {
    assert t[p + k..] == t[p..][k..] && u[q + k..] == u[q..][k..];
  }

  lemma RestAt(t: string, p: nat, u: string, q: nat)
    requires SameRest(t, p, u, q)
    ensures |t| - p == |u| - q && (p < |t| ==> t[p] == u[q])
  {
    assert |t[p..]| == |u[q..]|;
    if p < |t| {
      assert t[p..][0] == u[q..][0];
    }
  }

  lemma AtRest(t: string, p: nat, u: string, q: nat, tok: string)
    requires SameRest(t, p, u, q)
    ensures At(t, p, tok) == At(u, q, tok)
  {
    RestAt(t, p, u, q);
    if p + |tok| <= |t| {
      assert t[p..p + |tok|] == t[p..][..|tok|] && u[q..q + |tok|] == u[q..][..|tok|];
    }
  }

  lemma {:induction false} LineEndRest(t: string, p: nat, u: string, q: nat)
    requires SameRest(t, p, u, q)
    ensures LineEnd(t, p) - p == LineEnd(u, q) - q
    decreases |t| - p
  {
    RestAt(t, p, u, q);
    AtRest(t, p, u, q, "\\\n");
    if p < |t| {
      if At(t, p, "\\\n") {
        RestOnward(t, p, u, q, 2);
        LineEndRest(t, p + 2, u, q + 2);
      } else {
        RestOnward(t, p, u, q, 1);
        LineEndRest(t, p + 1, u, q + 1);
      }
    }
  }

  lemma {:induction false} BlockEndRest(t: string, p: nat, u: string, q: nat)
    requires SameRest(t, p, u, q)
    ensures if BlockEnd(t, p) <= |t| then BlockEnd(t, p) - p == BlockEnd(u, q) - q else BlockEnd(u, q) > |u|
    decreases |t| - p
  {
    RestAt(t, p, u, q);
    AtRest(t, p, u, q, "*/");
    if p < |t| {
      RestOnward(t, p, u, q, 1);
      BlockEndRest(t, p + 1, u, q + 1);
    }
  }

  /** One blank or comment is passed over. */
  ghost predicate Passes(text: string, loc: nat, next: nat)
    requires loc <= |text|
  {
    if loc < |text| && IsBlank(text[loc]) then next == loc + 1
    else if At(text, loc, "//") then next == LineEnd(text, loc + 2)
    else At(text, loc, "/*") && next == BlockEnd(text, loc + 2) <= |text|
  }

  lemma SkipPasses(text: string, loc: nat, next: nat)
    requires loc <= |text|
    ensures Passes(text, loc, next) ==> loc < next <= |text| && Skip(text, loc) == Skip(text, next)
    ensures (forall k: nat :: !Passes(text, loc, k)) ==> Skip(text, loc) == loc
  {
    if At(text, loc, "//") {
      assert Passes(text, loc, LineEnd(text, loc + 2)) || IsBlank(text[loc]);
    }
    if At(text, loc, "/*") {
      assert Passes(text, loc, BlockEnd(text, loc + 2)) || BlockEnd(text, loc + 2) > |text| || IsBlank(text[loc]) || At(text, loc, "//");
    }
    if loc < |text| && IsBlank(text[loc]) {
      assert Passes(text, loc, loc + 1);
    }
  }

  lemma PassRest(t: string, p: nat, u: string, q: nat, next: nat)
    requires SameRest(t, p, u, q) && p <= next
    ensures Passes(t, p, next) <==> Passes(u, q, q + (next - p))
  {
    RestAt(t, p, u, q);
    AtRest(t, p, u, q, "//");
    AtRest(t, p, u, q, "/*");
    if At(t, p, "//") || At(t, p, "/*") {
      RestOnward(t, p, u, q, 2);
      LineEndRest(t, p + 2, u, q + 2);
      BlockEndRest(t, p + 2, u, q + 2);
    }
  }

  lemma {:induction false} SkipRest(t: string, p: nat, u: string, q: nat)
    requires SameRest(t, p, u, q)
    ensures Skip(t, p) - p == Skip(u, q) - q
    decreases |t| - p
  {
    hide Skip, Passes;
    if next: nat :| Passes(t, p, next) {
      SkipPasses(t, p, next);
      PassRest(t, p, u, q, next);
      SkipPasses(u, q, q + (next - p));
      RestOnward(t, p, u, q, next - p);
      SkipRest(t, next, u, q + (next - p));
    } else {
      forall k: nat ensures !Passes(u, q, k) {
        SkipPasses(u, q, k);
        PassRest(t, p, u, q, p + (if k >= q then k - q else 0));
      }
      SkipPasses(t, p, p);
      SkipPasses(u, q, q);
    }
  }

  lemma {:induction false} WordEndRest(t: string, p: nat, u: string, q: nat)
    requires SameRest(t, p, u, q)
    ensures WordEnd(t, p) - p == WordEnd(u, q) - q
    decreases |t| - p
  {
    RestAt(t, p, u, q);
    if p < |t| && IsWordChar(t[p]) {
      RestOnward(t, p, u, q, 1);
      WordEndRest(t, p + 1, u, q + 1);
    }
  }

  lemma {:induction false} DigitsEndRest(t: string, p: nat, u: string, q: nat, hex: bool)
    requires SameRest(t, p, u, q)
    ensures DigitsEnd(t, p, hex) - p == DigitsEnd(u, q, hex) - q
    decreases |t| - p
  {
    RestAt(t, p, u, q);
    if p < |t| && (if hex then IsHexDigit(t[p]) else IsDigit(t[p])) {
      RestOnward(t, p, u, q, 1);
      DigitsEndRest(t, p + 1, u, q + 1, hex);
    }
  }

  lemma BehindIsSame(w: Swap, p: nat, q: nat)
    requires Meet(w, p, q) && p >= |w.a| + |w.x| && |w.x| > 0
    ensures SameRest(w.First(), p, w.Second(), q)
  {
    var k := p - |w.a| - |w.x|;
    assert w.First()[p..] == w.b[k..] && w.Second()[q..] == w.b[k..];
  }

  // --- what is read before it --------------------------------------------------------------------------------------------------

  lemma FrontIsSame(w: Swap, i: nat)
    requires IsGap(w) && i <= |w.a|
    ensures i < |w.First()| && i < |w.Second()|
    ensures i < |w.a| ==> w.First()[i] == w.Second()[i] == w.a[i] != '/'
    ensures i == |w.a| ==> w.First()[i] == w.x[0] && w.Second()[i] == w.y[0]
  {}

  lemma {:induction false} SkipMeets(w: Swap, p: nat, q: nat)
    requires IsGap(w) && Meet(w, p, q)
    ensures Meet(w, Skip(w.First(), p), Skip(w.Second(), q))
    decreases |w.a| - p
  {
    hide Skip, Swap.First, Swap.Second;
    var t, u := w.First(), w.Second();
    if p < |w.a| {
      FrontIsSame(w, p);
      SkipInFront(t, p);
      SkipInFront(u, p);
      if IsBlank(t[p]) {
        SkipMeets(w, p + 1, q + 1);
      }
    } else {
      GapIsPassed(w);
      var p', q' := if p == |w.a| then p + |w.x| else p, if p == |w.a| then p + |w.y| else q;
      BehindIsSame(w, p', q');
      SkipRest(t, p', u, q');
      RestAt(t, p', u, q');
    }
  }

  lemma GapIsPassed(w: Swap)
    requires IsGap(w)
    ensures |w.First()| == |w.a| + |w.x| + |w.b| && |w.Second()| == |w.a| + |w.y| + |w.b| && |w.x| > 0 && |w.y| > 0
    ensures Skip(w.First(), |w.a|) == Skip(w.First(), |w.a| + |w.x|) && Skip(w.Second(), |w.a|) == Skip(w.Second(), |w.a| + |w.y|)
  {}

  lemma SkipInFront(t: string, p: nat)
    requires p < |t| && t[p] != '/'
    ensures Skip(t, p) == if IsBlank(t[p]) then Skip(t, p + 1) else p
  {
    NoComment(t, p);
  }

  lemma NoComment(t: string, p: nat)
    requires p < |t| && t[p] != '/'
    ensures !At(t, p, "//") && !At(t, p, "/*")
  {
    AtFirstIf(t, p, "//", 0);
    AtFirstIf(t, p, "/*", 0);
  }

  /** What tokens are made of. */
  predicate Solid(tok: string) {
    tok != "" && forall i :: 0 <= i < |tok| ==> tok[i] != '/' && !IsBlank(tok[i])
  }

  lemma AtMeets(w: Swap, p: nat, q: nat, tok: string)
    requires IsGap(w) && Meet(w, p, q) && Solid(tok)
    ensures At(w.First(), p, tok) == At(w.Second(), q, tok)
    ensures At(w.First(), p, tok) ==> Meet(w, p + |tok|, q + |tok|) && p < |w.First()|
  {
    var t, u := w.First(), w.Second();
    if p <= |w.a| {
      FrontIsSame(w, |w.a|);
      if p + |tok| <= |w.a| {
        assert t[p..p + |tok|] == w.a[p..p + |tok|] == u[p..p + |tok|];
      } else {
        var k := |w.a| - p;
        AtFirstIf(t, p, tok, k);
        AtFirstIf(u, p, tok, k);
      }
    } else {
      BehindIsSame(w, p, q);
      AtRest(t, p, u, q, tok);
    }
  }

  lemma BeforeMeets(w: Swap, p: nat, q: nat)
    requires IsGap(w) && Meet(w, p, q) && (p < |w.First()| || p <= |w.a|)
    ensures (p == 0 || NoIdentAt(w.First(), p - 1)) <==> (q == 0 || NoIdentAt(w.Second(), q - 1))
    ensures NoIdentAt(w.First(), p) <==> NoIdentAt(w.Second(), q)
  {
    var t, u := w.First(), w.Second();
    if p <= |w.a| {
      FrontIsSame(w, p);
      if p > 0 {
        FrontIsSame(w, p - 1);
      }
    } else {
      BehindIsSame(w, p, q);
      RestAt(t, p, u, q);
      if p == |w.a| + |w.x| {
        assert t[p - 1] == w.x[|w.x| - 1] && u[q - 1] == w.y[|w.y| - 1];
      } else {
        assert t[p - 1] == w.b[p - 1 - |w.a| - |w.x|] == u[q - 1];
      }
    }
  }

  lemma NextMeets(w: Swap, p: nat, q: nat)
    requires IsGap(w) && Meet(w, p, q)
    ensures NoIdentAt(w.First(), p) <==> NoIdentAt(w.Second(), q)
  {
    if p <= |w.a| {
      FrontIsSame(w, p);
    } else {
      BehindIsSame(w, p, q);
      RestAt(w.First(), p, w.Second(), q);
    }
  }

  lemma {:induction false} WordEndMeets(w: Swap, p: nat, q: nat)
    requires IsGap(w) && Meet(w, p, q)
    ensures Meet(w, WordEnd(w.First(), p), WordEnd(w.Second(), q))
    ensures w.First()[p..WordEnd(w.First(), p)] == w.Second()[q..WordEnd(w.Second(), q)]
    decreases |w.a| - p
  {
    var t, u := w.First(), w.Second();
    if p < |w.a| {
      FrontIsSame(w, p);
      if IsWordChar(t[p]) {
        WordEndMeets(w, p + 1, q + 1);
        WordOnward(t, p);
        WordOnward(u, q);
      }
    } else if p == |w.a| {
      FrontIsSame(w, p);
    } else {
      BehindIsSame(w, p, q);
      WordEndRest(t, p, u, q);
      SlicesMeet(t, p, u, q, WordEnd(t, p));
    }
  }

  lemma WordOnward(t: string, p: nat)
    requires p < |t| && IsWordChar(t[p])
    ensures WordEnd(t, p) == WordEnd(t, p + 1) && t[p..WordEnd(t, p)] == [t[p]] + t[p + 1..WordEnd(t, p + 1)]
  {}

  lemma DigitsOnward(t: string, p: nat, hex: bool)
    requires p < |t| && if hex then IsHexDigit(t[p]) else IsDigit(t[p])
    ensures DigitsEnd(t, p, hex) == DigitsEnd(t, p + 1, hex) && t[p..DigitsEnd(t, p, hex)] == [t[p]] + t[p + 1..DigitsEnd(t, p + 1, hex)]
  {}

  lemma SlicesMeet(t: string, p: nat, u: string, q: nat, e: nat)
    requires SameRest(t, p, u, q) && p <= e <= |t|
    ensures q + e - p <= |u| && t[p..e] == u[q..q + e - p]
  {
    assert t[p..e] == t[p..][..e - p] && u[q..q + e - p] == u[q..][..e - p];
  }

  lemma {:induction false} DigitsEndMeets(w: Swap, p: nat, q: nat, hex: bool)
    requires IsGap(w) && Meet(w, p, q)
    ensures Meet(w, DigitsEnd(w.First(), p, hex), DigitsEnd(w.Second(), q, hex))
    ensures w.First()[p..DigitsEnd(w.First(), p, hex)] == w.Second()[q..DigitsEnd(w.Second(), q, hex)]
    decreases |w.a| - p
  {
    hide Swap.First, Swap.Second, IsGap, SameRest, IsHexDigit, IsDigit;
    var t, u := w.First(), w.Second();
    GapIsPassed(w);
    if p < |w.a| {
      FrontIsSame(w, p);
      if if hex then IsHexDigit(t[p]) else IsDigit(t[p]) {
        DigitsEndMeets(w, p + 1, q + 1, hex);
        DigitsOnward(t, p, hex);
        DigitsOnward(u, q, hex);
      }
    } else if p == |w.a| {
      FrontIsSame(w, p);
      GapMarks(w);
      NoDigits(w, hex);
    } else {
      BehindIsSame(w, p, q);
      DigitsEndRest(t, p, u, q, hex);
      SlicesMeet(t, p, u, q, DigitsEnd(t, p, hex));
    }
  }

  lemma NoDigits(w: Swap, hex: bool)
    requires IsGap(w)
    ensures DigitsEnd(w.First(), |w.a|, hex) == |w.a| && DigitsEnd(w.Second(), |w.a|, hex) == |w.a|
  {
    FrontIsSame(w, |w.a|);
  }

  lemma GapMarks(w: Swap)
    requires IsGap(w)
    ensures !IsIdentChar(w.x[0]) && !IsIdentChar(w.y[0])
  {}
}
