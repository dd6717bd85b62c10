/** `oneOf`: the symbols are reordered so that no shorter one masks a longer one after it. */
module OneOf {
  import opened Seqs

  /** How symbols are compared: as they are, or in upper case when `oneOf` is caseless. */
  type Fold = string -> string

  predicate Masks(fold: Fold, a: string, b: string) {
    fold(a) <= fold(b)
  }

  /** No symbol masks one after it; in particular no two are equal. */
  ghost predicate NoneMasked(fold: Fold, symbols: seq<string>) {
    forall p, q :: 0 <= p < q < |symbols| ==> !Masks(fold, symbols[p], symbols[q])
  }

  ghost predicate NoneMaskedBefore(fold: Fold, symbols: seq<string>, i: nat) {
    forall p, q :: 0 <= p < i && p < q < |symbols| ==> !Masks(fold, symbols[p], symbols[q])
  }

  /** The same symbols up to folding, none of them new. */
  ghost predicate SameSymbols(fold: Fold, now: seq<string>, symbols: seq<string>) {
    (forall s :: s in now ==> s in symbols) && (forall s :: s in symbols ==> Stands(fold, now, s))
  }

  /** The symbol is there, up to folding. */
  ghost predicate Stands(fold: Fold, now: seq<string>, s: string) {
    exists k :: 0 <= k < |now| && fold(now[k]) == fold(s)
  }

  function Longest(fold: Fold, symbols: seq<string>): (n: nat)
    ensures forall s :: s in symbols ==> |fold(s)| <= n
  {
    if symbols == [] then 0
    else
      var rest, here := Longest(fold, symbols[1..]), |fold(symbols[0])|;
      assert symbols == [symbols[0]] + symbols[1..];
      if here > rest then here else rest
  }

  /** The symbol at `k` moves to `i`. */
  function Moved(symbols: seq<string>, i: nat, k: nat): seq<string>
    requires i < k < |symbols|
  {
    symbols[..i] + [symbols[k]] + symbols[i..k] + symbols[k + 1..]
  }

  /** Each new symbol is an old one, with those before `i` in their places and the others after `i`. */
  ghost predicate Rearranged(now: seq<string>, symbols: seq<string>, i: nat) {
    && (forall q :: 0 <= q < i && q < |now| ==> q < |symbols| && now[q] == symbols[q])
    && (forall q :: i <= q < |now| ==> IsAmong(now[q], symbols, i))
  }

  ghost predicate IsAmong(s: string, symbols: seq<string>, i: nat) {
    exists r :: i <= r < |symbols| && symbols[r] == s
  }

  lemma RearrangedUnmasked(fold: Fold, now: seq<string>, symbols: seq<string>, i: nat)
    requires Rearranged(now, symbols, i) && NoneMaskedBefore(fold, symbols, i)
    ensures NoneMaskedBefore(fold, now, i)
  {
    hide Masks;
    forall p, q | 0 <= p < i && p < q < |now| ensures !Masks(fold, now[p], now[q]) {
      if q >= i {
        assert IsAmong(now[q], symbols, i);
        var r :| i <= r < |symbols| && symbols[r] == now[q];
      }
    }
  }

  lemma RemovedDuplicate(fold: Fold, symbols: seq<string>, i: nat, k: nat, start: seq<string>)
    requires i < k < |symbols| && fold(symbols[k]) == fold(symbols[i])
    requires NoneMaskedBefore(fold, symbols, i) && SameSymbols(fold, symbols, start)
    ensures NoneMaskedBefore(fold, Without(symbols, k), i) && SameSymbols(fold, Without(symbols, k), start)
  {
    hide Masks, NoneMaskedBefore;
    var now := Without(symbols, k);
    forall q | 0 <= q < |now| ensures now[q] == symbols[if q < k then q else q + 1] {}
    RearrangedUnmasked(fold, now, symbols, i);
    forall s | s in start ensures Stands(fold, now, s) {
      assert Stands(fold, symbols, s);
      var r :| 0 <= r < |symbols| && fold(symbols[r]) == fold(s);
      assert symbols[r] == now[if r < k then r else r - 1] || r == k;
      assert now[i] == symbols[i];
    }
  }

  lemma MovedUp(fold: Fold, symbols: seq<string>, i: nat, k: nat, start: seq<string>)
    requires i < k < |symbols|
    requires NoneMaskedBefore(fold, symbols, i) && SameSymbols(fold, symbols, start)
    ensures NoneMaskedBefore(fold, Moved(symbols, i, k), i) && SameSymbols(fold, Moved(symbols, i, k), start)
  {
    hide Masks, NoneMaskedBefore;
    var now := Moved(symbols, i, k);
    forall q | 0 <= q < |now| ensures now[q] == symbols[if q < i then q else if q == i then k else if q <= k then q - 1 else q] {}
    hide Moved;
    RearrangedUnmasked(fold, now, symbols, i);
    forall s | s in start ensures Stands(fold, now, s) {
      assert Stands(fold, symbols, s);
      var r :| 0 <= r < |symbols| && fold(symbols[r]) == fold(s);
      assert symbols[r] == now[if r < i then r else if r == k then i else if r < k then r + 1 else r];
    }
  }

  /** The reordering loop of `oneOf`. */
  method Reorder(fold: Fold, strs: seq<string>) returns (symbols: seq<string>)
    ensures NoneMasked(fold, symbols) && SameSymbols(fold, symbols, strs)
  {
    hide Masks, Without, Moved, NoneMaskedBefore, NoneMasked, SameSymbols;
    symbols := strs;
    AtTheStart(fold, strs);
    ghost var longest := Longest(fold, strs);
    var i := 0;
    while i < |symbols| - 1
      invariant 0 <= i && (i < |symbols| || i == 0)
      invariant NoneMaskedBefore(fold, symbols, i) && SameSymbols(fold, symbols, strs)
      decreases |symbols|, |symbols| - i, if i < |symbols| then longest - |fold(symbols[i])| else 0
    {
      var cur := symbols[i];
      var k := i + 1;
      while k < |symbols| && fold(symbols[k]) != fold(cur) && !Masks(fold, cur, symbols[k])
        invariant i < k <= |symbols|
        invariant forall q :: i < q < k ==> !Masks(fold, cur, symbols[q])
      {
        k := k + 1;
      }
      if k == |symbols| {
        OneFurther(fold, symbols, i);
        i := i + 1;
      } else if fold(symbols[k]) == fold(cur) {
        RemovedDuplicate(fold, symbols, i, k, strs);
        Shorter(symbols, k);
        symbols := Without(symbols, k);
      } else {
        MovedUp(fold, symbols, i, k, strs);
        Longer(fold, symbols, i, k);
        KnownLength(fold, symbols, strs, k);
        symbols := Moved(symbols, i, k);
      }
    }
    LastMasksNone(fold, symbols, i);
  }

  lemma AtTheStart(fold: Fold, strs: seq<string>)
    ensures NoneMaskedBefore(fold, strs, 0) && SameSymbols(fold, strs, strs)
  {}

  lemma KnownLength(fold: Fold, symbols: seq<string>, strs: seq<string>, k: nat)
    requires SameSymbols(fold, symbols, strs) && k < |symbols|
    ensures |fold(symbols[k])| <= Longest(fold, strs)
  {}

  lemma OneFurther(fold: Fold, symbols: seq<string>, i: nat)
    requires NoneMaskedBefore(fold, symbols, i) && i < |symbols|
    requires forall q :: i < q < |symbols| ==> !Masks(fold, symbols[i], symbols[q])
    ensures NoneMaskedBefore(fold, symbols, i + 1)
  {}

  lemma Shorter(symbols: seq<string>, k: nat)
    requires k < |symbols|
    ensures |Without(symbols, k)| == |symbols| - 1
  {}

  lemma Longer(fold: Fold, symbols: seq<string>, i: nat, k: nat)
    requires i < k < |symbols| && Masks(fold, symbols[i], symbols[k]) && fold(symbols[k]) != fold(symbols[i])
    ensures |Moved(symbols, i, k)| == |symbols| && Moved(symbols, i, k)[i] == symbols[k] && |fold(symbols[i])| < |fold(symbols[k])|
  {}

  lemma LastMasksNone(fold: Fold, symbols: seq<string>, i: nat)
    requires NoneMaskedBefore(fold, symbols, i) && i >= |symbols| - 1
    ensures NoneMasked(fold, symbols)
  {}

  // --- what the order is for ------------------------------------------------------------------------------------------

  /** The symbol stands at the beginning of the text. */
  predicate Matches(fold: Fold, s: string, text: string) {
    fold(s) <= fold(text)
  }

  /** The first symbol that matches, as `MatchFirst` over the symbols finds it. */
  function FirstMatch(fold: Fold, symbols: seq<string>, text: string): (i: nat)
    ensures i <= |symbols| && (i < |symbols| ==> Matches(fold, symbols[i], text))
    ensures forall k :: 0 <= k < i ==> !Matches(fold, symbols[k], text)
  {
    if symbols == [] || Matches(fold, symbols[0], text) then 0 else 1 + FirstMatch(fold, symbols[1..], text)
  }

  /** After the reordering, the first match is the one longest match. */
  lemma FirstMatchIsLongest(fold: Fold, symbols: seq<string>, text: string)
    requires NoneMasked(fold, symbols) && FirstMatch(fold, symbols, text) < |symbols|
    ensures var first := FirstMatch(fold, symbols, text);
            forall k :: 0 <= k < |symbols| && k != first && Matches(fold, symbols[k], text) ==>
              |fold(symbols[k])| < |fold(symbols[first])|
  {}

  /** The longest match does not depend on the order in which the symbols were given. */
  lemma OrderIsIrrelevant(fold: Fold, given: seq<string>, symbols: seq<string>, text: string, s: string)
    requires NoneMasked(fold, symbols) && SameSymbols(fold, symbols, given)
    requires s in given && Matches(fold, s, text)
    ensures var first := FirstMatch(fold, symbols, text);
            first < |symbols| && symbols[first] in given && |fold(s)| <= |fold(symbols[first])|
  {}
}
