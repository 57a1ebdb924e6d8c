/**
 * The `String` extension of the command-line front end: `split(by:maxSplits:)`,
 * `padded(toWidth:with:)` and `wrapped(atWidth:wrapBy:splitBy:)`. Each is a
 * looping method proved equal to a recursive specification function, and
 * the properties the front end relies on are lemmas about that function.
 */
module StringExtensions {
  import opened Text

  // ---------------------------------------------------------------- split

  /** How many more cuts `split` may make: unlimited, or a count. */
  datatype CutBudget = Unlimited | AtMost(n: nat) {
    predicate CanCut() {
      Unlimited? || n > 0
    }

    function Spend(): CutBudget
      requires CanCut()
    {
      if Unlimited? then Unlimited else AtMost(n - 1)
    }
  }

  /**
   * `maxSplits == 0` means no limit; a positive value bounds the cuts; a
   * negative value never satisfies `numSplits < maxSplits`, so no cut is made.
   */
  function BudgetOf(maxSplits: int): CutBudget {
    if maxSplits == 0 then Unlimited
    else if maxSplits > 0 then AtMost(maxSplits)
    else AtMost(0)
  }

  /**
   * The pieces `split` produces: cut at each separator while the budget
   * lasts; the remainder is a last piece only when it is not empty.
   */
  function Cut(s: string, sep: char, budget: CutBudget): seq<string>
    decreases |s|
  {
    if sep !in s || !budget.CanCut() then
      if s == [] then [] else [s]
    else
      var i := IndexOf(s, sep);
      [s[..i]] + Cut(s[i + 1..], sep, budget.Spend())
  }

  function Split(s: string, sep: char, maxSplits: int): seq<string> {
    Cut(s, sep, BudgetOf(maxSplits))
  }

  /** A cut at the first separator at or after `from`. */
  lemma CutAt(s: string, sep: char, budget: CutBudget, from: nat, i: nat)
    requires from <= i < |s| && s[i] == sep && budget.CanCut()
    requires sep !in s[from..i]
    ensures Cut(s[from..], sep, budget) == [s[from..i]] + Cut(s[i + 1..], sep, budget.Spend())
  {
    var t := s[from..];
    assert t[i - from] == sep && t[..i - from] == s[from..i];
    IndexOfUnique(t, sep, i - from);
    assert t[i - from + 1..] == s[i + 1..];
  }

  /**
   * The pieces the loop of `split(by:maxSplits:)` ends with, from the
   * pieces `acc` found so far, `curIdx` (the start of the current piece)
   * and `i` (the next character).
   */
  function SplitLoop(s: string, sep: char, budget: CutBudget, curIdx: nat, i: nat, acc: seq<string>): seq<string>
    requires curIdx <= i <= |s|
    decreases |s| - i
  {
    if i == |s| then acc + (if curIdx == |s| then [] else [s[curIdx..]])
    else if s[i] == sep && budget.CanCut() then SplitLoop(s, sep, budget.Spend(), i + 1, i + 1, acc + [s[curIdx..i]])
    else SplitLoop(s, sep, budget, curIdx, i + 1, acc)
  }

  /** The loop adds to what it has found the cuts of the rest of the string. */
  lemma {:induction false} SplitLoopCuts(s: string, sep: char, budget: CutBudget, curIdx: nat, i: nat, acc: seq<string>)
    requires curIdx <= i <= |s|
    requires budget.CanCut() ==> sep !in s[curIdx..i]
    ensures SplitLoop(s, sep, budget, curIdx, i, acc) == acc + Cut(s[curIdx..], sep, budget)
    decreases |s| - i
  {
    if i == |s| {
      assert s[curIdx..i] == s[curIdx..];
    } else if s[i] == sep && budget.CanCut() {
      assert s[i + 1..i + 1] == [];
      SplitLoopCuts(s, sep, budget.Spend(), i + 1, i + 1, acc + [s[curIdx..i]]);
      CutAfterPiece(s, sep, budget, curIdx, i, acc);
    } else {
      assert s[curIdx..i + 1] == s[curIdx..i] + [s[i]];
      SplitLoopCuts(s, sep, budget, curIdx, i + 1, acc);
    }
  }

  lemma CutAfterPiece(s: string, sep: char, budget: CutBudget, curIdx: nat, i: nat, acc: seq<string>)
    requires curIdx <= i < |s| && s[i] == sep && budget.CanCut()
    requires sep !in s[curIdx..i]
    ensures (acc + [s[curIdx..i]]) + Cut(s[i + 1..], sep, budget.Spend()) == acc + Cut(s[curIdx..], sep, budget)
  {
    CutAt(s, sep, budget, curIdx, i);
  }

  /** The loop of `split(by:maxSplits:)`, with its `curIdx` and `numSplits`. */
  method SplitBy(s: string, sep: char, maxSplits: int) returns (pieces: seq<string>)
    ensures pieces == Split(s, sep, maxSplits)
  {
    pieces := [];
    var numSplits := 0;
    var curIdx := 0;
    ghost var budget := BudgetOf(maxSplits);
    SplitLoopCuts(s, sep, budget, 0, 0, []);
    assert s[0..] == s && s[0..0] == [];
    ghost var goal := SplitLoop(s, sep, budget, 0, 0, []);
    assert goal == Split(s, sep, maxSplits);
    for i := 0 to |s|
      invariant 0 <= curIdx <= i
      invariant maxSplits == 0 ==> budget == Unlimited
      invariant maxSplits > 0 ==> numSplits <= maxSplits && budget == AtMost(maxSplits - numSplits)
      invariant maxSplits < 0 ==> budget == AtMost(0)
      invariant SplitLoop(s, sep, budget, curIdx, i, pieces) == goal
    {
      if s[i] == sep && (maxSplits == 0 || numSplits < maxSplits) {
        pieces := pieces + [s[curIdx..i]];
        curIdx := i + 1;
        budget := budget.Spend();
        numSplits := numSplits + 1;
      }
    }
    assert goal == pieces + (if curIdx == |s| then [] else [s[curIdx..]]);
    if curIdx != |s| {
      pieces := pieces + [s[curIdx..]];
    }
  }

  /** A non-empty string always gives at least one piece, the empty string none. */
  lemma CutEmpty(s: string, sep: char, budget: CutBudget)
    ensures Cut(s, sep, budget) == [] <==> s == []
  {
  }

  /** Joining the pieces with the separator restores a string that does not end in it. */
  lemma {:induction false} CutJoin(s: string, sep: char, budget: CutBudget)
    requires s == [] || s[|s| - 1] != sep
    ensures Join(Cut(s, sep, budget), sep) == s
    decreases |s|
  {
    if sep in s && budget.CanCut() {
      var i := IndexOf(s, sep);
      var rest := s[i + 1..];
      CutJoin(rest, sep, budget.Spend());
      CutEmpty(rest, sep, budget.Spend());
      JoinCons(s[..i], Cut(rest, sep, budget.Spend()), sep);
      assert s == s[..i] + [sep] + rest;
    }
  }

  /** Round trip of `split`: `split(by: c)` joined with `c` gives back `s`. */
  lemma SplitJoin(s: string, sep: char, maxSplits: int)
    requires s == [] || s[|s| - 1] != sep
    ensures Join(Split(s, sep, maxSplits), sep) == s
  {
    CutJoin(s, sep, BudgetOf(maxSplits));
  }

  /** Without a limit, no piece contains the separator. */
  lemma {:induction false} CutUnlimitedNoSeparator(s: string, sep: char)
    ensures forall p :: p in Cut(s, sep, Unlimited) ==> sep !in p
    decreases |s|
  {
    if sep in s {
      var i := IndexOf(s, sep);
      CutUnlimitedNoSeparator(s[i + 1..], sep);
    }
  }

  /** With `maxSplits == 0` every separator is a cut: no piece contains one. */
  lemma SplitUnlimited(s: string, sep: char)
    ensures forall p :: p in Split(s, sep, 0) ==> sep !in p
  {
    CutUnlimitedNoSeparator(s, sep);
  }

  lemma {:induction false} CutCount(s: string, sep: char, n: nat)
    ensures |Cut(s, sep, AtMost(n))| <= n + 1
    decreases |s|
  {
    if sep in s && n > 0 {
      var i := IndexOf(s, sep);
      CutCount(s[i + 1..], sep, n - 1);
    }
  }

  /** With `maxSplits > 0` at most `maxSplits` cuts are made. */
  lemma SplitBounded(s: string, sep: char, maxSplits: int)
    requires maxSplits > 0
    ensures |Split(s, sep, maxSplits)| <= maxSplits + 1
  {
    CutCount(s, sep, maxSplits);
  }

  /**
   * The edge cases: a leading separator gives a leading empty piece, and a
   * cut at the last character leaves no trailing empty piece.
   */
  lemma SplitEdges(s: string, sep: char, maxSplits: int)
    requires maxSplits >= 0
    ensures |s| > 0 && s[0] == sep ==> Split(s, sep, maxSplits)[0] == ""
    ensures s == [sep] ==> Split(s, sep, maxSplits) == [""]
    ensures s == [] ==> Split(s, sep, maxSplits) == []
  {
    if |s| > 0 && s[0] == sep {
      IndexOfUnique(s, sep, 0);
      var budget := BudgetOf(maxSplits);
      assert budget.CanCut();
      assert Split(s, sep, maxSplits) == [s[..0]] + Cut(s[1..], sep, budget.Spend());
      if s == [sep] {
        assert s[1..] == [];
      }
    }
  }

  // --------------------------------------------------------------- padded

  /** `padded(toWidth:with:)`: `s` followed by `pad` up to `width` characters. */
  function Padded(s: string, width: int, pad: char): (r: string)
    ensures |r| == if |s| < width then width else |s|
    ensures r[..|s|] == s
    ensures forall k :: |s| <= k < |r| ==> r[k] == pad
  {
    s + seq(if |s| < width then width - |s| else 0, _ => pad)
  }

  /** The loop of `padded`, appending until `currlen` reaches `width`. */
  method PadTo(s: string, width: int, pad: char) returns (r: string)
    ensures r == Padded(s, width, pad)
  {
    r := s;
    var currlen := |s|;
    while currlen < width
      invariant currlen == |r| && r[..|s|] == s && |s| <= |r|
      invariant |s| >= width ==> |r| == |s|
      invariant |s| < width ==> |r| <= width
      invariant forall k :: |s| <= k < |r| ==> r[k] == pad
      decreases width - currlen
    {
      r := r + [pad];
      currlen := currlen + 1;
    }
    assert forall k :: 0 <= k < |r| ==> r[k] == Padded(s, width, pad)[k];
  }

  /** Padding a padded string to the same width changes nothing. */
  lemma PaddedIdempotent(s: string, width: int, pad: char)
    ensures Padded(Padded(s, width, pad), width, pad) == Padded(s, width, pad)
  {
    var p := Padded(s, width, pad);
    var q := Padded(p, width, pad);
    assert |q| == |p|;
    assert q == q[..|p|];
  }

  // -------------------------------------------------------------- wrapped

  /**
   * The text `wrapped` produces for `words`, given the width of the line
   * so far: each word is followed by `splitBy`; when the word would push
   * the line past `width`, `wrapBy` comes first and the line restarts, and
   * a word at least `width` long is written once more before the break.
   */
  function WrapWords(words: seq<string>, width: int, lineWidth: int, wrapBy: char, splitBy: char): string
    decreases |words|
  {
    if words == [] then ""
    else
      var w := words[0];
      BreakBefore(w, width, lineWidth, wrapBy) + w + [splitBy]
        + WrapWords(words[1..], width, LineAfter(w, width, lineWidth), wrapBy, splitBy)
  }

  /** What is written before word `w`: nothing, or the line break. */
  function BreakBefore(w: string, width: int, lineWidth: int, wrapBy: char): string {
    if lineWidth + |w| + 1 > width then (if |w| >= width then w else "") + [wrapBy] else ""
  }

  /** The line width after word `w` and its separator. */
  function LineAfter(w: string, width: int, lineWidth: int): int {
    (if lineWidth + |w| + 1 > width then 0 else lineWidth) + |w| + 1
  }

  function Wrapped(s: string, width: int, wrapBy: char, splitBy: char): string {
    WrapWords(Split(s, splitBy, 0), width, 0, wrapBy, splitBy)
  }

  /** The loop of `wrapped(atWidth:wrapBy:splitBy:)` over the words of `split(by:)`. */
  method Wrap(s: string, width: int, wrapBy: char, splitBy: char) returns (r: string)
    ensures r == Wrapped(s, width, wrapBy, splitBy)
  {
    var words := SplitBy(s, splitBy, 0);
    r := "";
    var currLineWidth := 0;
    ghost var goal := WrapWords(words, width, 0, wrapBy, splitBy);
    assert words[0..] == words;
    for k := 0 to |words|
      invariant r + WrapWords(words[k..], width, currLineWidth, wrapBy, splitBy) == goal
    {
      var word := words[k];
      var wordLen := |word|;
      WrapWordsAt(r, words, k, width, currLineWidth, wrapBy, splitBy);
      if currLineWidth + wordLen + 1 > width {
        if wordLen >= width {
          r := r + word;
        }
        r := r + [wrapBy];
        currLineWidth := 0;
      }
      currLineWidth := currLineWidth + (wordLen + 1);
      r := r + word + [splitBy];
    }
  }

  /** One word of the `wrapped` loop, appended to the text `r` written so far, in the loop's three cases. */
  lemma WrapWordsAt(r: string, words: seq<string>, k: nat, width: int, lineWidth: int, wrapBy: char, splitBy: char)
    requires k < |words|
    ensures var w := words[k];
      lineWidth + |w| + 1 > width && |w| >= width ==>
        r + WrapWords(words[k..], width, lineWidth, wrapBy, splitBy)
          == r + w + [wrapBy] + w + [splitBy] + WrapWords(words[k + 1..], width, |w| + 1, wrapBy, splitBy)
    ensures var w := words[k];
      lineWidth + |w| + 1 > width && |w| < width ==>
        r + WrapWords(words[k..], width, lineWidth, wrapBy, splitBy)
          == r + [wrapBy] + w + [splitBy] + WrapWords(words[k + 1..], width, |w| + 1, wrapBy, splitBy)
    ensures var w := words[k];
      lineWidth + |w| + 1 <= width ==>
        r + WrapWords(words[k..], width, lineWidth, wrapBy, splitBy)
          == r + w + [splitBy] + WrapWords(words[k + 1..], width, lineWidth + |w| + 1, wrapBy, splitBy)
  {
    var w := words[k];
    assert words[k..][1..] == words[k + 1..];
    var t := WrapWords(words[k + 1..], width, LineAfter(w, width, lineWidth), wrapBy, splitBy);
    var b := BreakBefore(w, width, lineWidth, wrapBy);
    assert WrapWords(words[k..], width, lineWidth, wrapBy, splitBy) == b + w + [splitBy] + t;
    if lineWidth + |w| + 1 > width {
      if |w| >= width {
        assert r + (w + [wrapBy] + w + [splitBy] + t) == r + w + [wrapBy] + w + [splitBy] + t;
      } else {
        assert r + ([wrapBy] + w + [splitBy] + t) == r + [wrapBy] + w + [splitBy] + t;
      }
    } else {
      assert r + ([] + w + [splitBy] + t) == r + w + [splitBy] + t;
    }
  }

  /** Every word followed by the separator, with no line breaks. */
  function Spaced(words: seq<string>, splitBy: char): string
    decreases |words|
  {
    if words == [] then "" else words[0] + [splitBy] + Spaced(words[1..], splitBy)
  }

  function LineLength(words: seq<string>): nat
    decreases |words|
  {
    if words == [] then 0 else |words[0]| + 1 + LineLength(words[1..])
  }

  /** Words that fit on the current line are written without any break. */
  lemma {:induction false} WrapFits(words: seq<string>, width: int, lineWidth: int, wrapBy: char, splitBy: char)
    requires lineWidth + LineLength(words) <= width
    ensures WrapWords(words, width, lineWidth, wrapBy, splitBy) == Spaced(words, splitBy)
    decreases |words|
  {
    if words != [] {
      var w := words[0];
      WrapFits(words[1..], width, lineWidth + |w| + 1, wrapBy, splitBy);
      assert BreakBefore(w, width, lineWidth, wrapBy) == "";
      assert LineAfter(w, width, lineWidth) == lineWidth + |w| + 1;
    }
  }

  /** `s` with every `c` removed. */
  function Erase(s: string, c: char): string
    decreases |s|
  {
    if s == [] then [] else (if s[0] == c then [] else [s[0]]) + Erase(s[1..], c)
  }

  lemma {:induction false} EraseAppend(a: string, b: string, c: char)
    ensures Erase(a + b, c) == Erase(a, c) + Erase(b, c)
    decreases |a|
  {
    if a != [] {
      assert (a + b)[0] == a[0];
      assert (a + b)[1..] == a[1..] + b;
      EraseAppend(a[1..], b, c);
    } else {
      assert a + b == b;
    }
  }

  lemma {:induction false} EraseAbsent(a: string, c: char)
    requires c !in a
    ensures Erase(a, c) == a
    decreases |a|
  {
    if a != [] {
      EraseAbsent(a[1..], c);
    }
  }

  /**
   * When every word is shorter than the width, wrapping only inserts line
   * breaks: erasing them gives the words each followed by `splitBy`.
   */
  lemma {:induction false} WrapOnlyInsertsBreaks(words: seq<string>, width: int, lineWidth: int, wrapBy: char, splitBy: char)
    requires wrapBy != splitBy
    requires forall k :: 0 <= k < |words| ==> |words[k]| < width && wrapBy !in words[k]
    ensures Erase(WrapWords(words, width, lineWidth, wrapBy, splitBy), wrapBy) == Spaced(words, splitBy)
    decreases |words|
  {
    if words != [] {
      var w := words[0];
      var rest := WrapWords(words[1..], width, LineAfter(w, width, lineWidth), wrapBy, splitBy);
      EraseWordStep(BreakBefore(w, width, lineWidth, wrapBy), w, rest, wrapBy, splitBy);
      WrapOnlyInsertsBreaks(words[1..], width, LineAfter(w, width, lineWidth), wrapBy, splitBy);
    }
  }

  lemma EraseBreak(before: string, wrapBy: char)
    requires before == [] || before == [wrapBy]
    ensures Erase(before, wrapBy) == []
  {
    if before != [] {
      assert before[1..] == [];
    }
  }

  /** Erasing the breaks around one short word leaves the word and its separator. */
  lemma EraseWordStep(before: string, w: string, rest: string, wrapBy: char, splitBy: char)
    requires before == [] || before == [wrapBy]
    requires wrapBy != splitBy && wrapBy !in w
    ensures Erase(before + w + [splitBy] + rest, wrapBy) == w + [splitBy] + Erase(rest, wrapBy)
  {
    var word := w + [splitBy];
    assert before + w + [splitBy] == before + word;
    EraseAppend(before + word, rest, wrapBy);
    EraseAppend(before, word, wrapBy);
    EraseAbsent(word, wrapBy);
    EraseBreak(before, wrapBy);
  }

  /**
   * A word at least as long as the width, reached with a break, is
   * written twice: once before the break and once after it.
   */
  lemma LongWordWrittenTwice(words: seq<string>, width: int, lineWidth: int, wrapBy: char, splitBy: char)
    requires words != [] && lineWidth >= 0 && |words[0]| >= width
    ensures var w := words[0];
      HasPrefix(WrapWords(words, width, lineWidth, wrapBy, splitBy), w + [wrapBy] + w + [splitBy])
  {
    var w := words[0];
    var p := w + [wrapBy] + w + [splitBy];
    assert BreakBefore(w, width, lineWidth, wrapBy) == w + [wrapBy];
    var r := WrapWords(words, width, lineWidth, wrapBy, splitBy);
    assert r == p + WrapWords(words[1..], width, LineAfter(w, width, lineWidth), wrapBy, splitBy);
    assert r[..|p|] == p;
  }

  /** A string that fits on one line comes back with one trailing separator. */
  lemma WrappedShortLine(s: string, width: int, wrapBy: char, splitBy: char)
    requires s != [] && s[|s| - 1] != splitBy
    requires LineLength(Split(s, splitBy, 0)) <= width
    ensures Wrapped(s, width, wrapBy, splitBy) == s + [splitBy]
  {
    var words := Split(s, splitBy, 0);
    WrapFits(words, width, 0, wrapBy, splitBy);
    SplitJoin(s, splitBy, 0);
    CutEmpty(s, splitBy, Unlimited);
    SpacedJoin(words, splitBy);
  }

  lemma {:induction false} SpacedJoin(words: seq<string>, c: char)
    requires words != []
    ensures Spaced(words, c) == Join(words, c) + [c]
    decreases |words|
  {
    if |words| > 1 {
      SpacedJoin(words[1..], c);
    }
  }
}
