/**
 * The identifier generator: `randomElement()`, `titleUpperCased()`,
 * `titleUpperCase()` and `HOStringUtils.randomIdentifier(len:upper:)`.
 *
 * `arc4random_uniform` is an oracle: `draw(k)` is the k-th number it
 * returns, reduced into the collection's index range. The word list is
 * the dictionary file's whitespace-separated components, passed in.
 */
module StringUtils {
  import opened Wrappers
  import opened Text

  /**
   * `randomElement()` given the oracle's number for this call: nil for an
   * empty collection, otherwise an element at an index in `[0, count)`.
   */
  function RandomElement<T>(xs: seq<T>, draw: nat): (r: Option<T>)
    ensures r.None? <==> |xs| == 0
    ensures r.Some? ==> exists i :: 0 <= i < |xs| && xs[i] == r.value
  {
    if |xs| == 0 then None else Some(xs[draw % |xs|])
  }

  /**
   * `titleUpperCased()`: the first character upper-cased, the rest as it
   * is. `first!` traps on the empty string, hence the precondition.
   */
  function TitleUpperCased(s: string): (r: string)
    requires |s| > 0
    ensures |r| == |s| && r[0] == UpperChar(s[0]) && r[1..] == s[1..]
  {
    Upper([s[0]]) + s[1..]
  }

  /** Title-casing twice is title-casing once. */
  lemma TitleUpperCasedIdempotent(s: string)
    requires |s| > 0
    ensures TitleUpperCased(TitleUpperCased(s)) == TitleUpperCased(s)
  {
    var t := TitleUpperCased(s);
    assert UpperChar(UpperChar(s[0])) == UpperChar(s[0]);
    assert TitleUpperCased(t)[1..] == t[1..];
  }

  /** `titleUpperCase()`, the mutating form: replaces the string by its title-cased form. */
  method TitleUpperCase(s: string) returns (t: string)
    requires |s| > 0
    ensures |t| == |s| && t[0] == UpperChar(s[0]) && t[1..] == s[1..]
  {
    t := TitleUpperCased(s);
  }

  predicate AllNonEmpty(ws: seq<string>) {
    forall k :: 0 <= k < |ws| ==> |ws[k]| > 0
  }

  /** The words after the first, each title-cased, run together. */
  function TitleConcat(ws: seq<string>): string
    requires AllNonEmpty(ws)
    decreases |ws|
  {
    if ws == [] then "" else TitleConcat(ws[..|ws| - 1]) + TitleUpperCased(ws[|ws| - 1])
  }

  /**
   * The identifier built from the drawn words `ws`: the first word,
   * title-cased only when `upper`, then every later word title-cased.
   */
  function IdentifierOf(ws: seq<string>, upper: bool): string
    requires |ws| > 0 && AllNonEmpty(ws)
  {
    (if upper then TitleUpperCased(ws[0]) else ws[0]) + TitleConcat(ws[1..])
  }

  /** The `n` words drawn from `words` with the oracle's numbers from position `at` on. */
  function Drawn(words: seq<string>, draw: nat -> nat, at: nat, n: nat): (ws: seq<string>)
    requires |words| > 0
    ensures |ws| == n && forall k :: 0 <= k < n ==> ws[k] in words
  {
    seq(n, k requires 0 <= k < n => words[draw(at + k) % |words|])
  }

  /** How many numbers `randomIdentifier(len:)` takes from the oracle. */
  function DrawsUsed(words: seq<string>, len: nat): nat {
    if |words| == 0 then 0 else len + 1
  }

  /**
   * `randomIdentifier(len:upper:)` with the oracle read from position `at`:
   * "" when the dictionary is empty, otherwise `len + 1` dictionary words
   * run together in the shape of `IdentifierOf`.
   */
  function Identifier(words: seq<string>, draw: nat -> nat, at: nat, len: nat, upper: bool): (r: string)
    requires AllNonEmpty(words)
    ensures |words| == 0 ==> r == ""
    ensures |words| > 0 ==>
      exists ws :: |ws| == len + 1 && (forall k :: 0 <= k < |ws| ==> ws[k] in words)
        && AllNonEmpty(ws) && r == IdentifierOf(ws, upper)
  {
    if |words| == 0 then ""
    else
      var ws := Drawn(words, draw, at, len + 1);
      assert AllNonEmpty(ws) by {
        forall k | 0 <= k < |ws| ensures |ws[k]| > 0 {
          var j :| 0 <= j < |words| && words[j] == ws[k];
        }
      }
      IdentifierOf(ws, upper)
  }

  /** Title-casing acts on the first character only. */
  lemma TitleUpperCasedAppend(a: string, b: string)
    requires |a| > 0
    ensures TitleUpperCased(a + b) == TitleUpperCased(a) + b
  {
    assert (a + b)[1..] == a[1..] + b;
  }

  /**
   * The upper-case identifier differs from the lower-case one for the same
   * words only in its first character.
   */
  lemma IdentifierUpperIsTitled(ws: seq<string>)
    requires |ws| > 0 && AllNonEmpty(ws)
    ensures IdentifierOf(ws, true) == TitleUpperCased(IdentifierOf(ws, false))
  {
    TitleUpperCasedAppend(ws[0], TitleConcat(ws[1..]));
  }

  lemma {:induction false} TitleConcatLength(ws: seq<string>)
    requires AllNonEmpty(ws)
    ensures |TitleConcat(ws)| == WordsLength(ws)
    decreases |ws|
  {
    if ws != [] {
      TitleConcatLength(ws[..|ws| - 1]);
      WordsLengthLast(ws);
    }
  }

  function WordsLength(ws: seq<string>): nat
    decreases |ws|
  {
    if ws == [] then 0 else |ws[0]| + WordsLength(ws[1..])
  }

  lemma {:induction false} WordsLengthLast(ws: seq<string>)
    requires ws != []
    ensures WordsLength(ws) == WordsLength(ws[..|ws| - 1]) + |ws[|ws| - 1]|
    decreases |ws|
  {
    if |ws| > 1 {
      WordsLengthLast(ws[1..]);
      assert ws[1..][..|ws[1..]| - 1] == ws[..|ws| - 1][1..];
    }
  }

  /** An identifier is exactly as long as the words it is made of. */
  lemma IdentifierLength(ws: seq<string>, upper: bool)
    requires |ws| > 0 && AllNonEmpty(ws)
    ensures |IdentifierOf(ws, upper)| == WordsLength(ws)
  {
    TitleConcatLength(ws[1..]);
  }

  /** The default `len = 4` makes identifiers of five dictionary words. */
  lemma DefaultIdentifierHasFiveWords(words: seq<string>, draw: nat -> nat, at: nat, upper: bool)
    requires |words| > 0 && AllNonEmpty(words)
    ensures exists ws :: |ws| == 5 && AllNonEmpty(ws) && Identifier(words, draw, at, 4, upper) == IdentifierOf(ws, upper)
  {
    var ws := Drawn(words, draw, at, 5);
    DrawnNonEmpty(words, draw, at, 5);
    assert Identifier(words, draw, at, 4, upper) == IdentifierOf(ws, upper);
  }

  /** The dictionary's components with the empty ones dropped. */
  function NonEmptyWords(components: seq<string>): (ws: seq<string>)
    ensures AllNonEmpty(ws)
    ensures forall w :: w in ws <==> w in components && |w| > 0
    decreases |components|
  {
    if components == [] then []
    else
      var rest := NonEmptyWords(components[..|components| - 1]);
      var w := components[|components| - 1];
      assert forall x :: x in components <==> x in components[..|components| - 1] || x == w;
      if |w| > 0 then rest + [w] else rest
  }

  lemma DrawnNonEmpty(words: seq<string>, draw: nat -> nat, at: nat, n: nat)
    requires |words| > 0 && AllNonEmpty(words)
    ensures AllNonEmpty(Drawn(words, draw, at, n))
  {
    var ws := Drawn(words, draw, at, n);
    forall k | 0 <= k < n ensures |ws[k]| > 0 {
      assert ws[k] == words[draw(at + k) % |words|];
    }
  }

  /** One more drawn word appends its title-cased form to the identifier. */
  lemma IdentifierStep(words: seq<string>, draw: nat -> nat, at: nat, n: nat, upper: bool)
    requires |words| > 0 && AllNonEmpty(words) && n > 0
    ensures AllNonEmpty(Drawn(words, draw, at, n)) && AllNonEmpty(Drawn(words, draw, at, n + 1))
    ensures IdentifierOf(Drawn(words, draw, at, n + 1), upper)
         == IdentifierOf(Drawn(words, draw, at, n), upper) + TitleUpperCased(words[draw(at + n) % |words|])
  {
    DrawnNonEmpty(words, draw, at, n);
    DrawnNonEmpty(words, draw, at, n + 1);
    var ws := Drawn(words, draw, at, n);
    var ws' := Drawn(words, draw, at, n + 1);
    var w := words[draw(at + n) % |words|];
    assert ws' == ws + [w];
    assert ws'[1..] == ws[1..] + [w];
    assert ws'[1..][..|ws'[1..]| - 1] == ws[1..];
  }

  /**
   * `HOStringUtils`: the dictionary and the state of the random source
   * (how many numbers have been drawn so far).
   */
  class Generator {
    const words: seq<string>
    const draw: nat -> nat
    var drawn: nat

    /** The word list is loaded once; empty components are filtered out. */
    constructor (components: seq<string>, draw: nat -> nat)
      ensures words == NonEmptyWords(components) && this.draw == draw && drawn == 0
    {
      words := NonEmptyWords(components);
      this.draw := draw;
      drawn := 0;
    }

    predicate Valid() {
      AllNonEmpty(words)
    }

    /** `words.randomElement()`: draws a number only when the list is not empty. */
    method RandomWord() returns (w: Option<string>)
      modifies this
      ensures w == RandomElement(words, draw(old(drawn)))
      ensures drawn == old(drawn) + (if |words| == 0 then 0 else 1)
    {
      if |words| == 0 {
        w := None;
      } else {
        w := RandomElement(words, draw(drawn));
        drawn := drawn + 1;
      }
    }

    /** `randomIdentifier(len:upper:)`. */
    method RandomIdentifier(len: nat, upper: bool) returns (id: string)
      requires Valid()
      modifies this
      ensures id == Identifier(words, draw, old(drawn), len, upper)
      ensures drawn == old(drawn) + DrawsUsed(words, len)
    {
      var first := RandomWord();
      if first.None? {
        return "";
      }
      var prefix := first.value;
      ghost var at := old(drawn);
      assert Drawn(words, draw, at, 1) == [prefix];
      DrawnNonEmpty(words, draw, at, 1);
      if upper {
        prefix := TitleUpperCase(prefix);
      }
      for k := 0 to len
        invariant drawn == at + 1 + k
        invariant var ws := Drawn(words, draw, at, k + 1); AllNonEmpty(ws) && prefix == IdentifierOf(ws, upper)
      {
        var next := RandomWord();
        IdentifierStep(words, draw, at, k + 1, upper);
        var word := TitleUpperCase(next.value);
        assert word == TitleUpperCased(next.value);
        prefix := prefix + word;
      }
      id := prefix;
    }
  }
}
