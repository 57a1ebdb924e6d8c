/**
 * Character-level helpers the Swift sources take from Foundation and the
 * standard library: ASCII case mapping, `hasPrefix`, `contains`,
 * `components(separatedBy:)`, `trimmingCharacters(in:)`, the `<` order on
 * strings and `Int(String)`. Strings are sequences of characters; case
 * mapping is ASCII only.
 */
module Text {
  import opened Wrappers

  function UpperChar(c: char): char {
    if 'a' <= c <= 'z' then (c as int - 32) as char else c
  }

  function LowerChar(c: char): char {
    if 'A' <= c <= 'Z' then (c as int + 32) as char else c
  }

  /** `uppercased()` on ASCII text. */
  function Upper(s: string): string {
    seq(|s|, i requires 0 <= i < |s| => UpperChar(s[i]))
  }

  /** `lowercased()` on ASCII text. */
  function Lower(s: string): string {
    seq(|s|, i requires 0 <= i < |s| => LowerChar(s[i]))
  }

  predicate HasPrefix(s: string, p: string) {
    |p| <= |s| && s[..|p|] == p
  }

  /** `t` occurs in `s` starting at position `i`. */
  predicate OccursAt(s: string, t: string, i: nat) {
    i + |t| <= |s| && s[i..i + |t|] == t
  }

  /** `s.contains(t)` for a substring `t`: `t` occurs somewhere in `s`. */
  function Contains(s: string, t: string): (r: bool)
    ensures r <==> exists i: nat :: OccursAt(s, t, i)
    decreases |s|
  {
    if |t| > |s| then false
    else if s[..|t|] == t then assert OccursAt(s, t, 0); true
    else
      var r := Contains(s[1..], t);
      assert forall i: nat :: OccursAt(s, t, i + 1) <==> OccursAt(s[1..], t, i) by {
        forall i: nat ensures OccursAt(s, t, i + 1) <==> OccursAt(s[1..], t, i) {
          if i + 1 + |t| <= |s| {
            assert s[1..][i..i + |t|] == s[i + 1..i + 1 + |t|];
          }
        }
      }
      assert !OccursAt(s, t, 0);
      assert (exists i: nat :: OccursAt(s, t, i)) ==> r by {
        if exists i: nat :: OccursAt(s, t, i) {
          var i: nat :| OccursAt(s, t, i);
          assert i > 0 && OccursAt(s[1..], t, i - 1);
        }
      }
      r
  }

  /** Position of the first `c` in `s`. */
  function IndexOf(s: string, c: char): (i: nat)
    requires c in s
    ensures i < |s| && s[i] == c && c !in s[..i]
  {
    if s[0] == c then 0 else 1 + IndexOf(s[1..], c)
  }

  lemma {:induction false} IndexOfUnique(s: string, c: char, i: nat)
    requires i < |s| && s[i] == c && c !in s[..i]
    ensures c in s && IndexOf(s, c) == i
  {
    if s[0] != c {
      assert s[1..][i - 1] == c;
      assert s[1..][..i - 1] == s[1..i];
      IndexOfUnique(s[1..], c, i - 1);
    }
  }

  /**
   * `components(separatedBy:)` with a one-character separator: cuts at
   * every separator and keeps empty pieces, so "a::b:" gives
   * ["a", "", "b", ""] and "" gives [""].
   */
  function Components(s: string, c: char): (r: seq<string>)
    ensures |r| >= 1
    ensures forall p :: p in r ==> c !in p
    ensures c !in s ==> r == [s]
    decreases |s|
  {
    if c !in s then [s]
    else
      var i := IndexOf(s, c);
      [s[..i]] + Components(s[i + 1..], c)
  }

  /** `joined(separator:)` with a one-character separator. */
  function Join(ps: seq<string>, c: char): string
    decreases |ps|
  {
    if |ps| == 0 then ""
    else if |ps| == 1 then ps[0]
    else ps[0] + [c] + Join(ps[1..], c)
  }

  /** Joining the pieces back with the separator restores the string. */
  lemma {:induction false} JoinComponents(s: string, c: char)
    ensures Join(Components(s, c), c) == s
    decreases |s|
  {
    if c in s {
      var i := IndexOf(s, c);
      JoinComponents(s[i + 1..], c);
      JoinCons(s[..i], Components(s[i + 1..], c), c);
      assert s == s[..i] + [c] + s[i + 1..];
    }
  }

  /** Joining a piece in front of at least one more puts one separator after it. */
  lemma JoinCons(p: string, tail: seq<string>, c: char)
    requires tail != []
    ensures Join([p] + tail, c) == p + [c] + Join(tail, c)
  {
    assert ([p] + tail)[1..] == tail;
  }

  /** Splitting a join of separator-free pieces gives the pieces back. */
  lemma {:induction false} ComponentsJoin(ps: seq<string>, c: char)
    requires |ps| >= 1
    requires forall k :: 0 <= k < |ps| ==> c !in ps[k]
    ensures Components(Join(ps, c), c) == ps
    decreases |ps|
  {
    if |ps| > 1 {
      JoinCutsAtFirst(ps[0], Join(ps[1..], c), c);
      ComponentsJoin(ps[1..], c);
      assert ps == [ps[0]] + ps[1..];
    }
  }

  /** The first separator of `p + [c] + rest` is the one after `p`. */
  lemma JoinCutsAtFirst(p: string, rest: string, c: char)
    requires c !in p
    ensures Components(p + [c] + rest, c) == [p] + Components(rest, c)
  {
    var s := p + [c] + rest;
    var i := |p|;
    assert s[i] == c && s[..i] == p;
    IndexOfUnique(s, c, i);
    assert s[i + 1..] == rest;
  }

  function TrimLeading(s: string, c: char): (r: string)
    ensures |r| <= |s| && r == s[|s| - |r|..]
    ensures r == [] || r[0] != c
    ensures forall k :: 0 <= k < |s| - |r| ==> s[k] == c
  {
    if |s| > 0 && s[0] == c then TrimLeading(s[1..], c) else s
  }

  function TrimTrailing(s: string, c: char): (r: string)
    ensures |r| <= |s| && r == s[..|r|]
    ensures r == [] || r[|r| - 1] != c
    ensures forall k :: |r| <= k < |s| ==> s[k] == c
  {
    if |s| > 0 && s[|s| - 1] == c then TrimTrailing(s[..|s| - 1], c) else s
  }

  /**
   * `trimmingCharacters(in: "_")`: drops the underscores at both ends,
   * and only there.
   */
  function TrimUnderscores(s: string): string {
    TrimTrailing(TrimLeading(s, '_'), '_')
  }

  /** `r` is `s` with some underscores removed from its two ends. */
  predicate SurroundedByUnderscores(s: string, r: string, i: nat) {
    i + |r| <= |s| && s[i..i + |r|] == r
    && (forall k :: 0 <= k < i ==> s[k] == '_')
    && (forall k :: i + |r| <= k < |s| ==> s[k] == '_')
  }

  /**
   * The trimmed key is a window of the key with only underscores around
   * it, and it neither starts nor ends with an underscore.
   */
  lemma TrimUnderscoresShape(s: string)
    ensures exists i: nat :: SurroundedByUnderscores(s, TrimUnderscores(s), i)
    ensures var r := TrimUnderscores(s); r == [] || (r[0] != '_' && r[|r| - 1] != '_')
  {
    var l := TrimLeading(s, '_');
    var r := TrimUnderscores(s);
    var i := |s| - |l|;
    assert s[i..i + |r|] == l[..|r|];
    forall k | i + |r| <= k < |s|
      ensures s[k] == '_'
    {
      assert s[k] == l[k - i];
    }
    assert SurroundedByUnderscores(s, r, i);
    if r != [] {
      assert r[0] == l[0];
    }
  }

  /** Swift's `<` on strings, as the lexicographic order of the characters. */
  predicate LexLess(a: string, b: string)
    decreases |a|
  {
    if |a| == 0 then |b| > 0
    else if |b| == 0 then false
    else if a[0] == b[0] then LexLess(a[1..], b[1..])
    else a[0] < b[0]
  }

  predicate LexLe(a: string, b: string) {
    !LexLess(b, a)
  }

  /** Any two strings are comparable: the order is total. */
  lemma {:induction false} LexTotal(a: string, b: string)
    ensures LexLe(a, b) || LexLe(b, a)
    decreases |a|
  {
    if |a| > 0 && |b| > 0 && a[0] == b[0] {
      LexTotal(a[1..], b[1..]);
    }
  }

  /** `LexLe` is transitive, so sorting by it is well defined. */
  lemma {:induction false} LexLeTransitive(a: string, b: string, c: string)
    requires LexLe(a, b) && LexLe(b, c)
    ensures LexLe(a, c)
    decreases |a|
  {
    if |a| > 0 && |b| > 0 && |c| > 0 && a[0] == b[0] && b[0] == c[0] {
      LexLeTransitive(a[1..], b[1..], c[1..]);
    }
  }

  lemma {:induction false} LexLeReflexive(a: string)
    ensures LexLe(a, a)
    decreases |a|
  {
    if |a| > 0 {
      LexLeReflexive(a[1..]);
    }
  }

  // Swift's `Int(String)` on a 64-bit platform.

  const IntMin: int := -0x8000_0000_0000_0000
  const IntMax: int := 0x7FFF_FFFF_FFFF_FFFF

  predicate IsDigit(c: char) {
    '0' <= c <= '9'
  }

  /**
   * Reads the digits of `ds` from the left onto the value `acc` already
   * read; nil at the first character that is not a decimal digit.
   */
  function DigitsFrom(ds: string, acc: nat): Option<nat>
    decreases |ds|
  {
    if |ds| == 0 then Some(acc)
    else if !IsDigit(ds[0]) then None
    else DigitsFrom(ds[1..], acc * 10 + (ds[0] as int - '0' as int))
  }

  /** Reading `a + b` is reading `a`, then going on with `b`. */
  lemma {:induction false} DigitsFromAppend(a: string, b: string, acc: nat)
    ensures DigitsFrom(a + b, acc) ==
      match DigitsFrom(a, acc)
      case None => None
      case Some(m) => DigitsFrom(b, m)
    decreases |a|
  {
    if |a| > 0 {
      assert (a + b)[0] == a[0] && (a + b)[1..] == a[1..] + b;
      if IsDigit(a[0]) {
        DigitsFromAppend(a[1..], b, acc * 10 + (a[0] as int - '0' as int));
      }
    } else {
      assert a + b == b;
    }
  }

  /**
   * `Int(s)`: an optional `+` or `-`, then one or more decimal digits, and
   * a value that fits in 64 bits; anything else is nil.
   */
  function ParseInt(s: string): (r: Option<int>)
    ensures r.Some? ==> IntMin <= r.value <= IntMax
    ensures r.Some? ==> |s| > 0 && (IsDigit(s[0]) || s[0] == '-' || s[0] == '+')
  {
    var signed := |s| > 0 && (s[0] == '-' || s[0] == '+');
    var ds := if signed then s[1..] else s;
    if |ds| == 0 then None
    else
      match DigitsFrom(ds, 0)
      case None => None
      case Some(n) =>
        var v: int := if signed && s[0] == '-' then -(n as int) else n;
        if IntMin <= v <= IntMax then Some(v) else None
  }

  function DigitChar(d: nat): char
    requires d < 10
  {
    ('0' as int + d) as char
  }

  /** The decimal text of a natural number, most significant digit first. */
  function NatText(n: nat): (r: string)
    ensures |r| > 0 && forall k :: 0 <= k < |r| ==> IsDigit(r[k])
  {
    if n < 10 then [DigitChar(n)] else NatText(n / 10) + [DigitChar(n % 10)]
  }

  /** `String(n)` for an integer. */
  function DecimalText(n: int): string {
    if n < 0 then "-" + NatText(-n) else NatText(n)
  }

  lemma {:induction false} NatTextValue(n: nat)
    ensures DigitsFrom(NatText(n), 0) == Some(n)
  {
    if n >= 10 {
      NatTextValue(n / 10);
      DigitsFromAppend(NatText(n / 10), [DigitChar(n % 10)], 0);
    }
  }

  /** Every 64-bit integer reads back from its decimal text. */
  lemma ParseIntDecimalText(n: int)
    requires IntMin <= n <= IntMax
    ensures ParseInt(DecimalText(n)) == Some(n)
  {
    var t := DecimalText(n);
    if n < 0 {
      NatTextValue(-n);
      assert t[0] == '-' && t[1..] == NatText(-n);
    } else {
      NatTextValue(n);
      assert IsDigit(t[0]);
    }
  }
}
