/**
 * `HOCommandLine`: the option registry, `_getFlagValues`, `parse(strict:)`,
 * `maxFlagDescriptionWidth` and `defaultFormat`.
 *
 * `parse` is specified by pure functions over an abstract `Context` (the
 * options' flags, the arguments, strict mode and the `toDouble` oracle):
 * `Scan` walks the arguments, `ScanArg` handles one, `Cluster` the
 * characters of a short-flag cluster and `Claim` one matched option. The
 * `guarded` switch selects between the cluster loop as written (no
 * `claimedIdx >= idx` test, so an inverted range traps) and the guarded
 * loop the first-match branch has; the `Parser` class runs the guarded one.
 */
module CommandLine {
  import opened Wrappers
  import opened Text
  import opened StringExtensions
  import opened Options

  /** `HOOutputType`. */
  datatype OutputType = About | Error | OptionFlag | OptionHelp

  /**
   * How `parse(strict:)` ends. Options are named by their position in the
   * registry. `Trapped` is the runtime trap of a range whose upper bound is
   * below its lower bound.
   */
  datatype Outcome =
    | Parsed(unparsed: seq<string>)
    | InvalidArgument(arg: string)
    | InvalidValueForOption(option: nat, values: seq<string>)
    | MissingRequiredOptions(missing: seq<nat>)
    | Trapped

  /** 1 when a value is attached with `=`: that value occupies no argument of its own. */
  function Att(attached: Option<string>): nat {
    if attached.Some? then 1 else 0
  }

  // ------------------------------------------------------- _getFlagValues

  /** An argument that ends a flag's values: it starts with `-` and is neither an integer nor a double. */
  predicate EndsValues(a: string, isDouble: string -> bool) {
    HasPrefix(a, ShortPrefix) && ParseInt(a).None? && !isDouble(a)
  }

  /** The arguments from `i` on that `_getFlagValues` collects; `skip` is `skipFlagChecks`. */
  function Following(args: seq<string>, i: nat, skip: bool, isDouble: string -> bool): (r: seq<string>)
    requires i <= |args|
    ensures |r| <= |args| - i
    decreases |args| - i
  {
    if i == |args| then []
    else if !skip && args[i] == ArgumentStopper then Following(args, i + 1, true, isDouble)
    else if !skip && EndsValues(args[i], isDouble) then []
    else [args[i]] + Following(args, i + 1, skip, isDouble)
  }

  /**
   * `_getFlagValues(flagIndex, attachedArg)`: the attached value first,
   * then the values after the flag; never more than there are arguments.
   */
  function FlagValues(args: seq<string>, flagIndex: nat, attached: Option<string>, isDouble: string -> bool): (r: seq<string>)
    requires flagIndex < |args|
    ensures |r| <= Att(attached) + (|args| - flagIndex - 1)
    ensures attached.Some? ==> |r| > 0 && r[0] == attached.value
  {
    (if attached.Some? then [attached.value] else []) + Following(args, flagIndex + 1, false, isDouble)
  }

  /** One argument of the loop of `_getFlagValues`, after the values `vals` collected so far. */
  lemma FollowingStep(args: seq<string>, i: nat, skip: bool, isDouble: string -> bool, vals: seq<string>)
    requires i < |args|
    ensures !skip && args[i] == ArgumentStopper ==>
      vals + Following(args, i, skip, isDouble) == vals + Following(args, i + 1, true, isDouble)
    ensures !skip && args[i] != ArgumentStopper && EndsValues(args[i], isDouble) ==>
      vals + Following(args, i, skip, isDouble) == vals
    ensures skip || (args[i] != ArgumentStopper && !EndsValues(args[i], isDouble)) ==>
      vals + Following(args, i, skip, isDouble) == vals + [args[i]] + Following(args, i + 1, skip, isDouble)
  {
  }

  /** After `--` every remaining argument is a value. */
  lemma {:induction false} TakesAllAfterStopper(args: seq<string>, i: nat, isDouble: string -> bool)
    requires i <= |args|
    ensures Following(args, i, true, isDouble) == args[i..]
    decreases |args| - i
  {
    if i < |args| {
      TakesAllAfterStopper(args, i + 1, isDouble);
      assert args[i..] == [args[i]] + args[i + 1..];
    }
  }

  /** No argument in `[i, j)` is `--` or ends the values. */
  predicate PlainRun(args: seq<string>, i: nat, j: nat, isDouble: string -> bool)
    requires i <= j <= |args|
  {
    forall k :: i <= k < j ==> args[k] != ArgumentStopper && !EndsValues(args[k], isDouble)
  }

  /**
   * The values after a flag: the arguments up to the first one that ends
   * the values; if a `--` comes first it is dropped and everything after
   * it is taken.
   */
  lemma FollowingShape(args: seq<string>, i: nat, j: nat, isDouble: string -> bool)
    requires i <= j <= |args| && PlainRun(args, i, j, isDouble)
    ensures j == |args| ==> Following(args, i, false, isDouble) == args[i..]
    ensures j < |args| && args[j] == ArgumentStopper ==>
      Following(args, i, false, isDouble) == args[i..j] + args[j + 1..]
    ensures j < |args| && args[j] != ArgumentStopper && EndsValues(args[j], isDouble) ==>
      Following(args, i, false, isDouble) == args[i..j]
  {
    FollowingPlain(args, i, j, isDouble);
    if j == |args| {
      assert args[i..j] == args[i..];
    } else if args[j] == ArgumentStopper {
      TakesAllAfterStopper(args, j + 1, isDouble);
    }
  }

  /** A plain run is taken whole, and the values go on from its end. */
  lemma {:induction false} FollowingPlain(args: seq<string>, i: nat, j: nat, isDouble: string -> bool)
    requires i <= j <= |args| && PlainRun(args, i, j, isDouble)
    ensures Following(args, i, false, isDouble) == args[i..j] + Following(args, j, false, isDouble)
    decreases j - i
  {
    if i < j {
      FollowingPlain(args, i + 1, j, isDouble);
      assert Following(args, i, false, isDouble) == [args[i]] + Following(args, i + 1, false, isDouble);
      assert args[i..j] == [args[i]] + args[i + 1..j];
    } else {
      assert args[i..j] == [];
    }
  }

  // ------------------------------------------------------ registry

  /** The flags an option uses. */
  function FlagSet(o: OptionSpec): set<string> {
    (if o.shortFlag.Some? then {o.shortFlag.value} else {}) + (if o.longFlag.Some? then {o.longFlag.value} else {})
  }

  /** `_usedFlags`: every flag of every registered option. */
  function UsedFlags(opts: seq<OptionSpec>): (r: set<string>)
    ensures forall f :: f in r <==> exists k :: 0 <= k < |opts| && f in FlagSet(opts[k])
    decreases |opts|
  {
    if opts == [] then {}
    else
      var init := opts[..|opts| - 1];
      assert forall k :: 0 <= k < |init| ==> init[k] == opts[k];
      UsedFlags(init) + FlagSet(opts[|opts| - 1])
  }

  /** The assertion of `addOption`: neither flag of `o` is in use. */
  predicate FlagsUnused(opts: seq<OptionSpec>, o: OptionSpec) {
    FlagSet(o) !! UsedFlags(opts)
  }

  /** No flag belongs to two registered options. */
  predicate FlagsDisjoint(opts: seq<OptionSpec>) {
    forall i, j :: 0 <= i < j < |opts| ==> FlagSet(opts[i]) !! FlagSet(opts[j])
  }

  /**
   * `addOption` keeps the flags disjoint exactly when its assertion holds:
   * the assertion on `_usedFlags` is the right check.
   */
  lemma AppendDisjoint(opts: seq<OptionSpec>, o: OptionSpec)
    requires FlagsDisjoint(opts)
    ensures FlagsDisjoint(opts + [o]) <==> FlagsUnused(opts, o)
  {
    var opts' := opts + [o];
    if FlagsUnused(opts, o) {
      forall i, j | 0 <= i < j < |opts'|
        ensures FlagSet(opts'[i]) !! FlagSet(opts'[j])
      {
        assert opts'[i] == opts[i];
        if j == |opts| {
          forall f | f in FlagSet(opts[i])
            ensures f !in FlagSet(o)
          {
            assert f in UsedFlags(opts);
          }
        } else {
          assert opts'[j] == opts[j];
        }
      }
    } else {
      var f :| f in FlagSet(o) && f in UsedFlags(opts);
      var k :| 0 <= k < |opts| && f in FlagSet(opts[k]);
      assert opts'[k] == opts[k] && opts'[|opts|] == o;
    }
  }

  /** The flags and required switches of a list of option objects. */
  function SpecsOf(os: seq<CLOption>): (r: seq<OptionSpec>)
    ensures |r| == |os| && forall i :: 0 <= i < |os| ==> r[i] == os[i].Spec()
  {
    seq(|os|, i requires 0 <= i < |os| => os[i].Spec())
  }

  /** The specs of a list extended by a prefix of another are a prefix of the joined specs. */
  lemma SpecsPrefix(a: seq<CLOption>, os: seq<CLOption>, i: nat)
    requires i <= |os|
    ensures SpecsOf(a + os[..i]) == (SpecsOf(a) + SpecsOf(os))[..|a| + i]
  {
    var l := SpecsOf(a + os[..i]);
    var r := (SpecsOf(a) + SpecsOf(os))[..|a| + i];
    assert |l| == |r|;
    forall k | 0 <= k < |l|
      ensures l[k] == r[k]
    {
      if k < |a| {
        assert (a + os[..i])[k] == a[k];
      } else {
        assert (a + os[..i])[k] == os[k - |a|];
      }
    }
  }

  /** Adding `os` one by one: the next option's flags are unused by those added before it. */
  lemma NextFlagsUnused(before: seq<CLOption>, os: seq<CLOption>, i: nat)
    requires i < |os| && FlagsDisjoint(SpecsOf(before) + SpecsOf(os))
    ensures FlagsUnused(SpecsOf(before + os[..i]), os[i].Spec())
  {
    var all := SpecsOf(before) + SpecsOf(os);
    var pre := SpecsOf(before + os[..i]);
    SpecsPrefix(before, os, i);
    assert all[|before| + i] == os[i].Spec();
    forall f | f in FlagSet(os[i].Spec())
      ensures f !in UsedFlags(pre)
    {
      forall k | 0 <= k < |pre|
        ensures f !in FlagSet(pre[k])
      {
        assert pre[k] == all[k];
      }
    }
  }

  /** The current value of each option object. */
  function ValuesOf(os: seq<CLOption>): (r: seq<Value>)
    reads set o | o in os
    ensures |r| == |os| && forall i :: 0 <= i < |os| ==> r[i] == os[i].value
  {
    seq(|os|, i reads set o | o in os requires 0 <= i < |os| => os[i].value)
  }

  // ------------------------------------------------ maxFlagDescriptionWidth

  /** The width the flag column needs: the longest flag description, or 0 with no options. */
  function FlagWidth(opts: seq<OptionSpec>): (w: nat)
    ensures forall k :: 0 <= k < |opts| ==> |opts[k].Description()| <= w
    ensures |opts| == 0 ==> w == 0
    ensures |opts| > 0 ==> exists k :: 0 <= k < |opts| && |opts[k].Description()| == w
    decreases |opts|
  {
    if opts == [] then 0
    else
      var init := opts[..|opts| - 1];
      assert forall k :: 0 <= k < |init| ==> init[k] == opts[k];
      var rest := FlagWidth(init);
      var d := |opts[|opts| - 1].Description()|;
      if d >= rest then d else rest
  }

  /**
   * `maxFlagDescriptionWidth` as written: `sorted().first` is the shortest
   * description, or 0 with no options.
   */
  function FlagWidthAsWritten(opts: seq<OptionSpec>): (w: nat)
    ensures forall k :: 0 <= k < |opts| ==> w <= |opts[k].Description()|
    ensures |opts| == 0 ==> w == 0
    ensures |opts| > 0 ==> exists k :: 0 <= k < |opts| && |opts[k].Description()| == w
    decreases |opts|
  {
    if opts == [] then 0
    else if |opts| == 1 then |opts[0].Description()|
    else
      var init := opts[..|opts| - 1];
      assert forall k :: 0 <= k < |init| ==> init[k] == opts[k];
      var rest := FlagWidthAsWritten(init);
      var d := |opts[|opts| - 1].Description()|;
      if d <= rest then d else rest
  }

  /** `defaultFormat(s:type:)` with the flag column `width` wide. */
  function Format(s: string, t: OutputType, width: nat): string {
    match t
    case About => s + "\n"
    case Error => s + "\n\n"
    case OptionFlag => "  " + Padded(s, width, ' ') + ":\n"
    case OptionHelp => "     " + s + "\n"
  }

  /**
   * With the widest description as the column width, every option's flag
   * line holds its description from column 2 and its `:` at the same
   * column, `width + 2`.
   */
  lemma FlagColumnsAligned(opts: seq<OptionSpec>, k: nat)
    requires k < |opts|
    ensures var w := FlagWidth(opts);
      var line := Format(opts[k].Description(), OptionFlag, w);
      && |line| == w + 4
      && line[2..2 + |opts[k].Description()|] == opts[k].Description()
      && line[w + 2] == ':'
  {
    var w := FlagWidth(opts);
    var d := opts[k].Description();
    var p := Padded(d, w, ' ');
    assert |p| == w;
    var line := "  " + p + ":\n";
    assert line[2..2 + |d|] == p[..|d|];
  }

  /**
   * With the shortest description as the width, a longer description
   * pushes its `:` out of the column: `-h` and `-o, --output` put it at
   * different columns.
   */
  lemma ShortestWidthMisaligns()
    ensures var opts := [OptionSpec(Some("h"), None, false), OptionSpec(Some("o"), Some("output"), false)];
      var w := FlagWidthAsWritten(opts);
      && w == 2
      && Format(opts[0].Description(), OptionFlag, w)[w + 2] == ':'
      && Format(opts[1].Description(), OptionFlag, w)[w + 2] != ':'
  {
    var opts := [OptionSpec(Some("h"), None, false), OptionSpec(Some("o"), Some("output"), false)];
    assert opts[0].Description() == "-h";
    assert opts[1].Description() == "-o, --output";
    assert opts[..1] == [opts[0]];
    assert FlagWidthAsWritten(opts) == 2;
    assert Padded("-h", 2, ' ') == "-h";
    assert Padded("-o, --output", 2, ' ') == "-o, --output";
  }

  // ---------------------------------------------------------------- parse

  /** What `parse` reads besides the options' values. */
  datatype Context = Context(opts: seq<OptionSpec>, args: seq<string>, strict: bool, guarded: bool, isDouble: string -> bool)

  /** The options' values and `strays`, the arguments not yet claimed. */
  datatype ScanState = ScanState(values: seq<Value>, strays: seq<string>)

  /** The state after some steps, and the error that ended the scan, if one did. */
  datatype Scanned = Scanned(st: ScanState, failure: Option<Outcome>)

  /** The result of a cluster loop and whether any character matched. */
  datatype ClusterScan = ClusterScan(scanned: Scanned, matched: bool)

  /** A flag, and the value attached to it with `=`. */
  datatype FlagArg = FlagArg(flag: string, attached: Option<string>)

  predicate Fits(cx: Context, st: ScanState) {
    |st.values| == |cx.opts| && |st.strays| == |cx.args|
  }

  /** Each stray is its argument or blanked, and the program name is blank. */
  predicate StraysOf(args: seq<string>, strays: seq<string>) {
    && |strays| == |args|
    && |args| > 0
    && strays[0] == ""
    && forall i :: 0 <= i < |strays| ==> strays[i] == args[i] || strays[i] == ""
  }

  /** The first option from `i` on whose flags include `flag`. */
  function FirstMatchFrom(opts: seq<OptionSpec>, flag: string, i: nat): (r: Option<nat>)
    requires i <= |opts|
    ensures r.Some? ==> i <= r.value < |opts| && opts[r.value].Matches(flag)
    ensures r.Some? ==> forall j :: i <= j < r.value ==> !opts[j].Matches(flag)
    ensures r.None? ==> forall j :: i <= j < |opts| ==> !opts[j].Matches(flag)
    decreases |opts| - i
  {
    if i == |opts| then None
    else if opts[i].Matches(flag) then Some(i)
    else FirstMatchFrom(opts, flag, i + 1)
  }

  /** `for option in _options where option.flagMatch(flag) { ...; break }`: the first match wins. */
  function FirstMatch(opts: seq<OptionSpec>, flag: string): (r: Option<nat>)
    ensures r.Some? ==> r.value < |opts| && opts[r.value].Matches(flag) && opts[r.value].HasFlag()
    ensures r.Some? ==> forall j :: 0 <= j < r.value ==> !opts[j].Matches(flag)
    ensures r.None? ==> forall j :: 0 <= j < |opts| ==> !opts[j].Matches(flag)
  {
    FirstMatchFrom(opts, flag, 0)
  }

  /** The pieces of `split(by: "=", maxSplits: 1)`: the whole text, or the text around the first `=`. */
  lemma AttacherSplit(s: string)
    requires s != []
    ensures ArgumentAttacher !in s ==> Split(s, ArgumentAttacher, 1) == [s]
    ensures ArgumentAttacher in s ==>
      var i := IndexOf(s, ArgumentAttacher);
      && Split(s, ArgumentAttacher, 1) == [s[..i]] + (if i + 1 == |s| then [] else [s[i + 1..]])
      && s == s[..i] + [ArgumentAttacher] + s[i + 1..]
  {
    if ArgumentAttacher in s {
      AttacherCut(s);
      var i := IndexOf(s, ArgumentAttacher);
      SplitsAround(s, i);
    }
  }

  lemma SplitsAround(s: string, i: nat)
    requires i < |s|
    ensures s == s[..i] + [s[i]] + s[i + 1..]
  {
    assert s[..i] + [s[i]] == s[..i + 1];
  }

  lemma AttacherCut(s: string)
    requires ArgumentAttacher in s
    ensures var i := IndexOf(s, ArgumentAttacher);
      Split(s, ArgumentAttacher, 1) == [s[..i]] + (if i + 1 == |s| then [] else [s[i + 1..]])
  {
    var i := IndexOf(s, ArgumentAttacher);
    assert s[0..] == s && s[0..i] == s[..i];
    CutAt(s, ArgumentAttacher, AtMost(1), 0, i);
    var rest := s[i + 1..];
    assert Cut(rest, ArgumentAttacher, AtMost(0)) == if rest == [] then [] else [rest];
  }

  /**
   * `flagWithArg.split(by: "=", maxSplits: 1)`: the text before the first
   * `=`, and the text after it when that is not empty.
   */
  function SplitAttached(flagWithArg: string): (r: FlagArg)
    requires flagWithArg != []
    ensures ArgumentAttacher !in flagWithArg ==> r == FlagArg(flagWithArg, None)
    ensures ArgumentAttacher in flagWithArg ==> ArgumentAttacher !in r.flag && HasPrefix(flagWithArg, r.flag + [ArgumentAttacher])
    ensures r.attached.Some? ==> flagWithArg == r.flag + [ArgumentAttacher] + r.attached.value
    ensures r.attached.None? ==> flagWithArg == r.flag || flagWithArg == r.flag + [ArgumentAttacher]
  {
    var parts := Split(flagWithArg, ArgumentAttacher, 1);
    AttacherSplit(flagWithArg);
    if |parts| == 2 then FlagArg(parts[0], Some(parts[1])) else FlagArg(parts[0], None)
  }

  /** `split(by: "=", maxSplits: 1)` on the flag text, as `parse` runs it. */
  method SplitFlag(flagWithArg: string) returns (fa: FlagArg)
    requires flagWithArg != []
    ensures fa == SplitAttached(flagWithArg)
  {
    var parts := SplitBy(flagWithArg, ArgumentAttacher, 1);
    CutEmpty(flagWithArg, ArgumentAttacher, BudgetOf(1));
    fa := FlagArg(parts[0], if |parts| == 2 then Some(parts[1]) else None);
  }

  /** `strays` with positions `lo` to `hi` blanked. */
  function Blank(strays: seq<string>, lo: nat, hi: nat): (r: seq<string>)
    requires hi < |strays|
    ensures |r| == |strays|
    ensures forall i :: 0 <= i < |r| ==> r[i] == if lo <= i <= hi then "" else strays[i]
  {
    seq(|strays|, i requires 0 <= i < |strays| => if lo <= i <= hi then "" else strays[i])
  }

  /**
   * Option `k` claims `vals` for the flag at `idx`: a refusal is
   * `InvalidValueForOption` and changes nothing; otherwise only option `k`
   * changes, and only strays from `idx` to the last argument the values
   * came from are blanked. Without the guard an attached value nobody
   * claimed inverts the range and traps.
   */
  function Claim(cx: Context, idx: nat, k: nat, vals: seq<string>, attached: Option<string>, st: ScanState, guarded: bool): (r: Scanned)
    requires Fits(cx, st) && idx < |cx.args| && k < |cx.opts|
    requires |vals| <= Att(attached) + (|cx.args| - idx - 1)
    ensures Fits(cx, r.st)
  {
    var a := SetValue(st.values[k], vals);
    if !a.ok then Scanned(st, Some(InvalidValueForOption(k, vals)))
    else
      var values := st.values[k := a.value];
      var claimedIdx := idx + ClaimedValues(a.value) - Att(attached);
      if claimedIdx >= idx then Scanned(ScanState(values, Blank(st.strays, idx, claimedIdx)), None)
      else if guarded then Scanned(ScanState(values, st.strays), None)
      else Scanned(ScanState(values, st.strays), Some(Trapped))
  }

  /**
   * What a claim does: a refusal is `InvalidValueForOption` and changes
   * nothing; otherwise option `k` holds what `SetValue` gives, every other
   * option keeps its value, and no stray outside the consumed arguments
   * changes; only the unguarded claim traps.
   */
  lemma ClaimEffect(cx: Context, idx: nat, k: nat, vals: seq<string>, attached: Option<string>, st: ScanState, guarded: bool)
    requires Fits(cx, st) && idx < |cx.args| && k < |cx.opts|
    requires |vals| <= Att(attached) + (|cx.args| - idx - 1)
    ensures var r := Claim(cx, idx, k, vals, attached, st, guarded);
      && (forall j :: 0 <= j < |cx.opts| && j != k ==> r.st.values[j] == st.values[j])
      && (forall i :: 0 <= i < |cx.args| && (i < idx || i + Att(attached) > idx + |vals|) ==> r.st.strays[i] == st.strays[i])
      && (StraysOf(cx.args, st.strays) ==> StraysOf(cx.args, r.st.strays))
      && (r.failure == Some(InvalidValueForOption(k, vals)) <==> !SetValue(st.values[k], vals).ok)
      && (r.failure == Some(InvalidValueForOption(k, vals)) ==> r.st == st)
      && (r.failure.Some? ==> r.failure == Some(InvalidValueForOption(k, vals)) || (r.failure == Some(Trapped) && !guarded))
      && (r.failure.None? ==> r.st.values[k] == SetValue(st.values[k], vals).value)
  {
  }

  /**
   * The cluster loop from character `i`: each character is a flag of its
   * own, and only the last one receives values. The result is matched
   * exactly when some character names an option.
   */
  function Cluster(cx: Context, idx: nat, flag: string, i: nat, attached: Option<string>, st: ScanState, matched: bool): (r: ClusterScan)
    requires Fits(cx, st) && idx < |cx.args| && i <= |flag|
    ensures Fits(cx, r.scanned.st)
    decreases |flag| - i
  {
    if i == |flag| then ClusterScan(Scanned(st, None), matched)
    else
      match FirstMatch(cx.opts, [flag[i]])
      case None => Cluster(cx, idx, flag, i + 1, attached, st, matched)
      case Some(k) =>
        var vals := if i == |flag| - 1 then FlagValues(cx.args, idx, attached, cx.isDouble) else [];
        var c := Claim(cx, idx, k, vals, attached, st, cx.guarded);
        if c.failure.Some? then ClusterScan(c, true)
        else Cluster(cx, idx, flag, i + 1, attached, c.st, true)
  }

  /** One character of the cluster loop. */
  lemma ClusterStep(cx: Context, idx: nat, flag: string, i: nat, attached: Option<string>, st: ScanState, matched: bool)
    requires Fits(cx, st) && idx < |cx.args| && i < |flag|
    ensures FirstMatch(cx.opts, [flag[i]]).None? ==>
      Cluster(cx, idx, flag, i, attached, st, matched) == Cluster(cx, idx, flag, i + 1, attached, st, matched)
    ensures FirstMatch(cx.opts, [flag[i]]).Some? ==>
      var vals := if i == |flag| - 1 then FlagValues(cx.args, idx, attached, cx.isDouble) else [];
      var c := Claim(cx, idx, FirstMatch(cx.opts, [flag[i]]).value, vals, attached, st, cx.guarded);
      Cluster(cx, idx, flag, i, attached, st, matched)
        == if c.failure.Some? then ClusterScan(c, true) else Cluster(cx, idx, flag, i + 1, attached, c.st, true)
  {
  }

  /**
   * The cluster loop keeps the strays well formed, fails only by a refused
   * value or (unguarded) a trap, fails only after a match, and reports a
   * match exactly when some character from `i` on names an option.
   */
  lemma {:induction false} ClusterEffect(cx: Context, idx: nat, flag: string, i: nat, attached: Option<string>, st: ScanState, matched: bool)
    requires Fits(cx, st) && idx < |cx.args| && i <= |flag|
    ensures var r := Cluster(cx, idx, flag, i, attached, st, matched);
      && (StraysOf(cx.args, st.strays) ==> StraysOf(cx.args, r.scanned.st.strays))
      && (r.scanned.failure.Some? ==> r.scanned.failure.value.InvalidValueForOption? || (r.scanned.failure == Some(Trapped) && !cx.guarded))
      && (r.scanned.failure.Some? ==> r.matched)
      && (r.matched <==> matched || exists j :: i <= j < |flag| && FirstMatch(cx.opts, [flag[j]]).Some?)
    decreases |flag| - i
  {
    if i < |flag| {
      match FirstMatch(cx.opts, [flag[i]])
      case None =>
        ClusterEffect(cx, idx, flag, i + 1, attached, st, matched);
      case Some(k) =>
        var vals := if i == |flag| - 1 then FlagValues(cx.args, idx, attached, cx.isDouble) else [];
        ClaimEffect(cx, idx, k, vals, attached, st, cx.guarded);
        var c := Claim(cx, idx, k, vals, attached, st, cx.guarded);
        if c.failure.None? {
          ClusterEffect(cx, idx, flag, i + 1, attached, c.st, true);
        }
    }
  }

  /** The flag text of an argument starting with `-`: what follows `--` or `-`. */
  function FlagText(arg: string): string
    requires HasPrefix(arg, ShortPrefix)
  {
    if HasPrefix(arg, LongPrefix) then arg[|LongPrefix|..] else arg[|ShortPrefix|..]
  }

  /**
   * A single-dash argument that strict mode refuses: neither its flag nor
   * any character of it names an option.
   */
  predicate Unrecognised(opts: seq<OptionSpec>, arg: string) {
    && HasPrefix(arg, ShortPrefix)
    && !HasPrefix(arg, LongPrefix)
    && FlagText(arg) != []
    && var fa := SplitAttached(FlagText(arg));
    && FirstMatch(opts, fa.flag).None?
    && forall j :: 0 <= j < |fa.flag| ==> FirstMatch(opts, [fa.flag[j]]).None?
  }

  /**
   * One pass of the loop body of `parse` for argument `idx` (which is not
   * `--`): plain arguments and a bare `-` or `--` change nothing; a flag
   * naming an option claims values; an unmatched single-dash flag is a
   * cluster; strict mode refuses exactly the unrecognised arguments.
   */
  function ScanArg(cx: Context, idx: nat, st: ScanState): (r: Scanned)
    requires Fits(cx, st) && idx < |cx.args|
    ensures Fits(cx, r.st)
  {
    var arg := cx.args[idx];
    if !HasPrefix(arg, ShortPrefix) || FlagText(arg) == [] then Scanned(st, None)
    else ScanFlag(cx, idx, SplitAttached(FlagText(arg)), st)
  }

  /**
   * The flag `fa` of argument `idx`: an option it names claims values;
   * otherwise a single-dash flag is a cluster, and strict mode refuses it
   * when no character matched.
   */
  function ScanFlag(cx: Context, idx: nat, fa: FlagArg, st: ScanState): (r: Scanned)
    requires Fits(cx, st) && idx < |cx.args|
    ensures Fits(cx, r.st)
  {
    match FirstMatch(cx.opts, fa.flag)
    case Some(k) => Claim(cx, idx, k, FlagValues(cx.args, idx, fa.attached, cx.isDouble), fa.attached, st, true)
    case None =>
      if HasPrefix(cx.args[idx], LongPrefix) then Scanned(st, None)
      else
        var c := Cluster(cx, idx, fa.flag, 0, fa.attached, st, false);
        if c.scanned.failure.None? && cx.strict && !c.matched then Scanned(c.scanned.st, Some(InvalidArgument(cx.args[idx])))
        else c.scanned
  }

  /**
   * One argument: plain arguments and a bare `-` or `--` change nothing,
   * strict mode refuses exactly the unrecognised arguments, and the other
   * errors are a refused value or (unguarded) a trap.
   */
  lemma ScanArgEffect(cx: Context, idx: nat, st: ScanState)
    requires Fits(cx, st) && idx < |cx.args|
    ensures var r := ScanArg(cx, idx, st);
      && (StraysOf(cx.args, st.strays) ==> StraysOf(cx.args, r.st.strays))
      && (var a := cx.args[idx];
          !HasPrefix(a, ShortPrefix) || a == ShortPrefix || a == LongPrefix ==> r == Scanned(st, None))
      && (r.failure == Some(InvalidArgument(cx.args[idx])) <==> cx.strict && Unrecognised(cx.opts, cx.args[idx]))
      && (r.failure.Some? ==>
          || r.failure.value.InvalidValueForOption?
          || r.failure == Some(InvalidArgument(cx.args[idx]))
          || (r.failure == Some(Trapped) && !cx.guarded))
  {
    var arg := cx.args[idx];
    if HasPrefix(arg, ShortPrefix) && FlagText(arg) != [] {
      var fa := SplitAttached(FlagText(arg));
      match FirstMatch(cx.opts, fa.flag)
      case Some(k) =>
        ClaimEffect(cx, idx, k, FlagValues(cx.args, idx, fa.attached, cx.isDouble), fa.attached, st, true);
      case None =>
        ClusterEffect(cx, idx, fa.flag, 0, fa.attached, st, false);
    }
  }

  /** The loop of `parse` from argument `idx` on: it ends at `--`, at the end, or at the first error. */
  function Scan(cx: Context, idx: nat, st: ScanState): (r: Scanned)
    requires Fits(cx, st) && idx <= |cx.args|
    ensures Fits(cx, r.st)
    decreases |cx.args| - idx
  {
    if idx == |cx.args| || cx.args[idx] == ArgumentStopper then Scanned(st, None)
    else
      var s := ScanArg(cx, idx, st);
      if s.failure.Some? then s else Scan(cx, idx + 1, s.st)
  }

  /**
   * The whole loop keeps the strays well formed, and it ends in an error
   * only for a refused value, an argument strict mode does not recognise,
   * or (unguarded) a trap.
   */
  lemma {:induction false} ScanEffect(cx: Context, idx: nat, st: ScanState)
    requires Fits(cx, st) && idx <= |cx.args|
    ensures var r := Scan(cx, idx, st);
      && (StraysOf(cx.args, st.strays) ==> StraysOf(cx.args, r.st.strays))
      && (r.failure.Some? ==>
          || r.failure.value.InvalidValueForOption?
          || (r.failure.value.InvalidArgument? && cx.strict && Unrecognised(cx.opts, r.failure.value.arg))
          || (r.failure == Some(Trapped) && !cx.guarded))
    decreases |cx.args| - idx
  {
    if idx < |cx.args| && cx.args[idx] != ArgumentStopper {
      ScanArgEffect(cx, idx, st);
      var s := ScanArg(cx, idx, st);
      if s.failure.None? {
        ScanEffect(cx, idx + 1, s.st);
      }
    }
  }

  /**
   * Arguments after the first `--` never reach an option: when nothing
   * before it is a flag, the scan changes nothing, whatever follows.
   */
  lemma {:induction false} StopperEndsScan(cx: Context, idx: nat, j: nat, st: ScanState)
    requires Fits(cx, st) && idx <= j < |cx.args| && cx.args[j] == ArgumentStopper
    requires forall i :: idx <= i < j ==> !HasPrefix(cx.args[i], ShortPrefix)
    ensures Scan(cx, idx, st) == Scanned(st, None)
    decreases j - idx
  {
    if idx < j {
      StopperEndsScan(cx, idx + 1, j, st);
    }
  }

  /** `_options.filter { $0.required && !$0.wasSet }` over the first `n` options, by position. */
  function MissingAmong(opts: seq<OptionSpec>, values: seq<Value>, n: nat): (r: seq<nat>)
    requires n <= |opts| && |values| == |opts|
    ensures forall k: nat :: k in r <==> k < n && opts[k].required && !WasSet(values[k])
    ensures forall a, b :: 0 <= a < b < |r| ==> r[a] < r[b]
    decreases n
  {
    if n == 0 then []
    else
      var rest := MissingAmong(opts, values, n - 1);
      assert forall a :: 0 <= a < |rest| ==> rest[a] in rest;
      if opts[n - 1].required && !WasSet(values[n - 1]) then rest + [n - 1] else rest
  }

  /** `strays.filter { $0 != "" }`. */
  function NonEmptyArgs(s: seq<string>): (r: seq<string>)
    ensures forall x :: x in r <==> x in s && x != ""
    ensures |r| <= |s|
    decreases |s|
  {
    if s == [] then []
    else
      var init := s[..|s| - 1];
      var last := s[|s| - 1];
      assert forall x :: x in s <==> x in init || x == last;
      if last != "" then NonEmptyArgs(init) + [last] else NonEmptyArgs(init)
  }

  /** The outcome of `parse(strict:)` and the options' values afterwards. */
  datatype ParseResult = ParseResult(outcome: Outcome, values: seq<Value>)

  /** `parse(strict:)` from the options' values `values0`. */
  function ParseResultOf(cx: Context, values0: seq<Value>): (r: ParseResult)
    requires |cx.args| > 0 && |values0| == |cx.opts|
    ensures |r.values| == |cx.opts|
  {
    var s := Scan(cx, 0, ScanState(values0, cx.args[0 := ""]));
    if s.failure.Some? then ParseResult(s.failure.value, s.st.values)
    else
      var missing := MissingAmong(cx.opts, s.st.values, |cx.opts|);
      if |missing| > 0 then ParseResult(MissingRequiredOptions(missing), s.st.values)
      else ParseResult(Parsed(NonEmptyArgs(s.st.strays)), s.st.values)
  }

  /**
   * The guarded parse never traps; only strict mode refuses arguments, and
   * only unrecognised ones; a parse that succeeds leaves every required
   * option set and reports only non-empty arguments other than the program
   * name; a missing-options error lists exactly the required options left
   * unset.
   */
  lemma ParseResultProperties(cx: Context, values0: seq<Value>)
    requires |cx.args| > 0 && |values0| == |cx.opts|
    ensures var r := ParseResultOf(cx, values0);
      && (cx.guarded ==> !r.outcome.Trapped?)
      && (!cx.strict ==> !r.outcome.InvalidArgument?)
      && (r.outcome.InvalidArgument? ==> Unrecognised(cx.opts, r.outcome.arg))
      && (r.outcome.Parsed? ==> forall k :: 0 <= k < |cx.opts| && cx.opts[k].required ==> WasSet(r.values[k]))
      && (r.outcome.Parsed? ==>
          forall u :: u in r.outcome.unparsed ==> u != "" && exists i :: 1 <= i < |cx.args| && cx.args[i] == u)
      && (r.outcome.MissingRequiredOptions? ==>
          && |r.outcome.missing| > 0
          && forall k: nat :: k in r.outcome.missing <==> k < |cx.opts| && cx.opts[k].required && !WasSet(r.values[k]))
  {
    var strays0 := cx.args[0 := ""];
    assert StraysOf(cx.args, strays0);
    ScanEffect(cx, 0, ScanState(values0, strays0));
    var s := Scan(cx, 0, ScanState(values0, strays0));
    if s.failure.None? {
      var missing := MissingAmong(cx.opts, s.st.values, |cx.opts|);
      if |missing| == 0 {
        var unparsed := NonEmptyArgs(s.st.strays);
        forall u | u in unparsed
          ensures u != "" && exists i :: 1 <= i < |cx.args| && cx.args[i] == u
        {
          var i :| 0 <= i < |s.st.strays| && s.st.strays[i] == u;
          assert cx.args[i] == u;
        }
        forall k | 0 <= k < |cx.opts| && cx.opts[k].required
          ensures WasSet(s.st.values[k])
        {
          assert k !in missing;
        }
      }
    }
  }

  /**
   * As written, a Bool option clustered before another character with an
   * attached value traps: `-vx=3` claims nothing for `v`, so the blanking
   * range runs from 1 down to 0.
   */
  lemma ClusteredAttachedValueTraps(isDouble: string -> bool)
    ensures var cx := Context([OptionSpec(Some("v"), None, false)], ["prog", "-vx=3"], false, false, isDouble);
      ParseResultOf(cx, [BoolValue(false)]).outcome == Trapped
  {
    var cx := Context([OptionSpec(Some("v"), None, false)], ["prog", "-vx=3"], false, false, isDouble);
    ClusterCase(cx);
    assert cx.args[0 := ""] == ["", "-vx=3"];
  }

  /**
   * With the guard the same arguments parse: `v` is set and `-vx=3`,
   * which no option consumed, stays unparsed.
   */
  lemma ClusteredAttachedValueParses(isDouble: string -> bool)
    ensures var cx := Context([OptionSpec(Some("v"), None, false)], ["prog", "-vx=3"], false, true, isDouble);
      ParseResultOf(cx, [BoolValue(false)]) == ParseResult(Parsed(["-vx=3"]), [BoolValue(true)])
  {
    var cx := Context([OptionSpec(Some("v"), None, false)], ["prog", "-vx=3"], false, true, isDouble);
    ClusterCase(cx);
    assert cx.args[0 := ""] == ["", "-vx=3"];
    assert MissingAmong(cx.opts, [BoolValue(true)], 1) == [];
    assert NonEmptyArgs(["", "-vx=3"]) == ["-vx=3"] by {
      assert ["", "-vx=3"][..1] == [""];
      assert NonEmptyArgs([""]) == [];
    }
  }

  /** The scan of `prog -vx=3` against the single option `-v`, step by step. */
  lemma ClusterCase(cx: Context)
    requires cx.opts == [OptionSpec(Some("v"), None, false)] && cx.args == ["prog", "-vx=3"] && !cx.strict
    ensures var st := ScanState([BoolValue(false)], ["", "-vx=3"]);
      Scan(cx, 0, st) == Scanned(ScanState([BoolValue(true)], st.strays), if cx.guarded then None else Some(Trapped))
  {
    var st := ScanState([BoolValue(false)], ["", "-vx=3"]);
    var st1 := ScanState([BoolValue(true)], st.strays);
    var t: Option<Outcome> := if cx.guarded then None else Some(Trapped);
    assert "prog"[..1] == "p";
    assert ScanArg(cx, 0, st) == Scanned(st, None);
    assert Scan(cx, 0, st) == Scan(cx, 1, st);
    FlagOfCluster();
    assert FirstMatch(cx.opts, "vx") == None;
    ClusterOfVx(cx);
    assert ScanArg(cx, 1, st) == Scanned(st1, t);
    assert Scan(cx, 2, st1) == Scanned(st1, None);
  }

  /** `-vx=3` is the single-dash flag `vx` with the attached value `3`. */
  lemma FlagOfCluster()
    ensures HasPrefix("-vx=3", ShortPrefix) && !HasPrefix("-vx=3", LongPrefix)
    ensures FlagText("-vx=3") == "vx=3" && SplitAttached("vx=3") == FlagArg("vx", Some("3"))
  {
    var arg := "-vx=3";
    assert arg[..1] == ShortPrefix && arg[..2] == "-v";
    assert IndexOf("vx=3", '=') == 2;
    assert "vx=3"[..2] == "vx" && "vx=3"[3..] == "3";
    AttacherSplit("vx=3");
  }

  /** The cluster loop over `vx`: `v` claims nothing, `x` names no option. */
  lemma ClusterOfVx(cx: Context)
    requires cx.opts == [OptionSpec(Some("v"), None, false)] && cx.args == ["prog", "-vx=3"]
    ensures var st := ScanState([BoolValue(false)], ["", "-vx=3"]);
      Cluster(cx, 1, "vx", 0, Some("3"), st, false)
        == ClusterScan(Scanned(ScanState([BoolValue(true)], st.strays), if cx.guarded then None else Some(Trapped)), true)
  {
    var st := ScanState([BoolValue(false)], ["", "-vx=3"]);
    var st1 := ScanState([BoolValue(true)], st.strays);
    var t: Option<Outcome> := if cx.guarded then None else Some(Trapped);
    assert FirstMatch(cx.opts, ['v']) == Some(0);
    assert FirstMatch(cx.opts, ['x']) == None;
    var c := Claim(cx, 1, 0, [], Some("3"), st, cx.guarded);
    assert c == Scanned(st1, t);
    var rest := Cluster(cx, 1, "vx", 1, Some("3"), st1, true);
    assert rest == Cluster(cx, 1, "vx", 2, Some("3"), st1, true);
    assert rest == ClusterScan(Scanned(st1, None), true);
  }

  // ---------------------------------------------------------------- Parser

  /** `HOCommandLine`: the arguments, the registered options and the width cache. */
  class Parser {
    const arguments: seq<string>
    /** `toDouble() != nil`, which depends on the locale. */
    const isDouble: string -> bool
    var options: seq<CLOption>
    var widthCache: nat
    var unparsed: seq<string>

    constructor (arguments: seq<string>, isDouble: string -> bool)
      ensures this.arguments == arguments && this.isDouble == isDouble
      ensures options == [] && widthCache == 0 && unparsed == []
      ensures Valid()
    {
      this.arguments := arguments;
      this.isDouble := isDouble;
      options := [];
      widthCache := 0;
      unparsed := [];
    }

    function Specs(): seq<OptionSpec>
      reads this
    {
      SpecsOf(options)
    }

    function Values(): seq<Value>
      reads this, set o | o in options
    {
      ValuesOf(options)
    }

    /**
     * Every option was added with unused flags, and a non-zero cache holds
     * the width of the registered options (after `setOptions([])` the
     * cache may still hold an earlier width).
     */
    ghost predicate Valid()
      reads this
    {
      && FlagsDisjoint(Specs())
      && (options != [] && widthCache != 0 ==> widthCache == FlagWidth(Specs()))
    }

    /** The parse context of this command line. */
    function ContextOf(strict: bool): Context
      reads this
    {
      Context(Specs(), arguments, strict, true, isDouble)
    }

    /** `addOption`: its flags must be unused; the option is appended and the cache reset. */
    method AddOption(option: CLOption)
      requires Valid() && FlagsUnused(Specs(), option.Spec())
      modifies this`options, this`widthCache
      ensures Valid()
      ensures options == old(options) + [option] && widthCache == 0
    {
      AppendDisjoint(Specs(), option.Spec());
      options := options + [option];
      assert Specs() == old(Specs()) + [option.Spec()];
      widthCache := 0;
    }

    /** `addOptions`: each option in turn. */
    method AddOptions(os: seq<CLOption>)
      requires Valid() && FlagsDisjoint(Specs() + SpecsOf(os))
      modifies this`options, this`widthCache
      ensures Valid()
      ensures options == old(options) + os
      ensures widthCache == if os == [] then old(widthCache) else 0
    {
      ghost var before := options;
      for i := 0 to |os|
        invariant Valid()
        invariant options == before + os[..i]
        invariant widthCache == if i == 0 then old(widthCache) else 0
      {
        NextFlagsUnused(before, os, i);
        AddOption(os[i]);
        assert os[..i + 1] == os[..i] + [os[i]];
      }
      assert os[..|os|] == os;
    }

    /** `setOptions`: the list is cleared (the cache is not), then the options are added. */
    method SetOptions(os: seq<CLOption>)
      requires FlagsDisjoint(SpecsOf(os))
      modifies this`options, this`widthCache
      ensures Valid()
      ensures options == os
      ensures widthCache == if os == [] then old(widthCache) else 0
    {
      options := [];
      assert Specs() + SpecsOf(os) == SpecsOf(os);
      AddOptions(os);
    }

    /**
     * `maxFlagDescriptionWidth`, computing the widest description (the
     * source takes the narrowest; see `FlagWidthAsWritten`) and caching it
     * while it is not 0. With options registered it is the flag column's
     * width.
     */
    method MaxFlagDescriptionWidth() returns (w: nat)
      requires Valid()
      modifies this`widthCache
      ensures Valid() && widthCache == w
      ensures w == if old(widthCache) == 0 then FlagWidth(Specs()) else old(widthCache)
      ensures options != [] ==> w == FlagWidth(Specs())
    {
      if widthCache == 0 {
        widthCache := FlagWidth(Specs());
      }
      w := widthCache;
    }

    /**
     * `defaultFormat(s:type:)`: only a flag line reads the width, and with
     * options registered it pads to the widest flag description.
     */
    method DefaultFormat(s: string, t: OutputType) returns (r: string)
      requires Valid()
      modifies this`widthCache
      ensures Valid()
      ensures t != OptionFlag ==> widthCache == old(widthCache) && r == Format(s, t, 0)
      ensures t == OptionFlag ==> r == Format(s, t, widthCache)
      ensures t == OptionFlag && options != [] ==> r == Format(s, t, FlagWidth(Specs()))
      ensures widthCache == old(widthCache) || old(widthCache) == 0
    {
      match t
      case About => r := s + "\n";
      case Error => r := s + "\n\n";
      case OptionFlag =>
        var width := MaxFlagDescriptionWidth();
        var p := PadTo(s, width, ' ');
        r := "  " + p + ":\n";
      case OptionHelp => r := "     " + s + "\n";
    }

    /** Two registered positions holding an option with a flag hold different objects. */
    lemma FlaggedOptionIsUnique(k: nat)
      requires Valid() && k < |options| && options[k].Spec().HasFlag()
      ensures forall j :: 0 <= j < |options| && j != k ==> options[j] != options[k]
    {
      var specs := Specs();
      forall j | 0 <= j < |options| && j != k
        ensures options[j] != options[k]
      {
        assert FlagSet(specs[j]) !! FlagSet(specs[k]);
        assert FlagSet(specs[k]) != {};
        assert specs[j] != specs[k];
      }
    }

    /** `_getFlagValues(flagIndex, attachedArg)`. */
    method GetFlagValues(flagIndex: nat, attached: Option<string>) returns (vals: seq<string>)
      requires flagIndex < |arguments|
      ensures vals == FlagValues(arguments, flagIndex, attached, isDouble)
    {
      vals := if attached.Some? then [attached.value] else [];
      var skip := false;
      var i := flagIndex + 1;
      ghost var goal := FlagValues(arguments, flagIndex, attached, isDouble);
      while i < |arguments|
        invariant flagIndex + 1 <= i <= |arguments|
        invariant goal == vals + Following(arguments, i, skip, isDouble)
        decreases |arguments| - i
      {
        FollowingStep(arguments, i, skip, isDouble, vals);
        if !skip {
          if arguments[i] == ArgumentStopper {
            skip := true;
            i := i + 1;
            continue;
          }
          if EndsValues(arguments[i], isDouble) {
            break;
          }
        }
        vals := vals + [arguments[i]];
        i := i + 1;
      }
    }

    /** The options loop: the position of the first option matching `flag`. */
    method FirstMatchIndex(flag: string) returns (m: Option<nat>)
      ensures m == FirstMatch(Specs(), flag)
    {
      for k := 0 to |options|
        invariant forall j :: 0 <= j < k ==> !Specs()[j].Matches(flag)
      {
        if options[k].Spec().Matches(flag) {
          return Some(k);
        }
      }
      return None;
    }

    /** Option `k` takes `vals`, and the strays it consumed are blanked in place. */
    method ClaimFor(strict: bool, idx: nat, k: nat, vals: seq<string>, attached: Option<string>, strays: seq<string>)
      returns (strays': seq<string>, failure: Option<Outcome>)
      requires Valid() && idx < |arguments| && k < |options| && |strays| == |arguments|
      requires options[k].Spec().HasFlag()
      requires |vals| <= Att(attached) + (|arguments| - idx - 1)
      modifies options[k]
      ensures var r := Claim(ContextOf(strict), idx, k, vals, attached, ScanState(old(Values()), strays), true);
        Values() == r.st.values && strays' == r.st.strays && failure == r.failure
    {
      FlaggedOptionIsUnique(k);
      ghost var v0 := Values();
      var ok := options[k].Set(vals);
      assert forall j :: 0 <= j < |options| && j != k ==> options[j].value == old(options[j].value);
      if !ok {
        assert Values() == v0;
        return strays, Some(InvalidValueForOption(k, vals));
      }
      assert Values() == v0[k := options[k].value];
      var claimedIdx := idx + ClaimedValues(options[k].value) - Att(attached);
      strays' := strays;
      if claimedIdx >= idx {
        for i := idx to claimedIdx + 1
          invariant |strays'| == |strays|
          invariant forall j :: 0 <= j < |strays| ==> strays'[j] == if idx <= j < i then "" else strays[j]
        {
          strays' := strays'[i := ""];
        }
        assert strays' == Blank(strays, idx, claimedIdx);
      }
      failure := None;
    }

    /**
     * One character of the cluster loop: a matching option claims the
     * values, if it is the last; the loop then goes on from the next
     * character unless the claim failed.
     */
    method ClusterChar(strict: bool, idx: nat, flag: string, i: nat, attached: Option<string>, strays: seq<string>, matched: bool)
      returns (strays': seq<string>, failure: Option<Outcome>, matched': bool)
      requires Valid() && idx < |arguments| && i < |flag| && |strays| == |arguments|
      modifies set o | o in options
      ensures |strays'| == |arguments| && (failure.Some? ==> matched')
      ensures Cluster(ContextOf(strict), idx, flag, i, attached, ScanState(old(Values()), strays), matched)
        == if failure.Some? then ClusterScan(Scanned(ScanState(Values(), strays'), failure), matched')
           else Cluster(ContextOf(strict), idx, flag, i + 1, attached, ScanState(Values(), strays'), matched')
    {
      ClusterStep(ContextOf(strict), idx, flag, i, attached, ScanState(Values(), strays), matched);
      var m := FirstMatchIndex([flag[i]]);
      if m.None? {
        return strays, None, matched;
      }
      var vals := [];
      if i == |flag| - 1 {
        vals := GetFlagValues(idx, attached);
      }
      strays', failure := ClaimFor(strict, idx, m.value, vals, attached, strays);
      matched' := true;
    }

    /** The cluster loop over the characters of `flag`, with the guard. */
    method ClusterFor(strict: bool, idx: nat, flag: string, attached: Option<string>, strays: seq<string>)
      returns (strays': seq<string>, failure: Option<Outcome>, matched: bool)
      requires Valid() && idx < |arguments| && |strays| == |arguments|
      modifies set o | o in options
      ensures var r := Cluster(ContextOf(strict), idx, flag, 0, attached, ScanState(old(Values()), strays), false);
        && Values() == r.scanned.st.values && strays' == r.scanned.st.strays
        && failure == r.scanned.failure && matched == r.matched
    {
      ghost var goal := Cluster(ContextOf(strict), idx, flag, 0, attached, ScanState(Values(), strays), false);
      strays' := strays;
      failure := None;
      matched := false;
      var i := 0;
      while i < |flag|
        invariant 0 <= i <= |flag| && |strays'| == |arguments| && failure.None?
        invariant Valid()
        invariant goal == Cluster(ContextOf(strict), idx, flag, i, attached, ScanState(Values(), strays'), matched)
        decreases |flag| - i
      {
        strays', failure, matched := ClusterChar(strict, idx, flag, i, attached, strays', matched);
        if failure.Some? {
          return;
        }
        i := i + 1;
      }
    }

    /**
     * One pass of the loop body of `parse`, for an argument that is not
     * `--`: the loop goes on from the next argument unless this one failed.
     */
    method ScanArgument(strict: bool, idx: nat, strays: seq<string>) returns (strays': seq<string>, failure: Option<Outcome>)
      requires Valid() && idx < |arguments| && |strays| == |arguments|
      requires arguments[idx] != ArgumentStopper
      modifies set o | o in options
      ensures |strays'| == |arguments|
      ensures Scan(ContextOf(strict), idx, ScanState(old(Values()), strays))
        == if failure.Some? then Scanned(ScanState(Values(), strays'), failure)
           else Scan(ContextOf(strict), idx + 1, ScanState(Values(), strays'))
    {
      var arg := arguments[idx];
      if !HasPrefix(arg, ShortPrefix) {
        return strays, None;
      }
      var skipChars := if HasPrefix(arg, LongPrefix) then |LongPrefix| else |ShortPrefix|;
      var flagWithArg := arg[skipChars..];
      if flagWithArg == [] {
        return strays, None;
      }
      var fa := SplitFlag(flagWithArg);
      strays', failure := ScanFlagFor(strict, idx, fa, strays);
    }

    /** The rest of the loop body of `parse`, for the flag `fa` of argument `idx`. */
    method ScanFlagFor(strict: bool, idx: nat, fa: FlagArg, strays: seq<string>) returns (strays': seq<string>, failure: Option<Outcome>)
      requires Valid() && idx < |arguments| && |strays| == |arguments|
      modifies set o | o in options
      ensures var r := ScanFlag(ContextOf(strict), idx, fa, ScanState(old(Values()), strays));
        Values() == r.st.values && strays' == r.st.strays && failure == r.failure
    {
      var m := FirstMatchIndex(fa.flag);
      if m.Some? {
        var vals := GetFlagValues(idx, fa.attached);
        strays', failure := ClaimFor(strict, idx, m.value, vals, fa.attached, strays);
        return;
      }
      if HasPrefix(arguments[idx], LongPrefix) {
        return strays, None;
      }
      var matched;
      strays', failure, matched := ClusterFor(strict, idx, fa.flag, fa.attached, strays);
      if failure.None? && strict && !matched {
        failure := Some(InvalidArgument(arguments[idx]));
      }
    }

    /**
     * `parse(strict:)`: the options' values become those of the guarded
     * specification, and `unparsedArguments` is assigned only when the
     * parse succeeds.
     */
    method Parse(strict: bool) returns (outcome: Outcome)
      requires Valid() && |arguments| > 0
      modifies this`unparsed, set o | o in options
      ensures var r := ParseResultOf(ContextOf(strict), old(Values()));
        outcome == r.outcome && Values() == r.values
      ensures outcome.Parsed? ==> unparsed == outcome.unparsed
      ensures !outcome.Parsed? ==> unparsed == old(unparsed)
    {
      ghost var cx := ContextOf(strict);
      ghost var v0 := Values();
      var strays := arguments[0 := ""];
      ghost var goal := Scan(cx, 0, ScanState(v0, strays));
      ScanEffect(cx, 0, ScanState(v0, strays));
      var idx := 0;
      while idx < |arguments|
        invariant idx <= |arguments| && |strays| == |arguments|
        invariant goal == Scan(cx, idx, ScanState(Values(), strays))
        invariant Valid() && cx == ContextOf(strict) && unparsed == old(unparsed)
        decreases |arguments| - idx
      {
        if arguments[idx] == ArgumentStopper {
          break;
        }
        var failure;
        strays, failure := ScanArgument(strict, idx, strays);
        if failure.Some? {
          return failure.value;
        }
        idx := idx + 1;
      }
      var missing := MissingAmong(Specs(), Values(), |options|);
      if |missing| > 0 {
        return MissingRequiredOptions(missing);
      }
      unparsed := NonEmptyArgs(strays);
      outcome := Parsed(unparsed);
    }
  }
}
