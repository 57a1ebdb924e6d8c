/**
 * `HOOption` and its subclasses: a command-line option with a short and/or
 * long flag, and the value state each kind of option keeps. The subclasses
 * are the constructors of `Value`; `setValue`, `wasSet` and
 * `claimedValues` dispatch on it.
 */
module Options {
  import opened Wrappers
  import opened Text

  /** The prefixes and separators the parser recognises. */
  const ShortPrefix: string := "-"
  const LongPrefix: string := "--"
  const ArgumentStopper: string := "--"
  const ArgumentAttacher: char := '='

  /** The subclass an option was created as; an enum option knows its cases' raw values. */
  datatype Kind = PlainKind | BoolKind | IntKind | CounterKind | StringKind | MultiStringKind | EnumKind(cases: set<string>)

  /**
   * The `_value` of each subclass. An enum option stores the raw value of
   * the case it was set to.
   */
  datatype Value =
    | Plain
    | BoolValue(on: bool)
    | IntValue(number: Option<int>)
    | CounterValue(count: nat)
    | StringValue(str: Option<string>)
    | MultiStringValue(strs: Option<seq<string>>)
    | EnumValue(cases: set<string>, raw: Option<string>)

  /** The value a freshly created option of the given kind holds. */
  function Initial(kind: Kind): (v: Value)
    ensures !WasSet(v) && ClaimedValues(v) == 0
  {
    match kind
    case PlainKind => Plain
    case BoolKind => BoolValue(false)
    case IntKind => IntValue(None)
    case CounterKind => CounterValue(0)
    case StringKind => StringValue(None)
    case MultiStringKind => MultiStringValue(None)
    case EnumKind(cases) => EnumValue(cases, None)
  }

  /** `wasSet`. */
  predicate WasSet(v: Value) {
    match v
    case Plain => false
    case BoolValue(on) => on
    case IntValue(i) => i.Some?
    case CounterValue(n) => n > 0
    case StringValue(s) => s.Some?
    case MultiStringValue(ss) => ss.Some?
    case EnumValue(_, raw) => raw.Some?
  }

  /** `claimedValues`: how many command-line values the option consumed. */
  function ClaimedValues(v: Value): nat {
    match v
    case IntValue(Some(_)) => 1
    case StringValue(Some(_)) => 1
    case MultiStringValue(Some(ss)) => |ss|
    case EnumValue(_, Some(_)) => 1
    case _ => 0
  }

  /** The two values have the same kind: `setValue` never changes an option's class. */
  predicate SameKind(a: Value, b: Value) {
    match a
    case Plain => b.Plain?
    case BoolValue(_) => b.BoolValue?
    case IntValue(_) => b.IntValue?
    case CounterValue(_) => b.CounterValue?
    case StringValue(_) => b.StringValue?
    case MultiStringValue(_) => b.MultiStringValue?
    case EnumValue(cases, _) => b.EnumValue? && b.cases == cases
  }

  /** The outcome of `setValue`: whether the values were accepted, and the new value. */
  datatype Assignment = Assignment(ok: bool, value: Value)

  /**
   * `setValue(values)`. A rejected call leaves the value as it was, the
   * kind never changes, and an accepted call never claims more values than
   * it was given.
   */
  function SetValue(v: Value, values: seq<string>): (r: Assignment)
    ensures SameKind(v, r.value)
    ensures !r.ok ==> r.value == v
    ensures r.ok ==> ClaimedValues(r.value) <= |values|
  {
    match v
    case Plain => Assignment(false, v)
    case BoolValue(_) => Assignment(true, BoolValue(true))
    case IntValue(_) =>
      if |values| == 0 then Assignment(false, v)
      else if ParseInt(values[0]).Some? then Assignment(true, IntValue(ParseInt(values[0])))
      else Assignment(false, v)
    case CounterValue(n) => Assignment(true, CounterValue(n + 1))
    case StringValue(_) =>
      if |values| == 0 then Assignment(false, v) else Assignment(true, StringValue(Some(values[0])))
    case MultiStringValue(_) =>
      if |values| == 0 then Assignment(false, v) else Assignment(true, MultiStringValue(Some(values)))
    case EnumValue(cases, _) =>
      if |values| == 0 then Assignment(false, v)
      else if values[0] in cases then Assignment(true, EnumValue(cases, Some(values[0])))
      else Assignment(true, v)
  }

  /** The base class refuses every value. */
  lemma PlainRefuses(values: seq<string>)
    ensures SetValue(Plain, values) == Assignment(false, Plain)
    ensures !WasSet(Plain) && ClaimedValues(Plain) == 0
  {
  }

  /** A Bool option accepts anything, and is then set. */
  lemma BoolAlwaysSet(on: bool, values: seq<string>)
    ensures var r := SetValue(BoolValue(on), values); r.ok && r.value.on && WasSet(r.value)
  {
  }

  /** Each counter call adds one; the counter is set exactly when it is positive. */
  lemma CounterCounts(n: nat, values: seq<string>)
    ensures SetValue(CounterValue(n), values) == Assignment(true, CounterValue(n + 1))
    ensures WasSet(CounterValue(n)) <==> n > 0
  {
  }

  /** Every kind that takes values refuses an empty list and keeps its value. */
  lemma EmptyValuesRefused(v: Value)
    requires !v.BoolValue? && !v.CounterValue?
    ensures SetValue(v, []) == Assignment(false, v)
  {
  }

  /**
   * An Int option stores the first value exactly when it parses as a
   * 64-bit integer, and then reads back that integer.
   */
  lemma IntStoresParsed(i: Option<int>, values: seq<string>)
    requires |values| > 0
    ensures var r := SetValue(IntValue(i), values);
      && (r.ok <==> ParseInt(values[0]).Some?)
      && (r.ok ==> r.value.number == ParseInt(values[0]) && WasSet(r.value))
  {
  }

  /** An Int option given the decimal text of an integer reads back that integer. */
  lemma IntRoundTrip(i: Option<int>, n: int, rest: seq<string>)
    requires IntMin <= n <= IntMax
    ensures SetValue(IntValue(i), [DecimalText(n)] + rest) == Assignment(true, IntValue(Some(n)))
  {
    ParseIntDecimalText(n);
  }

  /** A String option stores the first value; a MultiString option stores the whole list. */
  lemma StringsStored(s: Option<string>, ss: Option<seq<string>>, values: seq<string>)
    requires |values| > 0
    ensures SetValue(StringValue(s), values) == Assignment(true, StringValue(Some(values[0])))
    ensures SetValue(MultiStringValue(ss), values) == Assignment(true, MultiStringValue(Some(values)))
    ensures ClaimedValues(SetValue(MultiStringValue(ss), values).value) == |values|
  {
  }

  /**
   * An Enum option refuses only the empty list: a first value naming no
   * case is accepted and leaves the value as it was.
   */
  lemma EnumAcceptsUnknown(cases: set<string>, raw: Option<string>, values: seq<string>)
    requires |values| > 0
    ensures var r := SetValue(EnumValue(cases, raw), values);
      && r.ok
      && (values[0] in cases ==> r.value.raw == Some(values[0]))
      && (values[0] !in cases ==> r.value == EnumValue(cases, raw))
  {
  }

  /** For the single-valued kinds, one value is claimed exactly when the option is set. */
  lemma ClaimedIffSet(v: Value)
    requires v.IntValue? || v.StringValue? || v.EnumValue?
    ensures ClaimedValues(v) == 1 <==> WasSet(v)
    ensures ClaimedValues(v) == 0 <==> !WasSet(v)
  {
  }

  /** An accepted value makes the option set, except for an Enum value naming no case. */
  lemma AcceptedIsSet(v: Value, values: seq<string>)
    requires SetValue(v, values).ok
    requires v.EnumValue? ==> |values| > 0 && values[0] in v.cases
    ensures WasSet(SetValue(v, values).value)
  {
  }

  /** `flagDescription`: `-s, --long`, `--long`, `-s` or nothing. */
  function FlagDescription(shortFlag: Option<string>, longFlag: Option<string>): (d: string)
    ensures shortFlag.Some? ==> HasPrefix(d, ShortPrefix + shortFlag.value)
    ensures shortFlag.None? && longFlag.Some? ==> d == LongPrefix + longFlag.value
    ensures shortFlag.None? && longFlag.None? ==> d == ""
  {
    match (shortFlag, longFlag)
    case (Some(sf), Some(lf)) => ShortPrefix + sf + ", " + LongPrefix + lf
    case (None, Some(lf)) => LongPrefix + lf
    case (Some(sf), None) => ShortPrefix + sf
    case (None, None) => ""
  }

  /** The description's length: each present flag with its prefix, and `, ` between two. */
  lemma FlagDescriptionLength(shortFlag: Option<string>, longFlag: Option<string>)
    ensures |FlagDescription(shortFlag, longFlag)|
      == (if shortFlag.Some? then 1 + |shortFlag.value| else 0)
       + (if longFlag.Some? then 2 + |longFlag.value| else 0)
       + (if shortFlag.Some? && longFlag.Some? then 2 else 0)
  {
  }

  /** `flagMatch(flag)`: the flag equals the short flag or the long flag. */
  predicate FlagMatch(shortFlag: Option<string>, longFlag: Option<string>, flag: string) {
    shortFlag == Some(flag) || longFlag == Some(flag)
  }

  /** A matched flag appears in the option's description after a dash. */
  lemma MatchedFlagDescribed(shortFlag: Option<string>, longFlag: Option<string>, flag: string)
    requires FlagMatch(shortFlag, longFlag, flag)
    ensures Contains(FlagDescription(shortFlag, longFlag), "-" + flag)
  {
    var d := FlagDescription(shortFlag, longFlag);
    var t := "-" + flag;
    if shortFlag == Some(flag) {
      assert d[..|t|] == t;
      assert OccursAt(d, t, 0);
    } else {
      var at := if shortFlag.Some? then 1 + |shortFlag.value| + 2 + 1 else 1;
      assert d[at..at + |t|] == t;
      assert OccursAt(d, t, at);
    }
  }

  /** An option with neither flag matches nothing. */
  lemma FlaglessNeverMatches(flag: string)
    ensures !FlagMatch(None, None, flag)
  {
  }

  /** The parts of an option the parser reads: its flags and whether it is required. */
  datatype OptionSpec = OptionSpec(shortFlag: Option<string>, longFlag: Option<string>, required: bool)
  {
    function Description(): string {
      FlagDescription(shortFlag, longFlag)
    }

    predicate Matches(flag: string) {
      FlagMatch(shortFlag, longFlag, flag)
    }

    predicate HasFlag() {
      shortFlag.Some? || longFlag.Some?
    }
  }

  /**
   * An option object. The flags are fixed at creation; the value is the
   * state `setValue` updates.
   */
  class CLOption {
    const shortFlag: Option<string>
    const longFlag: Option<string>
    const required: bool
    const helpMessage: string
    var value: Value

    /**
     * `init`: a short flag is one character, and neither flag is an
     * integer (the debug assertions of the initializer).
     */
    constructor (shortFlag: Option<string>, longFlag: Option<string>, required: bool, helpMessage: string, kind: Kind)
      requires shortFlag.Some? ==> |shortFlag.value| == 1 && ParseInt(shortFlag.value).None?
      requires longFlag.Some? ==> ParseInt(longFlag.value).None?
      ensures this.shortFlag == shortFlag && this.longFlag == longFlag
      ensures this.required == required && this.helpMessage == helpMessage
      ensures value == Initial(kind)
    {
      this.shortFlag := shortFlag;
      this.longFlag := longFlag;
      this.required := required;
      this.helpMessage := helpMessage;
      value := Initial(kind);
    }

    function Spec(): OptionSpec {
      OptionSpec(shortFlag, longFlag, required)
    }

    /** `setValue(values)`: updates the value in place. */
    method Set(values: seq<string>) returns (ok: bool)
      modifies this
      ensures Assignment(ok, value) == SetValue(old(value), values)
    {
      var r := SetValue(value, values);
      ok := r.ok;
      value := r.value;
    }

    /** `HOCounterOption.reset()`. */
    method Reset()
      requires value.CounterValue?
      modifies this
      ensures value == CounterValue(0)
    {
      value := CounterValue(0);
    }
  }
}
