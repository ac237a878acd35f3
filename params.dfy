/**
 * Parameter declarations of src/core/param/params.py: the closed set of parameter
 * types, the configs attached to a parameter and the integer range config.
 */
module Params {
  import opened Wrappers

  /** `ParamType`: the kinds of value a parameter can hold. */
  datatype ParamType = User | Emoji | FixedValue | Int | Text

  /** The five members of `ParamType`. */
  const AllParamTypes: set<ParamType> := {User, Emoji, FixedValue, Int, Text}

  lemma ParamTypesAreFive()
    ensures forall t: ParamType :: t in AllParamTypes
    ensures |AllParamTypes| == 5
  {
    forall t: ParamType
      ensures t in AllParamTypes
    {
      match t
      case User =>
      case Emoji =>
      case FixedValue =>
      case Int =>
      case Text =>
    }
  }

  /** The Python types a value, an executor or a config is checked against. */
  datatype PyType = IntType | StrType | FloatType | UserType

  /** A single type, or a `Union` of types (read as the tuple of its members). */
  datatype ValueType = Single(t: PyType) | Union(members: set<PyType>)

  /** A converted parameter value, as a config receives it. */
  datatype Value = IntValue(i: int) | FloatValue(r: real) | StrValue(s: string) | UserValue(id: nat)

  function TypeOf(v: Value): PyType
  {
    match v
    case IntValue(_) => IntType
    case FloatValue(_) => FloatType
    case StrValue(_) => StrType
    case UserValue(_) => UserType
  }

  /** Python's `isinstance(value, t)`, where a union is given as a tuple of types. */
  predicate IsInstance(v: Value, t: ValueType)
  {
    match t
    case Single(p) => TypeOf(v) == p
    case Union(ps) => TypeOf(v) in ps
  }

  /** `IntParamConfig`: an inclusive range with optional bounds (`None` in the source). */
  datatype IntParamConfig = IntParamConfig(minValue: Option<int>, maxValue: Option<int>)

  /**
   * A config attached to a parameter. `IntRange` is the core's `IntParamConfig`;
   * `OtherConfig` stands for a config class declared outside the core, known by the type
   * it checks (`_get_type_checking`) and by its `_validate` rule.
   */
  datatype ParamConfig =
    | IntRange(range: IntParamConfig)
    | OtherConfig(checkedType: ValueType, rule: Value -> bool)

  /** `_get_type_checking`: `int` for `IntParamConfig`. */
  function ConfigValueType(c: ParamConfig): ValueType
  {
    match c
    case IntRange(_) => Single(IntType)
    case OtherConfig(t, _) => t
  }

  /** The `IntParamConfig` constructor: at least one bound must be given. */
  function NewIntParamConfig(minValue: Option<int>, maxValue: Option<int>): (r: Result<IntParamConfig, string>)
    ensures r.Failure? <==> minValue.None? && maxValue.None?
    ensures r.Failure? ==> r.error == "One of both parameters must be set!"
    ensures r.Success? ==> r.value.minValue == minValue && r.value.maxValue == maxValue
  {
    if minValue.None? && maxValue.None? then Failure("One of both parameters must be set!")
    else Success(IntParamConfig(minValue, maxValue))
  }

  /** Python's chained comparison `min_value <= value <= max_value` evaluates to a boolean,
      or raises `TypeError` when it compares an integer with `None`. */
  datatype Comparison = Compared(holds: bool) | ComparisonTypeError

  /**
   * `IntParamConfig._validate` as written: the chain stops at the first false comparison,
   * and comparing with a missing bound raises. A config with only a minimum therefore
   * raises on every value at or above the minimum.
   */
  function RangeCheckAsWritten(c: IntParamConfig, v: int): (r: Comparison)
    ensures c.minValue.Some? && c.maxValue.Some? ==>
              r == Compared(c.minValue.value <= v && v <= c.maxValue.value)
    ensures r == ComparisonTypeError <==>
              c.minValue.None? || (c.maxValue.None? && c.minValue.value <= v)
  {
    if c.minValue.None? then ComparisonTypeError
    else if !(c.minValue.value <= v) then Compared(false)
    else if c.maxValue.None? then ComparisonTypeError
    else Compared(v <= c.maxValue.value)
  }

  /** The range check as intended: a missing bound does not restrict the value. */
  predicate InRange(c: IntParamConfig, v: int)
  {
    (c.minValue.None? || c.minValue.value <= v) && (c.maxValue.None? || v <= c.maxValue.value)
  }

  /** Where the written check gives an answer it is the intended one; with both bounds set
      it always gives one. */
  lemma RangeCheckAgrees(c: IntParamConfig, v: int)
    ensures RangeCheckAsWritten(c, v).Compared? ==> RangeCheckAsWritten(c, v).holds == InRange(c, v)
    ensures c.minValue.Some? && c.maxValue.Some? ==> RangeCheckAsWritten(c, v) == Compared(InRange(c, v))
  {
  }

  /** A minimum-only config built by the constructor raises on a value it should accept. */
  lemma RangeCheckMinOnlyRaises()
    ensures NewIntParamConfig(Some(1), None).Success?
    ensures RangeCheckAsWritten(IntParamConfig(Some(1), None), 5) == ComparisonTypeError
    ensures InRange(IntParamConfig(Some(1), None), 5)
  {
  }

  /** The rule `_validate` of a config applied to a value of the right type. */
  function RuleHolds(c: ParamConfig, v: Value): bool
  {
    match c
    case IntRange(r) => v.IntValue? && InRange(r, v.i)
    case OtherConfig(_, rule) => rule(v)
  }

  /**
   * `ParamConfig.validate`: a value that is not an instance of the config's checked type
   * raises `ValueError`; otherwise the answer is the config's own rule.
   */
  function Validate(c: ParamConfig, v: Value): (r: Result<bool, string>)
    ensures r.Failure? <==> !IsInstance(v, ConfigValueType(c))
    ensures r.Success? ==> r.value == RuleHolds(c, v)
  {
    if !IsInstance(v, ConfigValueType(c)) then Failure("Value of param must be of the config's type!")
    else Success(RuleHolds(c, v))
  }

  /** An integer range config accepts exactly the integers between its bounds. */
  lemma ValidateIntRange(r: IntParamConfig, v: Value)
    ensures Validate(IntRange(r), v) == (if v.IntValue? then Success(InRange(r, v.i)) else Failure("Value of param must be of the config's type!"))
  {
  }

  /** `CommandParam`: name, description, type and the configs in declaration order. */
  datatype CommandParam = CommandParam(name: string, description: string, paramType: ParamType, configs: seq<ParamConfig>)

  /** The first `IntParamConfig` among a parameter's configs, if any. */
  function FirstIntConfig(configs: seq<ParamConfig>): (r: Option<IntParamConfig>)
    ensures r.None? <==> forall k :: 0 <= k < |configs| ==> !configs[k].IntRange?
    ensures r.Some? ==> exists k :: 0 <= k < |configs| && configs[k] == IntRange(r.value) &&
                                     forall l :: 0 <= l < k ==> !configs[l].IntRange?
  {
    if configs == [] then None
    else if configs[0].IntRange? then Some(configs[0].range)
    else
      var r := FirstIntConfig(configs[1..]);
      assert r.Some? ==> exists k :: 1 <= k < |configs| && configs[k] == IntRange(r.value) &&
                                    forall l :: 0 <= l < k ==> !configs[l].IntRange? by {
        if r.Some? {
          var k :| 0 <= k < |configs| - 1 && configs[1..][k] == IntRange(r.value) &&
                   forall l :: 0 <= l < k ==> !configs[1..][l].IntRange?;
          assert configs[k + 1] == IntRange(r.value);
        }
      }
      r
  }

  // ---------------------------------------------------------------------------
  // Decimal text of integers, as Python's f-strings print them.

  function DigitChar(d: nat): char
    requires d < 10
  {
    "0123456789"[d]
  }

  function DigitValue(c: char): nat
  {
    if '0' <= c <= '9' then (c as int - '0' as int) as nat else 0
  }

  predicate IsDigit(c: char)
  {
    '0' <= c <= '9'
  }

  /** The decimal digits of `n`, most significant first, without leading zeros. */
  function NatToString(n: nat): (s: string)
    ensures s != [] && forall k :: 0 <= k < |s| ==> IsDigit(s[k])
  {
    if n < 10 then [DigitChar(n)] else NatToString(n / 10) + [DigitChar(n % 10)]
  }

  /** The number a string of decimal digits denotes. */
  function DigitsValue(s: string): nat
  {
    if s == [] then 0 else DigitsValue(s[..|s| - 1]) * 10 + DigitValue(s[|s| - 1])
  }

  lemma {:induction false} NatToStringRoundTrip(n: nat)
    ensures DigitsValue(NatToString(n)) == n
  {
    if n >= 10 {
      NatToStringRoundTrip(n / 10);
      var s := NatToString(n);
      assert s[..|s| - 1] == NatToString(n / 10);
    }
  }

  /** `str(i)` of a Python integer. */
  function IntToString(i: int): string
  {
    if i < 0 then "-" + NatToString(-i) else NatToString(i)
  }

  /** The integer that `str(i)` denotes. */
  function SignedValue(s: string): int
  {
    if s != [] && s[0] == '-' then -(DigitsValue(s[1..]) as int) else DigitsValue(s)
  }

  /** A minus sign in front of digits negates their value. */
  lemma SignedValueNegative(s: string)
    ensures SignedValue("-" + s) == -(DigitsValue(s) as int)
  {
    assert ("-" + s)[1..] == s;
  }

  /** Digits without a sign denote their own value. */
  lemma SignedValueDigits(s: string)
    requires s != [] && IsDigit(s[0])
    ensures SignedValue(s) == DigitsValue(s)
  {
  }

  lemma IntToStringRoundTrip(i: int)
    ensures SignedValue(IntToString(i)) == i
  {
    if i < 0 {
      var digits := NatToString(-i);
      assert IntToString(i) == "-" + digits;
      NatToStringRoundTrip(-i);
      SignedValueNegative(digits);
    } else {
      var digits := NatToString(i);
      assert IntToString(i) == digits;
      NatToStringRoundTrip(i);
      SignedValueDigits(digits);
    }
  }

  /** Python's f-string text of an optional integer: `None` prints as "None". */
  function OptionalToString(o: Option<int>): string
  {
    match o
    case None => "None"
    case Some(v) => IntToString(v)
  }

  /** `IntParamConfig.get_definition` as written: the maximum-only branch prints the
      (missing) minimum. */
  function DefinitionAsWritten(c: IntParamConfig): string
  {
    if c.minValue.Some? && c.maxValue.Some? then
      "entre " + IntToString(c.minValue.value) + " et " + IntToString(c.maxValue.value) + " inclus"
    else if c.minValue.Some? then "minimum " + IntToString(c.minValue.value)
    else if c.maxValue.Some? then "maximum " + OptionalToString(c.minValue)
    else ""
  }

  lemma DefinitionAsWrittenMaxOnly()
    ensures DefinitionAsWritten(IntParamConfig(None, Some(5))) == "maximum None"
  {
  }

  /** `get_definition` as intended: every bound it names is the config's own. */
  function Definition(c: IntParamConfig): string
  {
    if c.minValue.Some? && c.maxValue.Some? then
      "entre " + IntToString(c.minValue.value) + " et " + IntToString(c.maxValue.value) + " inclus"
    else if c.minValue.Some? then "minimum " + IntToString(c.minValue.value)
    else if c.maxValue.Some? then "maximum " + IntToString(c.maxValue.value)
    else ""
  }

  /** A one-bound definition reads back as that bound; the two definitions differ only
      on maximum-only configs. */
  lemma DefinitionNamesBound(c: IntParamConfig)
    ensures c.minValue.Some? && c.maxValue.None? ==>
              Definition(c)[..8] == "minimum " && SignedValue(Definition(c)[8..]) == c.minValue.value
    ensures c.minValue.None? && c.maxValue.Some? ==>
              Definition(c)[..8] == "maximum " && SignedValue(Definition(c)[8..]) == c.maxValue.value
    ensures Definition(c) == "" <==> c.minValue.None? && c.maxValue.None?
    ensures Definition(c) != DefinitionAsWritten(c) <==> c.minValue.None? && c.maxValue.Some?
  {
    if c.minValue.Some? && c.maxValue.None? {
      IntToStringRoundTrip(c.minValue.value);
      assert Definition(c)[8..] == IntToString(c.minValue.value);
    }
    if c.minValue.None? && c.maxValue.Some? {
      IntToStringRoundTrip(c.maxValue.value);
      assert Definition(c)[8..] == IntToString(c.maxValue.value);
      var s := IntToString(c.maxValue.value);
      assert s[0] != 'N';
      assert Definition(c)[8] != DefinitionAsWritten(c)[8];
    }
  }
}
