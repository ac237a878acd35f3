/**
 * The parameter executors of src/core/executor/base.py and src/core/executor/executors.py.
 * An executor reads one command token in two stages: a format check, then a value check
 * (`_process_param`). The five executor classes are one class here, told apart by `kind`.
 * The outside world they consult (channel type, member list, emoji lookups, `int()`,
 * `unidecode`) is a `Context` of oracles.
 */
module Executor {
  import opened Wrappers
  import opened Params
  import ParsingUtils

  /** `ParamResultType`. */
  datatype ResultType = Valid | Invalid

  /** The executor classes: User, Emoji, FixedValue, Int and Text. */
  datatype ExecutorKind = UserExecutor | EmojiExecutor | FixedValueExecutor | IntExecutor | TextExecutor

  /** `always_validate_input_format`: whether the kind accepts every token at the format
      stage, so that a later error is reported rather than trying the next syntax. */
  predicate AlwaysAccepts(kind: ExecutorKind)
  {
    match kind
    case UserExecutor => true
    case EmojiExecutor => true
    case FixedValueExecutor => false
    case IntExecutor => false
    case TextExecutor => true
  }

  /** What an executor consults outside the token: whether the message came from a text
      channel, the channel's members, `unidecode(s.lower())`, the emoji library's first
      Unicode emoji, the ids of the client's custom emojis, and Python's `int()`. */
  datatype Context = Context(
    isTextChannel: bool,
    members: seq<ParsingUtils.User>,
    fold: string -> string,
    emojiLibrary: string -> Option<string>,
    clientEmojis: seq<nat>,
    parseInt: string -> Option<int>)

  /** The fields of an executor: result, format flag, error, and the value it parsed. */
  datatype ExecState = ExecState(
    result: ResultType,
    formatValid: bool,
    error: Option<string>,
    user: Option<ParsingUtils.User>,
    emoji: Option<string>,
    intValue: Option<int>,
    text: Option<string>)

  /** A new executor: INVALID, format flag false, no error, no value. */
  const Fresh: ExecState := ExecState(Invalid, false, None, None, None, None, None)

  const UserNameTooShort: string := "Le nom d'utilisateur doit faire au moins 3 caractères."
  const UserNotFound: string := "Utilisateur introuvable."
  const InvalidEmoji: string := "Emoji invalide."
  const InvalidValue: string := "Valeur invalide."
  const ConfigNotFound: string := "Config not found!"
  /** The message of the `ZeroDivisionError` that `find_user` can raise. */
  const DivisionByZeroMessage: string := "division by zero"

  /** `_validate_input_format`: a fixed value must be the parameter's name, an integer must
      parse; the other kinds accept anything. */
  predicate FormatAccepts(kind: ExecutorKind, param: CommandParam, value: string, ctx: Context)
  {
    match kind
    case FixedValueExecutor => value == param.name
    case IntExecutor => ctx.parseInt(value).Some?
    case _ => true
  }

  /** The write the format stage makes: the integer executor stores the parsed value. */
  function AfterFormat(kind: ExecutorKind, value: string, ctx: Context, s: ExecState): ExecState
  {
    if kind.IntExecutor? && ctx.parseInt(value).Some? then s.(intValue := ctx.parseInt(value)) else s
  }

  /** What `_process_param` returns, the state it leaves, and the exception it raises. */
  datatype Processed = Processed(ok: bool, state: ExecState, raised: Option<string>)

  /** `_process_param` of each kind, with the integer executor reading the integer config
      among the parameter's configs. */
  function Process(kind: ExecutorKind, param: CommandParam, value: string, ctx: Context, s: ExecState): Processed
    requires kind.IntExecutor? ==> s.intValue.Some?
  {
    match kind
    case UserExecutor =>
      if !ctx.isTextChannel then Processed(false, s, None)
      else if |value| < 3 then Processed(false, s.(error := Some(UserNameTooShort)), None)
      else
        (match ParsingUtils.FindUserSpec(ctx.members, value, ctx.fold)
         case DivisionByZero => Processed(false, s, Some(DivisionByZeroMessage))
         case Found(u) => Processed(true, s.(user := Some(u)), None)
         case NotFound => Processed(false, s.(user := None, error := Some(UserNotFound)), None))
    case EmojiExecutor =>
      var e := ParsingUtils.GetEmoji(value, ctx.emojiLibrary, ctx.clientEmojis);
      if e.Some? then Processed(true, s.(emoji := e), None)
      else Processed(false, s.(emoji := None, error := Some(InvalidEmoji)), None)
    case FixedValueExecutor =>
      if value == param.name then Processed(true, s, None)
      else Processed(false, s.(error := Some(InvalidValue)), None)
    case IntExecutor =>
      (match FirstIntConfig(param.configs)
       case None => Processed(false, s, Some(ConfigNotFound))
       case Some(c) =>
         if InRange(c, s.intValue.value) then Processed(true, s, None)
         else Processed(false, s.(error := Some(InvalidValue)), None))
    case TextExecutor =>
      Processed(true, s.(text := Some(value)), None)
  }

  /** The state `set_value` leaves and the exception it lets through. */
  datatype Evaluation = Evaluation(state: ExecState, raised: Option<string>)

  /** `set_value`: a format reject changes nothing; otherwise the format flag is set and the
      result becomes VALID when `_process_param` returns true. */
  function Evaluate(kind: ExecutorKind, param: CommandParam, value: string, ctx: Context, s: ExecState): Evaluation
  {
    if !FormatAccepts(kind, param, value, ctx) then Evaluation(s, None)
    else
      var p := Process(kind, param, value, ctx, AfterFormat(kind, value, ctx, s).(formatValid := true));
      Evaluation(if p.ok then p.state.(result := Valid) else p.state, p.raised)
  }

  /** One executor bound to a parameter (`CommandParamExecutor` and its subclasses). */
  class ParamExecutor {
    const param: CommandParam
    const kind: ExecutorKind
    var resultType: ResultType
    var inputFormatValid: bool
    var error: Option<string>
    var user: Option<ParsingUtils.User>
    var emoji: Option<string>
    var intValue: Option<int>
    var text: Option<string>

    function State(): ExecState
      reads this
    {
      ExecState(resultType, inputFormatValid, error, user, emoji, intValue, text)
    }

    constructor (param: CommandParam, kind: ExecutorKind)
      ensures this.param == param && this.kind == kind
      ensures State() == Fresh
    {
      this.param := param;
      this.kind := kind;
      resultType := Invalid;
      inputFormatValid := false;
      error := None;
      user := None;
      emoji := None;
      intValue := None;
      text := None;
    }

    /** `_set_error`: records the message and answers false. */
    method SetError(e: string) returns (r: bool)
      modifies this
      ensures !r && State() == old(State()).(error := Some(e))
    {
      error := Some(e);
      return false;
    }

    /** `_validate_input_format`. */
    method ValidateInputFormat(value: string, ctx: Context) returns (ok: bool)
      modifies this
      ensures ok == FormatAccepts(kind, param, value, ctx)
      ensures State() == AfterFormat(kind, value, ctx, old(State()))
    {
      match kind {
        case FixedValueExecutor =>
          ok := value == param.name;
        case IntExecutor =>
          var parsed := ctx.parseInt(value);
          if parsed.Some? {
            intValue := parsed;
          }
          ok := parsed.Some?;
        case _ =>
          ok := true;
      }
    }

    /** `_process_param`. */
    method ProcessParam(value: string, ctx: Context) returns (ok: bool, raised: Option<string>)
      requires kind.IntExecutor? ==> intValue.Some?
      modifies this
      ensures Processed(ok, State(), raised) == Process(kind, param, value, ctx, old(State()))
    {
      raised := None;
      match kind {
        case UserExecutor =>
          if !ctx.isTextChannel {
            return false, None;
          }
          if |value| < 3 {
            ok := SetError(UserNameTooShort);
            return;
          }
          var found := ParsingUtils.FindUser(ctx.members, value, ctx.fold);
          if found.DivisionByZero? {
            return false, Some(DivisionByZeroMessage);
          }
          user := if found.Found? then Some(found.user) else None;
          if found.Found? {
            ok := true;
          } else {
            ok := SetError(UserNotFound);
          }
        case EmojiExecutor =>
          var unicode := ctx.emojiLibrary(value);
          if unicode.Some? {
            emoji := unicode;
          } else {
            emoji := ParsingUtils.GetCustomEmoji(value, ctx.clientEmojis);
          }
          if emoji.Some? {
            ok := true;
          } else {
            ok := SetError(InvalidEmoji);
          }
        case FixedValueExecutor =>
          if value == param.name {
            ok := true;
          } else {
            ok := SetError(InvalidValue);
          }
        case IntExecutor =>
          var config := FirstIntConfig(param.configs);
          if config.None? {
            return false, Some(ConfigNotFound);
          }
          if InRange(config.value, intValue.value) {
            ok := true;
          } else {
            ok := SetError(InvalidValue);
          }
        case TextExecutor =>
          text := Some(value);
          ok := true;
      }
    }

    /** `set_value`: the format check first; only a token of valid format is processed. */
    method SetValue(value: string, ctx: Context) returns (raised: Option<string>)
      modifies this
      ensures Evaluation(State(), raised) == Evaluate(kind, param, value, ctx, old(State()))
    {
      var formatOk := ValidateInputFormat(value, ctx);
      if !formatOk {
        return None;
      }
      inputFormatValid := true;
      var ok;
      ok, raised := ProcessParam(value, ctx);
      if ok {
        resultType := Valid;
      }
    }
  }

  // ---------------------------------------------------------------------------
  // What `set_value` promises

  /** A format reject leaves the executor as it was: still INVALID when fresh, format flag
      unchanged, `_process_param` not run, nothing raised. */
  lemma FormatRejectChangesNothing(kind: ExecutorKind, param: CommandParam, value: string, ctx: Context, s: ExecState)
    requires !FormatAccepts(kind, param, value, ctx)
    ensures Evaluate(kind, param, value, ctx, s) == Evaluation(s, None)
  {
  }

  /** From a fresh executor: the result is VALID exactly when the format passed and
      `_process_param` returned true; so VALID implies the format flag. */
  lemma ValidIffFormatAndProcess(kind: ExecutorKind, param: CommandParam, value: string, ctx: Context)
    ensures var e := Evaluate(kind, param, value, ctx, Fresh);
            (e.state.formatValid <==> FormatAccepts(kind, param, value, ctx)) &&
            (e.state.result == Valid <==>
               FormatAccepts(kind, param, value, ctx) &&
               Process(kind, param, value, ctx, AfterFormat(kind, value, ctx, Fresh).(formatValid := true)).ok)
    ensures Evaluate(kind, param, value, ctx, Fresh).state.result == Valid ==> Evaluate(kind, param, value, ctx, Fresh).state.formatValid
  {
    if FormatAccepts(kind, param, value, ctx) {
      var s1 := AfterFormat(kind, value, ctx, Fresh).(formatValid := true);
      ProcessKeepsFlags(kind, param, value, ctx, s1);
    }
  }

  /** `_process_param` never touches the result or the format flag. */
  lemma ProcessKeepsFlags(kind: ExecutorKind, param: CommandParam, value: string, ctx: Context, s: ExecState)
    requires kind.IntExecutor? ==> s.intValue.Some?
    ensures Process(kind, param, value, ctx, s).state.result == s.result
    ensures Process(kind, param, value, ctx, s).state.formatValid == s.formatValid
  {
  }

  /** The always-accepting kinds are exactly User, Emoji and Text, and they accept every
      token at the format stage; the two others each reject some token. */
  lemma AlwaysAcceptingAcceptsAll(kind: ExecutorKind, param: CommandParam, value: string, ctx: Context)
    ensures AlwaysAccepts(kind) <==> kind in {UserExecutor, EmojiExecutor, TextExecutor}
    ensures AlwaysAccepts(kind) ==> FormatAccepts(kind, param, value, ctx)
    ensures kind.FixedValueExecutor? ==> !FormatAccepts(kind, param, param.name + "_", ctx)
  {
    if kind.FixedValueExecutor? {
      assert |param.name + "_"| != |param.name|;
    }
  }

  /** A fixed value is format-valid exactly when the token is the parameter's name, and then
      it is VALID. */
  lemma FixedValueMatchesName(param: CommandParam, value: string, ctx: Context)
    ensures var e := Evaluate(FixedValueExecutor, param, value, ctx, Fresh);
            (e.state.formatValid <==> value == param.name) &&
            (e.state.result == Valid <==> value == param.name) &&
            e.raised == None
  {
  }

  /**
   * The integer executor: format-valid exactly when the token parses, and then the parsed
   * value is stored. Without an integer config it raises "Config not found!"; with one it
   * is VALID exactly when the value lies within the bounds, and otherwise reports
   * "Valeur invalide.".
   */
  lemma IntChecksRange(param: CommandParam, value: string, ctx: Context)
    ensures var e := Evaluate(IntExecutor, param, value, ctx, Fresh);
            (e.state.formatValid <==> ctx.parseInt(value).Some?) &&
            e.state.intValue == ctx.parseInt(value) &&
            (ctx.parseInt(value).Some? ==>
               (e.raised == Some(ConfigNotFound) <==> FirstIntConfig(param.configs).None?) &&
               (FirstIntConfig(param.configs).Some? ==>
                  (e.state.result == Valid <==> InRange(FirstIntConfig(param.configs).value, ctx.parseInt(value).value)) &&
                  (e.state.result == Invalid ==> e.state.error == Some(InvalidValue))))
  {
  }

  /**
   * The user executor: outside a text channel it is INVALID with no error; a token shorter
   * than three characters is INVALID with the length error and no lookup; otherwise it is
   * VALID exactly when `find_user` finds someone, who is stored, and reports
   * "Utilisateur introuvable." when nobody is found.
   */
  lemma UserLooksUp(param: CommandParam, value: string, ctx: Context)
    ensures var e := Evaluate(UserExecutor, param, value, ctx, Fresh);
            var lookup := ParsingUtils.FindUserSpec(ctx.members, value, ctx.fold);
            e.state.formatValid &&
            (!ctx.isTextChannel ==> e == Evaluation(Fresh.(formatValid := true), None)) &&
            (ctx.isTextChannel && |value| < 3 ==>
               e == Evaluation(Fresh.(formatValid := true, error := Some(UserNameTooShort)), None)) &&
            (ctx.isTextChannel && |value| >= 3 ==>
               (e.state.result == Valid <==> lookup.Found?) &&
               (lookup.Found? ==> e.state.user == Some(lookup.user)) &&
               (lookup == ParsingUtils.NotFound ==> e.state.error == Some(UserNotFound)) &&
               (e.raised.Some? <==> lookup == ParsingUtils.DivisionByZero))
  {
  }

  /** The emoji executor is VALID exactly when an emoji is found, which is stored. */
  lemma EmojiLooksUp(param: CommandParam, value: string, ctx: Context)
    ensures var e := Evaluate(EmojiExecutor, param, value, ctx, Fresh);
            var found := ParsingUtils.GetEmoji(value, ctx.emojiLibrary, ctx.clientEmojis);
            e.raised == None && e.state.emoji == found &&
            (e.state.result == Valid <==> found.Some?) &&
            (found.None? ==> e.state.error == Some(InvalidEmoji))
  {
  }

  /** The text executor is always VALID and keeps the token unchanged. */
  lemma TextKeepsToken(param: CommandParam, value: string, ctx: Context)
    ensures var e := Evaluate(TextExecutor, param, value, ctx, Fresh);
            e.state.result == Valid && e.state.text == Some(value) && e.raised == None
  {
  }

  // ---------------------------------------------------------------------------
  // The integer executor as written reads an attribute the parameter does not have

  /** The message of the `AttributeError` raised by `self.param.config`. */
  const NoConfigAttribute: string := "'CommandParam' object has no attribute 'config'"

  /** `_process_param` of the integer executor as written: the parameter keeps its configs
      in `configs`, so reading `config` raises whatever the parameter holds. */
  function IntProcessAsWritten(param: CommandParam, v: int): Result<bool, string>
  {
    Failure(NoConfigAttribute)
  }

  /** With a range config present and the value inside it, the code as written raises
      where the corrected executor answers VALID. */
  lemma IntProcessAsWrittenRaises()
    ensures var param := CommandParam("count", "", Int, [IntRange(IntParamConfig(Some(1), Some(10)))]);
            IntProcessAsWritten(param, 5).Failure? &&
            Evaluate(IntExecutor, param, "5", Context(true, [], s => s, s => None, [], s => Some(5)), Fresh).state.result == Valid
  {
    var param := CommandParam("count", "", Int, [IntRange(IntParamConfig(Some(1), Some(10)))]);
    assert FirstIntConfig(param.configs) == Some(IntParamConfig(Some(1), Some(10)));
  }

  /** Past the attribute read, the range test of the integer executor is the same chained
      comparison as `IntParamConfig._validate`: with a minimum-only config it raises on a
      value the corrected executor finds VALID. */
  lemma IntCompareAsWrittenRaises()
    ensures var c := IntParamConfig(Some(1), None);
            var param := CommandParam("count", "", Int, [IntRange(c)]);
            NewIntParamConfig(Some(1), None) == Success(c) &&
            RangeCheckAsWritten(c, 5) == ComparisonTypeError &&
            Evaluate(IntExecutor, param, "5", Context(true, [], s => s, s => None, [], s => Some(5)), Fresh).state.result == Valid
  {
  }
}
