/**
 * `BaseCommand` of src/core/command/base.py: the dispatcher that reads a command's token
 * list against its declared syntaxes and settles on exactly one outcome: help, a wrong
 * token count, a parameter error, a callback, or the fallback error.
 */
module Command {
  import opened Wrappers
  import opened Utils
  import opened Params
  import opened Executor
  import opened ExecutorFactory
  import opened Syntax

  /** `sys.maxsize` on a 64-bit interpreter, the starting minimum. */
  const MaxSize: int := 0x7FFF_FFFF_FFFF_FFFF

  /** `HookType` of src/core/command/types.py. */
  datatype HookType = NoHook | TypingHook | MessageHook

  /** What one dispatch ends with. `Raised` is an exception that escapes `execute`. */
  datatype Outcome =
    | Help
    | ArgCountError
    | ParamError(error: Option<string>)
    | Invoke(callback: nat, executors: seq<ExecState>)
    | Fallback
    | Raised(exception: string)

  const ArgCountMessage: string := "Nombre de paramètres inatendu !"
  const FallbackMessage: string := "Tu as dû faire une petite erreur quelque part."

  /** `_display_error`: the error, then where to find help; an error that is `None` is
      printed as "None". */
  function ErrorReply(commandName: string, error: Option<string>): string
  {
    (if error.Some? then error.value else "None") + " Tape **!" + commandName + "** pour afficher l'aide."
  }

  /** The error reply an outcome sends, if it sends one. */
  function ReplyOf(commandName: string, outcome: Outcome): (r: Option<string>)
    ensures r.Some? <==> outcome.ArgCountError? || outcome.ParamError? || outcome.Fallback?
  {
    match outcome
    case ArgCountError => Some(ErrorReply(commandName, Some(ArgCountMessage)))
    case ParamError(e) => Some(ErrorReply(commandName, e))
    case Fallback => Some(ErrorReply(commandName, Some(FallbackMessage)))
    case _ => None
  }

  /** A parameter error without a message (the user executor outside a text channel)
      replies with the text "None". */
  lemma ErrorWithoutMessage(commandName: string)
    ensures var r := ReplyOf(commandName, ParamError(None)); r.Some? && |r.value| > 4 && r.value[..4] == "None"
  {
    var r := ReplyOf(commandName, ParamError(None));
    assert r.value == "None" + (" Tape **!" + commandName + "** pour afficher l'aide.");
  }

  // ---------------------------------------------------------------------------
  // Parameter-count bounds

  /** The running minimum of the parameter counts from `i` on, starting from `acc`. */
  function MinFrom(syntaxes: seq<CommandSyntax>, i: nat, acc: int): int
    requires i <= |syntaxes|
    decreases |syntaxes| - i
  {
    if i == |syntaxes| then acc
    else MinFrom(syntaxes, i + 1, if |syntaxes[i].params| < acc then |syntaxes[i].params| else acc)
  }

  /** The running maximum of the parameter counts from `i` on, starting from `acc`. */
  function MaxFrom(syntaxes: seq<CommandSyntax>, i: nat, acc: int): int
    requires i <= |syntaxes|
    decreases |syntaxes| - i
  {
    if i == |syntaxes| then acc
    else MaxFrom(syntaxes, i + 1, if |syntaxes[i].params| > acc then |syntaxes[i].params| else acc)
  }

  /** `_min_params_count` and `_max_params_count`. */
  function MinCount(syntaxes: seq<CommandSyntax>): int
  {
    MinFrom(syntaxes, 0, MaxSize)
  }

  function MaxCount(syntaxes: seq<CommandSyntax>): int
  {
    MaxFrom(syntaxes, 0, 0)
  }

  lemma {:induction false} MinFromIsMinimum(syntaxes: seq<CommandSyntax>, i: nat, acc: int)
    requires i <= |syntaxes|
    ensures MinFrom(syntaxes, i, acc) <= acc
    ensures forall j :: i <= j < |syntaxes| ==> MinFrom(syntaxes, i, acc) <= |syntaxes[j].params|
    ensures MinFrom(syntaxes, i, acc) == acc || exists j :: i <= j < |syntaxes| && MinFrom(syntaxes, i, acc) == |syntaxes[j].params|
    decreases |syntaxes| - i
  {
    if i < |syntaxes| {
      MinFromIsMinimum(syntaxes, i + 1, if |syntaxes[i].params| < acc then |syntaxes[i].params| else acc);
    }
  }

  lemma {:induction false} MaxFromIsMaximum(syntaxes: seq<CommandSyntax>, i: nat, acc: int)
    requires i <= |syntaxes|
    ensures MaxFrom(syntaxes, i, acc) >= acc
    ensures forall j :: i <= j < |syntaxes| ==> MaxFrom(syntaxes, i, acc) >= |syntaxes[j].params|
    ensures MaxFrom(syntaxes, i, acc) == acc || exists j :: i <= j < |syntaxes| && MaxFrom(syntaxes, i, acc) == |syntaxes[j].params|
    decreases |syntaxes| - i
  {
    if i < |syntaxes| {
      MaxFromIsMaximum(syntaxes, i + 1, if |syntaxes[i].params| > acc then |syntaxes[i].params| else acc);
    }
  }

  /** With at least one syntax, the bounds are the smallest and the largest parameter count
      of the declared syntaxes (a Python list is never longer than `sys.maxsize`). */
  lemma BoundsAreExtremes(syntaxes: seq<CommandSyntax>)
    requires syntaxes != []
    requires forall j :: 0 <= j < |syntaxes| ==> |syntaxes[j].params| <= MaxSize
    ensures forall j :: 0 <= j < |syntaxes| ==> MinCount(syntaxes) <= |syntaxes[j].params| <= MaxCount(syntaxes)
    ensures exists j :: 0 <= j < |syntaxes| && MinCount(syntaxes) == |syntaxes[j].params|
    ensures exists j :: 0 <= j < |syntaxes| && MaxCount(syntaxes) == |syntaxes[j].params|
  {
    MinFromIsMinimum(syntaxes, 0, MaxSize);
    MaxFromIsMaximum(syntaxes, 0, 0);
    if MinCount(syntaxes) == MaxSize {
      assert MinCount(syntaxes) <= |syntaxes[0].params|;
    }
    if MaxCount(syntaxes) == 0 {
      assert MaxCount(syntaxes) >= |syntaxes[0].params|;
    }
  }

  // ---------------------------------------------------------------------------
  // Candidate order

  /** `(("always_validate_input_format", False), ("param_count", True))`: syntaxes that may
      reject a token's format first, then the longer ones first. */
  function SyntaxOrder(): seq<SortSpec<CommandSyntax>>
  {
    var always: CommandSyntax -> real := (s: CommandSyntax) => BoolKey(AllAlwaysAccepting(s.params));
    var count: CommandSyntax -> real := (s: CommandSyntax) => |s.params| as real;
    [SortSpec(always, false), SortSpec(count, true)]
  }

  /**
   * In the sorted candidates, an earlier syntax is not always-accepting while the later one
   * is, or both agree on that and the earlier has more parameters, or both agree on both
   * and the earlier was declared first.
   */
  lemma CandidateOrder(declared: seq<CommandSyntax>, sorted: seq<CommandSyntax>, perm: seq<nat>, i: nat, j: nat)
    requires StableSorted(declared, sorted, perm, SyntaxOrder())
    requires i < j < |sorted|
    ensures var a, b := sorted[i], sorted[j];
            var aa, ba := AllAlwaysAccepting(a.params), AllAlwaysAccepting(b.params);
            (!aa && ba) ||
            (aa == ba && |a.params| > |b.params|) ||
            (aa == ba && |a.params| == |b.params| && perm[i] < perm[j])
  {
    var a, b := sorted[i], sorted[j];
    assert Precedes(SyntaxOrder(), 0, a, perm[i], b, perm[j]);
    var specs := SyntaxOrder();
    assert Oriented(specs[0], a) == BoolKey(AllAlwaysAccepting(a.params));
    assert Oriented(specs[0], b) == BoolKey(AllAlwaysAccepting(b.params));
    assert Oriented(specs[1], a) == -(|a.params| as real);
    assert Oriented(specs[1], b) == -(|b.params| as real);
  }

  // ---------------------------------------------------------------------------
  // The dispatch, as a function

  /** One executor of the dispatch: the parameter it was created for, its class and its
      state after `set_value`. */
  datatype Slot = Slot(param: CommandParam, kind: ExecutorKind, state: ExecState)

  /** `all_executors`, keyed by position and parameter name. */
  type Memo = map<(nat, string), Slot>

  /** How trying one syntax ends: every parameter passed, a format reject (try the next
      syntax), or a definitive stop. */
  datatype Attempt =
    | Accepted(memo: Memo, states: seq<ExecState>)
    | Rejected(memo: Memo)
    | Stopped(outcome: Outcome, memo: Memo)

  /** The executor for the `k`-th parameter: the one already stored under (`k`, name), or a
      new one of the mapped class, stored and given the token; either step may raise. */
  datatype Fetch = Got(slot: Slot, memo: Memo) | Threw(exception: string, memo: Memo)

  function FetchSlot(p: CommandParam, k: nat, token: string, ctx: Context, memo: Memo): Fetch
  {
    var key := (k, p.name);
    if key in memo then Got(memo[key], memo)
    else
      var cls := GetExecutorClass(p.paramType);
      if cls.Failure? then Threw(cls.error, memo)
      else
        var e := Evaluate(cls.value, p, token, ctx, Fresh);
        var memo' := memo[key := Slot(p, cls.value, e.state)];
        if e.raised.Some? then Threw(e.raised.value, memo') else Got(Slot(p, cls.value, e.state), memo')
  }

  /** The parameters of one syntax from the `k`-th on: a format reject moves on to the next
      syntax, an INVALID result stops with its error, and otherwise the next parameter. */
  function RunParams(params: seq<CommandParam>, tokens: seq<string>, ctx: Context, k: nat, memo: Memo, acc: seq<ExecState>): Attempt
    requires |params| == |tokens| && k <= |params|
    decreases |params| - k
  {
    if k == |params| then Accepted(memo, acc)
    else
      match FetchSlot(params[k], k, tokens[k], ctx, memo)
      case Threw(x, m) => Stopped(Raised(x), m)
      case Got(slot, m) =>
        if !AlwaysAccepts(slot.kind) && !slot.state.formatValid then Rejected(m)
        else if slot.state.result == Invalid then Stopped(ParamError(slot.state.error), m)
        else RunParams(params, tokens, ctx, k + 1, m, acc + [slot.state])
  }

  /** The sorted candidates from the `i`-th on; only those with as many parameters as there
      are tokens are tried. */
  function RunSyntaxes(candidates: seq<CommandSyntax>, tokens: seq<string>, ctx: Context, i: nat, memo: Memo): (Outcome, Memo)
    requires i <= |candidates|
    decreases |candidates| - i
  {
    if i == |candidates| then (Fallback, memo)
    else if |tokens| != |candidates[i].params| then RunSyntaxes(candidates, tokens, ctx, i + 1, memo)
    else
      match RunParams(candidates[i].params, tokens, ctx, 0, memo, [])
      case Accepted(m, states) => (Invoke(candidates[i].callback, states), m)
      case Rejected(m) => RunSyntaxes(candidates, tokens, ctx, i + 1, m)
      case Stopped(o, m) => (o, m)
  }

  /** `execute`, as a function of the declared syntaxes, their sorted copy, the tokens and
      the context: the outcome and the executors it created. */
  function Dispatch(declared: seq<CommandSyntax>, candidates: seq<CommandSyntax>, tokens: seq<string>, ctx: Context): (Outcome, Memo)
  {
    if tokens == [] || declared == [] then (Help, map[])
    else if |tokens| < MinCount(declared) || |tokens| > MaxCount(declared) then (ArgCountError, map[])
    else RunSyntaxes(candidates, tokens, ctx, 0, map[])
  }

  // ---------------------------------------------------------------------------
  // The command class

  /** An executor object per memo key, in the state the memo records. */
  ghost predicate Matches(execs: map<(nat, string), ParamExecutor>, memo: Memo)
    reads execs.Values
  {
    execs.Keys == memo.Keys &&
    forall key :: key in execs ==>
      execs[key].param == memo[key].param && execs[key].kind == memo[key].kind && execs[key].State() == memo[key].state
  }

  /** How trying one syntax ends, as the method reports it. */
  datatype Trial = Passed(states: seq<ExecState>) | FormatRejected | Ended(outcome: Outcome)

  function AttemptOf(t: Trial, memo: Memo): Attempt
  {
    match t
    case Passed(states) => Accepted(memo, states)
    case FormatRejected => Rejected(memo)
    case Ended(o) => Stopped(o, memo)
  }

  /** The executors created so far are kept as they are. */
  predicate Keeps(execs0: map<(nat, string), ParamExecutor>, execs: map<(nat, string), ParamExecutor>)
  {
    execs0.Items <= execs.Items
  }

  /** ... and the new ones are fresh. */
  twostate predicate Grows(execs0: map<(nat, string), ParamExecutor>, new execs: map<(nat, string), ParamExecutor>)
  {
    Keeps(execs0, execs) && forall key :: key in execs && key !in execs0 ==> fresh(execs[key])
  }

  /** The lookup-or-create step of `execute` for one parameter. */
  method FetchExecutor(p: CommandParam, k: nat, token: string, ctx: Context,
                       execs0: map<(nat, string), ParamExecutor>, ghost memo0: Memo)
    returns (executor: ParamExecutor?, exception: Option<string>,
             execs: map<(nat, string), ParamExecutor>, ghost memo: Memo)
    requires Matches(execs0, memo0)
    ensures Matches(execs, memo) && Grows(execs0, execs)
    ensures exception.Some? ==> FetchSlot(p, k, token, ctx, memo0) == Threw(exception.value, memo)
    ensures exception.None? ==>
              executor != null &&
              FetchSlot(p, k, token, ctx, memo0) == Got(Slot(executor.param, executor.kind, executor.State()), memo)
  {
    execs, memo := execs0, memo0;
    var key := (k, p.name);
    if key in execs {
      executor := execs[key];
      return executor, None, execs, memo;
    }
    var created := GetExecutor(p);
    if created.Failure? {
      return null, Some(created.error), execs, memo;
    }
    executor := created.value;
    exception := executor.SetValue(token, ctx);
    execs := execs[key := executor];
    memo := memo[key := Slot(p, executor.kind, executor.State())];
  }

  /** One pass of the inner loop of `execute`: fetch the executor of the `k`-th parameter
      and either stop with how the syntax ends or go on with its state appended. */
  method TryParam(params: seq<CommandParam>, tokens: seq<string>, ctx: Context, k: nat, acc: seq<ExecState>,
                  execs0: map<(nat, string), ParamExecutor>, ghost memo0: Memo)
    returns (stop: Option<Trial>, acc': seq<ExecState>, execs: map<(nat, string), ParamExecutor>, ghost memo: Memo)
    requires |params| == |tokens| && k < |params| && Matches(execs0, memo0)
    ensures Matches(execs, memo) && Grows(execs0, execs)
    ensures stop.Some? ==> AttemptOf(stop.value, memo) == RunParams(params, tokens, ctx, k, memo0, acc)
    ensures stop.None? ==> RunParams(params, tokens, ctx, k, memo0, acc) == RunParams(params, tokens, ctx, k + 1, memo, acc')
  {
    var executor, exception;
    executor, exception, execs, memo := FetchExecutor(params[k], k, tokens[k], ctx, execs0, memo0);
    acc' := acc;
    if exception.Some? {
      return Some(Ended(Raised(exception.value))), acc', execs, memo;
    }
    if !AlwaysAccepts(executor.kind) {
      if !executor.inputFormatValid {
        return Some(FormatRejected), acc', execs, memo;
      } else if executor.resultType == Invalid {
        return Some(Ended(ParamError(executor.error))), acc', execs, memo;
      }
    } else if executor.resultType == Invalid {
      return Some(Ended(ParamError(executor.error))), acc', execs, memo;
    }
    return None, acc + [executor.State()], execs, memo;
  }

  /** The inner loop of `execute` over one syntax's parameters. */
  method TrySyntax(params: seq<CommandParam>, tokens: seq<string>, ctx: Context,
                   execs0: map<(nat, string), ParamExecutor>, ghost memo0: Memo)
    returns (t: Trial, execs: map<(nat, string), ParamExecutor>, ghost memo: Memo)
    requires |params| == |tokens| && Matches(execs0, memo0)
    ensures Matches(execs, memo) && Keeps(execs0, execs)
    ensures AttemptOf(t, memo) == RunParams(params, tokens, ctx, 0, memo0, [])
  {
    execs, memo := execs0, memo0;
    var acc: seq<ExecState> := [];
    var k := 0;
    while k < |params|
      invariant k <= |params|
      invariant Matches(execs, memo) && Keeps(execs0, execs)
      invariant RunParams(params, tokens, ctx, 0, memo0, []) == RunParams(params, tokens, ctx, k, memo, acc)
    {
      var stop;
      stop, acc, execs, memo := TryParam(params, tokens, ctx, k, acc, execs, memo);
      if stop.Some? {
        return stop.value, execs, memo;
      }
      k := k + 1;
    }
    return Passed(acc), execs, memo;
  }

  /** The sort key of `_get_sorted_syntaxes` reads each syntax's memoised flag; this fills
      every cache, leaving each syntax valid and its flag the one its parameters give. */
  method WarmCaches(syntaxes: seq<CommandSyntax>)
    requires forall s :: s in syntaxes ==> s.Valid()
    modifies set s | s in syntaxes
    ensures forall s :: s in syntaxes ==> s.Valid() && s.alwaysCache == Some(AllAlwaysAccepting(s.params))
  {
    var k := 0;
    while k < |syntaxes|
      modifies set s | s in syntaxes
      invariant k <= |syntaxes|
      invariant forall s :: s in syntaxes ==> s.Valid()
      invariant forall j :: 0 <= j < k ==> syntaxes[j].alwaysCache == Some(AllAlwaysAccepting(syntaxes[j].params))
    {
      var _ := syntaxes[k].AlwaysValidateInputFormat();
      k := k + 1;
    }
  }

  /** A command class: its name, the syntaxes `_build_syntaxes` returns, its hook, and the
      class-level caches `execute` fills on first use. */
  class Command {
    const name: string
    const built: seq<CommandSyntax>
    const hasHook: bool
    const hookType: HookType
    var syntaxes: Option<seq<CommandSyntax>>
    var minCount: int
    var maxCount: int
    var sortedSyntaxes: Option<seq<CommandSyntax>>
    /** Where each sorted syntax stood in the declared list. */
    ghost var sortPerm: seq<nat>

    /** The caches, once filled, hold the declared syntaxes, their count bounds and a
        stable sort of them by `SyntaxOrder`. */
    ghost predicate Valid()
      reads this
    {
      (syntaxes.Some? ==> syntaxes.value == built && minCount == MinCount(built) && maxCount == MaxCount(built)) &&
      (sortedSyntaxes.Some? ==> syntaxes.Some? && StableSorted(built, sortedSyntaxes.value, sortPerm, SyntaxOrder()))
    }

    ghost predicate SyntaxesValid()
      reads set s | s in built
    {
      forall s :: s in built ==> s.Valid()
    }

    constructor (name: string, built: seq<CommandSyntax>, hasHook: bool, hookType: HookType)
      ensures this.name == name && this.built == built && this.hasHook == hasHook && this.hookType == hookType
      ensures syntaxes.None? && sortedSyntaxes.None? && Valid()
    {
      this.name := name;
      this.built := built;
      this.hasHook := hasHook;
      this.hookType := hookType;
      syntaxes := None;
      minCount := 0;
      maxCount := 0;
      sortedSyntaxes := None;
      sortPerm := [];
    }

    /** `get_syntaxes`: builds the syntaxes once and records the smallest and largest
        parameter count. */
    method GetSyntaxes() returns (r: seq<CommandSyntax>)
      requires Valid()
      modifies this
      ensures Valid() && r == built && syntaxes == Some(built)
      ensures sortedSyntaxes == old(sortedSyntaxes) && sortPerm == old(sortPerm)
    {
      if syntaxes.None? {
        syntaxes := Some(built);
        minCount := MaxSize;
        maxCount := 0;
        var i := 0;
        while i < |built|
          invariant i <= |built| && syntaxes == Some(built)
          invariant sortedSyntaxes == old(sortedSyntaxes) && sortPerm == old(sortPerm)
          invariant MinFrom(built, i, minCount) == MinCount(built)
          invariant MaxFrom(built, i, maxCount) == MaxCount(built)
        {
          var count := built[i].ParamCount();
          if count < minCount {
            minCount := count;
          }
          if count > maxCount {
            maxCount := count;
          }
          i := i + 1;
        }
      }
      return syntaxes.value;
    }

    /** `_get_sorted_syntaxes`: a sorted copy, made once; the declared list is left as it
        is. The sort reads each syntax's memoised flag, which fills its cache. */
    method GetSortedSyntaxes() returns (r: seq<CommandSyntax>)
      requires Valid() && SyntaxesValid()
      modifies this, set s | s in built
      ensures Valid() && SyntaxesValid()
      ensures syntaxes == Some(built) && sortedSyntaxes == Some(r)
      ensures StableSorted(built, r, sortPerm, SyntaxOrder())
      ensures old(sortedSyntaxes).Some? ==> r == old(sortedSyntaxes).value
    {
      if sortedSyntaxes.None? {
        var declared := GetSyntaxes();
        var copy := new CommandSyntax[|declared|](k requires 0 <= k < |declared| => declared[k]);
        WarmCaches(declared);
        assert copy[..] == built;
        var _, perm := Multisort(copy, SyntaxOrder());
        var sorted := copy[..];
        assert StableSorted(built, sorted, perm, SyntaxOrder());
        sortedSyntaxes := Some(sorted);
        sortPerm := perm;
      } else {
        var _ := GetSyntaxes();
      }
      return sortedSyntaxes.value;
    }

    /**
     * `execute`: help for no token or no syntax; the count error when the number of tokens
     * lies outside the declared bounds; otherwise the sorted candidates are tried in order,
     * sharing one executor per (position, parameter name).
     */
    method Execute(tokens: seq<string>, ctx: Context) returns (outcome: Outcome, ghost memo: Memo)
      requires Valid() && SyntaxesValid()
      modifies this, set s | s in built
      ensures Valid() && SyntaxesValid()
      ensures tokens != [] ==> syntaxes == Some(built)
      ensures tokens != [] && built != [] ==> sortedSyntaxes.Some?
      ensures (outcome, memo) == Dispatch(built, if sortedSyntaxes.Some? then sortedSyntaxes.value else built, tokens, ctx)
    {
      if tokens == [] {
        return Help, map[];
      }
      var declared := GetSyntaxes();
      if declared == [] {
        return Help, map[];
      }
      var candidates := GetSortedSyntaxes();
      if |tokens| < minCount || |tokens| > maxCount {
        return ArgCountError, map[];
      }
      var execs: map<(nat, string), ParamExecutor> := map[];
      memo := map[];
      var i := 0;
      while i < |candidates|
        invariant i <= |candidates|
        invariant Valid() && SyntaxesValid()
        invariant syntaxes == Some(built) && sortedSyntaxes == Some(candidates)
        invariant Matches(execs, memo)
        invariant RunSyntaxes(candidates, tokens, ctx, 0, map[]) == RunSyntaxes(candidates, tokens, ctx, i, memo)
      {
        var syntax := candidates[i];
        if |tokens| == |syntax.params| {
          var trial;
          trial, execs, memo := TrySyntax(syntax.params, tokens, ctx, execs, memo);
          match trial {
            case Passed(states) =>
              return Invoke(syntax.callback, states), memo;
            case Ended(o) =>
              return o, memo;
            case FormatRejected =>
          }
        }
        i := i + 1;
      }
      return Fallback, memo;
    }
  }
}
