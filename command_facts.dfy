/** What the dispatch of `BaseCommand.execute` guarantees, for every token list. */
module CommandFacts {
  import opened Wrappers
  import opened Utils
  import opened Params
  import opened Executor
  import opened ExecutorFactory
  import opened Syntax
  import opened Command

  /** A format reject: the executor class checks formats and the token failed. */
  predicate Rejects(s: Slot)
  {
    !AlwaysAccepts(s.kind) && !s.state.formatValid
  }

  /** A definitive INVALID: the token passed the format stage but not the processing. */
  predicate Invalidates(s: Slot)
  {
    !Rejects(s) && s.state.result == Invalid
  }

  /** Every stored executor sits under its position and its own parameter's name, is of the
      class mapped to that parameter's type, and was given the token at its position once. */
  predicate Faithful(memo: Memo, tokens: seq<string>, ctx: Context)
  {
    forall key :: key in memo ==>
      key.0 < |tokens| && key.1 == memo[key].param.name &&
      memo[key].kind == KindFor(memo[key].param.paramType) &&
      memo[key].state == Evaluate(memo[key].kind, memo[key].param, tokens[key.0], ctx, Fresh).state
  }

  /** `m` keeps every executor of `memo` as it was. */
  ghost predicate Extends(memo: Memo, m: Memo)
  {
    memo.Keys <= m.Keys && forall key :: key in memo ==> m[key] == memo[key]
  }

  /** The lookup-or-create step keeps the store faithful and only adds to it. */
  lemma FetchKeeps(p: CommandParam, k: nat, tokens: seq<string>, ctx: Context, memo: Memo)
    requires k < |tokens| && Faithful(memo, tokens, ctx)
    ensures var f := FetchSlot(p, k, tokens[k], ctx, memo);
            Faithful(f.memo, tokens, ctx) && Extends(memo, f.memo)
  {
    var key := (k, p.name);
    if key !in memo {
      EveryTypeHasOneExecutor(p.paramType, p.paramType);
      assert GetExecutorClass(p.paramType).value == KindFor(p.paramType);
    }
  }

  /** What the step hands back is the executor stored under the parameter's position and
      name. */
  lemma FetchStores(p: CommandParam, k: nat, token: string, ctx: Context, memo: Memo)
    ensures var f := FetchSlot(p, k, token, ctx, memo);
            Extends(memo, f.memo) &&
            (f.Got? ==> (k, p.name) in f.memo && f.memo[(k, p.name)] == f.slot)
  {
  }

  /** One syntax's attempt keeps the store faithful and only adds to it. */
  lemma {:induction false} RunParamsKeeps(params: seq<CommandParam>, tokens: seq<string>, ctx: Context, k: nat, memo: Memo, acc: seq<ExecState>)
    requires |params| == |tokens| && k <= |params|
    requires Faithful(memo, tokens, ctx)
    ensures var r := RunParams(params, tokens, ctx, k, memo, acc);
            Faithful(r.memo, tokens, ctx) && Extends(memo, r.memo)
    decreases |params| - k
  {
    if k < |params| {
      FetchKeeps(params[k], k, tokens, ctx, memo);
      match FetchSlot(params[k], k, tokens[k], ctx, memo)
      case Threw(x, m) =>
      case Got(slot, m) =>
        if !Rejects(slot) && slot.state.result != Invalid {
          RunParamsKeeps(params, tokens, ctx, k + 1, m, acc + [slot.state]);
        }
    }
  }

  /** An attempt only adds to the store. */
  lemma {:induction false} RunParamsExtends(params: seq<CommandParam>, tokens: seq<string>, ctx: Context, k: nat, memo: Memo, acc: seq<ExecState>)
    requires |params| == |tokens| && k <= |params|
    ensures Extends(memo, RunParams(params, tokens, ctx, k, memo, acc).memo)
    decreases |params| - k
  {
    if k < |params| {
      FetchStores(params[k], k, tokens[k], ctx, memo);
      match FetchSlot(params[k], k, tokens[k], ctx, memo)
      case Threw(x, m) =>
      case Got(slot, m) =>
        if !Rejects(slot) && slot.state.result != Invalid {
          RunParamsExtends(params, tokens, ctx, k + 1, m, acc + [slot.state]);
        }
    }
  }

  /** An accepted attempt: every parameter's executor is stored, passed its format check
      and is VALID, and the callback receives their states in parameter order. */
  lemma {:induction false} RunParamsAccepted(params: seq<CommandParam>, tokens: seq<string>, ctx: Context, k: nat, memo: Memo, acc: seq<ExecState>)
    requires |params| == |tokens| && k <= |params| && |acc| == k
    ensures var r := RunParams(params, tokens, ctx, k, memo, acc);
            r.Accepted? ==>
              |r.states| == |params| && r.states[..k] == acc &&
              forall j :: k <= j < |params| ==>
                (j, params[j].name) in r.memo && !Rejects(r.memo[(j, params[j].name)]) &&
                r.memo[(j, params[j].name)].state == r.states[j] && r.states[j].result == Valid
    decreases |params| - k
  {
    if k < |params| {
      var key := (k, params[k].name);
      FetchStores(params[k], k, tokens[k], ctx, memo);
      match FetchSlot(params[k], k, tokens[k], ctx, memo)
      case Threw(x, m) =>
      case Got(slot, m) =>
        if !Rejects(slot) && slot.state.result != Invalid {
          var acc' := acc + [slot.state];
          RunParamsAccepted(params, tokens, ctx, k + 1, m, acc');
          RunParamsExtends(params, tokens, ctx, k + 1, m, acc');
          var r := RunParams(params, tokens, ctx, k + 1, m, acc');
          if r.Accepted? {
            assert r.states[..k] == r.states[..k + 1][..k];
            assert r.states[k] == r.states[..k + 1][k] == slot.state;
            assert r.memo[key] == m[key];
          }
        }
    }
  }

  /** A rejected attempt leaves a stored executor that rejected its token's format; a
      stopped one ends in an exception or in the error of a stored executor that is
      definitively INVALID. */
  lemma {:induction false} RunParamsStops(params: seq<CommandParam>, tokens: seq<string>, ctx: Context, k: nat, memo: Memo, acc: seq<ExecState>)
    requires |params| == |tokens| && k <= |params|
    ensures var r := RunParams(params, tokens, ctx, k, memo, acc);
            (r.Rejected? ==> exists key :: key in r.memo && Rejects(r.memo[key])) &&
            (r.Stopped? ==>
               r.outcome.Raised? ||
               (r.outcome.ParamError? &&
                exists key :: key in r.memo && Invalidates(r.memo[key]) && r.memo[key].state.error == r.outcome.error))
    decreases |params| - k
  {
    if k < |params| {
      var key := (k, params[k].name);
      FetchStores(params[k], k, tokens[k], ctx, memo);
      match FetchSlot(params[k], k, tokens[k], ctx, memo)
      case Threw(x, m) =>
      case Got(slot, m) =>
        if Rejects(slot) {
          assert key in m && Rejects(m[key]);
        } else if slot.state.result == Invalid {
          assert key in m && Invalidates(m[key]);
        } else {
          RunParamsStops(params, tokens, ctx, k + 1, m, acc + [slot.state]);
        }
    }
  }

  /** Trying the candidates only adds executors. */
  lemma {:induction false} RunSyntaxesExtends(candidates: seq<CommandSyntax>, tokens: seq<string>, ctx: Context, i: nat, memo: Memo)
    requires i <= |candidates|
    ensures Extends(memo, RunSyntaxes(candidates, tokens, ctx, i, memo).1)
    decreases |candidates| - i
  {
    if i < |candidates| {
      if |tokens| != |candidates[i].params| {
        RunSyntaxesExtends(candidates, tokens, ctx, i + 1, memo);
      } else {
        RunParamsExtends(candidates[i].params, tokens, ctx, 0, memo, []);
        match RunParams(candidates[i].params, tokens, ctx, 0, memo, [])
        case Accepted(m, states) =>
        case Rejected(m) =>
          RunSyntaxesExtends(candidates, tokens, ctx, i + 1, m);
        case Stopped(o, m) =>
      }
    }
  }

  /** Trying the candidates keeps every stored executor as created from its own token. */
  lemma {:induction false} RunSyntaxesKeeps(candidates: seq<CommandSyntax>, tokens: seq<string>, ctx: Context, i: nat, memo: Memo)
    requires i <= |candidates| && Faithful(memo, tokens, ctx)
    ensures Faithful(RunSyntaxes(candidates, tokens, ctx, i, memo).1, tokens, ctx)
    decreases |candidates| - i
  {
    if i < |candidates| {
      if |tokens| != |candidates[i].params| {
        RunSyntaxesKeeps(candidates, tokens, ctx, i + 1, memo);
      } else {
        RunParamsKeeps(candidates[i].params, tokens, ctx, 0, memo, []);
        match RunParams(candidates[i].params, tokens, ctx, 0, memo, [])
        case Accepted(m, states) =>
        case Rejected(m) =>
          RunSyntaxesKeeps(candidates, tokens, ctx, i + 1, m);
        case Stopped(o, m) =>
      }
    }
  }

  /** Trying the candidates ends in a callback, a parameter error, an exception or the
      fallback; a callback only for a candidate with as many parameters as tokens, given the
      stored VALID executor states in parameter order. */
  lemma {:induction false} RunSyntaxesInvokes(candidates: seq<CommandSyntax>, tokens: seq<string>, ctx: Context, i: nat, memo: Memo)
    requires i <= |candidates|
    ensures var (o, m) := RunSyntaxes(candidates, tokens, ctx, i, memo);
            (o.Invoke? || o.ParamError? || o.Raised? || o.Fallback?) &&
            (o.Invoke? ==>
               exists j :: i <= j < |candidates| && |candidates[j].params| == |tokens| &&
                 o.callback == candidates[j].callback && |o.executors| == |tokens| &&
                 forall q :: 0 <= q < |tokens| ==>
                   (q, candidates[j].params[q].name) in m &&
                   m[(q, candidates[j].params[q].name)].state == o.executors[q] && o.executors[q].result == Valid)
    decreases |candidates| - i
  {
    if i < |candidates| {
      if |tokens| != |candidates[i].params| {
        RunSyntaxesInvokes(candidates, tokens, ctx, i + 1, memo);
      } else {
        var params := candidates[i].params;
        RunParamsAccepted(params, tokens, ctx, 0, memo, []);
        RunParamsStops(params, tokens, ctx, 0, memo, []);
        match RunParams(params, tokens, ctx, 0, memo, [])
        case Accepted(m, states) =>
          assert |candidates[i].params| == |tokens|;
        case Rejected(m) =>
          RunSyntaxesInvokes(candidates, tokens, ctx, i + 1, m);
        case Stopped(o, m) =>
      }
    }
  }

  /** A parameter error carries the error of a stored executor that is definitively
      INVALID; the fallback after trying at least one candidate means some stored executor
      rejected its token's format. */
  lemma {:induction false} RunSyntaxesErrors(candidates: seq<CommandSyntax>, tokens: seq<string>, ctx: Context, i: nat, memo: Memo)
    requires i <= |candidates|
    ensures var (o, m) := RunSyntaxes(candidates, tokens, ctx, i, memo);
            (o.ParamError? ==> exists key :: key in m && Invalidates(m[key]) && m[key].state.error == o.error) &&
            (o.Fallback? && (exists j :: i <= j < |candidates| && |candidates[j].params| == |tokens|) ==>
               exists key :: key in m && Rejects(m[key]))
    decreases |candidates| - i
  {
    if i < |candidates| {
      if |tokens| != |candidates[i].params| {
        RunSyntaxesErrors(candidates, tokens, ctx, i + 1, memo);
        var (o, m) := RunSyntaxes(candidates, tokens, ctx, i + 1, memo);
        if o.Fallback? && (exists j :: i <= j < |candidates| && |candidates[j].params| == |tokens|) {
          var j :| i <= j < |candidates| && |candidates[j].params| == |tokens|;
          assert j != i;
        }
      } else {
        var params := candidates[i].params;
        RunParamsStops(params, tokens, ctx, 0, memo, []);
        match RunParams(params, tokens, ctx, 0, memo, [])
        case Accepted(m, states) =>
        case Rejected(m) =>
          RunSyntaxesErrors(candidates, tokens, ctx, i + 1, m);
          RunSyntaxesExtends(candidates, tokens, ctx, i + 1, m);
          var (o, m') := RunSyntaxes(candidates, tokens, ctx, i + 1, m);
          if o.Fallback? {
            var key :| key in m && Rejects(m[key]);
            assert key in m' && Rejects(m'[key]);
          }
        case Stopped(o, m) =>
      }
    }
  }

  /** Trying the candidates from the `i`-th on never ends in the help or the count error.
      A callback is invoked only for a candidate with exactly as many parameters as tokens,
      with the stored, VALID executor states in parameter order; a parameter error carries
      the error of a stored executor that is definitively INVALID; the fallback error after
      trying at least one candidate means some stored executor rejected its token's format. */
  lemma RunSyntaxesFacts(candidates: seq<CommandSyntax>, tokens: seq<string>, ctx: Context, i: nat, memo: Memo)
    requires i <= |candidates| && Faithful(memo, tokens, ctx)
    ensures var (o, m) := RunSyntaxes(candidates, tokens, ctx, i, memo);
            Faithful(m, tokens, ctx) && Extends(memo, m) &&
            (o.Invoke? || o.ParamError? || o.Raised? || o.Fallback?) &&
            (o.Invoke? ==>
               exists j :: i <= j < |candidates| && |candidates[j].params| == |tokens| &&
                 o.callback == candidates[j].callback && |o.executors| == |tokens| &&
                 forall q :: 0 <= q < |tokens| ==>
                   (q, candidates[j].params[q].name) in m &&
                   m[(q, candidates[j].params[q].name)].state == o.executors[q] && o.executors[q].result == Valid) &&
            (o.ParamError? ==> exists key :: key in m && Invalidates(m[key]) && m[key].state.error == o.error) &&
            (o.Fallback? && (exists j :: i <= j < |candidates| && |candidates[j].params| == |tokens|) ==>
               exists key :: key in m && Rejects(m[key]))
  {
    RunSyntaxesExtends(candidates, tokens, ctx, i, memo);
    RunSyntaxesKeeps(candidates, tokens, ctx, i, memo);
    RunSyntaxesInvokes(candidates, tokens, ctx, i, memo);
    RunSyntaxesErrors(candidates, tokens, ctx, i, memo);
  }

  /** A format reject sends no reply of its own: the dispatch goes on with the next
      candidate, keeping the executors created so far. */
  lemma FormatRejectTriesNext(candidates: seq<CommandSyntax>, tokens: seq<string>, ctx: Context, i: nat, memo: Memo)
    requires i < |candidates| && |candidates[i].params| == |tokens|
    requires RunParams(candidates[i].params, tokens, ctx, 0, memo, []).Rejected?
    ensures RunSyntaxes(candidates, tokens, ctx, i, memo) ==
            RunSyntaxes(candidates, tokens, ctx, i + 1, RunParams(candidates[i].params, tokens, ctx, 0, memo, []).memo)
  {
  }

  /** With no candidate of the right length, nothing is tried: the fallback error, and no
      executor is created. */
  lemma {:induction false} NoCandidateFallsBack(candidates: seq<CommandSyntax>, tokens: seq<string>, ctx: Context, i: nat, memo: Memo)
    requires i <= |candidates|
    requires forall j :: i <= j < |candidates| ==> |candidates[j].params| != |tokens|
    ensures RunSyntaxes(candidates, tokens, ctx, i, memo) == (Fallback, memo)
    decreases |candidates| - i
  {
    if i < |candidates| {
      NoCandidateFallsBack(candidates, tokens, ctx, i + 1, memo);
    }
  }

  /** The help is shown exactly when there is no token or the command has no syntax. */
  lemma HelpExactly(declared: seq<CommandSyntax>, candidates: seq<CommandSyntax>, tokens: seq<string>, ctx: Context)
    ensures Dispatch(declared, candidates, tokens, ctx).0 == Help <==> tokens == [] || declared == []
    ensures Dispatch(declared, candidates, tokens, ctx).0 == Help ==> Dispatch(declared, candidates, tokens, ctx).1 == map[]
  {
    RunSyntaxesFacts(candidates, tokens, ctx, 0, map[]);
  }

  /**
   * The count error is sent exactly when there are tokens and syntaxes and the number of
   * tokens is smaller than every syntax's parameter count or larger than every one; it
   * creates no executor.
   */
  lemma ArgCountExactly(declared: seq<CommandSyntax>, candidates: seq<CommandSyntax>, tokens: seq<string>, ctx: Context)
    requires forall j :: 0 <= j < |declared| ==> |declared[j].params| <= MaxSize
    ensures var (o, m) := Dispatch(declared, candidates, tokens, ctx);
            (o == ArgCountError <==>
               tokens != [] && declared != [] &&
               ((forall j :: 0 <= j < |declared| ==> |tokens| < |declared[j].params|) ||
                (forall j :: 0 <= j < |declared| ==> |tokens| > |declared[j].params|))) &&
            (o == ArgCountError ==> m == map[])
  {
    RunSyntaxesFacts(candidates, tokens, ctx, 0, map[]);
    if tokens != [] && declared != [] {
      BoundsAreExtremes(declared);
    }
  }

  /**
   * Once the count is in range, the outcome is a callback, a parameter error, an exception
   * or the fallback error, and every executor created is faithful to its token. The callback
   * belongs to a candidate with exactly as many parameters as tokens and receives only VALID
   * executors; a parameter error is the error of a definitively INVALID executor.
   */
  lemma DispatchFacts(declared: seq<CommandSyntax>, candidates: seq<CommandSyntax>, tokens: seq<string>, ctx: Context)
    ensures var (o, m) := Dispatch(declared, candidates, tokens, ctx);
            Faithful(m, tokens, ctx) &&
            (o.Invoke? ==>
               exists j :: 0 <= j < |candidates| && |candidates[j].params| == |tokens| &&
                 o.callback == candidates[j].callback && |o.executors| == |tokens| &&
                 forall q :: 0 <= q < |tokens| ==> o.executors[q].result == Valid) &&
            (o.ParamError? ==> exists key :: key in m && Invalidates(m[key]) && m[key].state.error == o.error)
  {
    RunSyntaxesFacts(candidates, tokens, ctx, 0, map[]);
  }

  /** The count bounds leave gaps: a token count between two syntaxes' counts but equal to
      none of them reaches the fallback error without creating an executor. */
  lemma GapFallsBack(declared: seq<CommandSyntax>, candidates: seq<CommandSyntax>, perm: seq<nat>, tokens: seq<string>, ctx: Context)
    requires StableSorted(declared, candidates, perm, SyntaxOrder())
    requires tokens != [] && MinCount(declared) <= |tokens| <= MaxCount(declared)
    requires forall j :: 0 <= j < |declared| ==> |declared[j].params| != |tokens|
    ensures Dispatch(declared, candidates, tokens, ctx) == (Fallback, map[])
  {
    NoCandidateFallsBack(candidates, tokens, ctx, 0, map[]);
  }
}
