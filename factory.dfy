/** `ParamExecutorFactory` of src/core/executor/factory.py: a constant map from parameter
    type to executor class. */
module ExecutorFactory {
  import opened Wrappers
  import opened Params
  import opened Executor

  /** `_executors_by_type`. */
  const ExecutorsByType: map<ParamType, ExecutorKind> := map[
    User := UserExecutor,
    Emoji := EmojiExecutor,
    FixedValue := FixedValueExecutor,
    Int := IntExecutor,
    Text := TextExecutor]

  const NoExecutorMessage: string := "No param executor for this type!"

  /** `get_executor_class`: the mapped class, or the exception for an unmapped type. */
  function GetExecutorClass(t: ParamType): (r: Result<ExecutorKind, string>)
    ensures r.Failure? <==> t !in ExecutorsByType
    ensures r.Failure? ==> r.error == NoExecutorMessage
  {
    if t !in ExecutorsByType then Failure(NoExecutorMessage) else Success(ExecutorsByType[t])
  }

  /** `has_executor`. */
  predicate HasExecutor(t: ParamType)
  {
    t in ExecutorsByType
  }

  /** Every parameter type has exactly one executor class, and distinct types have distinct
      classes: the map is total and one-to-one, so `has_executor` always holds and
      `get_executor_class` never raises. */
  lemma EveryTypeHasOneExecutor(t: ParamType, u: ParamType)
    ensures HasExecutor(t) && GetExecutorClass(t).Success?
    ensures HasExecutor(t) <==> GetExecutorClass(t).Success?
    ensures ExecutorsByType.Keys == AllParamTypes
    ensures t != u ==> ExecutorsByType[t] != ExecutorsByType[u]
  {
    ParamTypesAreFive();
  }

  /** The executor class `get_executor_class` picks for a type. */
  function KindFor(t: ParamType): (k: ExecutorKind)
    ensures GetExecutorClass(t) == Success(k)
  {
    match t
    case User => UserExecutor
    case Emoji => EmojiExecutor
    case FixedValue => FixedValueExecutor
    case Int => IntExecutor
    case Text => TextExecutor
  }

  /** `get_executor`: a new executor of the mapped class, bound to the given parameter. */
  method GetExecutor(param: CommandParam) returns (r: Result<ParamExecutor, string>)
    ensures r.Failure? <==> !HasExecutor(param.paramType)
    ensures r.Failure? ==> r.error == NoExecutorMessage
    ensures r.Success? ==> fresh(r.value) && r.value.param == param &&
                           r.value.kind == KindFor(param.paramType) && r.value.State() == Fresh
  {
    var cls := GetExecutorClass(param.paramType);
    if cls.Failure? {
      return Failure(cls.error);
    }
    var e := new ParamExecutor(param, cls.value);
    return Success(e);
  }
}
