/** `CommandSyntax` of src/core/param/syntax.py: one way of calling a command, a title, a
    callback and the parameters in declaration order. */
module Syntax {
  import opened Wrappers
  import opened Params
  import opened Executor
  import opened ExecutorFactory

  /** Every parameter's executor class accepts every token at the format stage. */
  predicate AllAlwaysAccepting(params: seq<CommandParam>)
  {
    forall k :: 0 <= k < |params| ==> AlwaysAccepts(KindFor(params[k].paramType))
  }

  /** A syntax always accepts exactly when it has only user, emoji and text parameters;
      an empty syntax always accepts. */
  lemma AlwaysAcceptingTypes(params: seq<CommandParam>)
    ensures AllAlwaysAccepting(params) <==> forall k :: 0 <= k < |params| ==> params[k].paramType in {User, Emoji, Text}
    ensures AllAlwaysAccepting([])
  {
    forall k | 0 <= k < |params|
      ensures AlwaysAccepts(KindFor(params[k].paramType)) <==> params[k].paramType in {User, Emoji, Text}
    {
      match params[k].paramType
      case User =>
      case Emoji =>
      case FixedValue =>
      case Int =>
      case Text =>
    }
  }

  class CommandSyntax {
    const title: string
    /** Which callback the syntax runs; callbacks are application code. */
    const callback: nat
    const params: seq<CommandParam>
    /** `_always_validate_input_format`, `None` until first asked. */
    var alwaysCache: Option<bool>

    /** The cache, once filled, holds the flag's true value. */
    ghost predicate Valid()
      reads this
    {
      alwaysCache.Some? ==> alwaysCache.value == AllAlwaysAccepting(params)
    }

    constructor (title: string, callback: nat, params: seq<CommandParam>)
      ensures this.title == title && this.callback == callback && this.params == params
      ensures alwaysCache == None && Valid()
    {
      this.title := title;
      this.callback := callback;
      this.params := params;
      alwaysCache := None;
    }

    /** `param_count`. */
    function ParamCount(): nat
    {
      |params|
    }

    /** `always_validate_input_format`: computed on the first call by scanning the
        parameters, stopping at the first whose executor class does not always accept;
        later calls return the cached value. */
    method AlwaysValidateInputFormat() returns (r: bool)
      requires Valid()
      modifies this
      ensures Valid() && alwaysCache == Some(r)
      ensures r == AllAlwaysAccepting(params)
      ensures old(alwaysCache).Some? ==> alwaysCache == old(alwaysCache)
    {
      if alwaysCache.None? {
        var i := 0;
        while i < |params|
          invariant i <= |params|
          invariant forall k :: 0 <= k < i ==> AlwaysAccepts(KindFor(params[k].paramType))
        {
          if !AlwaysAccepts(KindFor(params[i].paramType)) {
            alwaysCache := Some(false);
            return false;
          }
          i := i + 1;
        }
        alwaysCache := Some(true);
      }
      return alwaysCache.value;
    }
  }
}
