/**
 * `SyntaxValidator.validate_syntaxes` of src/core/param/validator.py, run when the
 * commands are registered. It rejects a syntax list in which two always-accepting
 * syntaxes have the same parameter count (the later one could never be chosen), and a
 * parameter whose configs cannot take the value type its executor produces.
 */
module Validator {
  import opened Wrappers
  import opened Params
  import opened Executor
  import opened ExecutorFactory
  import opened Syntax

  /** Why a syntax list is refused; each stands for the exception the validator raises. */
  datatype SyntaxError =
    | NeverExecutes                  // "One of the command syntaxes will never execute!"
    | NoExecutor(paramType: ParamType)
    | UnsupportedType(title: string) // a config does not support the executor's type
    | WiderExecutor(title: string)   // the executor produces more types than a config takes
    | NoGenericBase(kind: ExecutorKind) // the executor class has no `__orig_bases__` to read

  /** The type of the value each executor produces, which its parameter's configs are
      checked against. */
  function ProducedType(kind: ExecutorKind): ValueType
  {
    match kind
    case UserExecutor => Single(UserType)
    case EmojiExecutor => Single(StrType)
    case FixedValueExecutor => Single(StrType)
    case IntExecutor => Single(IntType)
    case TextExecutor => Single(StrType)
  }

  /** The compatibility test of one config with one executor: equal types pass; a single
      executor type must be in a union config type; a union executor type is refused
      against a single config type; a union must be covered by a union. */
  function CompatibilityError(execType: ValueType, confType: ValueType, title: string): Option<SyntaxError>
  {
    if execType == confType then None
    else
      match (execType, confType)
      case (Single(e), Union(c)) => if e !in c then Some(UnsupportedType(title)) else None
      case (Union(_), Single(_)) => Some(WiderExecutor(title))
      case (Union(es), Union(cs)) => if !(es <= cs) then Some(UnsupportedType(title)) else None
      case (Single(_), Single(_)) => None
  }

  /** The Python types a value type stands for. */
  function Members(t: ValueType): set<PyType>
  {
    match t
    case Single(p) => {p}
    case Union(ps) => ps
  }

  /**
   * Outside the case of two single types, a config passes exactly when it takes every type
   * the executor produces (a union has at least two members, as Python builds it). Two
   * different single types are not rejected by any branch.
   */
  lemma CompatibilityIsCoverage(execType: ValueType, confType: ValueType, title: string)
    requires execType.Union? ==> |execType.members| >= 2
    ensures !(execType.Single? && confType.Single?) ==>
              (CompatibilityError(execType, confType, title).None? <==> Members(execType) <= Members(confType))
    ensures execType.Single? && confType.Single? ==> CompatibilityError(execType, confType, title).None?
  {
    if execType.Union? && confType.Single? {
      SubsetOfSingleton(execType.members, confType.t);
    }
  }

  lemma SubsetOfSingleton(ps: set<PyType>, t: PyType)
    ensures ps <= {t} ==> |ps| <= 1
  {
    if ps <= {t} {
      if t in ps {
        assert ps == {t};
      } else {
        assert ps == {};
      }
    }
  }

  /** The first incompatible config of a parameter, from the `c`-th on. */
  function CheckConfigs(title: string, execType: ValueType, configs: seq<ParamConfig>, c: nat): Option<SyntaxError>
    requires c <= |configs|
    decreases |configs| - c
  {
    if c == |configs| then None
    else
      var e := CompatibilityError(execType, ConfigValueType(configs[c]), title);
      if e.Some? then e else CheckConfigs(title, execType, configs, c + 1)
  }

  /** The first error among the parameters of a syntax, from the `k`-th on. */
  function CheckParams(title: string, params: seq<CommandParam>, k: nat): Option<SyntaxError>
    requires k <= |params|
    decreases |params| - k
  {
    if k == |params| then None
    else
      var t := params[k].paramType;
      if !HasExecutor(t) then Some(NoExecutor(t))
      else
        var e := CheckConfigs(title, ProducedType(KindFor(t)), params[k].configs, 0);
        if e.Some? then e else CheckParams(title, params, k + 1)
  }

  /** The validation of `syntaxes[i..]`, with `claimed` the parameter counts already taken
      by always-accepting syntaxes. */
  function CheckSyntaxes(syntaxes: seq<CommandSyntax>, i: nat, claimed: set<nat>): Option<SyntaxError>
    requires i <= |syntaxes|
    decreases |syntaxes| - i
  {
    if i == |syntaxes| then None
    else
      var s := syntaxes[i];
      var always := AllAlwaysAccepting(s.params);
      if always && |s.params| in claimed then Some(NeverExecutes)
      else
        var e := CheckParams(s.title, s.params, 0);
        if e.Some? then e
        else CheckSyntaxes(syntaxes, i + 1, if always then claimed + {|s.params|} else claimed)
  }

  /** The checks of one syntax's parameters and their configs. */
  method ValidateParams(s: CommandSyntax) returns (r: Option<SyntaxError>)
    ensures r == CheckParams(s.title, s.params, 0)
  {
    var k := 0;
    while k < |s.params|
      invariant k <= |s.params|
      invariant CheckParams(s.title, s.params, 0) == CheckParams(s.title, s.params, k)
    {
      var param := s.params[k];
      if !HasExecutor(param.paramType) {
        return Some(NoExecutor(param.paramType));
      }
      var execType := ProducedType(KindFor(param.paramType));
      var c := 0;
      while c < |param.configs|
        invariant c <= |param.configs|
        invariant CheckConfigs(s.title, execType, param.configs, 0) == CheckConfigs(s.title, execType, param.configs, c)
      {
        var e := CompatibilityError(execType, ConfigValueType(param.configs[c]), s.title);
        if e.Some? {
          return e;
        }
        c := c + 1;
      }
      k := k + 1;
    }
    return None;
  }

  /** `validate_syntaxes`: walks the syntaxes in order, asking each for its memoised flag. */
  method ValidateSyntaxes(syntaxes: seq<CommandSyntax>) returns (r: Option<SyntaxError>)
    requires forall s :: s in syntaxes ==> s.Valid()
    modifies set s | s in syntaxes
    ensures forall s :: s in syntaxes ==> s.Valid()
    ensures r == CheckSyntaxes(syntaxes, 0, {})
  {
    var claimed: set<nat> := {};
    var i := 0;
    while i < |syntaxes|
      invariant i <= |syntaxes|
      invariant forall s :: s in syntaxes ==> s.Valid()
      invariant CheckSyntaxes(syntaxes, 0, {}) == CheckSyntaxes(syntaxes, i, claimed)
    {
      var s := syntaxes[i];
      var always := s.AlwaysValidateInputFormat();
      if always {
        if s.ParamCount() in claimed {
          return Some(NeverExecutes);
        }
        claimed := claimed + {s.ParamCount()};
      }
      r := ValidateParams(s);
      if r.Some? {
        return r;
      }
      i := i + 1;
    }
    return None;
  }

  // ---------------------------------------------------------------------------
  // What the validator decides

  /** The parameter counts claimed by the always-accepting syntaxes before index `i`. */
  function Claimed(syntaxes: seq<CommandSyntax>, i: nat): set<nat>
    requires i <= |syntaxes|
  {
    set j | 0 <= j < i && AllAlwaysAccepting(syntaxes[j].params) :: |syntaxes[j].params|
  }

  /** Syntax `j` always accepts and an earlier always-accepting syntax has its count. */
  predicate DuplicateAt(syntaxes: seq<CommandSyntax>, j: nat)
    requires j < |syntaxes|
  {
    AllAlwaysAccepting(syntaxes[j].params) && |syntaxes[j].params| in Claimed(syntaxes, j)
  }

  /** Two always-accepting syntaxes share a parameter count. */
  predicate HasDuplicate(syntaxes: seq<CommandSyntax>)
  {
    exists i, j :: 0 <= i < j < |syntaxes| &&
      AllAlwaysAccepting(syntaxes[i].params) && AllAlwaysAccepting(syntaxes[j].params) &&
      |syntaxes[i].params| == |syntaxes[j].params|
  }

  /** No parameter of any syntax has a config error. */
  predicate ParamsWellTyped(syntaxes: seq<CommandSyntax>)
  {
    forall i :: 0 <= i < |syntaxes| ==> CheckParams(syntaxes[i].title, syntaxes[i].params, 0).None?
  }

  lemma ClaimedStep(syntaxes: seq<CommandSyntax>, i: nat)
    requires i < |syntaxes|
    ensures Claimed(syntaxes, i + 1) ==
              if AllAlwaysAccepting(syntaxes[i].params) then Claimed(syntaxes, i) + {|syntaxes[i].params|} else Claimed(syntaxes, i)
  {
  }

  /** From `i` on, with well-typed parameters, the check fails exactly when some later
      syntax duplicates an earlier count, and then with "will never execute". */
  lemma {:induction false} CheckFromDuplicates(syntaxes: seq<CommandSyntax>, i: nat)
    requires i <= |syntaxes| && ParamsWellTyped(syntaxes)
    ensures var r := CheckSyntaxes(syntaxes, i, Claimed(syntaxes, i));
            (r.None? <==> forall j :: i <= j < |syntaxes| ==> !DuplicateAt(syntaxes, j)) &&
            (r.Some? ==> r == Some(NeverExecutes))
    decreases |syntaxes| - i
  {
    if i < |syntaxes| {
      var s := syntaxes[i];
      ClaimedStep(syntaxes, i);
      CheckFromDuplicates(syntaxes, i + 1);
      if !DuplicateAt(syntaxes, i) {
        assert CheckParams(s.title, s.params, 0).None?;
        var next := if AllAlwaysAccepting(s.params) then Claimed(syntaxes, i) + {|s.params|} else Claimed(syntaxes, i);
        assert CheckSyntaxes(syntaxes, i, Claimed(syntaxes, i)) == CheckSyntaxes(syntaxes, i + 1, next);
      }
    }
  }

  /**
   * `validate_syntaxes` rejects a list whose parameters are well typed exactly when two
   * always-accepting syntaxes share a parameter count; syntaxes that are not
   * always-accepting never take part.
   */
  lemma RejectsExactlyDuplicates(syntaxes: seq<CommandSyntax>)
    requires ParamsWellTyped(syntaxes)
    ensures CheckSyntaxes(syntaxes, 0, {}).None? <==> !HasDuplicate(syntaxes)
    ensures CheckSyntaxes(syntaxes, 0, {}).Some? ==> CheckSyntaxes(syntaxes, 0, {}) == Some(NeverExecutes)
  {
    assert Claimed(syntaxes, 0) == {};
    CheckFromDuplicates(syntaxes, 0);
    if HasDuplicate(syntaxes) {
      var i, j :| 0 <= i < j < |syntaxes| &&
        AllAlwaysAccepting(syntaxes[i].params) && AllAlwaysAccepting(syntaxes[j].params) &&
        |syntaxes[i].params| == |syntaxes[j].params|;
      assert DuplicateAt(syntaxes, j);
    }
    if exists j :: 0 <= j < |syntaxes| && DuplicateAt(syntaxes, j) {
      var j :| 0 <= j < |syntaxes| && DuplicateAt(syntaxes, j);
      var i :| 0 <= i < j && AllAlwaysAccepting(syntaxes[i].params) && |syntaxes[i].params| == |syntaxes[j].params|;
      assert HasDuplicate(syntaxes);
    }
  }

  /** Before the first duplicate, with well-typed parameters, nothing is raised. */
  lemma {:induction false} CheckReachesDuplicate(syntaxes: seq<CommandSyntax>, i: nat, j: nat)
    requires i <= j < |syntaxes|
    requires forall k :: 0 <= k <= j ==> CheckParams(syntaxes[k].title, syntaxes[k].params, 0).None?
    requires forall k :: i <= k < j ==> !DuplicateAt(syntaxes, k)
    requires DuplicateAt(syntaxes, j)
    ensures CheckSyntaxes(syntaxes, i, Claimed(syntaxes, i)) == Some(NeverExecutes)
    decreases j - i
  {
    if i < j {
      ClaimedStep(syntaxes, i);
      CheckReachesDuplicate(syntaxes, i + 1, j);
    }
  }

  /** The rejection happens at the second syntax of the first clashing pair: the same list
      cut right after it is rejected the same way, so later syntaxes are never looked at. */
  lemma RaisesAtSecond(syntaxes: seq<CommandSyntax>, j: nat)
    requires j < |syntaxes|
    requires forall k :: 0 <= k <= j ==> CheckParams(syntaxes[k].title, syntaxes[k].params, 0).None?
    requires forall k :: 0 <= k < j ==> !DuplicateAt(syntaxes, k)
    requires DuplicateAt(syntaxes, j)
    ensures CheckSyntaxes(syntaxes, 0, {}) == Some(NeverExecutes)
    ensures CheckSyntaxes(syntaxes[..j + 1], 0, {}) == Some(NeverExecutes)
  {
    var prefix := syntaxes[..j + 1];
    assert Claimed(syntaxes, 0) == {} && Claimed(prefix, 0) == {};
    CheckReachesDuplicate(syntaxes, 0, j);
    assert forall k :: 0 <= k <= j ==> prefix[k] == syntaxes[k];
    forall k | 0 <= k <= j
      ensures DuplicateAt(prefix, k) == DuplicateAt(syntaxes, k)
    {
      assert Claimed(prefix, k) == Claimed(syntaxes, k);
    }
    CheckReachesDuplicate(prefix, 0, j);
  }

  // ---------------------------------------------------------------------------
  // The syntax lists of the `reac` and `spoil` commands

  const TuinParam: CommandParam := CommandParam("tuin", "Une partie du nom du tuin.", User, [])
  const StopParam: CommandParam := CommandParam("stop", "", FixedValue, [])
  const InfoParam: CommandParam := CommandParam("info", "", FixedValue, [])
  const SentenceParam: CommandParam := CommandParam("texte", "Le texte, entre guillemets s'il y a des espaces.", Text, [])
  const EmojiParam: CommandParam := CommandParam("emoji", "Un emoji qui lui collera au cul pour un moment", Emoji, [])

  /** Parameters without configs raise nothing in the validator. */
  lemma {:induction false} NoConfigsWellTyped(title: string, params: seq<CommandParam>, k: nat)
    requires k <= |params|
    requires forall m :: k <= m < |params| ==> params[m].configs == []
    ensures CheckParams(title, params, k).None?
    decreases |params| - k
  {
    if k < |params| {
      EveryTypeHasOneExecutor(params[k].paramType, params[k].paramType);
      NoConfigsWellTyped(title, params, k + 1);
    }
  }

  /** The `reac` syntaxes (tuin emoji; tuin stop; tuin; stop) pass the validator: the
      always-accepting ones have two and one parameters. */
  lemma ReacSyntaxesValid(syntaxes: seq<CommandSyntax>)
    requires |syntaxes| == 4
    requires syntaxes[0].params == [TuinParam, EmojiParam] && syntaxes[1].params == [TuinParam, StopParam]
    requires syntaxes[2].params == [TuinParam] && syntaxes[3].params == [StopParam]
    ensures CheckSyntaxes(syntaxes, 0, {}) == None
  {
    NoConfigsWellTyped(syntaxes[0].title, syntaxes[0].params, 0);
    NoConfigsWellTyped(syntaxes[1].title, syntaxes[1].params, 0);
    NoConfigsWellTyped(syntaxes[2].title, syntaxes[2].params, 0);
    NoConfigsWellTyped(syntaxes[3].title, syntaxes[3].params, 0);
    AlwaysAcceptingTypes(syntaxes[0].params);
    AlwaysAcceptingTypes(syntaxes[1].params);
    AlwaysAcceptingTypes(syntaxes[2].params);
    AlwaysAcceptingTypes(syntaxes[3].params);
    assert !AllAlwaysAccepting(syntaxes[1].params) by {
      assert syntaxes[1].params[1].paramType !in {User, Emoji, Text};
    }
    assert !AllAlwaysAccepting(syntaxes[3].params) by {
      assert syntaxes[3].params[0].paramType !in {User, Emoji, Text};
    }
    assert CheckSyntaxes(syntaxes, 3, {2, 1}) == CheckSyntaxes(syntaxes, 4, {2, 1});
    assert AllAlwaysAccepting(syntaxes[2].params) && |syntaxes[2].params| == 1;
    assert {2} + {1} == {2, 1};
    assert CheckSyntaxes(syntaxes, 2, {2}) == CheckSyntaxes(syntaxes, 3, {2, 1});
    assert CheckSyntaxes(syntaxes, 1, {2}) == CheckSyntaxes(syntaxes, 2, {2});
    assert AllAlwaysAccepting(syntaxes[0].params) && |syntaxes[0].params| == 2;
    assert {} + {2} == {2};
    assert CheckSyntaxes(syntaxes, 0, {}) == CheckSyntaxes(syntaxes, 1, {2});
  }

  /** A user syntax and a text syntax of one parameter each both always accept: the second
      could never run, and the validator says so. */
  lemma UserAndTextClash(syntaxes: seq<CommandSyntax>)
    requires |syntaxes| == 2
    requires syntaxes[0].params == [TuinParam] && syntaxes[1].params == [SentenceParam]
    ensures CheckSyntaxes(syntaxes, 0, {}) == Some(NeverExecutes)
  {
    NoConfigsWellTyped(syntaxes[0].title, syntaxes[0].params, 0);
    AlwaysAcceptingTypes(syntaxes[0].params);
    AlwaysAcceptingTypes(syntaxes[1].params);
    assert AllAlwaysAccepting(syntaxes[0].params) && |syntaxes[0].params| == 1;
    assert AllAlwaysAccepting(syntaxes[1].params) && |syntaxes[1].params| == 1;
    assert {} + {1} == {1};
    assert CheckSyntaxes(syntaxes, 1, {1}) == Some(NeverExecutes);
    assert CheckSyntaxes(syntaxes, 0, {}) == CheckSyntaxes(syntaxes, 1, {1});
  }

  // ---------------------------------------------------------------------------
  // The executor's type as written: read by reflection from a base it does not have

  /** The type argument of the generic base of each executor class, which
      `get_generic_param_type(exec_class, 0, 0)` reads from `exec_class.__orig_bases__[0]`.
      Every executor class subclasses the plain `CommandParamExecutor`
      (src/core/executor/base.py:14), so none has a generic base, and reading the attribute
      raises an `AttributeError`. */
  function GenericBase(kind: ExecutorKind): Option<ValueType>
  {
    None
  }

  /** The parameter loop as written, with `typeOf` the lookup of an executor class's value
      type: the type is looked up before the configs are read, and a failed lookup raises. */
  function CheckParamsReading(typeOf: ExecutorKind -> Option<ValueType>, title: string, params: seq<CommandParam>, k: nat): Option<SyntaxError>
    requires k <= |params|
    decreases |params| - k
  {
    if k == |params| then None
    else
      var t := params[k].paramType;
      if !HasExecutor(t) then Some(NoExecutor(t))
      else
        match typeOf(KindFor(t))
        case None => Some(NoGenericBase(KindFor(t)))
        case Some(execType) =>
          var e := CheckConfigs(title, execType, params[k].configs, 0);
          if e.Some? then e else CheckParamsReading(typeOf, title, params, k + 1)
  }

  /** `validate_syntaxes` as written from syntax `i` on, with `typeOf` as above. */
  function CheckSyntaxesReading(typeOf: ExecutorKind -> Option<ValueType>, syntaxes: seq<CommandSyntax>, i: nat, claimed: set<nat>): Option<SyntaxError>
    requires i <= |syntaxes|
    decreases |syntaxes| - i
  {
    if i == |syntaxes| then None
    else
      var s := syntaxes[i];
      var always := AllAlwaysAccepting(s.params);
      if always && |s.params| in claimed then Some(NeverExecutes)
      else
        var e := CheckParamsReading(typeOf, s.title, s.params, 0);
        if e.Some? then e
        else CheckSyntaxesReading(typeOf, syntaxes, i + 1, if always then claimed + {|s.params|} else claimed)
  }

  /** With every class's declared type found, the written loop is the intended check. */
  lemma {:induction false} ReadingDeclaredParams(typeOf: ExecutorKind -> Option<ValueType>, title: string, params: seq<CommandParam>, k: nat)
    requires k <= |params|
    requires forall kind :: typeOf(kind) == Some(ProducedType(kind))
    ensures CheckParamsReading(typeOf, title, params, k) == CheckParams(title, params, k)
    decreases |params| - k
  {
    if k < |params| {
      ReadingDeclaredParams(typeOf, title, params, k + 1);
    }
  }

  /** With every class's declared type found, the written validator is `CheckSyntaxes`: the
      declared types replace only the lookup. */
  lemma {:induction false} ReadingDeclaredIsCheck(typeOf: ExecutorKind -> Option<ValueType>, syntaxes: seq<CommandSyntax>, i: nat, claimed: set<nat>)
    requires i <= |syntaxes|
    requires forall kind :: typeOf(kind) == Some(ProducedType(kind))
    ensures CheckSyntaxesReading(typeOf, syntaxes, i, claimed) == CheckSyntaxes(syntaxes, i, claimed)
    decreases |syntaxes| - i
  {
    if i < |syntaxes| {
      var s := syntaxes[i];
      ReadingDeclaredParams(typeOf, s.title, s.params, 0);
      ReadingDeclaredIsCheck(typeOf, syntaxes, i + 1, if AllAlwaysAccepting(s.params) then claimed + {|s.params|} else claimed);
    }
  }

  /** As written, the first parameter looked at raises: its type has an executor, whose
      class has no generic base. */
  lemma ParamsAsWrittenRaise(title: string, params: seq<CommandParam>)
    requires params != []
    ensures CheckParamsReading(GenericBase, title, params, 0) == Some(NoGenericBase(KindFor(params[0].paramType)))
  {
    EveryTypeHasOneExecutor(params[0].paramType, params[0].paramType);
  }

  /**
   * As written, `validate_syntaxes` passes only an empty list or a single syntax without
   * parameters: the first parameter it reaches raises, and a second parameterless syntax
   * repeats the count 0.
   */
  lemma ValidateAsWrittenPasses(syntaxes: seq<CommandSyntax>)
    ensures CheckSyntaxesReading(GenericBase, syntaxes, 0, {}).None? <==>
              |syntaxes| <= 1 && (syntaxes != [] ==> syntaxes[0].params == [])
  {
    if syntaxes != [] {
      var s := syntaxes[0];
      if s.params != [] {
        ParamsAsWrittenRaise(s.title, s.params);
      } else {
        AlwaysAcceptingTypes(s.params);
        assert CheckSyntaxesReading(GenericBase, syntaxes, 0, {}) == CheckSyntaxesReading(GenericBase, syntaxes, 1, {0});
        if |syntaxes| > 1 {
          var s1 := syntaxes[1];
          AlwaysAcceptingTypes(s1.params);
          if s1.params != [] {
            ParamsAsWrittenRaise(s1.title, s1.params);
          }
        }
      }
    }
  }

  /** The `reac` syntaxes pass the intended check, but as written the validator raises at
      their first parameter, the user parameter `tuin`. */
  lemma ReacSyntaxesAsWrittenRaise(syntaxes: seq<CommandSyntax>)
    requires |syntaxes| == 4
    requires syntaxes[0].params == [TuinParam, EmojiParam] && syntaxes[1].params == [TuinParam, StopParam]
    requires syntaxes[2].params == [TuinParam] && syntaxes[3].params == [StopParam]
    ensures CheckSyntaxes(syntaxes, 0, {}) == None
    ensures CheckSyntaxesReading(GenericBase, syntaxes, 0, {}) == Some(NoGenericBase(UserExecutor))
  {
    ReacSyntaxesValid(syntaxes);
    ParamsAsWrittenRaise(syntaxes[0].title, syntaxes[0].params);
    AlwaysAcceptingTypes(syntaxes[0].params);
  }
}
