/** `CommandRepository` of src/core/command/repository.py: the validated list of commands
    and the table of hooked commands per hook type. */
module Repository {
  import opened Wrappers
  import opened Syntax
  import opened Validator
  import opened Command

  /** The commands of `list` that have a hook of type `t`, in list order. */
  function HookedOf(list: seq<Command>, t: HookType): seq<Command>
  {
    if list == [] then []
    else (if list[0].hasHook && list[0].hookType == t then [list[0]] else []) + HookedOf(list[1..], t)
  }

  /** The grouped commands are exactly the hooked commands of the type. */
  lemma {:induction false} HookedOfMembers(list: seq<Command>, t: HookType)
    ensures var r := HookedOf(list, t);
            |r| <= |list| &&
            (forall k :: 0 <= k < |r| ==> r[k] in list && r[k].hasHook && r[k].hookType == t) &&
            (forall k :: 0 <= k < |list| && list[k].hasHook && list[k].hookType == t ==> list[k] in r)
  {
    if list != [] {
      HookedOfMembers(list[1..], t);
      var head := if list[0].hasHook && list[0].hookType == t then [list[0]] else [];
      var r := HookedOf(list, t);
      assert r == head + HookedOf(list[1..], t);
      forall k | 0 <= k < |list| && list[k].hasHook && list[k].hookType == t
        ensures list[k] in r
      {
        if k > 0 {
          assert list[k] == list[1..][k - 1];
        }
      }
    }
  }

  /** Filtering distributes over concatenation: the grouping keeps list order. */
  lemma {:induction false} HookedOfAppend(a: seq<Command>, b: seq<Command>, t: HookType)
    ensures HookedOf(a + b, t) == HookedOf(a, t) + HookedOf(b, t)
  {
    if a != [] {
      assert (a + b)[0] == a[0];
      assert (a + b)[1..] == a[1..] + b;
      HookedOfAppend(a[1..], b, t);
    } else {
      assert a + b == b;
    }
  }

  /** The three hook types of a command. */
  const HookTypes: set<HookType> := {NoHook, TypingHook, MessageHook}

  lemma EveryHookTypeListed()
    ensures forall t: HookType :: t in HookTypes
  {
    forall t: HookType
      ensures t in HookTypes
    {
      match t
      case NoHook =>
      case TypingHook =>
      case MessageHook =>
    }
  }

  /** The hook table built from `list`: a key for each hook type that some command has,
      mapped to the commands of that type in list order. */
  function HookTable(list: seq<Command>): (table: map<HookType, seq<Command>>)
    ensures forall t :: t in table <==> HookedOf(list, t) != []
    ensures forall t :: t in table ==> table[t] == HookedOf(list, t)
  {
    EveryHookTypeListed();
    map t: HookType | t in HookTypes && HookedOf(list, t) != [] :: HookedOf(list, t)
  }

  /** One command added to a table: appended to its type's list, which is created when
      missing; a command without a hook leaves the table as it is. */
  function AddHooked(table: map<HookType, seq<Command>>, c: Command): map<HookType, seq<Command>>
  {
    if !c.hasHook then table
    else table[c.hookType := (if c.hookType in table then table[c.hookType] else []) + [c]]
  }

  /** Adding the commands one by one builds the table of the whole list. */
  lemma TableStep(prefix: seq<Command>, c: Command, table: map<HookType, seq<Command>>)
    requires table == HookTable(prefix)
    ensures AddHooked(table, c) == HookTable(prefix + [c])
  {
    var next := HookTable(prefix + [c]);
    var added := AddHooked(table, c);
    forall u: HookType
      ensures u in added <==> u in next
      ensures u in next ==> added[u] == next[u]
    {
      HookedOfAppend(prefix, [c], u);
      assert [c][1..] == [];
      var single := if c.hasHook && c.hookType == u then [c] else [];
      assert HookedOf([c], u) == single + HookedOf([], u);
      assert HookedOf(prefix + [c], u) == HookedOf(prefix, u) + single;
    }
    assert added.Keys == next.Keys;
  }

  /** What `get_hooks` answers for a type from a table. */
  function HooksFor(table: map<HookType, seq<Command>>, t: HookType): seq<Command>
  {
    if t in table then table[t] else []
  }

  /** A table built from `list` answers every hook type with the hooked commands of that
      type in list order, and an empty list for a type no command has. */
  lemma HooksForTable(list: seq<Command>, t: HookType)
    ensures HooksFor(HookTable(list), t) == HookedOf(list, t)
    ensures (forall c :: c in list ==> !c.hasHook || c.hookType != t) ==> HooksFor(HookTable(list), t) == []
  {
    HookedOfMembers(list, t);
    if HookedOf(list, t) != [] {
      assert HookedOf(list, t)[0] in list;
    }
  }

  /** The first validation error over the commands from the `i`-th on, in list order. */
  function CheckCommands(commands: seq<Command>, i: nat): Option<SyntaxError>
    requires i <= |commands|
    decreases |commands| - i
  {
    if i == |commands| then None
    else
      var e := CheckSyntaxes(commands[i].built, 0, {});
      if e.Some? then e else CheckCommands(commands, i + 1)
  }

  /** The list passes exactly when every command's syntaxes pass. */
  lemma {:induction false} CheckCommandsCoversAll(commands: seq<Command>, i: nat)
    requires i <= |commands|
    ensures CheckCommands(commands, i) == None <==>
            forall j :: i <= j < |commands| ==> CheckSyntaxes(commands[j].built, 0, {}) == None
    decreases |commands| - i
  {
    if i < |commands| {
      CheckCommandsCoversAll(commands, i + 1);
    }
  }

  /** The TypeError of calling the one-argument `validate_syntaxes` with two arguments. */
  const ArityMessage: string := "validate_syntaxes() takes 2 positional arguments but 3 were given"

  /** `set_command_list` as written: the first command's validation call raises after its
      arguments are evaluated, which builds that command's syntaxes, and before any syntax is
      validated; so the list is stored only when it is empty. */
  function SetCommandListAsWritten(list: seq<Command>, commands: seq<Command>): (Option<string>, seq<Command>)
  {
    if commands == [] then (None, commands) else (Some(ArityMessage), list)
  }

  /** As written, no non-empty command list can ever be stored, whatever its syntaxes. */
  lemma SetCommandListAsWrittenRejects(list: seq<Command>, commands: seq<Command>)
    requires commands != []
    ensures SetCommandListAsWritten(list, commands).0.Some?
    ensures SetCommandListAsWritten(list, commands).1 == list
  {
  }

  class CommandRepository {
    /** `LIST`. */
    var list: seq<Command>
    /** `_hooks`, `None` until `get_hooks` first runs. */
    var hooks: Option<map<HookType, seq<Command>>>
    /** The list the hook table was built from. */
    ghost var hookedFrom: seq<Command>

    ghost predicate Valid()
      reads this
    {
      hooks.Some? ==> hooks.value == HookTable(hookedFrom)
    }

    constructor ()
      ensures list == [] && hooks.None? && Valid()
    {
      list := [];
      hooks := None;
      hookedFrom := [];
    }

    /**
     * `set_command_list`, with the validation call taking the syntaxes alone: every
     * command's syntaxes are validated in list order and the list is stored only if none
     * fails; on the first failure the stored list is left as it was. The hook table is not
     * rebuilt.
     */
    method SetCommandList(commands: seq<Command>) returns (r: Option<SyntaxError>)
      requires Valid()
      requires forall c :: c in commands ==> c.Valid() && c.SyntaxesValid()
      modifies this, set c | c in commands, set c, s | c in commands && s in c.built :: s
      ensures Valid() && hooks == old(hooks) && hookedFrom == old(hookedFrom)
      ensures forall c :: c in commands ==> c.Valid() && c.SyntaxesValid()
      ensures r == CheckCommands(commands, 0)
      ensures list == if r.None? then commands else old(list)
    {
      var i := 0;
      while i < |commands|
        invariant i <= |commands|
        invariant list == old(list) && hooks == old(hooks) && hookedFrom == old(hookedFrom)
        invariant forall c :: c in commands ==> c.Valid() && c.SyntaxesValid()
        invariant CheckCommands(commands, 0) == CheckCommands(commands, i)
      {
        var command := commands[i];
        var syntaxes := command.GetSyntaxes();
        var e := ValidateSyntaxes(syntaxes);
        if e.Some? {
          return e;
        }
        i := i + 1;
      }
      list := commands;
      return None;
    }

    /** `get_hooks`: the table is built from the stored list on the first call and reused
        afterwards; the answer is the hooked commands of the type, in list order. */
    method GetHooks(t: HookType) returns (r: seq<Command>)
      requires Valid()
      modifies this
      ensures Valid() && list == old(list) && hooks.Some?
      ensures old(hooks).None? ==> hookedFrom == list
      ensures old(hooks).Some? ==> hooks == old(hooks) && hookedFrom == old(hookedFrom)
      ensures r == HookedOf(hookedFrom, t)
    {
      if hooks.None? {
        var table: map<HookType, seq<Command>> := map[];
        var i := 0;
        while i < |list|
          invariant i <= |list| && list == old(list) && hooks.None?
          invariant table == HookTable(list[..i])
        {
          var command := list[i];
          ghost var before := table;
          if command.hasHook {
            var key := command.hookType;
            if key !in table {
              table := table[key := []];
            }
            table := table[key := table[key] + [command]];
          }
          TableStep(list[..i], command, before);
          assert list[..i + 1] == list[..i] + [command];
          i := i + 1;
        }
        assert list[..i] == list;
        hooks := Some(table);
        hookedFrom := list;
      }
      HooksForTable(hookedFrom, t);
      r := if t in hooks.value then hooks.value[t] else [];
    }
  }
}
