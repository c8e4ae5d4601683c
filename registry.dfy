/** The command registry of rgit/cli/registry.py: a table from a command's
    primary name to its aliases and handler, filled by the `command`
    decorator as the command modules are loaded. */
module Registry {
  import opened Wrappers
  import opened OrderedDict

  /** What `_command_handlers` holds for one name. */
  datatype Entry<H> = Entry(aliases: seq<string>, handler: H)

  /** A registration as `enumerate_command_handlers` yields it. */
  datatype Registration<H> = Registration(name: string, aliases: seq<string>, handler: H)

  type Table<H> = Dict<string, Entry<H>>

  /** `command(*names)(handler)` on the table: the first name is the key,
      the rest are stored as aliases, and only the first name is checked
      against the names already registered. */
  function Register<H>(table: Table<H>, names: seq<string>, handler: H): (r: Result<Table<H>>)
    ensures names == [] ==> r == Err(IndexError)
    ensures names != [] && Contains(table, names[0]) ==> r == Err(ValueError("command already registered"))
    ensures Valid(table) && r.Ok? ==> Valid(r.value)
  {
    if names == [] then Err(IndexError)
    else if Contains(table, names[0]) then Err(ValueError("command already registered"))
    else Ok(Put(table, names[0], Entry(names[1..], handler)))
  }

  /** `get_command_handler(name)`. */
  function Lookup<H>(table: Table<H>, name: string): (r: Option<H>)
    ensures r.None? <==> !Contains(table, name)
  {
    match Get(table, name)
    case None => None
    case Some(e) => Some(e.handler)
  }

  /** `enumerate_command_handlers()`. */
  function Registrations<H>(table: Table<H>): (r: seq<Registration<H>>)
    ensures |r| == |table|
    ensures forall i :: 0 <= i < |r| ==> r[i].name == table[i].0
  {
    seq(|table|, i requires 0 <= i < |table| => Registration(table[i].0, table[i].1.aliases, table[i].1.handler))
  }

  /** A new name is found afterwards with its handler, every other name
      keeps its answer, and the registration is enumerated last. */
  lemma RegisterThenLookup<H>(table: Table<H>, names: seq<string>, handler: H, other: string)
    requires Valid(table)
    requires names != [] && !Contains(table, names[0])
    ensures Register(table, names, handler).Ok?
    ensures Lookup(Register(table, names, handler).value, names[0]) == Some(handler)
    ensures other != names[0] ==> Lookup(Register(table, names, handler).value, other) == Lookup(table, other)
    ensures Registrations(Register(table, names, handler).value)
         == Registrations(table) + [Registration(names[0], names[1..], handler)]
  {
    var t := Register(table, names, handler).value;
    GetPut(table, names[0], Entry(names[1..], handler), names[0]);
    GetPut(table, names[0], Entry(names[1..], handler), other);
    assert t == table + [(names[0], Entry(names[1..], handler))];
  }

  /** Aliases are stored, never looked up: an alias that is not itself a
      primary name is unknown to `get_command_handler`, and registering a
      primary name equal to an earlier command's alias succeeds. */
  lemma AliasesNotNames<H>(h: H, g: H)
    ensures var t := Register([], ["status", "st"], h).value;
            Lookup(t, "st") == None
            && Register(t, ["st"], g).Ok?
            && Lookup(Register(t, ["st"], g).value, "st") == Some(g)
  {
    var names: seq<string> := ["status", "st"];
    assert names[0] == "status" && names[1..] == ["st"];
    var t := Register([], names, h).value;
    assert t == [("status", Entry(["st"], h))];
    assert "st" != "status" by {
      assert |"st"| != |"status"|;
    }
    assert !Contains(t, "st");
    var again: seq<string> := ["st"];
    assert again[0] == "st" && again[1..] == [];
    GetPut(t, "st", Entry([], g), "st");
  }

  /** Registering a list of commands one after the other. */
  function RegisterAll<H>(table: Table<H>, commands: seq<(seq<string>, H)>): Result<Table<H>>
    decreases |commands|
  {
    if commands == [] then Ok(table)
    else
      var next :- Register(table, commands[0].0, commands[0].1);
      RegisterAll(next, commands[1..])
  }

  /** A successful registration appends exactly one entry for the primary name. */
  lemma RegisterAppends<H>(table: Table<H>, names: seq<string>, handler: H)
    requires Valid(table) && Register(table, names, handler).Ok?
    ensures Register(table, names, handler).value == table + [(names[0], Entry(names[1..], handler))]
    ensures Valid(Register(table, names, handler).value)
  {
  }

  /** Registering a non-empty list is registering its head, then the rest. */
  lemma RegisterAllStep<H>(table: Table<H>, commands: seq<(seq<string>, H)>)
    requires commands != [] && RegisterAll(table, commands).Ok?
    ensures Register(table, commands[0].0, commands[0].1).Ok?
    ensures RegisterAll(table, commands)
         == RegisterAll(Register(table, commands[0].0, commands[0].1).value, commands[1..])
  {
  }

  /** When every registration succeeds, enumeration yields each primary
      name once, in registration order. */
  lemma {:induction false} RegisterAllOrder<H>(table: Table<H>, commands: seq<(seq<string>, H)>)
    requires Valid(table)
    ensures RegisterAll(table, commands).Ok? ==>
              |commands| + |table| == |RegisterAll(table, commands).value|
              && Valid(RegisterAll(table, commands).value)
              && forall i :: 0 <= i < |commands| ==>
                   commands[i].0 != [] && RegisterAll(table, commands).value[|table| + i].0 == commands[i].0[0]
    decreases |commands|
  {
    if commands != [] && RegisterAll(table, commands).Ok? {
      var names := commands[0].0;
      RegisterAllStep(table, commands);
      RegisterAppends(table, names, commands[0].1);
      var next := Register(table, names, commands[0].1).value;
      var rest := commands[1..];
      RegisterAllOrder(next, rest);
      RegisterAllKeeps(next, rest);
      var result := RegisterAll(next, rest).value;
      assert result[|table|] == result[..|next|][|table|] == next[|table|];
      forall i | 0 < i < |commands|
        ensures commands[i].0 != [] && result[|table| + i].0 == commands[i].0[0]
      {
        assert commands[i] == rest[i - 1];
      }
    }
  }

  /** Registration never changes what is already in the table. */
  lemma {:induction false} RegisterAllKeeps<H>(table: Table<H>, commands: seq<(seq<string>, H)>)
    requires Valid(table)
    ensures RegisterAll(table, commands).Ok? ==>
              |table| <= |RegisterAll(table, commands).value|
              && RegisterAll(table, commands).value[..|table|] == table
    decreases |commands|
  {
    if commands != [] && RegisterAll(table, commands).Ok? {
      var next := Register(table, commands[0].0, commands[0].1).value;
      assert next == table + [next[|table|]];
      RegisterAllKeeps(next, commands[1..]);
      var result := RegisterAll(table, commands).value;
      assert result[..|table|] == result[..|next|][..|table|];
    }
  }

  /** The module-level `_command_handlers` and the functions over it. */
  class CommandRegistry<H> {
    var table: Table<H>

    ghost predicate Valid()
      reads this
    {
      OrderedDict.Valid(table)
    }

    constructor()
      ensures Valid() && table == []
    {
      table := [];
    }

    /** The `command(*names)` decorator applied to `handler`: gives the
        handler back unchanged, or raises and leaves the table alone. */
    method Command(names: seq<string>, handler: H) returns (r: Result<H>)
      requires Valid()
      modifies this
      ensures Valid()
      ensures r.Ok? <==> Register(old(table), names, handler).Ok?
      ensures r.Ok? ==> r.value == handler && table == Register(old(table), names, handler).value
      ensures r.Err? ==> r.error == Register(old(table), names, handler).error && table == old(table)
    {
      if names == [] {
        return Err(IndexError);
      }
      var name := names[0];
      if Contains(table, name) {
        return Err(ValueError("command already registered"));
      }
      table := Put(table, name, Entry(names[1..], handler));
      r := Ok(handler);
    }

    /** `get_command_handler(name)`. */
    function GetCommandHandler(name: string): (r: Option<H>)
      reads this
      ensures r.None? <==> !Contains(table, name)
      ensures r.Some? ==> Get(table, name).value.handler == r.value
    {
      Lookup(table, name)
    }

    /** `enumerate_command_handlers()`. */
    function EnumerateCommandHandlers(): (r: seq<Registration<H>>)
      reads this
      ensures |r| == |table|
      ensures forall i :: 0 <= i < |r| ==> Lookup(table, r[i].name).Some?
    {
      Registrations(table)
    }
  }
}
