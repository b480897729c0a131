/**
 * The generation fold of `cmd_import` (src/lib.rs:74-289), over abstract
 * output units instead of Rust tokens: the fixed `UserInput` prelude, one
 * unit per non-`Empty` command in command order, and the `Commands`
 * aggregate built from the `#`-marked structs. A struct or command whose
 * fields are not named aborts the whole generation.
 */
module Generator {
  import opened Wrappers
  import opened Classifier

  /** The types the prelude gives a `UserInput` impl (src/lib.rs:84-102). */
  const PreludeTypes: seq<string> :=
    ["u8", "u16", "u32", "u64", "u128", "usize",
     "i8", "i16", "i32", "i64", "i128", "isize",
     "f32", "f64", "String", "bool", "char", "Vec<T>", "Option<T>"]

  /** The derives put on a generated struct or command struct. */
  const StructDerives: seq<string> := ["Default", "Debug", "Clone", "PartialEq", "Serialize", "Deserialize"]

  /** The derives put on a generated enum. */
  const EnumDerives: seq<string> := ["Display", "Debug", "Clone", "PartialEq", "EnumIter", "Serialize", "Deserialize"]

  /** The derives put on the `Commands` aggregate. */
  const CommandsDerives: seq<string> := ["Debug", "Clone", "PartialEq", "EnumIter", "Serialize", "Deserialize"]

  /** The message of the generation-time panic. */
  const UnnamedFieldsPanic: string := "Only named fields are supported"

  /** How the generated `input()` of a struct obtains its fields. */
  datatype ReadStyle =
    | JsonLine   // a plain struct: read one line of stdin and `serde_json::from_str` it
    | Prompted   // a command struct: print `field: type`, then call the type's own `input()`

  /** One per-field input statement (`userinput_ext`). */
  datatype FieldRead = FieldRead(style: ReadStyle, ident: string, ty: string)

  /** A generated `impl UserInput`: the per-field input steps, then the constructor's field list (`userinput_ext_out`). */
  datatype InputImpl = InputImpl(ident: string, steps: seq<FieldRead>, ctor: seq<string>)

  /** A variant of `Commands`: `#ident(#ident)`. */
  datatype Variant = Variant(ident: string, payload: string)

  /** An arm of `Commands`' `Display`: the variant and the text it writes. */
  datatype DisplayArm = DisplayArm(variant: string, text: string)

  /** An arm of `handle_command`: the variant and the type whose input it reads and serialises. */
  datatype HandleArm = HandleArm(variant: string, acquires: string)

  /** An abstract unit of generated code. */
  datatype Unit =
    | Prelude(impls: seq<string>)
    | StructUnit(derives: seq<string>, isPub: bool, def: StructItem, input: InputImpl)
      /** The enum, its `Default` (the first variant from `iter().next()`), and an `input()` that selects a variant. */
    | EnumUnit(derives: seq<string>, enumDef: EnumItem, default: Option<string>)
    | CommandsUnit(derives: seq<string>, variants: seq<Variant>, display: seq<DisplayArm>, handle: seq<HandleArm>)

  /** The outcome of one macro expansion: the output, or the panic that aborted it. */
  datatype Generation = Generated(output: seq<Unit>) | Panicked(message: string)

  /** A struct or command struct whose fields the generator cannot name. */
  predicate Unsupported(c: CommandType)
  {
    (c.Struct? || c.Command?) && !c.st.fields.Named?
  }

  predicate Supported(cs: seq<CommandType>)
  {
    forall i :: 0 <= i < |cs| ==> !Unsupported(cs[i])
  }

  predicate IsNonEmpty(c: CommandType) { !c.Empty? }

  predicate IsCommand(c: CommandType) { c.Command? }

  /** The input statements for the fields, one per field, in declared order. */
  function FieldReads(style: ReadStyle, fields: seq<Field>): seq<FieldRead>
  {
    seq(|fields|, j requires 0 <= j < |fields| => FieldRead(style, fields[j].ident, fields[j].ty))
  }

  /** The field identifiers, in declared order. */
  function FieldIdents(fields: seq<Field>): seq<string>
  {
    seq(|fields|, j requires 0 <= j < |fields| => fields[j].ident)
  }

  /** `#ident::iter().next()`: the first declared variant, if there is one. */
  function FirstVariant(variants: seq<string>): Option<string>
  {
    if variants == [] then None else Some(variants[0])
  }

  /**
   * The unit one supported, non-`Empty` command contributes: a plain struct
   * gives a private struct unit whose input reads a JSON line per field, a
   * command struct a `pub` one whose input prompts per field, both in field
   * order with the constructor listing the fields in that order; an enum gives
   * an enum unit whose default is its first variant.
   */
  function UnitOf(c: CommandType): (u: Unit)
    requires IsNonEmpty(c) && !Unsupported(c)
    ensures c.Struct? || c.Command? ==>
      var named := c.st.fields.named;
      && u.StructUnit? && u.derives == StructDerives && u.def == c.st
      && u.isPub == c.Command?
      && u.input.ident == c.st.ident
      && |u.input.steps| == |u.input.ctor| == |named|
      && forall j :: 0 <= j < |named| ==>
           && u.input.steps[j] == FieldRead(if c.Command? then Prompted else JsonLine, named[j].ident, named[j].ty)
           && u.input.ctor[j] == named[j].ident
    ensures c.Enum? ==>
      && u.EnumUnit? && u.derives == EnumDerives && u.enumDef == c.en
      && (u.default.Some? <==> |c.en.variants| > 0)
      && (u.default.Some? ==> u.default.value == c.en.variants[0])
  {
    match c
    case Struct(item) =>
      StructUnit(StructDerives, false, item,
                 InputImpl(item.ident, FieldReads(JsonLine, item.fields.named), FieldIdents(item.fields.named)))
    case Command(item) =>
      StructUnit(StructDerives, true, item,
                 InputImpl(item.ident, FieldReads(Prompted, item.fields.named), FieldIdents(item.fields.named)))
    case Enum(item) =>
      EnumUnit(EnumDerives, item, FirstVariant(item.variants))
  }

  /** The units of the commands, by appending each command's unit in turn: item units only, at most one per command. */
  function Units(cs: seq<CommandType>): (us: seq<Unit>)
    requires Supported(cs)
    ensures |us| <= |cs|
    ensures forall k :: 0 <= k < |us| ==> us[k].StructUnit? || us[k].EnumUnit?
  {
    if cs == [] then []
    else
      var last := cs[|cs| - 1];
      Units(cs[..|cs| - 1]) + (if IsNonEmpty(last) then [UnitOf(last)] else [])
  }

  /** The identifiers of the command structs, by appending each one in turn. */
  function CommandIdents(cs: seq<CommandType>): (idents: seq<string>)
    ensures |idents| <= |cs|
    ensures forall k :: 0 <= k < |idents| ==>
      exists i :: 0 <= i < |cs| && cs[i].Command? && cs[i].st.ident == idents[k]
  {
    if cs == [] then []
    else
      var last := cs[|cs| - 1];
      CommandIdents(cs[..|cs| - 1]) + (if IsCommand(last) then [last.st.ident] else [])
  }

  function VariantsOf(idents: seq<string>): seq<Variant>
  {
    seq(|idents|, k requires 0 <= k < |idents| => Variant(idents[k], idents[k]))
  }

  function DisplayArmsOf(idents: seq<string>): seq<DisplayArm>
  {
    seq(|idents|, k requires 0 <= k < |idents| => DisplayArm(idents[k], idents[k]))
  }

  function HandleArmsOf(idents: seq<string>): seq<HandleArm>
  {
    seq(|idents|, k requires 0 <= k < |idents| => HandleArm(idents[k], idents[k]))
  }

  /**
   * The `Commands` enum, its `Display` impl and `handle_command`: one variant,
   * one arm and one handler per identifier, each variant carrying its own
   * type, each arm writing the variant's name, each handler reading the
   * variant's type.
   */
  function Aggregate(cs: seq<CommandType>): (u: Unit)
    ensures u.CommandsUnit? && u.derives == CommandsDerives
    ensures |u.variants| == |u.display| == |u.handle| == |CommandIdents(cs)|
    ensures forall k :: 0 <= k < |u.variants| ==>
      && u.variants[k].ident == u.variants[k].payload == CommandIdents(cs)[k]
      && u.display[k].variant == u.display[k].text == CommandIdents(cs)[k]
      && u.handle[k].variant == u.handle[k].acquires == CommandIdents(cs)[k]
  {
    var idents := CommandIdents(cs);
    CommandsUnit(CommandsDerives, VariantsOf(idents), DisplayArmsOf(idents), HandleArmsOf(idents))
  }

  /** The positions, in increasing order, of the commands that satisfy `p`. */
  function Positions(cs: seq<CommandType>, p: CommandType -> bool): (ps: seq<nat>)
    ensures forall k :: 0 <= k < |ps| ==> ps[k] < |cs| && p(cs[ps[k]])
  {
    if cs == [] then []
    else Positions(cs[..|cs| - 1], p) + (if p(cs[|cs| - 1]) then [|cs| - 1] else [])
  }

  /** `Positions` lists every satisfying position exactly once, in increasing order. */
  lemma {:induction false} PositionsSpec(cs: seq<CommandType>, p: CommandType -> bool)
    ensures forall k, l :: 0 <= k < l < |Positions(cs, p)| ==> Positions(cs, p)[k] < Positions(cs, p)[l]
    ensures forall i :: 0 <= i < |cs| ==> (i in Positions(cs, p) <==> p(cs[i]))
  {
    if cs != [] {
      var init := cs[..|cs| - 1];
      PositionsSpec(init, p);
      forall i | 0 <= i < |init| ensures cs[i] == init[i] { }
    }
  }

  /**
   * Every non-`Empty` command contributes one unit, in command order, and
   * nothing else does: the k-th unit is the unit of the k-th non-`Empty`
   * command. Two commands with the same identifier both contribute.
   */
  lemma {:induction false} UnitsFollowCommands(cs: seq<CommandType>)
    requires Supported(cs)
    ensures |Units(cs)| == |Positions(cs, IsNonEmpty)|
    ensures forall k :: 0 <= k < |Units(cs)| ==> Units(cs)[k] == UnitOf(cs[Positions(cs, IsNonEmpty)[k]])
  {
    if cs != [] {
      var init := cs[..|cs| - 1];
      assert Supported(init) by {
        forall i | 0 <= i < |init| ensures !Unsupported(init[i]) { assert init[i] == cs[i]; }
      }
      UnitsFollowCommands(init);
      forall k | 0 <= k < |Positions(init, IsNonEmpty)|
        ensures cs[Positions(init, IsNonEmpty)[k]] == init[Positions(init, IsNonEmpty)[k]]
      { }
    }
  }

  /** The k-th generated unit of an enum is that enum with its first declared variant as `Default`. */
  lemma EnumDefaultIsFirstVariant(cs: seq<CommandType>)
    requires Supported(cs)
    ensures forall k :: 0 <= k < |Positions(cs, IsNonEmpty)| && cs[Positions(cs, IsNonEmpty)[k]].Enum? ==>
      var en := cs[Positions(cs, IsNonEmpty)[k]].en;
      && k < |Units(cs)|
      && Units(cs)[k].EnumUnit?
      && Units(cs)[k].enumDef == en
      && (Units(cs)[k].default.Some? <==> |en.variants| > 0)
      && (Units(cs)[k].default.Some? ==> Units(cs)[k].default.value == en.variants[0])
  {
    UnitsFollowCommands(cs);
  }

  /**
   * The k-th generated unit of a struct or command struct is that struct; it
   * is `pub` exactly for a command struct, whose input prompts per field,
   * while a plain struct's reads a JSON line per field; both read the fields
   * and list them in the constructor in declared order.
   */
  lemma StructUnitsByKind(cs: seq<CommandType>)
    requires Supported(cs)
    ensures forall k :: 0 <= k < |Positions(cs, IsNonEmpty)| && !cs[Positions(cs, IsNonEmpty)[k]].Enum? ==>
      var c := cs[Positions(cs, IsNonEmpty)[k]];
      var named := c.st.fields.named;
      var style := if c.Command? then Prompted else JsonLine;
      && k < |Units(cs)|
      && Units(cs)[k].StructUnit?
      && Units(cs)[k].def == c.st
      && Units(cs)[k].isPub == c.Command?
      && |Units(cs)[k].input.steps| == |Units(cs)[k].input.ctor| == |named|
      && forall j :: 0 <= j < |named| ==>
           && Units(cs)[k].input.steps[j] == FieldRead(style, named[j].ident, named[j].ty)
           && Units(cs)[k].input.ctor[j] == named[j].ident
  {
    UnitsFollowCommands(cs);
  }

  /**
   * The `Commands` variants, `Display` arms and `handle_command` arms are one
   * per command struct, in command order: the k-th of each names the k-th
   * command struct, its `Display` arm writes that name, and its handler reads
   * that type. Plain structs and enums never appear.
   */
  lemma {:induction false} AggregateFollowsCommands(cs: seq<CommandType>)
    ensures var ps := Positions(cs, IsCommand);
      var agg := Aggregate(cs);
      && |agg.variants| == |agg.display| == |agg.handle| == |ps|
      && forall k :: 0 <= k < |ps| ==>
           && agg.variants[k] == Variant(cs[ps[k]].st.ident, cs[ps[k]].st.ident)
           && agg.display[k] == DisplayArm(cs[ps[k]].st.ident, cs[ps[k]].st.ident)
           && agg.handle[k] == HandleArm(cs[ps[k]].st.ident, cs[ps[k]].st.ident)
  {
    CommandIdentsFollowCommands(cs);
  }

  lemma {:induction false} CommandIdentsFollowCommands(cs: seq<CommandType>)
    ensures |CommandIdents(cs)| == |Positions(cs, IsCommand)|
    ensures forall k :: 0 <= k < |CommandIdents(cs)| ==>
      CommandIdents(cs)[k] == cs[Positions(cs, IsCommand)[k]].st.ident
  {
    if cs != [] {
      var init := cs[..|cs| - 1];
      CommandIdentsFollowCommands(init);
      forall k | 0 <= k < |Positions(init, IsCommand)|
        ensures cs[Positions(init, IsCommand)[k]] == init[Positions(init, IsCommand)[k]]
      { }
    }
  }

  /** Units of consecutive command lists concatenate. */
  lemma {:induction false} UnitsAppend(a: seq<CommandType>, b: seq<CommandType>)
    requires Supported(a) && Supported(b)
    ensures Supported(a + b)
    ensures Units(a + b) == Units(a) + Units(b)
  {
    if b == [] {
      assert a + b == a;
    } else {
      var init := b[..|b| - 1];
      assert Supported(init) by {
        forall i | 0 <= i < |init| ensures !Unsupported(init[i]) { assert init[i] == b[i]; }
      }
      UnitsAppend(a, init);
      assert (a + b)[..|a + b| - 1] == a + init;
    }
  }

  /** Command identifiers of consecutive command lists concatenate. */
  lemma {:induction false} CommandIdentsAppend(a: seq<CommandType>, b: seq<CommandType>)
    ensures CommandIdents(a + b) == CommandIdents(a) + CommandIdents(b)
  {
    if b == [] {
      assert a + b == a;
    } else {
      var init := b[..|b| - 1];
      CommandIdentsAppend(a, init);
      assert (a + b)[..|a + b| - 1] == a + init;
    }
  }

  lemma SupportedConcat(a: seq<CommandType>, b: seq<CommandType>)
    ensures Supported(a + b) <==> Supported(a) && Supported(b)
  {
    if Supported(a + b) {
      forall j | 0 <= j < |a| ensures !Unsupported(a[j]) { assert a[j] == (a + b)[j]; }
      forall j | 0 <= j < |b| ensures !Unsupported(b[j]) { assert b[j] == (a + b)[|a| + j]; }
    }
  }

  /** A chunk that failed to parse contributes no unit: removing it changes no unit. */
  lemma {:induction false} UnitsSkipEmpty(pre: seq<CommandType>, post: seq<CommandType>)
    requires Supported(pre) && Supported(post)
    ensures Supported(pre + [Empty] + post) && Supported(pre + post)
    ensures Units(pre + [Empty] + post) == Units(pre + post)
  {
    var e: seq<CommandType> := [Empty];
    SupportedConcat(pre, e);
    SupportedConcat(pre + e, post);
    SupportedConcat(pre, post);
    assert Units(e) == [] by {
      assert e[..0] == [];
    }
    UnitsAppend(pre, e);
    UnitsAppend(pre + e, post);
    UnitsAppend(pre, post);
  }

  /** A chunk that failed to parse contributes nothing to the `Commands` aggregate. */
  lemma {:induction false} AggregateSkipEmpty(pre: seq<CommandType>, post: seq<CommandType>)
    ensures Aggregate(pre + [Empty] + post) == Aggregate(pre + post)
  {
    var e: seq<CommandType> := [Empty];
    assert CommandIdents(e) == [] by {
      assert e[..0] == [];
    }
    CommandIdentsAppend(pre, e);
    CommandIdentsAppend(pre + e, post);
    CommandIdentsAppend(pre, post);
  }

  /** When no chunk parsed, the output holds no unit besides the prelude and an empty aggregate. */
  lemma {:induction false} AllEmptyContributesNothing(cs: seq<CommandType>)
    requires forall i :: 0 <= i < |cs| ==> cs[i].Empty?
    ensures Supported(cs) && Units(cs) == [] && CommandIdents(cs) == []
  {
    if cs != [] {
      AllEmptyContributesNothing(cs[..|cs| - 1]);
    }
  }

  /** Nothing removes a second struct with an identifier already generated: both are emitted. */
  lemma SameIdentEmittedTwice(a: StructItem, b: StructItem)
    requires a.ident == b.ident && a.fields.Named? && b.fields.Named?
    ensures Units([Struct(a), Struct(b)]) == [UnitOf(Struct(a)), UnitOf(Struct(b))]
  {
    var cs := [Struct(a), Struct(b)];
    assert cs[..1] == [Struct(a)];
    assert cs[..1][..0] == [];
    assert Units(cs[..1]) == [UnitOf(Struct(a))];
  }

  /**
   * The per-field loop: one input statement and one constructor entry per
   * field, both in declared field order.
   */
  method FieldInputs(style: ReadStyle, fields: seq<Field>) returns (steps: seq<FieldRead>, ctor: seq<string>)
    ensures |steps| == |ctor| == |fields|
    ensures forall j :: 0 <= j < |fields| ==>
      && steps[j] == FieldRead(style, fields[j].ident, fields[j].ty)
      && ctor[j] == fields[j].ident
    ensures steps == FieldReads(style, fields) && ctor == FieldIdents(fields)
  {
    steps, ctor := [], [];
    for j := 0 to |fields|
      invariant |steps| == |ctor| == j
      invariant forall m :: 0 <= m < j ==>
        steps[m] == FieldRead(style, fields[m].ident, fields[m].ty) && ctor[m] == fields[m].ident
    {
      steps := steps + [FieldRead(style, fields[j].ident, fields[j].ty)];
      ctor := ctor + [fields[j].ident];
    }
  }

  /**
   * The body of `cmd_import` after parsing: the prelude, then one unit per
   * non-`Empty` command in order, then the `Commands` aggregate; or the panic,
   * exactly when some struct or command struct has fields that are not named.
   */
  method Generate(commands: seq<CommandType>) returns (r: Generation)
    ensures r.Panicked? <==> exists i :: 0 <= i < |commands| && Unsupported(commands[i])
    ensures r.Panicked? ==> r.message == UnnamedFieldsPanic
    ensures r.Generated? ==>
      && Supported(commands)
      && r.output == [Prelude(PreludeTypes)] + Units(commands) + [Aggregate(commands)]
  {
    var output := [Prelude(PreludeTypes)];
    var commandExt: seq<Variant> := [];
    var commandFmt: seq<DisplayArm> := [];
    var commandHandle: seq<HandleArm> := [];
    for i := 0 to |commands|
      invariant Supported(commands[..i])
      invariant output == [Prelude(PreludeTypes)] + Units(commands[..i])
      invariant commandExt == VariantsOf(CommandIdents(commands[..i]))
      invariant commandFmt == DisplayArmsOf(CommandIdents(commands[..i]))
      invariant commandHandle == HandleArmsOf(CommandIdents(commands[..i]))
    {
      assert commands[..i + 1][..i] == commands[..i];
      match commands[i] {
        case Struct(item) =>
          if !item.fields.Named? {
            return Panicked(UnnamedFieldsPanic);
          }
          var steps, ctor := FieldInputs(JsonLine, item.fields.named);
          output := output + [StructUnit(StructDerives, false, item, InputImpl(item.ident, steps, ctor))];
        case Enum(item) =>
          output := output + [EnumUnit(EnumDerives, item, FirstVariant(item.variants))];
        case Command(item) =>
          if !item.fields.Named? {
            return Panicked(UnnamedFieldsPanic);
          }
          var steps, ctor := FieldInputs(Prompted, item.fields.named);
          output := output + [StructUnit(StructDerives, true, item, InputImpl(item.ident, steps, ctor))];
          commandExt := commandExt + [Variant(item.ident, item.ident)];
          commandFmt := commandFmt + [DisplayArm(item.ident, item.ident)];
          commandHandle := commandHandle + [HandleArm(item.ident, item.ident)];
        case Empty =>
      }
    }
    assert commands[..|commands|] == commands;
    r := Generated(output + [CommandsUnit(CommandsDerives, commandExt, commandFmt, commandHandle)]);
  }
}
