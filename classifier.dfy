/**
 * `Command::parse` (src/lib.rs:36-53) and the loop of `cmd_import` that
 * parses every chunk into a command, turning a failed parse into `Empty`
 * (src/lib.rs:65-72).
 *
 * Lexing a chunk into tokens and `syn`'s parsers for `ItemStruct` and
 * `ItemEnum` are library code; they are parameters here (`lex`,
 * `parseStruct`, `parseEnum`). `syn::parse_str`'s demand that the whole
 * chunk be consumed belongs to those parameters.
 */
module Classifier {
  import opened Wrappers
  import opened Tokens

  /** A named field: its identifier and its type, kept as the type's text. */
  datatype Field = Field(ident: string, ty: string)

  /** `syn::Fields`: braces with named fields, parentheses with positional ones, or none. */
  datatype Fields = Named(named: seq<Field>) | Unnamed(types: seq<string>) | Unit

  /** The parts of a parsed `ItemStruct` the generator looks at. */
  datatype StructItem = StructItem(ident: string, fields: Fields)

  /** The parts of a parsed `ItemEnum` the generator looks at: its variant names in order. */
  datatype EnumItem = EnumItem(ident: string, variants: seq<string>)

  /** `CommandType`: one per chunk of the command file. */
  datatype CommandType =
    | Struct(st: StructItem)
    | Enum(en: EnumItem)
    | Command(st: StructItem)
    | Empty

  /** The three tokens the lookahead tests for. */
  datatype Lead = StructKeyword | EnumKeyword | HashMark

  /** What `lookahead.peek` recognises in a token, if anything. */
  function LeadOf(t: Token): Option<Lead>
  {
    if t == Ident("struct") then Some(StructKeyword)
    else if t == Ident("enum") then Some(EnumKeyword)
    else if IsHash(t) then Some(HashMark)
    else None
  }

  /** The lead token a parsed command of each kind starts with. */
  function LeadOfKind(c: CommandType): Option<Lead>
  {
    match c
    case Struct(_) => Some(StructKeyword)
    case Enum(_) => Some(EnumKeyword)
    case Command(_) => Some(HashMark)
    case Empty => None
  }

  /**
   * `Command::parse`: the first token alone decides which parser runs; a
   * success is never `Empty`, its kind is the one the first token announces,
   * and any other first token (or none) is the lookahead's error.
   */
  function Classify(input: seq<Token>,
                    parseStruct: seq<Token> -> Option<StructItem>,
                    parseEnum: seq<Token> -> Option<EnumItem>): (r: Result<CommandType, ParseError>)
    ensures r.Ok? ==> input != [] && LeadOfKind(r.value) == LeadOf(input[0]) != None
    ensures input == [] || LeadOf(input[0]) == None ==> r == Err(UnexpectedToken)
  {
    if input == [] then Err(UnexpectedToken)
    else
      match LeadOf(input[0])
      case None => Err(UnexpectedToken)
      case Some(StructKeyword) =>
        (match parseStruct(input)
         case Some(item) => Ok(Struct(item))
         case None => Err(ItemSyntax))
      case Some(EnumKeyword) =>
        (match parseEnum(input)
         case Some(item) => Ok(Enum(item))
         case None => Err(ItemSyntax))
      case Some(HashMark) =>
        (match AfterFirstHash(input)
         case Err(e) => Err(e)
         case Ok(rest) =>
           match parseStruct(rest)
           case Some(item) => Ok(Command(item))
           case None => Err(ItemSyntax))
  }

  /**
   * What each kind is parsed from: a `struct` or `enum` item from the whole
   * chunk, a command struct from what follows the leading `#` (the skipper
   * stops at that very `#`, so it drops exactly one token).
   */
  lemma ClassifyParsesFrom(input: seq<Token>,
                           parseStruct: seq<Token> -> Option<StructItem>,
                           parseEnum: seq<Token> -> Option<EnumItem>,
                           item: StructItem, en: EnumItem)
    requires input != []
    ensures LeadOf(input[0]) == Some(StructKeyword) ==>
      (Classify(input, parseStruct, parseEnum) == Ok(Struct(item)) <==> parseStruct(input) == Some(item))
    ensures LeadOf(input[0]) == Some(EnumKeyword) ==>
      (Classify(input, parseStruct, parseEnum) == Ok(Enum(en)) <==> parseEnum(input) == Some(en))
    ensures LeadOf(input[0]) == Some(HashMark) ==>
      AfterFirstHash(input) == Ok(input[1..]) &&
      (Classify(input, parseStruct, parseEnum) == Ok(Command(item)) <==> parseStruct(input[1..]) == Some(item))
  {
  }

  /**
   * `syn::parse_str::<Command>`: lex the chunk, then classify it; a chunk
   * that does not lex is an error, and a success has the kind its first token announces.
   */
  function ParseStr(part: string,
                    lex: string -> Option<seq<Token>>,
                    parseStruct: seq<Token> -> Option<StructItem>,
                    parseEnum: seq<Token> -> Option<EnumItem>): (r: Result<CommandType, ParseError>)
    ensures lex(part).None? ==> r == Err(LexError)
    ensures r.Ok? ==>
      && lex(part).Some? && lex(part).value != []
      && LeadOfKind(r.value) == LeadOf(lex(part).value[0]) != None
  {
    match lex(part)
    case None => Err(LexError)
    case Some(tokens) => Classify(tokens, parseStruct, parseEnum)
  }

  /**
   * The command a chunk becomes: the parsed command, or `Empty` exactly when
   * the parse failed. A failure is absorbed, never propagated.
   */
  function CommandOf(part: string,
                     lex: string -> Option<seq<Token>>,
                     parseStruct: seq<Token> -> Option<StructItem>,
                     parseEnum: seq<Token> -> Option<EnumItem>): (c: CommandType)
    ensures c.Empty? <==> ParseStr(part, lex, parseStruct, parseEnum).Err?
    ensures !c.Empty? ==> ParseStr(part, lex, parseStruct, parseEnum) == Ok(c)
  {
    match ParseStr(part, lex, parseStruct, parseEnum)
    case Ok(command) => command
    case Err(_) => Empty
  }

  /** The loop over the parts: exactly one command per part, in part order. */
  method ParseCommands(parts: seq<string>,
                       lex: string -> Option<seq<Token>>,
                       parseStruct: seq<Token> -> Option<StructItem>,
                       parseEnum: seq<Token> -> Option<EnumItem>) returns (commands: seq<CommandType>)
    ensures |commands| == |parts|
    ensures forall i :: 0 <= i < |parts| ==> commands[i] == CommandOf(parts[i], lex, parseStruct, parseEnum)
  {
    commands := [];
    for i := 0 to |parts|
      invariant |commands| == i
      invariant forall j :: 0 <= j < i ==> commands[j] == CommandOf(parts[j], lex, parseStruct, parseEnum)
    {
      var command: CommandType;
      match ParseStr(parts[i], lex, parseStruct, parseEnum) {
        case Ok(c) => command := c;
        case Err(_) => command := Empty;
      }
      commands := commands + [command];
    }
  }
}
