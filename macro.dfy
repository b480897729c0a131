/**
 * `cmd_import` end to end (src/lib.rs:55-292): chunk the command file,
 * parse every chunk into a command, generate. Reading `./commands.json`,
 * printing and converting the tokens back to the compiler's stream are not
 * part of the model: the file's text is a parameter, the output is units.
 */
module Macro {
  import opened Wrappers
  import opened Tokens
  import opened Chunker
  import opened Classifier
  import opened Generator

  /** The commands of a file: one per chunk, in chunk order. */
  function FileCommands(file: string,
                        lex: string -> Option<seq<Token>>,
                        parseStruct: seq<Token> -> Option<StructItem>,
                        parseEnum: seq<Token> -> Option<EnumItem>): (cs: seq<CommandType>)
    ensures |cs| == |Chunks(file)|
  {
    var parts := Chunks(file);
    seq(|parts|, i requires 0 <= i < |parts| => CommandOf(parts[i], lex, parseStruct, parseEnum))
  }

  /**
   * The expansion: it panics exactly when some chunk parsed into a struct or
   * command struct without named fields; otherwise it is the prelude, the
   * units of the chunks' commands in order, and the `Commands` aggregate.
   */
  method CmdImport(file: string,
                   lex: string -> Option<seq<Token>>,
                   parseStruct: seq<Token> -> Option<StructItem>,
                   parseEnum: seq<Token> -> Option<EnumItem>) returns (r: Generation)
    ensures var cs := FileCommands(file, lex, parseStruct, parseEnum);
      && (r.Panicked? <==> exists i :: 0 <= i < |cs| && Unsupported(cs[i]))
      && (r.Generated? ==> Supported(cs) && r.output == [Prelude(PreludeTypes)] + Units(cs) + [Aggregate(cs)])
  {
    var parts := Chunks(file);
    var commands := ParseCommands(parts, lex, parseStruct, parseEnum);
    assert commands == FileCommands(file, lex, parseStruct, parseEnum);
    r := Generate(commands);
  }

  /** A chunk that fails to parse never makes the expansion panic. */
  lemma FailedParseNeverPanics(file: string,
                               lex: string -> Option<seq<Token>>,
                               parseStruct: seq<Token> -> Option<StructItem>,
                               parseEnum: seq<Token> -> Option<EnumItem>, i: nat)
    requires i < |Chunks(file)|
    requires ParseStr(Chunks(file)[i], lex, parseStruct, parseEnum).Err?
    ensures FileCommands(file, lex, parseStruct, parseEnum)[i] == Empty
    ensures !Unsupported(FileCommands(file, lex, parseStruct, parseEnum)[i])
  {
  }

  /** A file none of whose chunks parses expands to the prelude and an empty `Commands`. */
  lemma NothingParsedExpansion(file: string,
                               lex: string -> Option<seq<Token>>,
                               parseStruct: seq<Token> -> Option<StructItem>,
                               parseEnum: seq<Token> -> Option<EnumItem>)
    requires forall i :: 0 <= i < |Chunks(file)| ==> ParseStr(Chunks(file)[i], lex, parseStruct, parseEnum).Err?
    ensures var cs := FileCommands(file, lex, parseStruct, parseEnum);
      && Supported(cs)
      && [Prelude(PreludeTypes)] + Units(cs) + [Aggregate(cs)]
         == [Prelude(PreludeTypes), CommandsUnit(CommandsDerives, [], [], [])]
  {
    var cs := FileCommands(file, lex, parseStruct, parseEnum);
    AllEmptyContributesNothing(cs);
    assert Aggregate(cs) == CommandsUnit(CommandsDerives, [], [], []);
  }
}
