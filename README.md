# cmd_import, modelled in Dafny

`cmd_import` is a Rust procedural macro (src/lib.rs). It reads a command file of
Rust item declarations. It splits the file into chunks on every `}` and parses
each chunk as a plain `struct`, an `enum`, or a `#`-marked command struct. It
then generates code: a fixed `UserInput` prelude, then for every parsed item its
definition with derives and an `impl UserInput` that obtains a value
interactively, and last a `Commands` enum over the command structs with a
`Display` impl and a `handle_command` dispatcher.

This project models that pipeline in four stages plus the pipeline as a whole:

- `Chunker` (chunker.dfy): `str::split` on `}`, `str::trim` with Rust's
  `char::is_whitespace`, the filter of blank segments and the appended ` }`.
- `Tokens` (tokens.dfy): token trees with delimited groups as single tokens,
  and `skip_past_next_hash`. The skipper is an imperative method (the cursor
  loop) that is proved equal to a recursive function, and the function is what
  the classifier uses.
- `Classifier` (classifier.dfy): `Command::parse` (the lookahead on the first
  token), `syn::parse_str` with its failure turned into `Empty`, and the loop
  that parses every chunk.
- `Generator` (generator.dfy): the generation loop over the commands. It works
  on abstract output units rather than Rust tokens. It has the in-place buffers
  of the source as local sequences: `output`, `command_ext`, `command_fmt` and
  `command_handle`, and per struct `userinput_ext` and `userinput_ext_out`.
- `Macro` (macro.dfy): the expansion from the file's text to the generated
  units, or to the panic.

Lexing a chunk and `syn`'s `ItemStruct`/`ItemEnum` parsers are parameters
(`lex`, `parseStruct`, `parseEnum`). `syn::parse_str`'s check that the whole
chunk is consumed belongs to those parameters.

Two behaviours of src/lib.rs worth knowing:
- There is no type resolver, no visited set and no deduplication by
  identifier: two items with the same identifier are both emitted
  (`Generator.SameIdentEmittedTwice`).
- A chunk that fails to lex or parse becomes `Empty` and contributes nothing.
  Positional or unit fields on a struct or command struct panic and abort the
  expansion.

## Model

| member | source | states |
|---|---|---|
| `Chunker.Split` | src/lib.rs:60 | `split("}")` gives at least one segment, and no segment contains `}` |
| `Chunker.SplitJoin` | src/lib.rs:60 | joining the segments with `}` gives back the file: splitting loses nothing |
| `Chunker.JoinSplit` | src/lib.rs:60 | brace-free segments joined with `}` split back into the same segments (inverse direction) |
| `Chunker.SplitBraceFree` | src/lib.rs:60 | a text with no `}` is a single segment |
| `Chunker.SplitAppend` | src/lib.rs:60 | a `}` between two texts separates their segments: split of `a}b` is split of `a` followed by split of `b` |
| `Chunker.TrimStart` | src/lib.rs:61 | trimming the start never lengthens the text, keeps its last character, and what remains does not start with whitespace (what it is: `Chunker.TrimStartDropsWhitespace`) |
| `Chunker.TrimEnd` | src/lib.rs:61 | trimming the end never lengthens the text, keeps its first character, and what remains does not end with whitespace (what it is: `Chunker.TrimEndDropsWhitespace`) |
| `Chunker.Trim` | src/lib.rs:61 | `str::trim` never lengthens the text, and what remains neither starts nor ends with whitespace (what it is: `Chunker.TrimDropsWhitespace`) |
| `Chunker.TrimStartDropsWhitespace` | src/lib.rs:61 | `trim_start` returns a suffix `s[k..]` of its input whose dropped prefix `s[..k]` is all whitespace |
| `Chunker.TrimEndDropsWhitespace` | src/lib.rs:61 | `trim_end` returns a prefix `s[..k]` of its input whose dropped suffix `s[k..]` is all whitespace |
| `Chunker.TrimSlice` | src/lib.rs:61 | a blank run dropped from the start and then one dropped from the end leave exactly the slice between them, with a blank tail after it |
| `Chunker.TrimDropsWhitespace` | src/lib.rs:61 | `str::trim` returns a slice `s[i..j]` of its input with only whitespace before `i` and after `j` |
| `Chunker.TrimStartEmptyIffBlank` | src/lib.rs:61 | trimming the start empties exactly the all-whitespace texts, and otherwise stops at a non-whitespace character |
| `Chunker.TrimEndKeepsHead` | src/lib.rs:61 | trimming the end never removes a leading non-whitespace character |
| `Chunker.TrimEmptyIffBlank` | src/lib.rs:61 | `s.trim().is_empty()` holds exactly when every character of `s` is whitespace |
| `Chunker.Keep` | src/lib.rs:61-62 | at most one part per segment, and every part ends with ` }` |
| `Chunker.Chunks` | src/lib.rs:59-63 | at most one part per `}`-separated segment, each a brace-free, non-blank text followed by ` }` |
| `Chunker.KeptSegmentShapes` | src/lib.rs:59-63 | of brace-free segments, every kept part is a brace-free, non-blank segment followed by ` }` |
| `Chunker.KeepAppend` | src/lib.rs:61-62 | filter-and-map of concatenated segment lists is the concatenation of the results (order kept) |
| `Chunker.KeptPositionsSpec` | src/lib.rs:61 | the kept positions increase, and a position is kept exactly when its segment is not blank |
| `Chunker.KeepAtKeptPositions` | src/lib.rs:61-62 | the k-th kept part is the segment at the k-th kept position followed by ` }` |
| `Chunker.KeepAtPositions` | src/lib.rs:61-62 | the k-th kept part is the segment at the k-th increasing kept position plus ` }`, and a position is kept exactly when its segment is not blank |
| `Chunker.ChunksAreKeptSegments` | src/lib.rs:59-63 | the parts are exactly the non-blank `}`-separated segments, in file order, each followed by ` }` |
| `Chunker.ChunksAppend` | src/lib.rs:59-63 | the parts of `a}b` are the parts of `a` followed by the parts of `b` |
| `Chunker.ChunksOfSegment` | src/lib.rs:59-63 | a brace-free text gives no part if blank, else the single part `text + " }"` |
| `Tokens.AfterFirstHash` | src/lib.rs:13-26 | the only failure is "no `#` found", and a success leaves strictly fewer tokens |
| `Tokens.AfterFirstHashSpec` | src/lib.rs:14-24 | succeeds exactly when a top-level `#` exists; then leaves exactly the tokens after the first `#`, and no earlier token is a `#` |
| `Tokens.GroupsAreOpaque` | src/lib.rs:16 | replacing the contents of any group token changes neither whether the skipper finds a `#` nor where it stops, and leaves the same result when the group lies before the first `#`: a `#` inside a group is never seen |
| `Tokens.SkipPastNextHash` | src/lib.rs:13-26 | the cursor loop succeeds exactly when a `#` is present, returns the tokens after the first one with no `#` before it, fails with `NoHashFound` otherwise, and equals `AfterFirstHash` |
| `Classifier.Classify` | src/lib.rs:36-53 | a success is never `Empty`, its kind is the one the first token announces (`struct`, `enum`, `#`), and no first token or any other first token is the lookahead error |
| `Classifier.ClassifyParsesFrom` | src/lib.rs:39-48 | Struct and Enum items are parsed from the whole chunk, a Command struct from the tokens after the leading `#`; each kind succeeds exactly when its parser does |
| `Classifier.ParseStr` | src/lib.rs:67 | a chunk that does not lex is a `LexError`; a success comes from a non-empty token list and has the kind its first token announces |
| `Classifier.CommandOf` | src/lib.rs:66-70 | a chunk becomes `Empty` exactly when its parse failed, and otherwise the parsed command |
| `Classifier.ParseCommands` | src/lib.rs:65-72 | exactly one command per part, in part order, each the part's `CommandOf` |
| `Generator.FieldInputs` | src/lib.rs:142-162 | one input statement and one constructor entry per field, both in declared field order, with the field's own name and type |
| `Generator.UnitOf` | src/lib.rs:130-266 | a plain struct gives a non-`pub` struct unit reading a JSON line per field, a command struct a `pub` one prompting per field, both with steps and constructor in field order; an enum gives an enum unit whose default is its first variant (none without variants) |
| `Generator.Units` | src/lib.rs:128-268 | at most one unit per command, and every unit is a struct or enum unit (never the prelude or the aggregate) |
| `Generator.EnumDefaultIsFirstVariant` | src/lib.rs:175-185 | in the output, the unit of the k-th non-`Empty` command, when that is an enum, is that enum with its first declared variant as `Default`, and none exactly when it has no variants |
| `Generator.StructUnitsByKind` | src/lib.rs:130-250 | in the output, the unit of the k-th non-`Empty` struct or command struct is that struct, `pub` exactly for a command struct, with `Prompted` steps for a command struct and `JsonLine` steps for a plain one, steps and constructor in declared field order |
| `Generator.UnitsFollowCommands` | src/lib.rs:128-268 | the k-th generated unit is the unit of the k-th non-`Empty` command: one unit per non-`Empty` command, in order |
| `Generator.UnitsAppend` | src/lib.rs:128-268 | units of consecutive command lists concatenate (order preserved) |
| `Generator.UnitsSkipEmpty` | src/lib.rs:267 | an `Empty` command contributes no unit: removing it changes nothing |
| `Generator.CommandIdents` | src/lib.rs:252-264 | at most one identifier per command, and every identifier is that of some command struct |
| `Generator.Aggregate` | src/lib.rs:271-288 | the `Commands` unit has one variant, one `Display` arm and one handler per command identifier, in order; each variant carries its own type, each arm writes the variant's name, each handler reads the variant's type |
| `Generator.CommandIdentsFollowCommands` | src/lib.rs:204-264 | the k-th `Commands` identifier is that of the k-th command struct; no plain struct or enum appears |
| `Generator.CommandIdentsAppend` | src/lib.rs:252-264 | `Commands` identifiers of consecutive command lists concatenate |
| `Generator.AggregateFollowsCommands` | src/lib.rs:252-288 | the `Commands` variants, `Display` arms and `handle_command` arms are one per command struct in order; each `Display` arm writes the struct's own name and each handler reads that type |
| `Generator.AggregateSkipEmpty` | src/lib.rs:267 | an `Empty` command contributes nothing to the `Commands` aggregate |
| `Generator.AllEmptyContributesNothing` | src/lib.rs:128-268 | when every command is `Empty`, there are no units and no `Commands` variants, and nothing panics |
| `Generator.SameIdentEmittedTwice` | src/lib.rs:130-134 | any two structs with named fields and the same identifier, whatever their fields, each produce their own unit in order: there is no deduplication |
| `Generator.Generate` | src/lib.rs:74-289 | panics with "Only named fields are supported" exactly when some struct or command struct lacks named fields; otherwise the output is the prelude, the units of the commands in order, and the `Commands` aggregate |
| `Macro.FileCommands` | src/lib.rs:59-72 | one command per chunk of the file |
| `Macro.CmdImport` | src/lib.rs:56-291 | the expansion panics exactly when a chunk parsed into a struct or command struct without named fields; otherwise it is the prelude, the units of the chunks' commands and the aggregate |
| `Macro.FailedParseNeverPanics` | src/lib.rs:66-70 | a chunk whose parse fails becomes `Empty` and cannot make the expansion panic |
| `Macro.NothingParsedExpansion` | src/lib.rs:66-72 | a file none of whose chunks parses expands to the prelude and an empty `Commands` |

## Left out

- Reading `./commands.json` and its `unwrap` (src/lib.rs:57) are I/O. The file's text is a parameter, and a missing file is not modelled.
- The `println!` calls at generation time (src/lib.rs:265, src/lib.rs:290) are I/O. So is the conversion back to the compiler's token stream (src/lib.rs:291).
- Tokenising a chunk and `syn`'s `ItemStruct`/`ItemEnum` parsers are library code. They are the parameters `lex`, `parseStruct` and `parseEnum`. A parsed item keeps only what the generator reads: its identifier, and its fields or variant names. Attributes, visibility and generics are not represented.
- The exact text `quote!` produces is not modelled. The output is a sequence of abstract units. The derive lists, the prelude's type list and the panic message are kept as constants.
- The runtime behaviour of the generated code is not modelled: stdin reads, `serde_json` parsing, the `Select` retry loop, and the `unwrap` of `iter().next()` on an enum without variants (`FirstVariant` is then `None`). That code runs later, in another program.
- The `f32`/`f64` impls of the prelude appear only as type names in `PreludeTypes`. No floating point is involved.
- The Rust wrapper `struct Command { item }` is not kept as its own type. `CommandType` stands for it.
- Generator.Generate: when it panics, the model does not keep the partial `output` the source had built before the panic, because the panic aborts the expansion and the output is never used.
