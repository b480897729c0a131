/**
 * The token trees `syn` walks with a cursor, and `skip_past_next_hash`
 * (src/lib.rs:13-26). A delimited group is one token: its contents are not
 * visited by the cursor's `token_tree()` step.
 */
module Tokens {
  import opened Wrappers

  datatype Delimiter = Parenthesis | Brace | Bracket | NoDelimiter

  datatype Token =
    | Ident(name: string)
    | Punct(ch: char)
    | Literal(text: string)
    | Group(delimiter: Delimiter, inner: seq<Token>)

  /** Errors a parse of one chunk can end in. */
  datatype ParseError =
    | LexError            // the chunk is not a token stream at all
    | NoHashFound         // "no `#` was found after this point"
    | UnexpectedToken     // the lookahead matched none of `struct`, `enum`, `#`
    | ItemSyntax          // `syn` could not parse the item that the lookahead announced

  /** The match arm of the loop: a punctuation token whose character is `#`. */
  predicate IsHash(t: Token)
  {
    t.Punct? && t.ch == '#'
  }

  /** The tokens after the first top-level `#`, or the cursor's error. */
  function AfterFirstHash(input: seq<Token>): (r: Result<seq<Token>, ParseError>)
    ensures r.Err? ==> r.error == NoHashFound
    ensures r.Ok? ==> |r.value| < |input|
  {
    if input == [] then Err(NoHashFound)
    else if IsHash(input[0]) then Ok(input[1..])
    else AfterFirstHash(input[1..])
  }

  /**
   * The skipper succeeds exactly when a `#` is present, and then leaves the
   * tokens after the first `#`, none before which is a `#`.
   */
  lemma {:induction false} AfterFirstHashSpec(input: seq<Token>)
    ensures AfterFirstHash(input).Ok? <==> exists k :: 0 <= k < |input| && IsHash(input[k])
    ensures AfterFirstHash(input).Ok? ==>
      var k := |input| - |AfterFirstHash(input).value| - 1;
      && IsHash(input[k])
      && AfterFirstHash(input).value == input[k + 1..]
      && forall j :: 0 <= j < k ==> !IsHash(input[j])
  {
    if input != [] && !IsHash(input[0]) {
      AfterFirstHashSpec(input[1..]);
      if exists k :: 0 <= k < |input| && IsHash(input[k]) {
        var k :| 0 <= k < |input| && IsHash(input[k]);
        assert input[1..][k - 1] == input[k];
      }
      if AfterFirstHash(input).Ok? {
        var k := |input| - |AfterFirstHash(input).value| - 1;
        assert input[1..][k - 1] == input[k];
        assert input[1..][k..] == input[k + 1..];
        forall j | 0 <= j < k ensures !IsHash(input[j]) {
          if j > 0 { assert input[1..][j - 1] == input[j]; }
        }
      }
    }
  }

  /**
   * A `#` inside a delimited group is not seen: replacing what any group
   * holds changes neither whether the skipper succeeds nor where it stops,
   * and leaves the same tokens when that group lies before the first `#`.
   */
  lemma {:induction false} GroupsAreOpaque(input: seq<Token>, i: nat, d: Delimiter, inner: seq<Token>)
    requires i < |input| && input[i].Group?
    ensures var changed := AfterFirstHash(input[i := Group(d, inner)]);
      && changed.Ok? == AfterFirstHash(input).Ok?
      && (changed.Ok? ==> |changed.value| == |AfterFirstHash(input).value|)
      && (changed.Ok? && i < |input| - |changed.value| ==> changed == AfterFirstHash(input))
  {
    var input' := input[i := Group(d, inner)];
    if i > 0 && !IsHash(input[0]) {
      assert input'[1..] == input[1..][i - 1 := Group(d, inner)];
      GroupsAreOpaque(input[1..], i - 1, d, inner);
    } else if i == 0 {
      assert input'[1..] == input[1..];
    }
  }

  /**
   * `skip_past_next_hash`: the cursor loop. `rest` is the position of the
   * cursor; each step takes one token tree and either stops past a `#` or
   * moves on.
   */
  method SkipPastNextHash(input: seq<Token>) returns (r: Result<seq<Token>, ParseError>)
    ensures r.Ok? <==> exists k :: 0 <= k < |input| && IsHash(input[k])
    ensures r.Ok? ==> (exists k :: 0 <= k < |input| && IsHash(input[k])
                         && r.value == input[k + 1..]
                         && forall j :: 0 <= j < k ==> !IsHash(input[j]))
    ensures r.Err? ==> r.error == NoHashFound
    ensures r == AfterFirstHash(input)
  {
    var rest := 0;
    while rest < |input|
      invariant 0 <= rest <= |input|
      invariant forall j :: 0 <= j < rest ==> !IsHash(input[j])
      invariant AfterFirstHash(input) == AfterFirstHash(input[rest..])
    {
      var tt := input[rest];
      var next := rest + 1;
      if IsHash(tt) {
        assert input[rest..][1..] == input[next..];
        return Ok(input[next..]);
      }
      assert input[rest..][1..] == input[next..];
      rest := next;
    }
    return Err(NoHashFound);
  }
}
