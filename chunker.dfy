/**
 * The chunking stage of `cmd_import` (src/lib.rs:59-63): the command file is
 * split on every `}`, segments whose trimmed form is empty are dropped, and
 * every kept segment gets ` }` appended so that it closes the item again.
 */
module Chunker {

  /** The separator handed to `str::split`. */
  const Brace: char := '}'

  /** What `format!("{} }}", s)` appends to a kept segment. */
  const Closer: string := " }"

  /** Rust's `char::is_whitespace`: the Unicode White_Space code points. */
  predicate IsWhitespace(c: char)
  {
    || ('\t' <= c <= '\r')
    || c == ' '
    || c == '\U{0085}'
    || c == '\U{00A0}'
    || c == '\U{1680}'
    || ('\U{2000}' <= c <= '\U{200A}')
    || c == '\U{2028}'
    || c == '\U{2029}'
    || c == '\U{202F}'
    || c == '\U{205F}'
    || c == '\U{3000}'
  }

  /** Every character of `s` is whitespace. */
  predicate Blank(s: string)
  {
    forall i :: 0 <= i < |s| ==> IsWhitespace(s[i])
  }

  /** `str::trim_start`: drops the leading whitespace; the rest starts with none. */
  function TrimStart(s: string): (r: string)
    ensures |r| <= |s|
    ensures r == [] || !IsWhitespace(r[0])
    ensures r != [] ==> r[|r| - 1] == s[|s| - 1]
  {
    if s != [] && IsWhitespace(s[0]) then TrimStart(s[1..]) else s
  }

  /** `str::trim_end`: drops the trailing whitespace; the rest ends with none. */
  function TrimEnd(s: string): (r: string)
    ensures |r| <= |s|
    ensures r == [] || !IsWhitespace(r[|r| - 1])
    ensures r != [] ==> r[0] == s[0]
  {
    if s != [] && IsWhitespace(s[|s| - 1]) then TrimEnd(s[..|s| - 1]) else s
  }

  /** `str::trim`: both ends; what is left neither starts nor ends with whitespace. */
  function Trim(s: string): (r: string)
    ensures |r| <= |s|
    ensures r == [] || (!IsWhitespace(r[0]) && !IsWhitespace(r[|r| - 1]))
  {
    TrimEnd(TrimStart(s))
  }

  /** Trimming the start empties exactly the blank texts, and otherwise stops at a non-whitespace character. */
  lemma {:induction false} TrimStartEmptyIffBlank(s: string)
    ensures TrimStart(s) == [] <==> Blank(s)
    ensures TrimStart(s) != [] ==> !IsWhitespace(TrimStart(s)[0])
  {
    if s != [] && IsWhitespace(s[0]) {
      TrimStartEmptyIffBlank(s[1..]);
      assert Blank(s) <==> Blank(s[1..]) by {
        if Blank(s[1..]) {
          forall i | 0 <= i < |s| ensures IsWhitespace(s[i]) {
            if i > 0 { assert s[i] == s[1..][i - 1]; }
          }
        }
      }
    }
  }

  /** Trimming the end never removes a leading non-whitespace character. */
  lemma {:induction false} TrimEndKeepsHead(s: string)
    requires s != [] && !IsWhitespace(s[0])
    ensures TrimEnd(s) != []
  {
    if IsWhitespace(s[|s| - 1]) {
      TrimEndKeepsHead(s[..|s| - 1]);
    }
  }

  /** `trim_start` removes a leading run of whitespace and nothing else. */
  lemma {:induction false} TrimStartDropsWhitespace(s: string)
    ensures exists k :: 0 <= k <= |s| && TrimStart(s) == s[k..] && Blank(s[..k])
  {
    if s != [] && IsWhitespace(s[0]) {
      TrimStartDropsWhitespace(s[1..]);
      var t := s[1..];
      var k :| 0 <= k <= |t| && TrimStart(t) == t[k..] && Blank(t[..k]);
      assert t[k..] == s[k + 1..];
      var head := s[..k + 1];
      forall j | 0 <= j < |head| ensures IsWhitespace(head[j]) {
        if j > 0 { assert head[j] == t[..k][j - 1]; }
      }
      assert TrimStart(s) == s[k + 1..] && Blank(head);
    } else {
      assert TrimStart(s) == s[0..] && Blank(s[..0]);
    }
  }

  /** `trim_end` removes a trailing run of whitespace and nothing else. */
  lemma {:induction false} TrimEndDropsWhitespace(s: string)
    ensures exists k :: 0 <= k <= |s| && TrimEnd(s) == s[..k] && Blank(s[k..])
  {
    if s != [] && IsWhitespace(s[|s| - 1]) {
      var init := s[..|s| - 1];
      TrimEndDropsWhitespace(init);
      var k :| 0 <= k <= |init| && TrimEnd(init) == init[..k] && Blank(init[k..]);
      assert init[..k] == s[..k];
      assert forall i :: 0 <= i < |s| - k - 1 ==> s[k..][i] == init[k..][i];
      assert TrimEnd(s) == s[..k] && Blank(s[k..]);
    } else {
      assert TrimEnd(s) == s[..|s|] && Blank(s[|s|..]);
    }
  }

  /** A leading blank run of length `i` and then a trailing one after `k` more characters leave `s[i..i + k]`. */
  lemma TrimSlice(s: string, i: nat, k: nat)
    requires i <= |s| && TrimStart(s) == s[i..]
    requires k <= |s| - i && TrimEnd(s[i..]) == s[i..][..k] && Blank(s[i..][k..])
    ensures Trim(s) == s[i..i + k] && Blank(s[i + k..])
  {
    assert s[i..][..k] == s[i..i + k];
    assert s[i..][k..] == s[i + k..];
  }

  /** `trim` removes the surrounding whitespace and nothing else: what is left is a slice between two blank runs. */
  lemma TrimDropsWhitespace(s: string)
    ensures exists i, j :: 0 <= i <= j <= |s| && Trim(s) == s[i..j] && Blank(s[..i]) && Blank(s[j..])
  {
    TrimStartDropsWhitespace(s);
    var i :| 0 <= i <= |s| && TrimStart(s) == s[i..] && Blank(s[..i]);
    TrimEndDropsWhitespace(s[i..]);
    var k :| 0 <= k <= |s[i..]| && TrimEnd(s[i..]) == s[i..][..k] && Blank(s[i..][k..]);
    TrimSlice(s, i, k);
  }

  /** `s.trim().is_empty()` holds exactly when `s` is all whitespace. */
  lemma TrimEmptyIffBlank(s: string)
    ensures Trim(s) == [] <==> Blank(s)
  {
    TrimStartEmptyIffBlank(s);
    if TrimStart(s) != [] {
      TrimEndKeepsHead(TrimStart(s));
    }
  }

  /** `str::split` on `}`: the text between consecutive braces, in order. */
  function Split(s: string): (segs: seq<string>)
    ensures |segs| >= 1
    ensures forall k :: 0 <= k < |segs| ==> Brace !in segs[k]
  {
    if s == [] then
      [[]]
    else
      var rest := Split(s[1..]);
      if s[0] == Brace then [[]] + rest
      else [[s[0]] + rest[0]] + rest[1..]
  }

  /** The inverse of `Split`: the segments joined again with `}`. */
  function Join(segs: seq<string>): string
    requires |segs| >= 1
  {
    if |segs| == 1 then segs[0] else segs[0] + [Brace] + Join(segs[1..])
  }

  /** Splitting loses nothing: joining the segments gives the file back. */
  lemma {:induction false} SplitJoin(s: string)
    ensures Join(Split(s)) == s
  {
    if s != [] {
      var rest := Split(s[1..]);
      SplitJoin(s[1..]);
      if s[0] != Brace && |rest| > 1 {
        assert Join(rest) == rest[0] + [Brace] + Join(rest[1..]);
      }
    }
  }

  /** Brace-free segments joined with `}` split back into the same segments. */
  lemma {:induction false} JoinSplit(segs: seq<string>)
    requires |segs| >= 1
    requires forall k :: 0 <= k < |segs| ==> Brace !in segs[k]
    ensures Split(Join(segs)) == segs
  {
    if |segs| == 1 {
      SplitBraceFree(segs[0]);
    } else {
      JoinSplit(segs[1..]);
      SplitAppend(segs[0], Join(segs[1..]));
      SplitBraceFree(segs[0]);
    }
  }

  /** A text with no brace is one segment. */
  lemma {:induction false} SplitBraceFree(s: string)
    requires Brace !in s
    ensures Split(s) == [s]
  {
    if s != [] {
      SplitBraceFree(s[1..]);
      assert [s[0]] + s[1..] == s;
    }
  }

  /** A brace between two texts separates their segments. */
  lemma {:induction false} SplitAppend(a: string, b: string)
    ensures Split(a + [Brace] + b) == Split(a) + Split(b)
  {
    if a == [] {
      assert a + [Brace] + b == [Brace] + b;
      assert ([Brace] + b)[1..] == b;
    } else {
      assert (a + [Brace] + b)[1..] == a[1..] + [Brace] + b;
      SplitAppend(a[1..], b);
    }
  }

  /** The filter of the pipeline: `!s.trim().is_empty()`. */
  predicate Kept(seg: string)
  {
    Trim(seg) != []
  }

  /** The filter and map of the pipeline: blank segments are dropped, the others closed with ` }`. */
  function Keep(segs: seq<string>): (parts: seq<string>)
    ensures |parts| <= |segs|
    ensures forall k :: 0 <= k < |parts| ==>
      |parts[k]| >= |Closer| && parts[k][|parts[k]| - |Closer|..] == Closer
  {
    if segs == [] then []
    else (if Kept(segs[0]) then [segs[0] + Closer] else []) + Keep(segs[1..])
  }

  /**
   * The parts `cmd_import` hands to the parser, in file order: at most one
   * per segment, each a non-blank, brace-free text followed by ` }`.
   */
  function Chunks(file: string): (parts: seq<string>)
    ensures |parts| <= |Split(file)|
    ensures forall k :: 0 <= k < |parts| ==>
      var n := |parts[k]| - |Closer|;
      n >= 0 && parts[k][n..] == Closer && Brace !in parts[k][..n] && !Blank(parts[k][..n])
  {
    KeptSegmentShapes(Split(file));
    Keep(Split(file))
  }

  lemma {:induction false} KeepAppend(a: seq<string>, b: seq<string>)
    ensures Keep(a + b) == Keep(a) + Keep(b)
  {
    if a == [] {
      assert a + b == b;
    } else {
      assert (a + b)[1..] == a[1..] + b;
      KeepAppend(a[1..], b);
    }
  }

  /** The chunks of two brace-separated texts are the chunks of each, in order. */
  lemma ChunksAppend(a: string, b: string)
    ensures Chunks(a + [Brace] + b) == Chunks(a) + Chunks(b)
  {
    SplitAppend(a, b);
    KeepAppend(Split(a), Split(b));
  }

  /** A brace-free text gives one chunk, itself closed with ` }`, unless it is blank. */
  lemma ChunksOfSegment(s: string)
    requires Brace !in s
    ensures Chunks(s) == if Blank(s) then [] else [s + Closer]
  {
    SplitBraceFree(s);
    TrimEmptyIffBlank(s);
    assert [s][1..] == [];
    assert Keep([s]) == (if Kept(s) then [s + Closer] else []) + Keep([]);
  }

  /**
   * The kept segments in order: the k-th chunk is the segment at an
   * increasing position of the split, followed by ` }`, and that segment is
   * not blank; a segment at no such position is blank.
   */
  function KeptPositions(segs: seq<string>): (ps: seq<nat>)
    ensures forall k :: 0 <= k < |ps| ==> ps[k] < |segs|
  {
    if segs == [] then []
    else
      var init := KeptPositions(segs[..|segs| - 1]);
      init + (if Kept(segs[|segs| - 1]) then [|segs| - 1] else [])
  }

  /** The kept positions increase, and a position is kept exactly when its segment is not blank. */
  lemma {:induction false} KeptPositionsSpec(segs: seq<string>)
    ensures forall k, l :: 0 <= k < l < |KeptPositions(segs)| ==>
      KeptPositions(segs)[k] < KeptPositions(segs)[l]
    ensures forall i :: 0 <= i < |segs| ==>
      (i in KeptPositions(segs) <==> !Blank(segs[i]))
  {
    if segs != [] {
      var init := segs[..|segs| - 1];
      var last := segs[|segs| - 1];
      KeptPositionsSpec(init);
      TrimEmptyIffBlank(last);
      forall i | 0 <= i < |init|
        ensures i in KeptPositions(segs) <==> !Blank(segs[i])
      {
        assert segs[i] == init[i];
      }
    }
  }

  /** The k-th kept part is the segment at the k-th kept position, followed by ` }`. */
  lemma {:induction false} KeepAtKeptPositions(segs: seq<string>)
    ensures |Keep(segs)| == |KeptPositions(segs)|
    ensures forall k :: 0 <= k < |Keep(segs)| ==>
      Keep(segs)[k] == segs[KeptPositions(segs)[k]] + Closer
  {
    if segs != [] {
      var init := segs[..|segs| - 1];
      var last := segs[|segs| - 1];
      KeepAtKeptPositions(init);
      assert segs == init + [last];
      KeepAppend(init, [last]);
      assert Keep([last]) == (if Kept(last) then [last + Closer] else []);
    }
  }

  lemma KeepAtPositions(segs: seq<string>)
    ensures |Keep(segs)| == |KeptPositions(segs)|
    ensures forall k :: 0 <= k < |Keep(segs)| ==>
      Keep(segs)[k] == segs[KeptPositions(segs)[k]] + Closer
    ensures forall k, l :: 0 <= k < l < |KeptPositions(segs)| ==>
      KeptPositions(segs)[k] < KeptPositions(segs)[l]
    ensures forall i :: 0 <= i < |segs| ==>
      (i in KeptPositions(segs) <==> !Blank(segs[i]))
  {
    KeepAtKeptPositions(segs);
    KeptPositionsSpec(segs);
  }

  /** Every kept part is a brace-free, non-blank segment followed by ` }`. */
  lemma KeptSegmentShapes(segs: seq<string>)
    requires forall k :: 0 <= k < |segs| ==> Brace !in segs[k]
    ensures forall k :: 0 <= k < |Keep(segs)| ==>
      var n := |Keep(segs)[k]| - |Closer|;
      n >= 0 && Brace !in Keep(segs)[k][..n] && !Blank(Keep(segs)[k][..n])
  {
    KeepAtPositions(segs);
    var ps := KeptPositions(segs);
    forall k | 0 <= k < |Keep(segs)|
      ensures var n := |Keep(segs)[k]| - |Closer|;
        n >= 0 && Brace !in Keep(segs)[k][..n] && !Blank(Keep(segs)[k][..n])
    {
      var seg := segs[ps[k]];
      assert ps[k] in ps;
      assert (seg + Closer)[..|seg|] == seg;
    }
  }

  /** The chunker keeps exactly the non-blank segments, in file order, each followed by ` }`. */
  lemma ChunksAreKeptSegments(file: string)
    ensures var ps := KeptPositions(Split(file));
      && |Chunks(file)| == |ps|
      && (forall k :: 0 <= k < |ps| ==> Chunks(file)[k] == Split(file)[ps[k]] + Closer)
      && (forall k, l :: 0 <= k < l < |ps| ==> ps[k] < ps[l])
      && (forall i :: 0 <= i < |Split(file)| ==> (i in ps <==> !Blank(Split(file)[i])))
  {
    KeepAtPositions(Split(file));
  }
}
