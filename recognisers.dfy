/**
 * What the declaration parser learns from its regular expressions.
 *
 * The regex engine itself is not modelled. The block-comment pattern and the
 * `FUNCTION()` pattern are simple enough to be recognised by hand, and both
 * are deterministic (no alternative can backtrack into a different match), so
 * the recognisers below give the same leftmost, non-overlapping matches that
 * `std::sregex_iterator` enumerates. The class-header and `PROPERTY(...)`
 * patterns are not: their match lists are inputs, supplied by `Matchers`.
 */
module Recognisers {
  import opened Text
  import opened Records

  // ---------------------------------------------------------------------
  // Matches of the patterns that are not recognised by hand
  // ---------------------------------------------------------------------

  /** Capture groups 1 and 2 of the class-header pattern (group 2 empty when absent). */
  datatype ClassMatch = ClassMatch(className: string, baseClassName: string)

  /** Start offset and capture groups 1 to 3 of the `PROPERTY(...)` pattern. */
  datatype PropertyMatch = PropertyMatch(position: nat, arguments: string, typeName: string, name: string)

  /** The match lists of the two patterns, as functions of the searched text. */
  datatype Matchers = Matchers(
    classHeaders: string -> seq<ClassMatch>,
    properties: string -> seq<PropertyMatch>)

  // ---------------------------------------------------------------------
  // Block comments: /\*(?:[^*]|[\r\n]|(\*+([^*/]|[\r\n])))*\*+/
  // ---------------------------------------------------------------------

  /** A matched block comment as the half-open range [start, end). */
  datatype Span = Span(start: nat, end: nat)

  // The first closer `*/` at or after `k`.
  function CloseFrom(s: string, k: nat): (r: Option<nat>)
    ensures r.Some? ==> k <= r.value && OccursAt(s, "*/", r.value)
    ensures r.Some? ==> forall j :: k <= j < r.value ==> !OccursAt(s, "*/", j)
    ensures r.None? ==> forall j :: k <= j ==> !OccursAt(s, "*/", j)
    decreases |s| - k
  {
    if k + 2 > |s| then None
    else if OccursAt(s, "*/", k) then Some(k)
    else CloseFrom(s, k + 1)
  }

  // A well-formed comment: opens with `/*` and runs to the first `*/` after
  // the opener.
  predicate IsBlockComment(s: string, sp: Span) {
    && sp.start + 4 <= sp.end <= |s|
    && OccursAt(s, "/*", sp.start)
    && OccursAt(s, "*/", sp.end - 2)
    && forall j :: sp.start + 2 <= j < sp.end - 2 ==> !OccursAt(s, "*/", j)
  }

  // The comment matches found by searching from `i`. Every match opens with
  // `/*` and ends at the first `*/` behind its opener (the pattern's body
  // cannot step over a star followed by a slash); an opener with no closer
  // is no match, and the search goes on one character later.
  function BlockCommentsFrom(s: string, i: nat): (spans: seq<Span>)
    ensures forall k :: 0 <= k < |spans| ==> i <= spans[k].start && IsBlockComment(s, spans[k])
    ensures forall k, l :: 0 <= k < l < |spans| ==> spans[k].end <= spans[l].start
    decreases |s| - i
  {
    if i + 2 > |s| then []
    else if OccursAt(s, "/*", i) then
      match CloseFrom(s, i + 2)
      case Some(j) => [Span(i, j + 2)] + BlockCommentsFrom(s, j + 2)
      case None => BlockCommentsFrom(s, i + 1)
    else BlockCommentsFrom(s, i + 1)
  }

  /** An opener at `i` with a closer somewhere behind it: a comment starts here. */
  predicate OpensComment(s: string, i: nat) {
    OccursAt(s, "/*", i) && CloseFrom(s, i + 2).Some?
  }

  /** No span of the list has `p` strictly inside it. */
  predicate NoneStraddles(found: seq<Span>, p: nat) {
    forall sp :: sp in found ==> !(sp.start < p < sp.end)
  }

  /** Some span of the list starts at `p`. */
  predicate SomeStartsAt(found: seq<Span>, p: nat) {
    exists sp :: sp in found && sp.start == p
  }

  /**
   * Nothing is missed: an opener that has a closer behind it and that no
   * earlier comment swallows starts one of the comments found.
   */
  lemma {:induction false} BlockCommentsComplete(s: string, i: nat, p: nat)
    requires i <= p && OpensComment(s, p)
    requires NoneStraddles(BlockCommentsFrom(s, i), p)
    ensures SomeStartsAt(BlockCommentsFrom(s, i), p)
    decreases |s| - i, 1
  {
    BlockCommentsStep(s, i, p);
    if i == p {
      FirstStarts(BlockCommentsFrom(s, i), p);
    } else if OpensComment(s, i) {
      BlockCommentsCompleteAfter(s, i, p);
    } else {
      BlockCommentsComplete(s, i + 1, p);
    }
  }

  /** The comment found at `i` ends at or before `p`, so the search goes on behind it. */
  lemma {:induction false} BlockCommentsCompleteAfter(s: string, i: nat, p: nat)
    requires i < p && OpensComment(s, i) && OpensComment(s, p)
    requires NoneStraddles(BlockCommentsFrom(s, i), p)
    ensures SomeStartsAt(BlockCommentsFrom(s, i), p)
    decreases |s| - i, 0
  {
    BlockCommentsStep(s, i, p);
    var j := CloseFrom(s, i + 2).value;
    ConsCovers(BlockCommentsFrom(s, i), Span(i, j + 2), BlockCommentsFrom(s, j + 2), p);
    BlockCommentsComplete(s, j + 2, p);
  }

  lemma FirstStarts(found: seq<Span>, p: nat)
    requires |found| > 0 && found[0].start == p
    ensures SomeStartsAt(found, p)
  {
    assert found[0] in found;
  }

  /** What holds of a list of spans holds of its tail, and a span of the tail is one of the list. */
  lemma ConsCovers(found: seq<Span>, first: Span, rest: seq<Span>, p: nat)
    requires found == [first] + rest && NoneStraddles(found, p)
    ensures !(first.start < p < first.end) && NoneStraddles(rest, p)
    ensures SomeStartsAt(rest, p) ==> SomeStartsAt(found, p)
  {
    assert first in found;
    forall sp | sp in rest ensures sp in found {
    }
  }

  /** One step of the search, for an offset with room for an opener. */
  lemma BlockCommentsStep(s: string, i: nat, p: nat)
    requires i <= p && OpensComment(s, p)
    ensures i + 2 <= |s|
    ensures BlockCommentsFrom(s, i) ==
      if OpensComment(s, i) then
        [Span(i, CloseFrom(s, i + 2).value + 2)] + BlockCommentsFrom(s, CloseFrom(s, i + 2).value + 2)
      else BlockCommentsFrom(s, i + 1)
  {
  }

  function BlockComments(s: string): seq<Span> {
    BlockCommentsFrom(s, 0)
  }

  // ---------------------------------------------------------------------
  // Methods: FUNCTION\(\)(?:\;|)\s*void\s*(\w*)\(\s*\)
  // ---------------------------------------------------------------------

  /** A `FUNCTION()` match: start offset, length and capture group 1. */
  datatype MethodMatch = MethodMatch(position: nat, length: nat, name: string)

  function SkipSpaces(s: string, i: nat): (r: nat)
    requires i <= |s|
    ensures i <= r <= |s|
    ensures forall j :: i <= j < r ==> IsSpace(s[j])
    ensures r == |s| || !IsSpace(s[r])
    decreases |s| - i
  {
    if i < |s| && IsSpace(s[i]) then SkipSpaces(s, i + 1) else i
  }

  function SkipWord(s: string, i: nat): (r: nat)
    requires i <= |s|
    ensures i <= r <= |s|
    ensures forall j :: i <= j < r ==> IsWord(s[j])
    ensures r == |s| || !IsWord(s[r])
    decreases |s| - i
  {
    if i < |s| && IsWord(s[i]) then SkipWord(s, i + 1) else i
  }

  /**
   * The match of the method pattern that starts at `i`, if any. Each greedy
   * part stops at a character the next part must see and cannot accept
   * itself, so the match at a position is unique.
   */
  function FunctionMatchAt(s: string, i: nat): (r: Option<MethodMatch>)
    requires i <= |s|
    ensures r.Some? ==> r.value.position == i && i + 16 <= i + r.value.length <= |s|
    ensures r.Some? ==> OccursAt(s, "FUNCTION()", i) && s[i + r.value.length - 1] == ')'
    ensures r.Some? ==> forall j :: 0 <= j < |r.value.name| ==> IsWord(r.value.name[j])
  {
    if !OccursAt(s, "FUNCTION()", i) then None
    else
      var afterMarker := i + 10;
      var afterSemicolon := if afterMarker < |s| && s[afterMarker] == ';' then afterMarker + 1 else afterMarker;
      VoidMethodAt(s, i, SkipSpaces(s, afterSemicolon))
  }

  // The rest of the pattern, `void\s*(\w*)\(\s*\)`, from `atVoid` on.
  function VoidMethodAt(s: string, i: nat, atVoid: nat): (r: Option<MethodMatch>)
    requires i + 10 <= atVoid <= |s|
    ensures r.Some? ==> r.value.position == i && atVoid + 6 <= i + r.value.length <= |s|
    ensures r.Some? ==> s[i + r.value.length - 1] == ')'
    ensures r.Some? ==> forall j :: 0 <= j < |r.value.name| ==> IsWord(r.value.name[j])
  {
    if !OccursAt(s, "void", atVoid) then None
    else
      var nameStart := SkipSpaces(s, atVoid + 4);
      var nameEnd := SkipWord(s, nameStart);
      if !(nameEnd < |s| && s[nameEnd] == '(') then None
      else
        var close := SkipSpaces(s, nameEnd + 1);
        if !(close < |s| && s[close] == ')') then None
        else Some(MethodMatch(i, close + 1 - i, s[nameStart..nameEnd]))
  }

  /** The match of the pattern at every start offset of `s`. */
  function MatchTable(s: string): (table: seq<Option<MethodMatch>>)
    ensures |table| == |s|
  {
    seq(|s|, k requires 0 <= k < |s| => FunctionMatchAt(s, k))
  }

  /** Each entry is a match starting at its own offset and ending inside the text. */
  predicate TableWellFormed(table: seq<Option<MethodMatch>>) {
    forall k :: 0 <= k < |table| && table[k].Some? ==>
      table[k].value.position == k && 1 <= table[k].value.length && k + table[k].value.length <= |table|
  }

  lemma MatchTableWellFormed(s: string)
    ensures TableWellFormed(MatchTable(s))
  {
  }

  /**
   * The search `sregex_iterator` performs: try each offset in turn; after a
   * match go on at its end, otherwise one character later.
   */
  function LeftmostMatches(table: seq<Option<MethodMatch>>, i: nat): seq<MethodMatch>
    requires i <= |table| && TableWellFormed(table)
    decreases |table| - i
  {
    if i == |table| then []
    else
      match table[i]
      case Some(m) => [m] + LeftmostMatches(table, i + m.length)
      case None => LeftmostMatches(table, i + 1)
  }

  /** Every enumerated match is the table's entry at its own offset, at or after `i`. */
  lemma {:induction false} LeftmostMatchesSound(table: seq<Option<MethodMatch>>, i: nat)
    requires i <= |table| && TableWellFormed(table)
    ensures forall x :: x in LeftmostMatches(table, i) ==>
      i <= x.position < |table| && table[x.position] == Some(x)
    decreases |table| - i
  {
    if i < |table| {
      match table[i]
      case Some(m) => LeftmostMatchesSound(table, i + m.length);
      case None => LeftmostMatchesSound(table, i + 1);
    }
  }

  /**
   * Nothing is missed: a match at an offset that no earlier enumerated match
   * covers is enumerated itself.
   */
  lemma {:induction false} LeftmostMatchesComplete(table: seq<Option<MethodMatch>>, i: nat, p: nat)
    requires i <= p < |table| && TableWellFormed(table) && table[p].Some?
    requires forall x :: x in LeftmostMatches(table, i) ==> !(x.position < p < x.position + x.length)
    ensures table[p].value in LeftmostMatches(table, i)
    decreases |table| - i
  {
    if i < p {
      match table[i]
      case Some(m) =>
        assert m in LeftmostMatches(table, i);
        LeftmostMatchesComplete(table, i + m.length, p);
      case None =>
        LeftmostMatchesComplete(table, i + 1, p);
    }
  }

  /** Each match ends at or before the next one starts. */
  predicate Disjoint(ms: seq<MethodMatch>) {
    forall k, l :: 0 <= k < l < |ms| ==> ms[k].position + ms[k].length <= ms[l].position
  }

  lemma DisjointCons(m: MethodMatch, rest: seq<MethodMatch>)
    requires Disjoint(rest)
    requires forall x :: x in rest ==> m.position + m.length <= x.position
    ensures Disjoint([m] + rest)
  {
    var ms := [m] + rest;
    forall k, l | 0 <= k < l < |ms| ensures ms[k].position + ms[k].length <= ms[l].position {
      assert ms[l] == rest[l - 1];
      if k > 0 {
        assert ms[k] == rest[k - 1];
      }
    }
  }

  /** The enumerated matches are in order and do not overlap. */
  lemma {:induction false} LeftmostMatchesDisjoint(table: seq<Option<MethodMatch>>, i: nat)
    requires i <= |table| && TableWellFormed(table)
    ensures Disjoint(LeftmostMatches(table, i))
    decreases |table| - i
  {
    if i < |table| {
      match table[i]
      case Some(m) =>
        LeftmostMatchesDisjoint(table, i + m.length);
        LeftmostMatchesSound(table, i + m.length);
        DisjointCons(m, LeftmostMatches(table, i + m.length));
      case None =>
        LeftmostMatchesDisjoint(table, i + 1);
    }
  }

  /** The leftmost, non-overlapping method matches in `s`. */
  function FunctionMatches(s: string): seq<MethodMatch> {
    MatchTableWellFormed(s);
    LeftmostMatches(MatchTable(s), 0)
  }

  /**
   * Every enumerated match is the pattern's match at its own position, and
   * the matches come in text order without overlapping.
   */
  lemma FunctionMatchesSound(s: string)
    ensures forall x :: x in FunctionMatches(s) ==> x.position < |s| && FunctionMatchAt(s, x.position) == Some(x)
    ensures Disjoint(FunctionMatches(s))
  {
    MatchTableWellFormed(s);
    LeftmostMatchesSound(MatchTable(s), 0);
    LeftmostMatchesDisjoint(MatchTable(s), 0);
  }

  /**
   * Every match of the pattern that starts outside the matches enumerated
   * before it is enumerated: with `FunctionMatchesSound`, the matches are
   * exactly the leftmost, non-overlapping ones.
   */
  lemma FunctionMatchesComplete(s: string, p: nat)
    requires p < |s| && FunctionMatchAt(s, p).Some?
    requires forall x :: x in FunctionMatches(s) ==> !(x.position < p < x.position + x.length)
    ensures FunctionMatchAt(s, p).value in FunctionMatches(s)
  {
    MatchTableWellFormed(s);
    LeftmostMatchesComplete(MatchTable(s), 0, p);
  }
}
