/**
 * Character classes, decimal rendering and comma splitting shared by the
 * scanner, the declaration parser and both emitters. The character classes
 * are those of the "C" locale, which is what `std::isalnum`, `std::toupper`
 * and the regex classes `\s` and `\w` use for plain `char` input.
 */
module Text {

  datatype Option<+T> = None | Some(value: T)

  /** `\s` of the ECMAScript grammar restricted to the "C" locale. */
  predicate IsSpace(c: char) {
    c == ' ' || c == '\t' || c == '\n' || c == '\r' || c == '\U{B}' || c == '\U{C}'
  }

  predicate IsDigit(c: char) { '0' <= c <= '9' }

  predicate IsUpper(c: char) { 'A' <= c <= 'Z' }

  predicate IsLower(c: char) { 'a' <= c <= 'z' }

  /** `std::isalnum` in the "C" locale. */
  predicate IsAlnum(c: char) { IsDigit(c) || IsUpper(c) || IsLower(c) }

  /** `\w`: letters, digits and the underscore. */
  predicate IsWord(c: char) { IsAlnum(c) || c == '_' }

  /** `std::toupper` in the "C" locale: only `a`..`z` change. */
  function ToUpper(c: char): (u: char)
    ensures IsLower(c) ==> IsUpper(u) && u as int == c as int - 32
    ensures !IsLower(c) ==> u == c
  {
    if IsLower(c) then (c as int - 32) as char else c
  }

  /** True when `sub` occurs in `s` starting at index `k`. */
  predicate OccursAt(s: string, sub: string, k: int) {
    0 <= k && k + |sub| <= |s| && s[k..k + |sub|] == sub
  }

  predicate StartsWith(s: string, prefix: string) {
    |prefix| <= |s| && s[..|prefix|] == prefix
  }

  predicate EndsWith(s: string, suffix: string) {
    |suffix| <= |s| && s[|s| - |suffix|..] == suffix
  }

  // ---------------------------------------------------------------------
  // Decimal rendering (`%d` of string_format, `std::to_string`)
  // ---------------------------------------------------------------------

  function DigitChar(d: nat): (c: char)
    requires d < 10
    ensures IsDigit(c) && c as int - '0' as int == d
  {
    ('0' as int + d) as char
  }

  /** The shortest decimal numeral of `n`, as printed by `%d` or `std::to_string`. */
  function Decimal(n: nat): (s: string)
    ensures 1 <= |s|
    ensures forall i :: 0 <= i < |s| ==> IsDigit(s[i])
    ensures (|s| > 1) == (n >= 10)
    ensures |s| > 1 ==> s[0] != '0'
  {
    if n < 10 then [DigitChar(n)] else Decimal(n / 10) + [DigitChar(n % 10)]
  }

  /** The value of a string of decimal digits. */
  function DecimalValue(s: string): nat
    requires forall i :: 0 <= i < |s| ==> IsDigit(s[i])
  {
    if s == [] then 0
    else
      assert IsDigit(s[|s| - 1]);
      DecimalValue(s[..|s| - 1]) * 10 + (s[|s| - 1] as int - '0' as int)
  }

  /** Reading a rendered numeral back gives the number: `Decimal` is injective. */
  lemma {:induction false} DecimalRoundTrip(n: nat)
    ensures DecimalValue(Decimal(n)) == n
  {
    if n >= 10 {
      DecimalRoundTrip(n / 10);
      var s := Decimal(n);
      assert s[..|s| - 1] == Decimal(n / 10);
    }
  }

  lemma DecimalInjective(m: nat, n: nat)
    requires Decimal(m) == Decimal(n)
    ensures m == n
  {
    DecimalRoundTrip(m);
    DecimalRoundTrip(n);
  }

  // ---------------------------------------------------------------------
  // Splitting on a delimiter, and its inverse
  // ---------------------------------------------------------------------

  /**
   * All the segments of `s` between occurrences of `d`, empty ones included;
   * there is always one more segment than there are delimiters.
   */
  function SplitOn(s: string, d: char): (parts: seq<string>)
    ensures |parts| >= 1
  {
    if s == [] then [""]
    else
      var rest := SplitOn(s[1..], d);
      if s[0] == d then [""] + rest
      else [[s[0]] + rest[0]] + rest[1..]
  }

  /** The segments glued back together, with `d` between neighbours. */
  function JoinWith(parts: seq<string>, d: char): string
    requires |parts| >= 1
  {
    if |parts| == 1 then parts[0]
    else parts[0] + [d] + JoinWith(parts[1..], d)
  }

  lemma {:induction false} JoinWithAppendEmpty(parts: seq<string>, d: char)
    requires |parts| >= 1
    ensures JoinWith(parts + [""], d) == JoinWith(parts, d) + [d]
  {
    if |parts| > 1 {
      JoinWithAppendEmpty(parts[1..], d);
      assert (parts + [""])[1..] == parts[1..] + [""];
    }
  }

  /** Splitting loses nothing: joining the segments again restores the input. */
  lemma {:induction false} SplitJoin(s: string, d: char)
    ensures JoinWith(SplitOn(s, d), d) == s
  {
    if s != [] {
      SplitJoin(s[1..], d);
      var rest := SplitOn(s[1..], d);
      if s[0] == d {
        assert ([""] + rest)[1..] == rest;
      } else {
        var r := [[s[0]] + rest[0]] + rest[1..];
        if |rest| > 1 {
          assert r[1..] == rest[1..];
        }
      }
      assert [s[0]] + s[1..] == s;
    }
  }

  /** No segment contains the delimiter. */
  lemma {:induction false} SplitOnSegments(s: string, d: char)
    ensures forall i :: 0 <= i < |SplitOn(s, d)| ==> d !in SplitOn(s, d)[i]
  {
    if s != [] {
      SplitOnSegments(s[1..], d);
      var rest := SplitOn(s[1..], d);
      if s[0] != d {
        assert d !in rest[0];
        assert d !in [s[0]] + rest[0];
      }
    }
  }

  /** The last segment is empty exactly when the text is empty or ends with `d`. */
  lemma {:induction false} SplitOnLastEmpty(s: string, d: char)
    ensures var parts := SplitOn(s, d);
      parts[|parts| - 1] == "" <==> s == [] || s[|s| - 1] == d
  {
    if s != [] {
      SplitOnLastEmpty(s[1..], d);
    }
  }

  /** A delimiter-free text is a single segment. */
  lemma {:induction false} SplitOnWhole(x: string, d: char)
    requires d !in x
    ensures SplitOn(x, d) == [x]
  {
    if x != [] {
      SplitOnWhole(x[1..], d);
      assert [x[0]] + x[1..] == x;
    }
  }

  /** A delimiter-free prefix followed by the delimiter is the first segment. */
  lemma {:induction false} SplitOnAfter(x: string, d: char, y: string)
    requires d !in x
    ensures SplitOn(x + [d] + y, d) == [x] + SplitOn(y, d)
  {
    if x == [] {
      assert x + [d] + y == [d] + y;
      assert ([d] + y)[1..] == y;
    } else {
      SplitOnAfter(x[1..], d, y);
      assert (x + [d] + y)[1..] == x[1..] + [d] + y;
      assert [x[0]] + x[1..] == x;
    }
  }

  // ---------------------------------------------------------------------
  // std::getline with a delimiter
  // ---------------------------------------------------------------------

  /** The first index at or after `from` holding `c`. */
  function FindChar(s: string, c: char, from: nat): (r: Option<nat>)
    ensures r.Some? ==> from <= r.value < |s| && s[r.value] == c
    ensures r.Some? ==> forall j :: from <= j < r.value ==> s[j] != c
    ensures r.None? ==> forall j :: from <= j < |s| ==> s[j] != c
    decreases |s| - from
  {
    if from >= |s| then None
    else if s[from] == c then Some(from)
    else FindChar(s, c, from + 1)
  }

  /**
   * The tokens `std::getline(in, token, d)` delivers when reading from
   * offset `pos`: a segment per delimiter, then the rest of the input if
   * anything is left. Reading at the end extracts nothing and stops the loop.
   */
  function GetlineSegments(s: string, d: char, pos: nat): seq<string>
    decreases |s| - pos
  {
    if pos >= |s| then []
    else match FindChar(s, d, pos)
      case Some(k) => [s[pos..k]] + GetlineSegments(s, d, k + 1)
      case None => [s[pos..]]
  }

  /** One `getline` call at `pos`: the token it extracts and where reading resumes. */
  function GetlineNext(s: string, d: char, pos: nat): (r: (string, nat))
    requires pos < |s|
    ensures pos < r.1 <= |s|
    ensures GetlineSegments(s, d, pos) == [r.0] + GetlineSegments(s, d, r.1)
  {
    match FindChar(s, d, pos)
    case Some(k) => (s[pos..k], k + 1)
    case None => (s[pos..], |s|)
  }

  /** No token holds the delimiter. */
  lemma {:induction false} GetlineSegmentsNoDelimiter(s: string, d: char, pos: nat)
    ensures forall x :: x in GetlineSegments(s, d, pos) ==> d !in x
    decreases |s| - pos
  {
    if pos < |s| {
      match FindChar(s, d, pos)
      case Some(k) =>
        GetlineSegmentsNoDelimiter(s, d, k + 1);
        assert forall j :: 0 <= j < k - pos ==> s[pos..k][j] == s[pos + j];
      case None =>
        assert forall j :: 0 <= j < |s| - pos ==> s[pos..][j] == s[pos + j];
    }
  }

  function DropTrailingEmpty(parts: seq<string>): seq<string> {
    if parts != [] && parts[|parts| - 1] == "" then parts[..|parts| - 1] else parts
  }

  lemma DropTrailingEmptyCons(x: string, rest: seq<string>)
    requires |rest| >= 1
    ensures DropTrailingEmpty([x] + rest) == [x] + DropTrailingEmpty(rest)
  {
    if rest[|rest| - 1] == "" {
      assert ([x] + rest)[..|rest|] == [x] + rest[..|rest| - 1];
    }
  }

  /**
   * The getline loop yields the comma-separated segments of the argument
   * text, except that an empty last segment (empty input, trailing comma) is
   * not produced.
   */
  lemma {:induction false} GetlineSegmentsSplit(s: string, d: char, pos: nat)
    requires pos <= |s|
    ensures GetlineSegments(s, d, pos) == DropTrailingEmpty(SplitOn(s[pos..], d))
    decreases |s| - pos
  {
    if pos < |s| {
      match FindChar(s, d, pos)
      case Some(k) =>
        GetlineSegmentsSplit(s, d, k + 1);
        GetlineSegmentsDelimiter(s, d, pos, k);
      case None =>
        GetlineSegmentsLast(s, d, pos);
    }
  }

  lemma GetlineSegmentsLast(s: string, d: char, pos: nat)
    requires pos < |s| && FindChar(s, d, pos).None?
    ensures GetlineSegments(s, d, pos) == DropTrailingEmpty(SplitOn(s[pos..], d))
  {
    assert forall j :: 0 <= j < |s| - pos ==> s[pos..][j] == s[pos + j];
    SplitOnWhole(s[pos..], d);
  }

  lemma GetlineSegmentsDelimiter(s: string, d: char, pos: nat, k: nat)
    requires pos <= k < |s| && FindChar(s, d, pos) == Some(k)
    requires GetlineSegments(s, d, k + 1) == DropTrailingEmpty(SplitOn(s[k + 1..], d))
    ensures GetlineSegments(s, d, pos) == DropTrailingEmpty(SplitOn(s[pos..], d))
  {
    var x, y := s[pos..k], s[k + 1..];
    assert GetlineSegments(s, d, pos) == [x] + GetlineSegments(s, d, k + 1);
    SplitAtDelimiter(s, d, pos, k);
    SplitOnAfter(x, d, y);
    DropTrailingEmptyCons(x, SplitOn(y, d));
  }

  lemma SplitAtDelimiter(s: string, d: char, pos: nat, k: nat)
    requires pos <= k < |s| && FindChar(s, d, pos) == Some(k)
    ensures s[pos..] == s[pos..k] + [d] + s[k + 1..]
    ensures d !in s[pos..k]
  {
    assert s[pos..] == s[pos..k] + s[k..];
    assert s[k..] == [d] + s[k + 1..];
    assert forall j :: 0 <= j < k - pos ==> s[pos..k][j] == s[pos + j];
  }

  /**
   * Nothing of the input is lost or reordered: the segments, joined with
   * the delimiter, give the input back, less a trailing delimiter.
   */
  lemma GetlineRoundTrip(s: string, d: char)
    requires s != []
    ensures var segments := GetlineSegments(s, d, 0);
      segments != [] &&
      JoinWith(segments, d) + (if s[|s| - 1] == d then [d] else []) == s
  {
    var parts := SplitOn(s, d);
    assert GetlineSegments(s, d, 0) == DropTrailingEmpty(parts) by {
      GetlineSegmentsSplit(s, d, 0);
      assert s[0..] == s;
    }
    assert JoinWith(parts, d) == s by {
      SplitJoin(s, d);
    }
    SplitOnLastEmpty(s, d);
    if s[|s| - 1] == d {
      JoinDroppingEmptyLast(parts, d);
    }
  }

  lemma JoinDroppingEmptyLast(parts: seq<string>, d: char)
    requires |parts| >= 1 && parts[|parts| - 1] == "" && JoinWith(parts, d) != ""
    ensures DropTrailingEmpty(parts) != []
    ensures JoinWith(DropTrailingEmpty(parts), d) + [d] == JoinWith(parts, d)
  {
    var init := parts[..|parts| - 1];
    assert parts == init + [""];
    JoinWithAppendEmpty(init, d);
  }


  // ---------------------------------------------------------------------
  // Concatenation of pieces
  // ---------------------------------------------------------------------

  /** The pieces written one after another. */
  function Concat(parts: seq<string>): string {
    if parts == [] then "" else Concat(parts[..|parts| - 1]) + parts[|parts| - 1]
  }

  lemma AppendAssoc<T>(a: seq<T>, b: seq<T>, c: seq<T>)
    ensures a + (b + c) == (a + b) + c
  {
  }

  lemma AppendThree<T>(w: seq<T>, a: seq<T>, b: seq<T>, c: seq<T>)
    ensures w + a + b + c == w + (a + b + c)
  {
  }

  lemma AppendFive<T>(w: seq<T>, a: seq<T>, b: seq<T>, c: seq<T>, d: seq<T>, e: seq<T>)
    ensures w + a + b + c + d + e == w + (a + b + c + d + e)
  {
  }

  /** Three texts written one after another: where each of them lands. */
  lemma ThreeParts(a: string, b: string, c: string)
    ensures StartsWith(a + b + c, a)
    ensures OccursAt(a + b + c, b, |a|)
    ensures OccursAt(a + b + c, c, |a| + |b|)
  {
    var s := a + b + c;
    assert s[..|a|] == a;
    assert s[|a|..|a| + |b|] == b;
    assert s[|a| + |b|..|a| + |b| + |c|] == c;
  }

  /** A suffix occurs where it starts. */
  lemma EndsWithOccurs(s: string, t: string)
    requires EndsWith(s, t)
    ensures OccursAt(s, t, |s| - |t|)
  {
    assert s[|s| - |t|..|s|] == s[|s| - |t|..];
  }

  lemma ConcatSnoc(parts: seq<string>, x: string)
    ensures Concat(parts + [x]) == Concat(parts) + x
  {
    assert (parts + [x])[..|parts|] == parts;
  }

  lemma {:induction false} ConcatAppend(xs: seq<string>, ys: seq<string>)
    ensures Concat(xs + ys) == Concat(xs) + Concat(ys)
    decreases |ys|
  {
    if ys == [] {
      assert xs + ys == xs;
    } else {
      var init := ys[..|ys| - 1];
      var last := ys[|ys| - 1];
      ConcatAppend(xs, init);
      assert xs + ys == (xs + init) + [last];
      ConcatSnoc(xs + init, last);
      ConcatSnoc(init, last);
      assert ys == init + [last];
      AppendAssoc(Concat(xs), Concat(init), last);
    }
  }

  /** Piece `k` sits right after the pieces before it. */
  lemma ConcatOccurs(parts: seq<string>, k: nat)
    requires k < |parts|
    ensures OccursAt(Concat(parts), parts[k], |Concat(parts[..k])|)
  {
    assert parts == parts[..k] + [parts[k]] + parts[k + 1..];
    ConcatAppend(parts[..k] + [parts[k]], parts[k + 1..]);
    ConcatSnoc(parts[..k], parts[k]);
    var a := Concat(parts[..k]);
    var s := Concat(parts);
    assert s == a + parts[k] + Concat(parts[k + 1..]);
    assert s[|a|..|a| + |parts[k]|] == parts[k];
  }

  /** The first piece begins the text and the last piece ends it. */
  lemma ConcatEnds(parts: seq<string>)
    requires parts != []
    ensures StartsWith(Concat(parts), parts[0])
    ensures EndsWith(Concat(parts), parts[|parts| - 1])
  {
    ConcatOccurs(parts, 0);
    assert parts[..0] == [];
    var init := parts[..|parts| - 1];
    var last := parts[|parts| - 1];
    var s := Concat(parts);
    assert s == Concat(init) + last;
    assert s[|s| - |last|..] == last;
  }

  /** Concatenating a longer prefix of the pieces never gives a shorter text. */
  lemma {:induction false} ConcatPrefixLength(parts: seq<string>, k: nat, l: nat)
    requires k <= l <= |parts|
    ensures |Concat(parts[..k])| + (if k < l then |parts[k]| else 0) <= |Concat(parts[..l])|
    decreases l - k
  {
    if k < l {
      ConcatPrefixLength(parts, k + 1, l);
      assert parts[..k + 1] == parts[..k] + [parts[k]];
      ConcatSnoc(parts[..k], parts[k]);
    }
  }
}
