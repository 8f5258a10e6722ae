/**
 * The line scanner of `ParseHeaderFile` (src/HeaderTool.cpp). It reads the
 * header one line at a time, starts collecting text at a line holding the
 * `CLASS()` marker, counts braces until they balance, and hands each closed
 * block to the declaration parser together with the number of the last line
 * that held `GENERATED_BODY()`.
 *
 * `Step`/`Run` replay the source's loop variables line by line. `Blocks` is
 * an independent description of the same result in terms of the whole line
 * list (the first balanced run of lines after each marker), and
 * `ScanFindsBlocks` proves that the two agree.
 */
module Scanner {
  import opened Text
  import opened Records
  import opened Recognisers
  import opened Declarations

  /** `size_t` arithmetic: the brace counter wraps around modulo 2^64. */
  const SizeModulus: nat := 0x1_0000_0000_0000_0000

  // ---------------------------------------------------------------------
  // What the scanner looks for in a line
  // ---------------------------------------------------------------------

  // `regex_search` for `\bNAME\(\)\s*`: the marker occurs at a word boundary.
  // Both markers begin with a word character, so the boundary means the start
  // of the line or a non-word character in front; `\s*` also matches nothing.
  predicate HasMarker(line: string, marker: string) {
    exists k :: 0 <= k <= |line| && OccursAt(line, marker, k) && (k == 0 || !IsWord(line[k - 1]))
  }

  predicate HasClassMarker(line: string) {
    HasMarker(line, "CLASS()")
  }

  predicate HasGeneratedBodyMarker(line: string) {
    HasMarker(line, "GENERATED_BODY()")
  }

  /** `line.find('{') != npos`: a line counts at most once, however many braces it has. */
  predicate Opens(line: string) {
    '{' in line
  }

  predicate Closes(line: string) {
    '}' in line
  }

  // ---------------------------------------------------------------------
  // The loop, one line at a time
  // ---------------------------------------------------------------------

  /** A closed class block: its text and the line number recorded for it. */
  datatype Block = Block(content: string, lineNumber: nat)

  /** The loop variables of `ParseHeaderFile`, and the blocks closed so far. */
  datatype ScanState = ScanState(
    lineNumber: nat,
    bracketCount: nat,
    currentLineNumber: nat,
    inClassScope: bool,
    classContent: string,
    closed: seq<Block>)

  const Start := ScanState(0, 0, 0, false, "", [])

  /**
   * One iteration of the `getline` loop. The marker test comes first, then
   * the line is appended, then `{` and `}` each move the counter at most
   * once; a `}` that brings it to zero closes the block. `GENERATED_BODY()`
   * is looked for last, so on a closing line it is ignored.
   */
  function Step(st: ScanState, line: string): (r: ScanState)
    ensures r.lineNumber == st.lineNumber + 1
    ensures r.closed == st.closed || r.closed == st.closed + [Block(st.classContent + line + "\n", st.currentLineNumber)]
    ensures !r.inClassScope ==> r.classContent == "" || r.classContent == st.classContent
  {
    var lineNumber := st.lineNumber + 1;
    var inScope := st.inClassScope || HasClassMarker(line);
    var content := if inScope then st.classContent + line + "\n" else st.classContent;
    var afterOpen := if inScope && Opens(line) then (st.bracketCount + 1) % SizeModulus else st.bracketCount;
    var counted := if inScope && Closes(line) then (afterOpen + SizeModulus - 1) % SizeModulus else afterOpen;
    if inScope && Closes(line) && counted == 0 then
      ScanState(lineNumber, counted, st.currentLineNumber, false, "",
        st.closed + [Block(content, st.currentLineNumber)])
    else
      ScanState(lineNumber, counted,
        if inScope && HasGeneratedBodyMarker(line) then lineNumber else st.currentLineNumber,
        inScope, content, st.closed)
  }

  function Run(st: ScanState, lines: seq<string>): ScanState
    decreases |lines|
  {
    if lines == [] then st else Run(Step(st, lines[0]), lines[1..])
  }

  /** Running over one more line is one more step. */
  lemma {:induction false} RunSnoc(st: ScanState, lines: seq<string>, line: string)
    ensures Run(st, lines + [line]) == Step(Run(st, lines), line)
    decreases |lines|
  {
    if lines == [] {
      assert [] + [line] == [line];
    } else {
      RunSnoc(Step(st, lines[0]), lines[1..], line);
      assert (lines + [line])[1..] == lines[1..] + [line];
    }
  }

  /** Blocks, once closed, stay closed: later lines only add to the list. */
  lemma {:induction false} RunClosedGrows(st: ScanState, lines: seq<string>)
    ensures st.closed <= Run(st, lines).closed
    decreases |lines|
  {
    if lines != [] {
      RunClosedGrows(Step(st, lines[0]), lines[1..]);
    }
  }

  lemma {:induction false} RunAppend(st: ScanState, xs: seq<string>, ys: seq<string>)
    ensures Run(st, xs + ys) == Run(Run(st, xs), ys)
    decreases |xs|
  {
    if xs != [] {
      assert (xs + ys)[0] == xs[0] && (xs + ys)[1..] == xs[1..] + ys;
      RunAppend(Step(st, xs[0]), xs[1..], ys);
    } else {
      assert xs + ys == ys;
    }
  }

  // ---------------------------------------------------------------------
  // The blocks, described over the whole file
  // ---------------------------------------------------------------------

  /** What a line does to the brace count: +1 for a `{`, -1 for a `}`. */
  function Delta(line: string): int {
    (if Opens(line) then 1 else 0) - (if Closes(line) then 1 else 0)
  }

  function Balance(ls: seq<string>): int {
    if ls == [] then 0 else Balance(ls[..|ls| - 1]) + Delta(ls[|ls| - 1])
  }

  /** Lines `a..b` form a closed block: line `b` has a `}` and the count is back to zero. */
  predicate ClosesAt(lines: seq<string>, a: nat, b: nat)
    requires a <= b < |lines|
  {
    Closes(lines[b]) && Balance(lines[a..b + 1]) % SizeModulus == 0
  }

  /** The first line at or after `j` that closes the block opened at line `a`. */
  function CloseOf(lines: seq<string>, a: nat, j: nat): (r: Option<nat>)
    requires a <= j <= |lines|
    ensures r.Some? ==> j <= r.value < |lines| && ClosesAt(lines, a, r.value)
    ensures r.Some? ==> forall k :: j <= k < r.value ==> !ClosesAt(lines, a, k)
    ensures r.None? ==> forall k :: j <= k < |lines| ==> !ClosesAt(lines, a, k)
    decreases |lines| - j
  {
    if j == |lines| then None
    else if ClosesAt(lines, a, j) then Some(j)
    else CloseOf(lines, a, j + 1)
  }

  /** The lines, each followed by a line break. */
  function Joined(ls: seq<string>): string {
    if ls == [] then "" else Joined(ls[..|ls| - 1]) + ls[|ls| - 1] + "\n"
  }

  /**
   * The 1-based number of the last line among `a..b-1` that holds
   * `GENERATED_BODY()`, or `g` when none does.
   */
  function LastGenerated(lines: seq<string>, a: nat, b: nat, g: nat): (n: nat)
    requires a <= b <= |lines|
    ensures n == g || (a < n <= b && HasGeneratedBodyMarker(lines[n - 1]))
    decreases b - a
  {
    if b == a then g
    else if HasGeneratedBodyMarker(lines[b - 1]) then b
    else LastGenerated(lines, a, b - 1, g)
  }

  /**
   * The recorded line is the last `GENERATED_BODY()` line of the range when
   * there is one, and the earlier record exactly when there is none.
   */
  lemma {:induction false} LastGeneratedIsLast(lines: seq<string>, a: nat, b: nat, g: nat)
    requires a <= b <= |lines|
    ensures var n := LastGenerated(lines, a, b, g);
      && ((exists k :: a <= k < b && HasGeneratedBodyMarker(lines[k])) ==>
            a < n <= b && HasGeneratedBodyMarker(lines[n - 1]) && forall k :: n <= k < b ==> !HasGeneratedBodyMarker(lines[k]))
      && ((forall k :: a <= k < b ==> !HasGeneratedBodyMarker(lines[k])) ==> n == g)
    decreases b - a
  {
    if b > a && !HasGeneratedBodyMarker(lines[b - 1]) {
      LastGeneratedIsLast(lines, a, b - 1, g);
    }
  }

  /**
   * The blocks found from line `from` on, `g` being the last recorded
   * `GENERATED_BODY()` line: skip to the next line with the class marker.
   */
  function Blocks(lines: seq<string>, from: nat, g: nat): seq<Block>
    requires from <= |lines|
    decreases |lines| - from, 1
  {
    if from == |lines| then []
    else if !HasClassMarker(lines[from]) then Blocks(lines, from + 1, g)
    else ClassBlocks(lines, from, from, g)
  }

  /**
   * The class opened at line `a`, looking for its closing line from `j` on:
   * it ends at the first balanced closing line; a class never closed is
   * dropped together with everything after it.
   */
  function ClassBlocks(lines: seq<string>, a: nat, j: nat, g: nat): seq<Block>
    requires a <= j <= |lines|
    decreases |lines| - a, 0
  {
    match CloseOf(lines, a, j)
    case None => []
    case Some(b) =>
      var g' := LastGenerated(lines, a, b, g);
      [Block(Joined(lines[a..b + 1]), g')] + Blocks(lines, b + 1, g')
  }

  // ---------------------------------------------------------------------
  // The loop computes the blocks
  // ---------------------------------------------------------------------

  /** Between classes, with `j` lines read. */
  predicate Outside(st: ScanState, j: nat) {
    st.lineNumber == j && !st.inClassScope && st.classContent == "" && st.bracketCount == 0
  }

  /**
   * Inside the class whose marker is on line `a`, with lines `a..j-1` read
   * and none of them closing it (`j == a`: the marker line is next).
   */
  predicate Pending(lines: seq<string>, st: ScanState, a: nat, j: nat, g: nat)
    requires a <= j <= |lines|
  {
    && st.lineNumber == j
    && st.inClassScope == (j > a)
    && st.classContent == Joined(lines[a..j])
    && st.bracketCount == Balance(lines[a..j]) % SizeModulus
    && st.currentLineNumber == LastGenerated(lines, a, j, g)
    && forall k :: a <= k < j ==> !ClosesAt(lines, a, k)
  }

  /** The wrapping counter follows the balance modulo 2^64. */
  lemma CounterStep(x: int, o: bool, c: bool)
    ensures var afterOpen := if o then (x % SizeModulus + 1) % SizeModulus else x % SizeModulus;
      var counted := if c then (afterOpen + SizeModulus - 1) % SizeModulus else afterOpen;
      counted == (x + (if o then 1 else 0) - (if c then 1 else 0)) % SizeModulus
  {
    var m := SizeModulus;
    var q := x / m;
    assert x == q * m + x % m;
    var afterOpen := if o then (x % m + 1) % m else x % m;
    var y := x + (if o then 1 else 0);
    assert afterOpen == y % m by {
      if o {
        ModShift(x % m + 1, q);
        assert y == (x % m + 1) + q * m;
      }
    }
    if c {
      ModShift(afterOpen + m - 1, y / m - 1);
      assert y - 1 == (afterOpen + m - 1) + (y / m - 1) * m;
    }
  }

  lemma ModShift(x: int, q: int)
    ensures (x + q * SizeModulus) % SizeModulus == x % SizeModulus
  {
  }

  lemma JoinedSnoc(lines: seq<string>, a: nat, j: nat)
    requires a <= j < |lines|
    ensures Joined(lines[a..j + 1]) == Joined(lines[a..j]) + lines[j] + "\n"
    ensures Balance(lines[a..j + 1]) == Balance(lines[a..j]) + Delta(lines[j])
  {
    assert lines[a..j + 1][..j - a] == lines[a..j];
  }

  /** Reading the closing line of a pending class closes it. */
  lemma StepPendingCloses(lines: seq<string>, st: ScanState, a: nat, j: nat, g: nat)
    requires a <= j < |lines| && HasClassMarker(lines[a]) && Pending(lines, st, a, j, g)
    requires ClosesAt(lines, a, j)
    ensures var st' := Step(st, lines[j]);
      && Outside(st', j + 1)
      && st'.closed == st.closed + [Block(Joined(lines[a..j + 1]), LastGenerated(lines, a, j, g))]
      && st'.currentLineNumber == LastGenerated(lines, a, j, g)
  {
    JoinedSnoc(lines, a, j);
    CounterStep(Balance(lines[a..j]), Opens(lines[j]), Closes(lines[j]));
  }

  /** Reading any other line keeps it pending. */
  lemma StepPendingContinues(lines: seq<string>, st: ScanState, a: nat, j: nat, g: nat)
    requires a <= j < |lines| && HasClassMarker(lines[a]) && Pending(lines, st, a, j, g)
    requires !ClosesAt(lines, a, j)
    ensures Pending(lines, Step(st, lines[j]), a, j + 1, g) && Step(st, lines[j]).closed == st.closed
  {
    JoinedSnoc(lines, a, j);
    StepInScope(st, lines[j], Balance(lines[a..j]));
    PendingNext(lines, Step(st, lines[j]), a, j, g);
  }

  /** The fields after reading line `j` of a pending class that it does not close. */
  lemma PendingNext(lines: seq<string>, st: ScanState, a: nat, j: nat, g: nat)
    requires a <= j < |lines| && !ClosesAt(lines, a, j) && forall k :: a <= k < j ==> !ClosesAt(lines, a, k)
    requires st.lineNumber == j + 1 && st.inClassScope
    requires st.classContent == Joined(lines[a..j]) + lines[j] + "\n"
    requires st.bracketCount == (Balance(lines[a..j]) + Delta(lines[j])) % SizeModulus
    requires st.currentLineNumber == if HasGeneratedBodyMarker(lines[j]) then j + 1 else LastGenerated(lines, a, j, g)
    ensures Pending(lines, st, a, j + 1, g)
  {
    JoinedSnoc(lines, a, j);
    LastGeneratedSnoc(lines, a, j, g);
    assert st.classContent == Joined(lines[a..j + 1]);
    assert st.bracketCount == Balance(lines[a..j + 1]) % SizeModulus;
    assert forall k :: a <= k < j + 1 ==> !ClosesAt(lines, a, k);
  }

  lemma LastGeneratedSnoc(lines: seq<string>, a: nat, j: nat, g: nat)
    requires a <= j < |lines|
    ensures LastGenerated(lines, a, j + 1, g) == if HasGeneratedBodyMarker(lines[j]) then j + 1 else LastGenerated(lines, a, j, g)
  {
  }

  /** A step inside a class: the counter follows the balance, and a line that does not close it is appended. */
  lemma StepInScope(st: ScanState, line: string, x: int)
    requires st.inClassScope || HasClassMarker(line)
    requires st.bracketCount == x % SizeModulus
    ensures var st' := Step(st, line);
      && st'.bracketCount == (x + Delta(line)) % SizeModulus
      && (!Closes(line) || st'.bracketCount != 0 ==>
            && st'.inClassScope && st'.classContent == st.classContent + line + "\n" && st'.closed == st.closed
            && st'.currentLineNumber == if HasGeneratedBodyMarker(line) then st.lineNumber + 1 else st.currentLineNumber)
  {
    CounterStep(x, Opens(line), Closes(line));
  }

  /** Outside any class, a line without the marker changes nothing but the line number. */
  lemma StepOutside(st: ScanState, line: string, j: nat)
    requires Outside(st, j) && !HasClassMarker(line)
    ensures var st' := Step(st, line);
      Outside(st', j + 1) && st'.closed == st.closed && st'.currentLineNumber == st.currentLineNumber
  {
  }

  lemma RunCons(st: ScanState, lines: seq<string>, j: nat)
    requires j < |lines|
    ensures Run(st, lines[j..]) == Run(Step(st, lines[j]), lines[j + 1..])
  {
    assert lines[j..][1..] == lines[j + 1..];
  }

  lemma {:induction false} RunOutside(lines: seq<string>, j: nat, st: ScanState)
    requires j <= |lines| && Outside(st, j)
    ensures Run(st, lines[j..]).closed == st.closed + Blocks(lines, j, st.currentLineNumber)
    decreases |lines| - j, 2
  {
    if j == |lines| {
      assert st.closed + [] == st.closed;
    } else if !HasClassMarker(lines[j]) {
      RunCons(st, lines, j);
      StepOutside(st, lines[j], j);
      RunOutside(lines, j + 1, Step(st, lines[j]));
    } else {
      RunPending(lines, j, j, st, st.currentLineNumber);
    }
  }

  lemma {:induction false} RunPending(lines: seq<string>, a: nat, j: nat, st: ScanState, g: nat)
    requires a <= j <= |lines| && a < |lines| && HasClassMarker(lines[a]) && Pending(lines, st, a, j, g)
    ensures Run(st, lines[j..]).closed == st.closed + ClassBlocks(lines, a, j, g)
    decreases |lines| - j, 1
  {
    if j == |lines| {
      assert st.closed + [] == st.closed;
    } else if ClosesAt(lines, a, j) {
      RunPendingCloses(lines, a, j, st, g);
    } else {
      RunPendingContinues(lines, a, j, st, g);
    }
  }

  lemma {:induction false} RunPendingCloses(lines: seq<string>, a: nat, j: nat, st: ScanState, g: nat)
    requires a <= j < |lines| && HasClassMarker(lines[a]) && Pending(lines, st, a, j, g)
    requires ClosesAt(lines, a, j)
    ensures Run(st, lines[j..]).closed == st.closed + ClassBlocks(lines, a, j, g)
    decreases |lines| - j, 0
  {
    var st' := Step(st, lines[j]);
    RunCons(st, lines, j);
    StepPendingCloses(lines, st, a, j, g);
    RunOutside(lines, j + 1, st');
    var b := Block(Joined(lines[a..j + 1]), LastGenerated(lines, a, j, g));
    ClassBlocksCloses(lines, a, j, g);
    AppendAssoc(st.closed, [b], Blocks(lines, j + 1, st'.currentLineNumber));
  }

  lemma ClassBlocksCloses(lines: seq<string>, a: nat, j: nat, g: nat)
    requires a <= j < |lines| && ClosesAt(lines, a, j)
    ensures ClassBlocks(lines, a, j, g)
      == [Block(Joined(lines[a..j + 1]), LastGenerated(lines, a, j, g))] + Blocks(lines, j + 1, LastGenerated(lines, a, j, g))
  {
    assert CloseOf(lines, a, j) == Some(j);
  }

  lemma {:induction false} RunPendingContinues(lines: seq<string>, a: nat, j: nat, st: ScanState, g: nat)
    requires a <= j < |lines| && HasClassMarker(lines[a]) && Pending(lines, st, a, j, g)
    requires !ClosesAt(lines, a, j)
    ensures Run(st, lines[j..]).closed == st.closed + ClassBlocks(lines, a, j, g)
    decreases |lines| - j, 0
  {
    var st' := Step(st, lines[j]);
    RunCons(st, lines, j);
    StepPendingContinues(lines, st, a, j, g);
    ClassBlocksSkip(lines, a, j, g);
    RunPending(lines, a, j + 1, st', g);
  }

  lemma ClassBlocksSkip(lines: seq<string>, a: nat, j: nat, g: nat)
    requires a <= j < |lines| && !ClosesAt(lines, a, j)
    ensures ClassBlocks(lines, a, j, g) == ClassBlocks(lines, a, j + 1, g)
  {
    assert CloseOf(lines, a, j) == CloseOf(lines, a, j + 1);
  }

  /** The line-by-line loop finds exactly the blocks described by `Blocks`. */
  lemma ScanFindsBlocks(lines: seq<string>)
    ensures Run(Start, lines).closed == Blocks(lines, 0, 0)
  {
    RunOutside(lines, 0, Start);
    assert lines[0..] == lines;
  }

  // ---------------------------------------------------------------------
  // What the blocks are
  // ---------------------------------------------------------------------

  /**
   * A block is a minimal balanced run of lines: it starts on a line with the
   * class marker, ends on a line with a `}` that brings the count back to
   * zero, and no earlier line of it does so.
   */
  predicate IsClassRun(ls: seq<string>) {
    && ls != []
    && HasClassMarker(ls[0])
    && Closes(ls[|ls| - 1])
    && Balance(ls) % SizeModulus == 0
    && forall k :: 0 < k < |ls| ==> !(Closes(ls[k - 1]) && Balance(ls[..k]) % SizeModulus == 0)
  }

  /** The recorded line holds `GENERATED_BODY()`, or no marker was seen yet (0). */
  predicate MarksGeneratedBody(lines: seq<string>, n: nat) {
    n == 0 || (n <= |lines| && HasGeneratedBodyMarker(lines[n - 1]))
  }

  lemma {:induction false} BlocksAreClassRuns(lines: seq<string>, from: nat, g: nat)
    requires from <= |lines| && MarksGeneratedBody(lines, g)
    ensures forall b :: b in Blocks(lines, from, g) ==>
      (exists p, q :: 0 <= p < q <= |lines| && IsClassRun(lines[p..q]) && b.content == Joined(lines[p..q])) && MarksGeneratedBody(lines, b.lineNumber)
    decreases |lines| - from, 1
  {
    if from < |lines| {
      if !HasClassMarker(lines[from]) {
        BlocksAreClassRuns(lines, from + 1, g);
      } else {
        ClassBlocksAreClassRuns(lines, from, from, g);
      }
    }
  }

  lemma {:induction false} ClassBlocksAreClassRuns(lines: seq<string>, a: nat, j: nat, g: nat)
    requires a <= j <= |lines| && a < |lines| && HasClassMarker(lines[a]) && MarksGeneratedBody(lines, g)
    requires forall k :: a <= k < j ==> !ClosesAt(lines, a, k)
    ensures forall b :: b in ClassBlocks(lines, a, j, g) ==>
      (exists p, q :: 0 <= p < q <= |lines| && IsClassRun(lines[p..q]) && b.content == Joined(lines[p..q])) && MarksGeneratedBody(lines, b.lineNumber)
    decreases |lines| - a, 0
  {
    match CloseOf(lines, a, j)
    case None =>
    case Some(b) =>
      var g' := LastGenerated(lines, a, b, g);
      var head := Block(Joined(lines[a..b + 1]), g');
      assert ClassBlocks(lines, a, j, g) == [head] + Blocks(lines, b + 1, g');
      assert MarksGeneratedBody(lines, g');
      BlocksAreClassRuns(lines, b + 1, g');
      ClosingRun(lines, a, b);
      forall x | x in [head] + Blocks(lines, b + 1, g')
        ensures (exists p, q :: 0 <= p < q <= |lines| && IsClassRun(lines[p..q]) && x.content == Joined(lines[p..q])) && MarksGeneratedBody(lines, x.lineNumber)
      {
        if x == head {
          assert IsClassRun(lines[a..b + 1]) && x.content == Joined(lines[a..b + 1]);
        } else {
          assert x in Blocks(lines, b + 1, g');
        }
      }
  }

  lemma ClosingRun(lines: seq<string>, a: nat, b: nat)
    requires a <= b < |lines| && HasClassMarker(lines[a]) && ClosesAt(lines, a, b)
    requires forall k :: a <= k < b ==> !ClosesAt(lines, a, k)
    ensures IsClassRun(lines[a..b + 1])
  {
    var ls := lines[a..b + 1];
    forall k | 0 < k < |ls| ensures !(Closes(ls[k - 1]) && Balance(ls[..k]) % SizeModulus == 0) {
      assert ls[..k] == lines[a..a + k];
      assert !ClosesAt(lines, a, a + k - 1);
    }
  }

  /** A file without a single `}` yields no block: an unclosed class is dropped. */
  lemma {:induction false} NoClosingBraceNoBlocks(lines: seq<string>, from: nat, g: nat)
    requires from <= |lines| && forall k :: 0 <= k < |lines| ==> !Closes(lines[k])
    ensures Blocks(lines, from, g) == []
    decreases |lines| - from
  {
    if from < |lines| && !HasClassMarker(lines[from]) {
      NoClosingBraceNoBlocks(lines, from + 1, g);
    }
  }

  // ---------------------------------------------------------------------
  // Parsing the closed blocks, stopping at the first error
  // ---------------------------------------------------------------------

  /** Each block parsed in turn; the first block without a class name aborts the file. */
  function ParseBlocks(blocks: seq<Block>, matchers: Matchers): Result<HeaderProperties> {
    if blocks == [] then Ok(HeaderProperties([]))
    else
      match ParseBlocks(blocks[..|blocks| - 1], matchers)
      case Err(e) => Err(e)
      case Ok(h) =>
        var b := blocks[|blocks| - 1];
        match ParseClass(b.content, b.lineNumber, matchers)
        case Err(e) => Err(e)
        case Ok(c) => Ok(HeaderProperties(h.classProperties + [c]))
  }

  predicate ClassParses(b: Block, matchers: Matchers) {
    ParseClass(b.content, b.lineNumber, matchers).Ok?
  }

  /** The file parses exactly when every one of its blocks does. */
  lemma {:induction false} ParseBlocksOk(blocks: seq<Block>, matchers: Matchers)
    ensures ParseBlocks(blocks, matchers).Ok? <==> forall i :: 0 <= i < |blocks| ==> ClassParses(blocks[i], matchers)
    decreases |blocks|
  {
    if blocks != [] {
      var init := blocks[..|blocks| - 1];
      ParseBlocksOk(init, matchers);
      assert forall i :: 0 <= i < |init| ==> blocks[i] == init[i];
    }
  }

  /** On success the classes come in block order, one per block. */
  lemma {:induction false} ParseBlocksClasses(blocks: seq<Block>, matchers: Matchers)
    ensures var r := ParseBlocks(blocks, matchers);
      r.Ok? ==> (|r.value.classProperties| == |blocks| &&
        forall i :: 0 <= i < |blocks| ==>
          (ClassParses(blocks[i], matchers) &&
           r.value.classProperties[i] == ParseClass(blocks[i].content, blocks[i].lineNumber, matchers).value))
    decreases |blocks|
  {
    if blocks != [] && ParseBlocks(blocks, matchers).Ok? {
      var init := blocks[..|blocks| - 1];
      ParseBlocksClasses(init, matchers);
      ParseBlocksLast(blocks, matchers);
      var classes := ParseBlocks(blocks, matchers).value.classProperties;
      forall i | 0 <= i < |blocks|
        ensures ClassParses(blocks[i], matchers) &&
          classes[i] == ParseClass(blocks[i].content, blocks[i].lineNumber, matchers).value
      {
        if i < |init| {
          assert blocks[i] == init[i];
        }
      }
    }
  }

  /** A successful parse is the parse of all blocks but the last, plus the last block's record. */
  lemma ParseBlocksLast(blocks: seq<Block>, matchers: Matchers)
    requires blocks != [] && ParseBlocks(blocks, matchers).Ok?
    ensures var last := blocks[|blocks| - 1];
      && ParseBlocks(blocks[..|blocks| - 1], matchers).Ok? && ClassParses(last, matchers)
      && ParseBlocks(blocks, matchers).value.classProperties
        == ParseBlocks(blocks[..|blocks| - 1], matchers).value.classProperties + [ParseClass(last.content, last.lineNumber, matchers).value]
  {
  }

  /** Failure reports the error of the first block that does not parse. */
  lemma {:induction false} ParseBlocksErr(blocks: seq<Block>, matchers: Matchers)
    ensures var r := ParseBlocks(blocks, matchers);
      r.Err? ==> exists i :: (0 <= i < |blocks| &&
        ParseClass(blocks[i].content, blocks[i].lineNumber, matchers) == Err(r.error) &&
        forall j :: 0 <= j < i ==> ClassParses(blocks[j], matchers))
    decreases |blocks|
  {
    if blocks != [] {
      var init := blocks[..|blocks| - 1];
      ParseBlocksErr(init, matchers);
      assert forall i :: 0 <= i < |init| ==> blocks[i] == init[i];
      if ParseBlocks(init, matchers).Ok? && ParseBlocks(blocks, matchers).Err? {
        ParseBlocksOk(init, matchers);
        assert forall j :: 0 <= j < |init| ==> ClassParses(blocks[j], matchers);
      }
    }
  }

  /** Once a prefix of the blocks fails, later blocks do not change the outcome. */
  lemma {:induction false} ParseBlocksErrSticks(xs: seq<Block>, ys: seq<Block>, matchers: Matchers)
    requires xs <= ys && ParseBlocks(xs, matchers).Err?
    ensures ParseBlocks(ys, matchers) == ParseBlocks(xs, matchers)
    decreases |ys|
  {
    if |ys| > |xs| {
      ParseBlocksErrSticks(xs, ys[..|ys| - 1], matchers);
    } else {
      assert xs == ys;
    }
  }

  /**
   * One pass of the `getline` loop body over the scanner's variables (the
   * parse of a closing block aside): count the line, enter the class scope at
   * a `CLASS()` marker, collect the line, move the brace counter, close the
   * block when it returns to zero, and note a `GENERATED_BODY()` line.
   */
  method ScanLine(st: ScanState, line: string) returns (next: ScanState, closing: bool)
    ensures next == Step(st, line)
    ensures closing ==> next.closed == st.closed + [Block(st.classContent + line + "\n", st.currentLineNumber)]
    ensures !closing ==> next.closed == st.closed
  {
    var lineNumber := st.lineNumber + 1;
    var bracketCount := st.bracketCount;
    var currentLineNumber := st.currentLineNumber;
    var inClassScope := st.inClassScope;
    var classContent := st.classContent;
    var closed := st.closed;
    if HasClassMarker(line) {
      inClassScope := true;
    }
    if inClassScope {
      classContent := classContent + line + "\n";
    }
    if inClassScope && '{' in line {
      bracketCount := (bracketCount + 1) % SizeModulus;
    }
    closing := false;
    if inClassScope && '}' in line {
      bracketCount := (bracketCount + SizeModulus - 1) % SizeModulus;
      if bracketCount == 0 {
        closed := closed + [Block(classContent, currentLineNumber)];
        closing := true;
        inClassScope := false;
        classContent := "";
      }
    }
    if inClassScope && HasGeneratedBodyMarker(line) {
      currentLineNumber := lineNumber;
    }
    next := ScanState(lineNumber, bracketCount, currentLineNumber, inClassScope, classContent, closed);
  }

  /**
   * The line loop of `ParseHeaderFile`, up to `CreateGeneratedFile`: each
   * block is parsed as soon as its closing line is scanned. `Err` stands for
   * the `runtime_error` thrown for a block without a class name, which ends
   * the file (and the whole run) before anything is written.
   */
  method ParseLines(lines: seq<string>, matchers: Matchers) returns (r: Result<HeaderProperties>)
    ensures r == ParseBlocks(Blocks(lines, 0, 0), matchers)
  {
    ScanFindsBlocks(lines);
    var headerProperties := HeaderProperties([]);
    var st := Start;
    var i := 0;
    while i < |lines|
      invariant i <= |lines|
      invariant st == Run(Start, lines[..i])
      invariant ParseBlocks(st.closed, matchers) == Ok(headerProperties)
    {
      var line := lines[i];
      RunNext(lines, i);
      var before := st;
      var closing;
      st, closing := ScanLine(st, line);
      if closing {
        var block := st.closed[|st.closed| - 1];
        var parsed := ParseClosedBlock(block, matchers);
        if parsed.Err? {
          r := Err(parsed.error);
          ParseAbortsFile(lines, i, before.closed, headerProperties, block, matchers);
          return;
        }
        ParseBlocksNext(before.closed, block, matchers, headerProperties, parsed.value);
        headerProperties := HeaderProperties(headerProperties.classProperties + [parsed.value]);
      }
      i := i + 1;
    }
    assert lines[..i] == lines;
    r := Ok(headerProperties);
  }

  /** One more line read is one more step. */
  lemma RunNext(lines: seq<string>, i: nat)
    requires i < |lines|
    ensures Run(Start, lines[..i + 1]) == Step(Run(Start, lines[..i]), lines[i])
  {
    RunSnoc(Start, lines[..i], lines[i]);
    assert lines[..i + 1] == lines[..i] + [lines[i]];
  }

  /** One more block that parses adds its class to the header's. */
  lemma ParseBlocksNext(xs: seq<Block>, b: Block, matchers: Matchers, h: HeaderProperties, c: ClassProperties)
    requires ParseBlocks(xs, matchers) == Ok(h) && ParseClass(b.content, b.lineNumber, matchers) == Ok(c)
    ensures ParseBlocks(xs + [b], matchers) == Ok(HeaderProperties(h.classProperties + [c]))
  {
    assert (xs + [b])[..|xs|] == xs;
  }

  /**
   * What happens to a block once its braces balance: the class header, the
   * error when it names no class, then properties and methods.
   */
  method ParseClosedBlock(block: Block, matchers: Matchers) returns (r: Result<ClassProperties>)
    ensures r == ParseClass(block.content, block.lineNumber, matchers)
  {
    var header := ParseClassHeader(matchers.classHeaders(block.content));
    if header.className == "" {
      return Err(ClassNameNotFound(block.content));
    }
    var properties := ParseClassProperties(block.content, matchers.properties(block.content));
    var methods := ParseClassMethods(block.content);
    r := Ok(ClassProperties(header.className, header.baseClassName, block.lineNumber, properties, methods));
  }

  lemma ParseAbortsFile(lines: seq<string>, i: nat, before: seq<Block>, h: HeaderProperties, block: Block, matchers: Matchers)
    requires i < |lines| && before + [block] == Run(Start, lines[..i + 1]).closed
    requires ParseBlocks(before, matchers) == Ok(h)
    requires ParseClassHeader(matchers.classHeaders(block.content)).className == ""
    ensures ParseBlocks(Run(Start, lines).closed, matchers) == Err(ClassNameNotFound(block.content))
  {
    var closed := before + [block];
    assert closed[..|closed| - 1] == before;
    RunAppend(Start, lines[..i + 1], lines[i + 1..]);
    assert lines[..i + 1] + lines[i + 1..] == lines;
    RunClosedGrows(Run(Start, lines[..i + 1]), lines[i + 1..]);
    ParseBlocksErrSticks(closed, Run(Start, lines).closed, matchers);
  }
}
