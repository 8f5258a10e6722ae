/**
 * The driver of the header tool (src/HeaderTool.cpp): which directory
 * entries are parsed (`ParseFiles`), when a header is skipped because its
 * glue header is up to date, and what parsing one header writes
 * (`ParseHeaderFile`).
 *
 * The file system is a value: a map from paths to files, each with its last
 * write time and its contents. The listing the recursive directory iterator
 * produces is an input, and so is the time at which outputs are written.
 */
module Tool {
  import opened Text
  import opened Records
  import opened Recognisers
  import opened Declarations
  import opened Scanner
  import opened Paths
  import opened Glue
  import opened Metadata

  // ---------------------------------------------------------------------
  // Directory entries and the selection test
  // ---------------------------------------------------------------------

  /** What the directory iterator reports about one entry. */
  datatype Entry = Entry(path: string, isRegularFile: bool)

  /** `entry.path().extension()`. */
  function EntryExtension(e: Entry): string {
    Extension(FileName(e.path))
  }

  /** `path.string().find(".generated") != npos`: the tool's own output. */
  predicate IsGeneratedOutput(path: string) {
    FindFrom(path, ".generated", 0).Some?
  }

  /**
   * The test of `ParseFiles` as written: `&&` binds tighter than `||`, so an
   * entry with extension `.hpp` is taken whether or not it is a regular file.
   */
  predicate SelectedAsWritten(e: Entry) {
    !IsGeneratedOutput(e.path) && ((e.isRegularFile && EntryExtension(e) == ".h") || EntryExtension(e) == ".hpp")
  }

  /** The evident intent, used by the rest of the model: regular files with a header extension. */
  predicate IsHeaderEntry(e: Entry) {
    !IsGeneratedOutput(e.path) && e.isRegularFile && (EntryExtension(e) == ".h" || EntryExtension(e) == ".hpp")
  }

  /**
   * A directory named like a header is parsed as one by the test as written;
   * the name is too short to hold `.generated`.
   */
  lemma DirectoryNamedHppSelected()
    ensures SelectedAsWritten(Entry("Menu.hpp", false))
    ensures !IsHeaderEntry(Entry("Menu.hpp", false))
  {
    MenuExtension();
  }

  lemma MenuExtension()
    ensures Extension(FileName("Menu.hpp")) == ".hpp"
  {
    assert "Menu.hpp" == JoinPath("", "Menu" + ".hpp");
    JoinPathFileName("", "Menu" + ".hpp");
    HppExtension("Menu");
  }

  /** `stem + ".hpp"` has extension `.hpp` when the stem holds no dot. */
  lemma HppExtension(stem: string)
    requires stem != [] && '.' !in stem
    ensures Extension(stem + ".hpp") == ".hpp"
  {
    var name := stem + ".hpp";
    assert name[|stem|] == '.';
    assert forall j :: |stem| < j < |name| ==> name[j] != '.';
    assert name != "." && name != "..";
    assert name[|stem|..] == ".hpp";
  }

  /** The two tests differ on exactly the entries that are not regular files but end in `.hpp`. */
  lemma SelectionDiffers(e: Entry)
    ensures SelectedAsWritten(e) <==> IsHeaderEntry(e) || (!e.isRegularFile && !IsGeneratedOutput(e.path) && EntryExtension(e) == ".hpp")
    ensures IsHeaderEntry(e) ==> SelectedAsWritten(e)
  {
  }

  // ---------------------------------------------------------------------
  // The outputs are never inputs
  // ---------------------------------------------------------------------

  /** Path `p` ends with the character `c`. */
  predicate EndsIn(p: string, c: char) {
    p != [] && p[|p| - 1] == c
  }

  /** A non-empty extension ends the path: its last character is the path's. */
  lemma ExtensionEndsPath(path: string)
    requires Extension(FileName(path)) != []
    ensures EndsIn(path, Extension(FileName(path))[|Extension(FileName(path))| - 1])
  {
    var name := FileName(path);
    StemExtension(name);
    var ext := Extension(name);
    assert name[|name| - 1] == ext[|ext| - 1];
    assert path[|path| - 1] == name[|name| - 1];
  }

  /** The glue header's path contains `.generated`. */
  lemma GeneratedHeaderPathMarked(folder: string, path: string)
    ensures IsGeneratedOutput(GeneratedHeaderPath(folder, path))
  {
    var stem := Stem(FileName(path));
    var p := GeneratedHeaderPath(folder, path);
    GeneratedSuffix();
    AppendAssoc(stem, ".generated", ".h");
    var name := stem + ".generated" + ".h";
    assert p == JoinPath(folder, name);
    ThreeParts(stem, ".generated", ".h");
    EndsWithOccurs(p, name);
    OccursWithin(p, name, ".generated", |p| - |name|, |stem|);
  }

  lemma GeneratedSuffix()
    ensures ".generated.h" == ".generated" + ".h"
  {
  }

  /** The metadata file's path ends in `n`, from `.gen`. */
  lemma GenPathEnd(folder: string, path: string)
    ensures EndsIn(GenPath(folder, path), 'n')
  {
    var name := Stem(FileName(path)) + ".gen";
    assert EndsWith(GenPath(folder, path), name);
  }

  /** The two outputs of a header are different files. */
  lemma OutputsDistinct(folder: string, path: string)
    ensures GeneratedHeaderPath(folder, path) != GenPath(folder, path)
  {
    var name := Stem(FileName(path)) + ".generated.h";
    assert EndsWith(GeneratedHeaderPath(folder, path), name);
    GenPathEnd(folder, path);
  }

  /** A selected header's path ends in `h` or `p`. */
  lemma HeaderPathEnd(e: Entry)
    requires SelectedAsWritten(e)
    ensures EndsIn(e.path, 'h') || EndsIn(e.path, 'p')
  {
    ExtensionEndsPath(e.path);
  }

  /**
   * Neither output of a header is ever taken as an input, by either test, so
   * running the tool over a tree holding its own output folder is safe.
   */
  lemma OutputsNotSelected(folder: string, path: string, isRegularFile: bool)
    ensures !SelectedAsWritten(Entry(GeneratedHeaderPath(folder, path), isRegularFile))
    ensures !SelectedAsWritten(Entry(GenPath(folder, path), isRegularFile))
    ensures !IsHeaderEntry(Entry(GeneratedHeaderPath(folder, path), isRegularFile))
    ensures !IsHeaderEntry(Entry(GenPath(folder, path), isRegularFile))
  {
    GeneratedHeaderPathMarked(folder, path);
    GenPathEnd(folder, path);
    if SelectedAsWritten(Entry(GenPath(folder, path), isRegularFile)) {
      HeaderPathEnd(Entry(GenPath(folder, path), isRegularFile));
    }
  }

  /** So a selected header is never overwritten by the outputs of any header. */
  lemma HeaderNotOverwritten(e: Entry, folder: string, path: string)
    requires SelectedAsWritten(e)
    ensures e.path != GeneratedHeaderPath(folder, path)
    ensures e.path != GenPath(folder, path)
  {
    OutputsNotSelected(folder, path, e.isRegularFile);
  }

  // ---------------------------------------------------------------------
  // The file system
  // ---------------------------------------------------------------------

  datatype Content = Text(text: string) | Meta(events: seq<Event>) | Unreadable

  /** A file: its last write time and what it holds; `Unreadable` cannot be opened for reading. */
  datatype Node = Node(time: int, content: Content)

  type Disk = map<string, Node>

  /** The lines `std::getline` yields from a file's text. */
  function Lines(text: string): seq<string> {
    GetlineSegments(text, '\n', 0)
  }

  /** The staleness test: outside a debug build, skip when the glue header is at least as new as the header. */
  predicate UpToDate(disk: Disk, folder: string, path: string, debug: bool) {
    !debug && path in disk && GeneratedHeaderPath(folder, path) in disk
    && disk[GeneratedHeaderPath(folder, path)].time >= disk[path].time
  }

  /** What `ParseHeaderFile` does with one header. */
  datatype Outcome =
    | Skipped
    | OpenFailed
    | Aborted(error: ParseError)
    | Generated(header: string, events: seq<Event>)

  function HeaderOutcome(disk: Disk, folder: string, path: string, matchers: Matchers, debug: bool): Outcome
    requires path in disk
  {
    if UpToDate(disk, folder, path, debug) then Skipped else ReadOutcome(disk[path], path, matchers)
  }

  /** What reading, scanning and generating a header gives, once it is found stale. */
  function ReadOutcome(file: Node, path: string, matchers: Matchers): Outcome {
    if !file.content.Text? then OpenFailed
    else match ParseBlocks(Blocks(Lines(file.content.text), 0, 0), matchers)
      case Err(e) => Aborted(e)
      case Ok(h) => Generated(GeneratedFile(PathId(path), h.classProperties), GenEvents(h.classProperties))
  }

  /** The disk after an outcome: a generated header writes both outputs, stamped `now`. */
  function Apply(disk: Disk, folder: string, path: string, o: Outcome, now: int): (r: Disk)
    ensures disk.Keys <= r.Keys
  {
    if o.Generated? then
      disk[GeneratedHeaderPath(folder, path) := Node(now, Text(o.header))][GenPath(folder, path) := Node(now, Meta(o.events))]
    else disk
  }

  /** What `ReadOutcome` gives once the scan's result is known. */
  lemma ReadOutcomeOfParse(file: Node, path: string, matchers: Matchers, r: Result<HeaderProperties>)
    requires file.content.Text? && r == ParseBlocks(Blocks(Lines(file.content.text), 0, 0), matchers)
    ensures ReadOutcome(file, path, matchers) ==
      if r.Err? then Aborted(r.error)
      else Generated(GeneratedFile(PathId(path), r.value.classProperties), GenEvents(r.value.classProperties))
  {
  }

  /** The two writes of a generated header, glue header first. */
  lemma ApplyGenerated(disk: Disk, folder: string, path: string, header: string, events: seq<Event>, now: int)
    ensures Apply(disk, folder, path, Generated(header, events), now) ==
      disk[GeneratedHeaderPath(folder, path) := Node(now, Text(header))][GenPath(folder, path) := Node(now, Meta(events))]
  {
  }

  /** A header whose class has no name stops the run; every other outcome lets it continue. */
  datatype RunOutcome = Finished | Stopped(error: ParseError)

  /** `ParseFiles` over a listing, entry by entry. */
  function RunFiles(disk: Disk, folder: string, listing: seq<Entry>, matchers: Matchers, debug: bool, now: int): (r: (Disk, RunOutcome))
    requires forall e :: e in listing ==> e.path in disk
    ensures disk.Keys <= r.0.Keys
    decreases |listing|
  {
    if listing == [] then (disk, Finished)
    else if !IsHeaderEntry(listing[0]) then RunFiles(disk, folder, listing[1..], matchers, debug, now)
    else
      var o := HeaderOutcome(disk, folder, listing[0].path, matchers, debug);
      if o.Aborted? then (disk, Stopped(o.error))
      else RunFiles(Apply(disk, folder, listing[0].path, o, now), folder, listing[1..], matchers, debug, now)
  }

  // ---------------------------------------------------------------------
  // The tool
  // ---------------------------------------------------------------------

  class HeaderTool {
    var generatedFolder: string

    constructor()
      ensures generatedFolder == ""
    {
      generatedFolder := "";
    }

    method SetGeneratedFolder(folder: string)
      modifies this
      ensures generatedFolder == folder
    {
      generatedFolder := folder;
    }

    /**
     * One header: the staleness test, then reading and generating. A block
     * without a class name stops before anything is written.
     */
    method ParseHeaderFile(disk: Disk, path: string, matchers: Matchers, debug: bool, now: int)
      returns (outcome: Outcome, written: Disk)
      requires path in disk
      ensures outcome == HeaderOutcome(disk, generatedFolder, path, matchers, debug)
      ensures written == Apply(disk, generatedFolder, path, outcome, now)
    {
      var generatedPath := GeneratedHeaderPath(generatedFolder, path);
      if !debug && generatedPath in disk {
        if disk[generatedPath].time >= disk[path].time {
          outcome, written := Skipped, disk;
          return;
        }
      }
      outcome, written := ReadHeaderFile(disk, path, matchers, now);
    }

    /** Opening the file, the scan, and the two outputs. */
    method ReadHeaderFile(disk: Disk, path: string, matchers: Matchers, now: int)
      returns (outcome: Outcome, written: Disk)
      requires path in disk
      ensures outcome == ReadOutcome(disk[path], path, matchers)
      ensures written == Apply(disk, generatedFolder, path, outcome, now)
    {
      written := disk;
      if !disk[path].content.Text? {
        outcome := OpenFailed;
        return;
      }
      var r := ParseLines(Lines(disk[path].content.text), matchers);
      ReadOutcomeOfParse(disk[path], path, matchers, r);
      if r.Err? {
        outcome := Aborted(r.error);
        return;
      }
      var fileContent := CreateGeneratedFile(path, r.value);
      written := written[GeneratedHeaderPath(generatedFolder, path) := Node(now, Text(fileContent))];
      var events := CreateGenFile(r.value);
      written := written[GenPath(generatedFolder, path) := Node(now, Meta(events))];
      outcome := Generated(fileContent, events);
      ApplyGenerated(disk, generatedFolder, path, fileContent, events, now);
    }

    /** The entries of the listing in order; the first header without a class name stops the run. */
    method ParseFiles(disk: Disk, listing: seq<Entry>, matchers: Matchers, debug: bool, now: int)
      returns (result: Disk, run: RunOutcome)
      requires forall e :: e in listing ==> e.path in disk
      ensures (result, run) == RunFiles(disk, generatedFolder, listing, matchers, debug, now)
    {
      result := disk;
      run := Finished;
      for i := 0 to |listing|
        invariant disk.Keys <= result.Keys
        invariant RunFiles(disk, generatedFolder, listing, matchers, debug, now)
          == RunFiles(result, generatedFolder, listing[i..], matchers, debug, now)
      {
        var entry := listing[i];
        assert listing[i..][1..] == listing[i + 1..];
        if !IsHeaderEntry(entry) {
          continue;
        }
        var outcome;
        outcome, result := ParseHeaderFile(result, entry.path, matchers, debug, now);
        if outcome.Aborted? {
          run := Stopped(outcome.error);
          return;
        }
      }
    }
  }

  // ---------------------------------------------------------------------
  // Running again
  // ---------------------------------------------------------------------

  /** No file was written later than `now`. */
  predicate NotAfter(disk: Disk, now: int) {
    forall p :: p in disk ==> disk[p].time <= now
  }

  /**
   * A selected header a second run leaves alone: its glue header is up to
   * date, or it cannot be read.
   */
  predicate Settled(disk: Disk, folder: string, e: Entry) {
    IsHeaderEntry(e) ==> e.path in disk && (UpToDate(disk, folder, e.path, false) || !disk[e.path].content.Text?)
  }

  lemma ApplyNotAfter(disk: Disk, folder: string, path: string, o: Outcome, now: int)
    requires NotAfter(disk, now)
    ensures NotAfter(Apply(disk, folder, path, o, now), now)
  {
  }

  /** Writing the outputs of any header keeps a settled header settled. */
  lemma ApplyKeepsSettled(disk: Disk, folder: string, path: string, o: Outcome, now: int, e: Entry)
    requires NotAfter(disk, now) && Settled(disk, folder, e)
    ensures Settled(Apply(disk, folder, path, o, now), folder, e)
  {
    if IsHeaderEntry(e) && o.Generated? {
      HeaderNotOverwritten(e, folder, path);
      var g, m := GeneratedHeaderPath(folder, path), GenPath(folder, path);
      var n1, n2 := Node(now, Text(o.header)), Node(now, Meta(o.events));
      ApplyGenerated(disk, folder, path, o.header, o.events, now);
      WriteTwoKeeps(disk, g, m, n1, n2, e.path);
      if UpToDate(disk, folder, e.path, false) {
        WriteTwoNotOlder(disk, g, m, n1, n2, GeneratedHeaderPath(folder, e.path), disk[e.path].time);
      }
    }
  }

  /** Writing two other files leaves a file as it was. */
  lemma WriteTwoKeeps(disk: Disk, g: string, m: string, n1: Node, n2: Node, x: string)
    requires x in disk && x != g && x != m
    ensures x in disk[g := n1][m := n2] && disk[g := n1][m := n2][x] == disk[x]
  {
  }

  /** Writing two files no older than `t` leaves every file that was no older than `t` so. */
  lemma WriteTwoNotOlder(disk: Disk, g: string, m: string, n1: Node, n2: Node, y: string, t: int)
    requires y in disk && disk[y].time >= t && n1.time >= t && n2.time >= t
    ensures y in disk[g := n1][m := n2] && disk[g := n1][m := n2][y].time >= t
  {
  }

  /** A header the run parsed without stopping is settled afterwards. */
  lemma HeaderSettles(disk: Disk, folder: string, e: Entry, matchers: Matchers, debug: bool, now: int)
    requires IsHeaderEntry(e) && e.path in disk && NotAfter(disk, now)
    requires !HeaderOutcome(disk, folder, e.path, matchers, debug).Aborted?
    ensures Settled(Apply(disk, folder, e.path, HeaderOutcome(disk, folder, e.path, matchers, debug), now), folder, e)
  {
    var o := HeaderOutcome(disk, folder, e.path, matchers, debug);
    if o.Generated? {
      HeaderNotOverwritten(e, folder, e.path);
      var g, m := GeneratedHeaderPath(folder, e.path), GenPath(folder, e.path);
      var n1, n2 := Node(now, Text(o.header)), Node(now, Meta(o.events));
      ApplyGenerated(disk, folder, e.path, o.header, o.events, now);
      WriteTwoKeeps(disk, g, m, n1, n2, e.path);
      OutputsDistinct(folder, e.path);
      assert disk[g := n1][m := n2][g] == n1;
    }
  }

  lemma {:induction false} RunSettles(disk: Disk, folder: string, done: seq<Entry>, listing: seq<Entry>,
                                      matchers: Matchers, debug: bool, now: int)
    requires forall e :: e in listing ==> e.path in disk
    requires NotAfter(disk, now)
    requires forall e :: e in done ==> Settled(disk, folder, e)
    requires RunFiles(disk, folder, listing, matchers, debug, now).1 == Finished
    ensures forall e :: e in done + listing ==> Settled(RunFiles(disk, folder, listing, matchers, debug, now).0, folder, e)
    decreases |listing|
  {
    if listing == [] {
      assert done + listing == done;
    } else {
      var e := listing[0];
      assert done + listing == (done + [e]) + listing[1..];
      if !IsHeaderEntry(e) {
        RunSettles(disk, folder, done + [e], listing[1..], matchers, debug, now);
      } else {
        var o := HeaderOutcome(disk, folder, e.path, matchers, debug);
        var next := Apply(disk, folder, e.path, o, now);
        forall d | d in done ensures Settled(next, folder, d) {
          ApplyKeepsSettled(disk, folder, e.path, o, now, d);
        }
        HeaderSettles(disk, folder, e, matchers, debug, now);
        ApplyNotAfter(disk, folder, e.path, o, now);
        RunSettles(next, folder, done + [e], listing[1..], matchers, debug, now);
      }
    }
  }

  /** A run over settled headers parses nothing and writes nothing. */
  lemma {:induction false} SettledRunQuiet(disk: Disk, folder: string, listing: seq<Entry>, matchers: Matchers, now: int)
    requires forall e :: e in listing ==> e.path in disk && Settled(disk, folder, e)
    ensures RunFiles(disk, folder, listing, matchers, false, now) == (disk, Finished)
    decreases |listing|
  {
    if listing != [] {
      SettledStep(disk, folder, listing, matchers, now);
      SettledRunQuiet(disk, folder, listing[1..], matchers, now);
    }
  }

  /** A settled first entry leaves the disk as it is and lets the run go on. */
  lemma SettledStep(disk: Disk, folder: string, listing: seq<Entry>, matchers: Matchers, now: int)
    requires listing != [] && forall e :: e in listing ==> e.path in disk && Settled(disk, folder, e)
    ensures RunFiles(disk, folder, listing, matchers, false, now) == RunFiles(disk, folder, listing[1..], matchers, false, now)
  {
    var e := listing[0];
    assert e in listing;
    if IsHeaderEntry(e) {
      var o := HeaderOutcome(disk, folder, e.path, matchers, false);
      assert o == Skipped || o == OpenFailed;
      assert Apply(disk, folder, e.path, o, now) == disk;
    }
  }

  /**
   * Running the tool a second time (outside a debug build) over the same
   * tree, with no header written since, parses nothing and writes nothing:
   * every header is up to date or still unreadable.
   */
  lemma RerunWritesNothing(disk: Disk, folder: string, listing: seq<Entry>, matchers: Matchers, debug: bool,
                           now: int, later: int)
    requires forall e :: e in listing ==> e.path in disk
    requires NotAfter(disk, now)
    requires RunFiles(disk, folder, listing, matchers, debug, now).1 == Finished
    ensures var after := RunFiles(disk, folder, listing, matchers, debug, now).0;
      RunFiles(after, folder, listing, matchers, false, later) == (after, Finished)
  {
    RunSettles(disk, folder, [], listing, matchers, debug, now);
    assert [] + listing == listing;
    SettledRunQuiet(RunFiles(disk, folder, listing, matchers, debug, now).0, folder, listing, matchers, later);
  }

  /**
   * Headers with the same file stem share both outputs: once one is
   * generated, another with the same stem that is not newer is skipped.
   */
  lemma SameStemShadowed(disk: Disk, folder: string, p: Entry, q: Entry, matchers: Matchers, debug: bool, now: int)
    requires IsHeaderEntry(p) && IsHeaderEntry(q) && p.path in disk && q.path in disk && NotAfter(disk, now)
    requires Stem(FileName(p.path)) == Stem(FileName(q.path))
    requires HeaderOutcome(disk, folder, p.path, matchers, debug).Generated?
    ensures HeaderOutcome(Apply(disk, folder, p.path, HeaderOutcome(disk, folder, p.path, matchers, debug), now),
                          folder, q.path, matchers, false) == Skipped
  {
    WrittenOutputsCurrent(disk, folder, p.path, q, HeaderOutcome(disk, folder, p.path, matchers, debug), now);
  }

  /** After writing the outputs for `path`, a header sharing its stem finds them current. */
  lemma WrittenOutputsCurrent(disk: Disk, folder: string, path: string, q: Entry, o: Outcome, now: int)
    requires IsHeaderEntry(q) && q.path in disk && NotAfter(disk, now) && o.Generated?
    requires Stem(FileName(path)) == Stem(FileName(q.path))
    ensures UpToDate(Apply(disk, folder, path, o, now), folder, q.path, false)
  {
    var written := Apply(disk, folder, path, o, now);
    var g := GeneratedHeaderPath(folder, q.path);
    assert g == GeneratedHeaderPath(folder, path);
    OutputsDistinct(folder, path);
    HeaderNotOverwritten(q, folder, path);
    assert written[g].time == now;
    assert written[q.path] == disk[q.path];
  }
}
