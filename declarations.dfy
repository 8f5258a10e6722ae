/**
 * The declaration parser: what `ParseClassHeader`, `ParseClassProperties` and
 * `ParseClassMethods` (src/HeaderTool.cpp) do with the matches of their
 * patterns on one closed class block.
 */
module Declarations {
  import opened Text
  import opened Records
  import opened Recognisers

  // ---------------------------------------------------------------------
  // Class header (ParseClassHeader)
  // ---------------------------------------------------------------------

  datatype ClassHeader = ClassHeader(className: string, baseClassName: string)

  /**
   * Only the first header match is used. Without a match both names stay
   * empty (the fields are freshly constructed strings), and the caller turns
   * that into an error.
   */
  function ParseClassHeader(matches: seq<ClassMatch>): (h: ClassHeader)
    ensures matches == [] ==> h == ClassHeader("", "")
    ensures matches != [] ==> h.className == matches[0].className
    ensures matches != [] && matches[0].baseClassName != "" ==> h.baseClassName == matches[0].baseClassName
    ensures h.className != "" ==> h.baseClassName != ""
    ensures h.baseClassName == h.className <==>
      (matches == [] || matches[0].baseClassName == "" || matches[0].baseClassName == matches[0].className)
  {
    if matches == [] then ClassHeader("", "")
    else
      var m := matches[0];
      ClassHeader(m.className, if m.baseClassName != "" then m.baseClassName else m.className)
  }

  /** Matches after the first never influence the header. */
  lemma HeaderUsesFirstMatchOnly(m: ClassMatch, rest: seq<ClassMatch>)
    ensures ParseClassHeader([m] + rest) == ParseClassHeader([m])
  {
  }

  // ---------------------------------------------------------------------
  // Comment filtering
  // ---------------------------------------------------------------------

  /** The `any_of` over the comment ranges: `pos` lies in some [start, end). */
  predicate InBlockComment(pos: nat, ranges: seq<Span>) {
    exists k :: 0 <= k < |ranges| && ranges[k].start <= pos < ranges[k].end
  }

  /** `rfind(c, pos)`: the last index at or before `pos` holding `c`. */
  function RFind(s: string, c: char, pos: nat): (r: Option<nat>)
    ensures r.Some? ==> r.value <= pos && r.value < |s| && s[r.value] == c
    ensures r.Some? ==> forall j :: r.value < j <= pos && j < |s| ==> s[j] != c
    ensures r.None? ==> forall j :: 0 <= j <= pos && j < |s| ==> s[j] != c
  {
    if |s| == 0 then None
    else if pos >= |s| then RFind(s, c, |s| - 1)
    else if s[pos] == c then Some(pos)
    else if pos == 0 then None
    else RFind(s, c, pos - 1)
  }

  /** `find(sub, from)`: the first index at or after `from` where `sub` begins. */
  function FindFrom(s: string, sub: string, from: nat): (r: Option<nat>)
    ensures r.Some? ==> from <= r.value && OccursAt(s, sub, r.value)
    ensures r.Some? ==> forall j :: from <= j < r.value ==> !OccursAt(s, sub, j)
    ensures r.None? ==> forall j :: from <= j ==> !OccursAt(s, sub, j)
    decreases |s| - from
  {
    if from + |sub| > |s| then None
    else if OccursAt(s, sub, from) then Some(from)
    else FindFrom(s, sub, from + 1)
  }

  /** `rfind('\n', pos) + 1`, where `npos + 1` wraps around to 0. */
  function LineStart(s: string, pos: nat): nat {
    match RFind(s, '\n', pos)
    case None => 0
    case Some(k) => k + 1
  }

  /** The source's test: the first `//` from the line start is at or before `pos`. */
  predicate LineCommentBefore(s: string, pos: nat) {
    match FindFrom(s, "//", LineStart(s, pos))
    case None => false
    case Some(c) => c <= pos
  }

  /**
   * The filter both match loops apply: not inside a block comment, and no
   * `//` between the start of the line and the match.
   */
  method IsKept(content: string, commentRanges: seq<Span>, position: nat) returns (keep: bool)
    ensures keep == Kept(content, commentRanges, position)
    ensures keep <==>
      && !InBlockComment(position, commentRanges)
      && !(exists k :: 0 <= k <= position && OccursAt(content, "//", k) &&
             forall j :: k <= j <= position && j < |content| ==> content[j] != '\n')
  {
    LineCommentBeforeIff(content, position);
    keep := !InBlockComment(position, commentRanges);
    if keep {
      var lineStart := LineStart(content, position);
      var commentPos := FindFrom(content, "//", lineStart);
      keep := commentPos.None? || commentPos.value > position;
    }
  }

  /** A match at `pos` survives both filters. */
  predicate Kept(s: string, ranges: seq<Span>, pos: nat) {
    !InBlockComment(pos, ranges) && !LineCommentBefore(s, pos)
  }

  /**
   * The `rfind`/`find` test means exactly: some `//` begins at or before `pos`
   * with no line break between it and `pos`.
   */
  lemma LineCommentBeforeIff(s: string, pos: nat)
    ensures LineCommentBefore(s, pos) <==>
      exists k :: 0 <= k <= pos && OccursAt(s, "//", k) &&
        forall j :: k <= j <= pos && j < |s| ==> s[j] != '\n'
  {
    var ls := LineStart(s, pos);
    assert forall j :: ls <= j <= pos && j < |s| ==> s[j] != '\n';
    match FindFrom(s, "//", ls)
    case None =>
      forall k | 0 <= k <= pos && OccursAt(s, "//", k)
        ensures exists j :: k <= j <= pos && j < |s| && s[j] == '\n'
      {
        assert k < ls;
        assert s[ls - 1] == '\n';
      }
    case Some(c) =>
      if c <= pos {
        assert forall j :: c <= j <= pos && j < |s| ==> s[j] != '\n';
      } else {
        forall k | 0 <= k <= pos && OccursAt(s, "//", k)
          ensures exists j :: k <= j <= pos && j < |s| && s[j] == '\n'
        {
          assert k < ls;
          assert s[ls - 1] == '\n';
        }
      }
  }

  // ---------------------------------------------------------------------
  // Attribute splitting (std::getline on ',' and space trimming)
  // ---------------------------------------------------------------------

  /** `find_first_not_of(' ')`. */
  function FirstNotSpace(t: string): (r: Option<nat>)
    ensures r.Some? ==> r.value < |t| && t[r.value] != ' ' && forall j :: 0 <= j < r.value ==> t[j] == ' '
    ensures r.None? ==> forall j :: 0 <= j < |t| ==> t[j] == ' '
  {
    if t == [] then None
    else if t[0] != ' ' then Some(0)
    else match FirstNotSpace(t[1..])
      case None => None
      case Some(k) => Some(k + 1)
  }

  /** `find_last_not_of(' ')`. */
  function LastNotSpace(t: string): (r: Option<nat>)
    ensures r.Some? ==> r.value < |t| && t[r.value] != ' ' && forall j :: r.value < j < |t| ==> t[j] == ' '
    ensures r.None? ==> forall j :: 0 <= j < |t| ==> t[j] == ' '
  {
    if t == [] then None
    else if t[|t| - 1] != ' ' then Some(|t| - 1)
    else LastNotSpace(t[..|t| - 1])
  }

  /** `erase(0, find_first_not_of(' '))`: with `npos` the whole token goes. */
  function EraseLeadingSpaces(t: string): string {
    match FirstNotSpace(t)
    case None => ""
    case Some(k) => t[k..]
  }

  /** `erase(find_last_not_of(' ') + 1)`: with `npos + 1 == 0` the whole token goes. */
  function EraseTrailingSpaces(t: string): string {
    match LastNotSpace(t)
    case None => ""
    case Some(k) => t[..k + 1]
  }

  function TrimSpaces(t: string): string {
    EraseTrailingSpaces(EraseLeadingSpaces(t))
  }

  /**
   * Trimming removes spaces, and only spaces, from both ends: the result is
   * a slice of the token with nothing but spaces around it, and neither ends
   * nor begins with a space.
   */
  lemma TrimSpacesSpec(t: string)
    ensures var r := TrimSpaces(t);
      && (r != [] ==> r[0] != ' ' && r[|r| - 1] != ' ')
      && exists a, b :: 0 <= a <= b <= |t| && t[a..b] == r &&
           (forall j :: 0 <= j < a ==> t[j] == ' ') && (forall j :: b <= j < |t| ==> t[j] == ' ')
  {
    match FirstNotSpace(t)
    case None =>
      assert t[0..0] == TrimSpaces(t);
    case Some(a) =>
      var u := t[a..];
      assert u[0] != ' ';
      match LastNotSpace(u)
      case None =>
        assert false;
      case Some(k) =>
        TrimmedSlice(t, a, k);
  }

  /** The slice between the first and the last non-space character is the trimmed token. */
  lemma TrimmedSlice(t: string, a: nat, k: nat)
    requires FirstNotSpace(t) == Some(a) && LastNotSpace(t[a..]) == Some(k)
    ensures a + k + 1 <= |t| && t[a..a + k + 1] == TrimSpaces(t)
    ensures t[a] != ' ' && t[a + k] != ' '
    ensures forall j :: 0 <= j < a ==> t[j] == ' '
    ensures forall j :: a + k + 1 <= j < |t| ==> t[j] == ' '
  {
    TrimmedEquals(t, a, k);
    assert t[a + k] == t[a..][k];
    ShiftedSpaces(t, a, k + 1);
  }

  lemma TrimmedEquals(t: string, a: nat, k: nat)
    requires FirstNotSpace(t) == Some(a) && LastNotSpace(t[a..]) == Some(k)
    ensures a + k + 1 <= |t| && t[a..a + k + 1] == TrimSpaces(t)
  {
    var u := t[a..];
    LeadingErased(t, a);
    assert TrimSpaces(t) == EraseTrailingSpaces(u);
    TrailingErased(u, k);
    SliceOfSuffix(t, a, k + 1);
  }

  lemma SliceOfSuffix(t: string, a: nat, m: nat)
    requires a + m <= |t|
    ensures t[a..][..m] == t[a..a + m]
  {
  }

  lemma LeadingErased(t: string, a: nat)
    requires FirstNotSpace(t) == Some(a)
    ensures a <= |t| && EraseLeadingSpaces(t) == t[a..]
  {
  }

  lemma TrailingErased(u: string, k: nat)
    requires LastNotSpace(u) == Some(k)
    ensures k < |u| && EraseTrailingSpaces(u) == u[..k + 1]
  {
  }

  /** Spaces at the end of a suffix are spaces at the end of the whole. */
  lemma ShiftedSpaces(t: string, a: nat, m: nat)
    requires a + m <= |t| && forall j :: m <= j < |t[a..]| ==> t[a..][j] == ' '
    ensures forall j :: a + m <= j < |t| ==> t[j] == ' '
  {
    forall j | a + m <= j < |t| ensures t[j] == ' ' {
      assert t[j] == t[a..][j - a];
    }
  }

  /** Each segment with its spaces trimmed. */
  function TrimAll(segments: seq<string>): (r: seq<string>)
    ensures |r| == |segments|
    ensures forall i :: 0 <= i < |r| ==> r[i] == TrimSpaces(segments[i])
  {
    if segments == [] then [] else [TrimSpaces(segments[0])] + TrimAll(segments[1..])
  }

  /** The attribute tokens of a `PROPERTY(...)` argument list. */
  function Attributes(arguments: string): seq<string> {
    TrimAll(GetlineSegments(arguments, ',', 0))
  }

  lemma NoAttributesFromEmptyArguments()
    ensures Attributes("") == []
  {
  }

  /** A comma-free argument with no spaces around it is a single attribute, itself. */
  lemma {:induction false} SingleAttribute(w: string)
    requires w != [] && ',' !in w && w[0] != ' ' && w[|w| - 1] != ' '
    ensures Attributes(w) == [w]
  {
    assert FindChar(w, ',', 0).None?;
    assert w[0..] == w;
    assert GetlineSegments(w, ',', 0) == [w];
    assert FirstNotSpace(w) == Some(0);
    assert LastNotSpace(w) == Some(|w| - 1);
    assert w[..|w|] == w;
  }

  lemma EditAttribute()
    ensures Attributes("edit") == ["edit"]
  {
    SingleAttribute("edit");
  }

  /**
   * Every attribute is free of commas and of spaces at both ends, and is
   * what is left of its getline segment once the spaces around it are gone.
   */
  lemma AttributesShape(arguments: string)
    ensures var attrs := Attributes(arguments);
      forall i :: 0 <= i < |attrs| ==>
        ',' !in attrs[i] && (attrs[i] != [] ==> attrs[i][0] != ' ' && attrs[i][|attrs[i]| - 1] != ' ')
  {
    var segments := GetlineSegments(arguments, ',', 0);
    GetlineSegmentsNoDelimiter(arguments, ',', 0);
    forall i | 0 <= i < |segments|
      ensures var a := TrimSpaces(segments[i]);
        ',' !in a && (a != [] ==> a[0] != ' ' && a[|a| - 1] != ' ')
    {
      assert segments[i] in segments;
      TrimmedShape(segments[i]);
    }
  }

  lemma TrimmedShape(t: string)
    requires ',' !in t
    ensures var a := TrimSpaces(t);
      ',' !in a && (a != [] ==> a[0] != ' ' && a[|a| - 1] != ' ')
  {
    TrimSpacesSpec(t);
    var a := TrimSpaces(t);
    var x, y :| 0 <= x <= y <= |t| && t[x..y] == a;
    assert forall j :: 0 <= j < |a| ==> a[j] == t[x + j];
  }

  lemma TrimAllCons(segment: string, rest: seq<string>)
    ensures TrimAll([segment] + rest) == [TrimSpaces(segment)] + TrimAll(rest)
  {
    assert ([segment] + rest)[1..] == rest;
  }

  /**
   * The getline loop of ParseClassProperties: read segments from an input
   * stream over the argument text, trim each in place, append it.
   */
  method SplitArguments(arguments: string) returns (tokens: seq<string>)
    ensures tokens == Attributes(arguments)
  {
    tokens := [];
    var pos := 0;
    while pos < |arguments|
      invariant pos <= |arguments|
      invariant tokens + TrimAll(GetlineSegments(arguments, ',', pos)) == Attributes(arguments)
      decreases |arguments| - pos
    {
      var read := GetlineNext(arguments, ',', pos);
      var token := read.0;
      TrimmedNext(arguments, pos);
      token := EraseLeadingSpaces(token);
      token := EraseTrailingSpaces(token);
      AppendAssoc(tokens, [token], TrimAll(GetlineSegments(arguments, ',', read.1)));
      tokens := tokens + [token];
      pos := read.1;
    }
    assert tokens + TrimAll([]) == tokens;
  }

  /** One getline call contributes the first trimmed token. */
  lemma TrimmedNext(arguments: string, pos: nat)
    requires pos < |arguments|
    ensures var read := GetlineNext(arguments, ',', pos);
      TrimAll(GetlineSegments(arguments, ',', pos)) == [TrimSpaces(read.0)] + TrimAll(GetlineSegments(arguments, ',', read.1))
  {
    var read := GetlineNext(arguments, ',', pos);
    TrimAllCons(read.0, GetlineSegments(arguments, ',', read.1));
  }

  // ---------------------------------------------------------------------
  // Properties (ParseClassProperties)
  // ---------------------------------------------------------------------

  function PropertyOf(m: PropertyMatch): Property {
    Property(Attributes(m.arguments), m.typeName, m.name)
  }

  /** The properties of the kept matches among `matches`, in match order. */
  function KeptProperties(content: string, ranges: seq<Span>, matches: seq<PropertyMatch>): seq<Property> {
    if matches == [] then []
    else
      var last := matches[|matches| - 1];
      KeptProperties(content, ranges, matches[..|matches| - 1]) +
        (if Kept(content, ranges, last.position) then [PropertyOf(last)] else [])
  }

  lemma KeptPropertiesSnoc(content: string, ranges: seq<Span>, xs: seq<PropertyMatch>, m: PropertyMatch)
    ensures KeptProperties(content, ranges, xs + [m]) ==
      KeptProperties(content, ranges, xs) + (if Kept(content, ranges, m.position) then [PropertyOf(m)] else [])
  {
    assert (xs + [m])[..|xs|] == xs;
  }

  lemma KeptPropertiesNext(content: string, ranges: seq<Span>, matches: seq<PropertyMatch>, i: nat)
    requires i < |matches|
    ensures KeptProperties(content, ranges, matches[..i + 1]) == KeptProperties(content, ranges, matches[..i]) +
      (if Kept(content, ranges, matches[i].position) then [PropertyOf(matches[i])] else [])
  {
    assert matches[..i + 1] == matches[..i] + [matches[i]];
    KeptPropertiesSnoc(content, ranges, matches[..i], matches[i]);
  }

  /** The loop step: a kept match adds its property, any other match adds nothing. */
  lemma KeptPropertiesStep(content: string, ranges: seq<Span>, matches: seq<PropertyMatch>, i: nat,
                           properties: seq<Property>, keep: bool, p: Property)
    requires i < |matches| && properties == KeptProperties(content, ranges, matches[..i])
    requires keep == Kept(content, ranges, matches[i].position) && p == PropertyOf(matches[i])
    ensures (if keep then properties + [p] else properties) == KeptProperties(content, ranges, matches[..i + 1])
  {
    KeptPropertiesNext(content, ranges, matches, i);
  }

  /** Filtering is done match by match: it distributes over concatenation, so order is kept. */
  lemma {:induction false} KeptPropertiesAppend(content: string, ranges: seq<Span>, xs: seq<PropertyMatch>, ys: seq<PropertyMatch>)
    ensures KeptProperties(content, ranges, xs + ys) ==
      KeptProperties(content, ranges, xs) + KeptProperties(content, ranges, ys)
    decreases |ys|
  {
    if ys != [] {
      var ys' := ys[..|ys| - 1];
      KeptPropertiesAppend(content, ranges, xs, ys');
      assert (xs + ys)[..|xs + ys| - 1] == xs + ys';
      assert (xs + ys)[|xs + ys| - 1] == ys[|ys| - 1];
    } else {
      assert xs + ys == xs;
    }
  }

  /** A property appears exactly when some match outside every comment produced it. */
  lemma {:induction false} KeptPropertiesMembers(content: string, ranges: seq<Span>, matches: seq<PropertyMatch>, p: Property)
    ensures p in KeptProperties(content, ranges, matches) <==>
      exists m :: m in matches && Kept(content, ranges, m.position) && PropertyOf(m) == p
    decreases |matches|
  {
    if matches != [] {
      var init := matches[..|matches| - 1];
      var last := matches[|matches| - 1];
      assert matches == init + [last];
      KeptPropertiesMembers(content, ranges, init, p);
      KeptPropertiesMembersStep(content, ranges, init, last, p);
    }
  }

  lemma KeptPropertiesMembersStep(content: string, ranges: seq<Span>, init: seq<PropertyMatch>, last: PropertyMatch, p: Property)
    requires p in KeptProperties(content, ranges, init) <==>
      exists m :: m in init && Kept(content, ranges, m.position) && PropertyOf(m) == p
    ensures p in KeptProperties(content, ranges, init + [last]) <==>
      exists m :: m in init + [last] && Kept(content, ranges, m.position) && PropertyOf(m) == p
  {
    var matches := init + [last];
    var keep := Kept(content, ranges, last.position);
    KeptPropertiesSnoc(content, ranges, init, last);
    if p in KeptProperties(content, ranges, matches) {
      if p !in KeptProperties(content, ranges, init) {
        assert keep && p == PropertyOf(last) && last in matches;
      } else {
        var m :| m in init && Kept(content, ranges, m.position) && PropertyOf(m) == p;
        assert m in matches;
      }
    }
    if exists m :: m in matches && Kept(content, ranges, m.position) && PropertyOf(m) == p {
      var m :| m in matches && Kept(content, ranges, m.position) && PropertyOf(m) == p;
      if m !in init {
        assert m == last;
      }
    }
  }

  /** The `sregex_iterator` loop over the property matches. */
  method ParseClassProperties(content: string, matches: seq<PropertyMatch>) returns (properties: seq<Property>)
    ensures properties == KeptProperties(content, BlockComments(content), matches)
  {
    var commentRanges := BlockComments(content);
    properties := [];
    var i := 0;
    while i < |matches|
      invariant i <= |matches|
      invariant properties == KeptProperties(content, commentRanges, matches[..i])
    {
      var match_ := matches[i];
      var keep := IsKept(content, commentRanges, match_.position);
      if keep {
        var arguments := SplitArguments(match_.arguments);
        var p := Property(arguments, match_.typeName, match_.name);
        KeptPropertiesStep(content, commentRanges, matches, i, properties, keep, p);
        properties := properties + [p];
      } else {
        KeptPropertiesStep(content, commentRanges, matches, i, properties, keep, PropertyOf(match_));
      }
      i := i + 1;
    }
    assert matches[..i] == matches;
  }

  // ---------------------------------------------------------------------
  // Methods (ParseClassMethods)
  // ---------------------------------------------------------------------

  /** The names of the kept method matches, in match order. */
  function KeptMethods(content: string, ranges: seq<Span>, matches: seq<MethodMatch>): seq<string> {
    if matches == [] then []
    else
      var last := matches[|matches| - 1];
      KeptMethods(content, ranges, matches[..|matches| - 1]) +
        (if Kept(content, ranges, last.position) then [last.name] else [])
  }

  lemma KeptMethodsSnoc(content: string, ranges: seq<Span>, xs: seq<MethodMatch>, m: MethodMatch)
    ensures KeptMethods(content, ranges, xs + [m]) ==
      KeptMethods(content, ranges, xs) + (if Kept(content, ranges, m.position) then [m.name] else [])
  {
    assert (xs + [m])[..|xs|] == xs;
  }

  lemma KeptMethodsNext(content: string, ranges: seq<Span>, matches: seq<MethodMatch>, i: nat)
    requires i < |matches|
    ensures KeptMethods(content, ranges, matches[..i + 1]) == KeptMethods(content, ranges, matches[..i]) +
      (if Kept(content, ranges, matches[i].position) then [matches[i].name] else [])
  {
    assert matches[..i + 1] == matches[..i] + [matches[i]];
    KeptMethodsSnoc(content, ranges, matches[..i], matches[i]);
  }

  lemma {:induction false} KeptMethodsMembers(content: string, ranges: seq<Span>, matches: seq<MethodMatch>, name: string)
    ensures name in KeptMethods(content, ranges, matches) <==>
      exists m :: m in matches && Kept(content, ranges, m.position) && m.name == name
    decreases |matches|
  {
    if matches != [] {
      var init := matches[..|matches| - 1];
      var last := matches[|matches| - 1];
      KeptMethodsMembers(content, ranges, init, name);
      assert matches == init + [last];
      if name in KeptMethods(content, ranges, matches) && name !in KeptMethods(content, ranges, init) {
        assert last in matches;
      }
      if exists m :: m in matches && Kept(content, ranges, m.position) && m.name == name {
        var m :| m in matches && Kept(content, ranges, m.position) && m.name == name;
        if m !in init {
          assert m == last;
        }
      }
    }
  }

  /** Every kept method name is a run of word characters. */
  lemma {:induction false} KeptMethodNamesAreWords(content: string, ranges: seq<Span>)
    ensures var names := KeptMethods(content, ranges, FunctionMatches(content));
      forall i, j :: 0 <= i < |names| && 0 <= j < |names[i]| ==> IsWord(names[i][j])
  {
    var ms := FunctionMatches(content);
    var names := KeptMethods(content, ranges, ms);
    forall i, j | 0 <= i < |names| && 0 <= j < |names[i]| ensures IsWord(names[i][j]) {
      KeptMethodsMembers(content, ranges, ms, names[i]);
      var m :| m in ms && Kept(content, ranges, m.position) && m.name == names[i];
      FunctionMatchNameIsWord(content, m);
    }
  }

  lemma FunctionMatchNameIsWord(content: string, m: MethodMatch)
    requires m in FunctionMatches(content)
    ensures forall j :: 0 <= j < |m.name| ==> IsWord(m.name[j])
  {
    FunctionMatchesSound(content);
  }

  /** The `sregex_iterator` loop over the method matches. */
  method ParseClassMethods(content: string) returns (methods: seq<string>)
    ensures methods == KeptMethods(content, BlockComments(content), FunctionMatches(content))
  {
    var commentRanges := BlockComments(content);
    var matches := FunctionMatches(content);
    methods := [];
    var i := 0;
    while i < |matches|
      invariant i <= |matches|
      invariant methods == KeptMethods(content, commentRanges, matches[..i])
    {
      var match_ := matches[i];
      KeptMethodsNext(content, commentRanges, matches, i);
      var keep := IsKept(content, commentRanges, match_.position);
      if keep {
        methods := methods + [match_.name];
      }
      i := i + 1;
    }
    assert matches[..i] == matches;
  }

  // ---------------------------------------------------------------------
  // One closed class block
  // ---------------------------------------------------------------------

  /**
   * What the scanner does with a closed block: header first, the error when
   * no class name was found (before properties and methods are looked at),
   * then properties and methods.
   */
  function ParseClass(content: string, lineNumber: nat, matchers: Matchers): (r: Result<ClassProperties>)
    ensures r.Err? <==> ParseClassHeader(matchers.classHeaders(content)).className == ""
    ensures r.Err? ==> r.error == ClassNameNotFound(content)
    ensures r.Ok? ==> r.value.className != "" && r.value.baseClassName != "" && r.value.lineNumber == lineNumber
  {
    var header := ParseClassHeader(matchers.classHeaders(content));
    if header.className == "" then Err(ClassNameNotFound(content))
    else
      var ranges := BlockComments(content);
      Ok(ClassProperties(
        header.className, header.baseClassName, lineNumber,
        KeptProperties(content, ranges, matchers.properties(content)),
        KeptMethods(content, ranges, FunctionMatches(content))))
  }
}
