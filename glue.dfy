/**
 * `CreateGeneratedFile` (src/HeaderTool.cpp): the `<stem>.generated.h` glue
 * header. For every class it defines a `<ID>_<line>_GENERATED_BODY` macro
 * (the class body expansion), and it collects the exported entry points of
 * all classes into one `END_FILE()` macro. `<ID>` is the header's path made
 * into an identifier.
 *
 * `GeneratedFile` states the text that results; the method builds it the
 * way the source does, with `+=` in nested loops.
 */
module Glue {
  import opened Text
  import opened Records

  // ---------------------------------------------------------------------
  // The path identifier
  // ---------------------------------------------------------------------

  /** What the `std::transform` pass makes of one character. */
  function IdChar(c: char): (d: char)
    ensures IsUpper(d) || IsDigit(d) || d == '_'
    ensures IsAlnum(c) ==> d == ToUpper(c)
    ensures !IsAlnum(c) ==> d == '_'
  {
    if IsAlnum(c) then ToUpper(c) else '_'
  }

  /** The path with every character mapped by `IdChar`. */
  function PathId(path: string): string {
    seq(|path|, i requires 0 <= i < |path| => IdChar(path[i]))
  }

  /** `std::replace(…, '/', '_')`, the first pass. */
  function ReplaceSlashes(path: string): string {
    seq(|path|, i requires 0 <= i < |path| => if path[i] == '/' then '_' else path[i])
  }

  /**
   * The identifier keeps the length of the path and consists only of upper
   * case letters, digits and underscores, so it can prefix a macro name.
   */
  lemma PathIdShape(path: string)
    ensures |PathId(path)| == |path|
    ensures forall i :: 0 <= i < |path| ==> var d := PathId(path)[i]; IsUpper(d) || IsDigit(d) || d == '_'
  {
  }

  /** The replace pass changes nothing the transform pass would not: `/` is not alphanumeric. */
  lemma ReplacePassRedundant(path: string)
    ensures PathId(ReplaceSlashes(path)) == PathId(path)
  {
  }

  /** An identifier maps to itself. */
  lemma PathIdIdempotent(path: string)
    ensures PathId(PathId(path)) == PathId(path)
  {
    var id := PathId(path);
    forall i | 0 <= i < |id| ensures IdChar(id[i]) == id[i] {
      assert IsUpper(id[i]) || IsDigit(id[i]) || id[i] == '_';
    }
  }

  /** Different paths can share an identifier: every separator and dot becomes `_`. */
  lemma PathIdCollision()
    ensures PathId("a/b.h") == PathId("a_b.h") == "A_B_H"
  {
    assert PathId("a/b.h") == [IdChar('a'), IdChar('/'), IdChar('b'), IdChar('.'), IdChar('h')];
    assert PathId("a_b.h") == [IdChar('a'), IdChar('_'), IdChar('b'), IdChar('.'), IdChar('h')];
  }

  /** The two in-place passes over the path's characters. */
  method MakePathDefine(path: string) returns (id: string)
    ensures id == PathId(path)
  {
    var buffer := new char[|path|](i requires 0 <= i < |path| => path[i]);
    for i := 0 to buffer.Length
      invariant buffer[..] == ReplaceSlashes(path)[..i] + path[i..]
    {
      if buffer[i] == '/' {
        buffer[i] := '_';
      }
    }
    for i := 0 to buffer.Length
      invariant buffer[..] == PathId(ReplaceSlashes(path))[..i] + ReplaceSlashes(path)[i..]
    {
      buffer[i] := if IsAlnum(buffer[i]) then ToUpper(buffer[i]) else '_';
    }
    ReplacePassRedundant(path);
    id := buffer[..];
  }

  // ---------------------------------------------------------------------
  // The per-class body macro
  // ---------------------------------------------------------------------

  /** `%s_%d_GENERATED_BODY`, the name `GENERATED_BODY()` expands to on that line. */
  function MacroName(id: string, lineNumber: nat): string {
    id + "_" + Decimal(lineNumber) + "_GENERATED_BODY"
  }

  /** Within one header, distinct marker lines give distinct macro names. */
  lemma MacroNameInjective(id: string, m: nat, n: nat)
    requires MacroName(id, m) == MacroName(id, n)
    ensures m == n
  {
    var a := MacroName(id, m);
    var b := MacroName(id, n);
    var start := |id| + 1;
    assert |Decimal(m)| == |Decimal(n)|;
    assert a[start..start + |Decimal(m)|] == Decimal(m);
    assert b[start..start + |Decimal(n)|] == Decimal(n);
    DecimalInjective(m, n);
  }

  const ParentSetLine := "\t\t\tstd::set<const char*> list = Super::Internal_GetClassNames(); \\\n"
  const RootSetLine := "\t\t\tstd::set<const char*> list; \\\n"

  /** The line adding the class's own name to the set (spaced differently in the two templates). */
  function InsertLine(className: string, hasParent: bool): string {
    Concat(["\t\t\tlist.insert(", className, if hasParent then "::Internal_GetClassName()); \\\n" else "::Internal_GetClassName());\\\n"])
  }

  /** `#define <ID>_<line>_GENERATED_BODY\`, the first line of the body macro. */
  function DefineLine(id: string, lineNumber: nat): string {
    Concat(["#define ", MacroName(id, lineNumber), "\\\n"])
  }

  /** `typedef <base> Super;`, the last line of the body macro. */
  function SuperLine(baseClassName: string): string {
    Concat(["\t\ttypedef ", baseClassName, " Super;\n"])
  }

  /**
   * The lines of the body macro, the format string with its arguments in
   * place. The arguments after the line number are the class name three
   * times and then the base class name; the class name passed last has no
   * conversion left and is ignored, so `Super` names the base class. The
   * template with a call to the parent's accessor is chosen exactly when the
   * base class name differs from the class name.
   */
  function BodyLines(id: string, c: ClassProperties): seq<string> {
    var hasParent := c.baseClassName != c.className;
    [ DefineLine(id, c.lineNumber),
      "\tpublic:\\\n",
      "\t\tvirtual void* Clone() {\\\n",
      Concat(["\t\t\treturn new ", c.className, "(*this);\\\n"]),
      "\t\t}\\\n",
      "\t\t\\\n",
      Concat(["\t\tvirtual const char* Internal_GetClassName() const {return \"", c.className, "\";}\\\n"]),
      "\t\tvirtual std::set<const char*> Internal_GetClassNames() const\\\n",
      "\t\t{\\\n",
      if hasParent then ParentSetLine else RootSetLine,
      InsertLine(c.className, hasParent),
      "\t\t\treturn list;\\\n",
      "\t\t}\\\n",
      "\tprivate:\\\n",
      SuperLine(c.baseClassName) ]
  }

  function GeneratedBody(id: string, c: ClassProperties): string {
    Concat(BodyLines(id, c))
  }

  /** The body macro opens with its `#define` line and closes with the `Super` typedef of the base class. */
  lemma GeneratedBodyEnds(id: string, c: ClassProperties)
    ensures StartsWith(GeneratedBody(id, c), DefineLine(id, c.lineNumber))
    ensures EndsWith(GeneratedBody(id, c), SuperLine(c.baseClassName))
  {
    ConcatEnds(BodyLines(id, c));
  }

  /** Where the class-name set is started inside the body macro. */
  function SetLineOffset(id: string, c: ClassProperties): nat {
    |Concat(BodyLines(id, c)[..9])|
  }

  /** The accessor starts from the parent's set exactly for a class whose base differs from itself. */
  lemma GeneratedBodyCallsParent(id: string, c: ClassProperties)
    ensures OccursAt(GeneratedBody(id, c), ParentSetLine, SetLineOffset(id, c)) <==> c.baseClassName != c.className
  {
    var lines := BodyLines(id, c);
    ConcatOccurs(lines, 9);
    if c.baseClassName == c.className {
      var body := GeneratedBody(id, c);
      var p := SetLineOffset(id, c);
      assert OccursAt(body, RootSetLine, p);
      assert body[p + 29] == RootSetLine[29] != ParentSetLine[29];
    }
  }

  // ---------------------------------------------------------------------
  // The END_FILE() export list
  // ---------------------------------------------------------------------

  const EndFileHeader := "#undef END_FILE\n#define END_FILE()\\\n"

  /** The factory entry: the format's fixed pieces with the class name in place of each `%s`. */
  function CreateEntry(className: string): string {
    Concat(["\\\n\tEXPORT_FUNC void* Internal_Create_", className, "() {return new ", className, "();}\\\n"])
  }

  /** The getter and setter entries of one property. */
  function PropertyEntry(className: string, name: string): string {
    Concat(["\tEXPORT_FUNC void* Internal_Get_", className, "_", name, "(", className, "* object) {return &object->", name, ";}\\\n",
      "\tEXPORT_FUNC void Internal_Set_", className, "_", name, "(", className, "* object, void* value){ object->", name,
      " = *reinterpret_cast<decltype(object->", name, ")*>(value);}\\\n"])
  }

  /** The caller entry of one method. */
  function MethodEntry(className: string, name: string): string {
    Concat(["\tEXPORT_FUNC void Internal_Call_", className, "_", name, "(", className, "* object) { object->", name, "();}\\\n"])
  }

  /** A getter and a setter entry per property, in order. */
  function PropertyParts(c: ClassProperties): (parts: seq<string>)
    ensures |parts| == |c.properties|
  {
    seq(|c.properties|, k requires 0 <= k < |c.properties| => PropertyEntry(c.className, c.properties[k].name))
  }

  /** A caller entry per method, in order. */
  function MethodParts(c: ClassProperties): (parts: seq<string>)
    ensures |parts| == |c.methods|
  {
    seq(|c.methods|, k requires 0 <= k < |c.methods| => MethodEntry(c.className, c.methods[k]))
  }

  /** One class's exports: the factory, then the property entries, then the method entries. */
  function ClassExports(c: ClassProperties): string {
    CreateEntry(c.className) + Concat(PropertyParts(c)) + Concat(MethodParts(c))
  }

  function ExportParts(classes: seq<ClassProperties>): seq<string> {
    seq(|classes|, i requires 0 <= i < |classes| => ClassExports(classes[i]))
  }

  function BodyParts(id: string, classes: seq<ClassProperties>): seq<string> {
    seq(|classes|, i requires 0 <= i < |classes| => GeneratedBody(id, classes[i]) + "\n")
  }

  const Pragma := "#pragma once\n"
  const FileIdDefine := "\n#undef CURRENT_FILE_ID\n#define CURRENT_FILE_ID "

  /** The whole glue header for the classes of one file. */
  function GeneratedFile(id: string, classes: seq<ClassProperties>): string {
    Pragma + Concat(BodyParts(id, classes)) + EndFileHeader + Concat(ExportParts(classes)) + FileIdDefine + id
  }

  // ---------------------------------------------------------------------
  // Where each part lands
  // ---------------------------------------------------------------------

  /** Where each of six sections lands when they are written one after another. */
  lemma SectionOffsets(a: string, b: string, c: string, d: string, e: string, f: string)
    ensures var s := a + b + c + d + e + f;
      && StartsWith(s, a)
      && OccursAt(s, b, |a|)
      && OccursAt(s, c, |a| + |b|)
      && OccursAt(s, d, |a| + |b| + |c|)
      && EndsWith(s, f)
  {
    var s := a + b + c + d + e + f;
    assert s[..|a|] == a;
    assert s[|a|..|a| + |b|] == b;
    assert s[|a| + |b|..|a| + |b| + |c|] == c;
    assert s[|a| + |b| + |c|..|a| + |b| + |c| + |d|] == d;
    assert s[|s| - |f|..] == f;
  }

  /** Six sections written one after another open with the first and end with the last two. */
  lemma FileFrame(a: string, b: string, c: string, d: string, e: string, f: string)
    ensures StartsWith(a + b + c + d + e + f, a)
    ensures EndsWith(a + b + c + d + e + f, e + f)
  {
    var s := a + b + c + d + e + f;
    assert s[..|a|] == a;
    assert s[|s| - |e + f|..] == e + f;
  }

  lemma OccursWithin(s: string, t: string, u: string, p: int, q: int)
    requires OccursAt(s, t, p) && OccursAt(t, u, q)
    ensures OccursAt(s, u, p + q)
  {
    assert forall j :: 0 <= j < |u| ==> s[p + q + j] == t[q + j] == u[j];
  }

  /** A piece of the fourth of six sections, at the offset `at` of text `s`. */
  lemma PieceInFourth(s: string, a: string, b: string, c: string, parts: seq<string>, e: string, f: string,
                      k: nat, piece: string, at: int)
    requires s == a + b + c + Concat(parts) + e + f
    requires k < |parts| && piece == parts[k] && at == |a| + |b| + |c| + |Concat(parts[..k])|
    ensures OccursAt(s, piece, at)
  {
    SectionOffsets(a, b, c, Concat(parts), e, f);
    ConcatOccurs(parts, k);
    OccursWithin(s, Concat(parts), parts[k], |a| + |b| + |c|, |Concat(parts[..k])|);
  }

  /** The file opens with `#pragma once` and ends with the path identifier. */
  lemma GeneratedFileEnds(id: string, classes: seq<ClassProperties>)
    ensures StartsWith(GeneratedFile(id, classes), Pragma)
    ensures EndsWith(GeneratedFile(id, classes), FileIdDefine + id)
  {
    FileFrame(Pragma, Concat(BodyParts(id, classes)), EndFileHeader, Concat(ExportParts(classes)), FileIdDefine, id);
  }

  /**
   * Every class's body macro is in the file, in class order: right after
   * `#pragma once` and the bodies of the classes before it.
   */
  lemma GeneratedFileHasBody(id: string, classes: seq<ClassProperties>, i: nat)
    requires i < |classes|
    ensures OccursAt(GeneratedFile(id, classes), GeneratedBody(id, classes[i]) + "\n",
      |Pragma| + |Concat(BodyParts(id, classes)[..i])|)
  {
    var bodies := BodyParts(id, classes);
    var b := Concat(bodies);
    SectionOffsets(Pragma, b, EndFileHeader, Concat(ExportParts(classes)), FileIdDefine, id);
    ConcatOccurs(bodies, i);
    OccursWithin(GeneratedFile(id, classes), b, bodies[i], |Pragma|, |Concat(bodies[..i])|);
  }

  /** Where the exports of the first class start: after the bodies and the `END_FILE()` header. */
  function ExportsOffset(id: string, classes: seq<ClassProperties>): nat {
    |Pragma| + |Concat(BodyParts(id, classes))| + |EndFileHeader|
  }

  /**
   * After all the bodies comes the `END_FILE()` header, and then every
   * class's exports, in class order.
   */
  lemma GeneratedFileHasExports(id: string, classes: seq<ClassProperties>, i: nat)
    requires i < |classes|
    ensures OccursAt(GeneratedFile(id, classes), ClassExports(classes[i]),
      ExportsOffset(id, classes) + |Concat(ExportParts(classes)[..i])|)
  {
    PieceInFourth(GeneratedFile(id, classes), Pragma, Concat(BodyParts(id, classes)), EndFileHeader, ExportParts(classes),
      FileIdDefine, id, i, ClassExports(classes[i]), ExportsOffset(id, classes) + |Concat(ExportParts(classes)[..i])|);
  }

  /** A class's exports open with its factory entry. */
  lemma ClassExportsStart(c: ClassProperties)
    ensures StartsWith(ClassExports(c), CreateEntry(c.className))
  {
    ThreeParts(CreateEntry(c.className), Concat(PropertyParts(c)), Concat(MethodParts(c)));
  }

  /** Each property's getter and setter follow the factory and the entries of the properties before it. */
  lemma ClassExportsHasProperty(c: ClassProperties, k: nat)
    requires k < |c.properties|
    ensures OccursAt(ClassExports(c), PropertyEntry(c.className, c.properties[k].name),
      |CreateEntry(c.className)| + |Concat(PropertyParts(c)[..k])|)
  {
    var ps := PropertyParts(c);
    assert ps[k] == PropertyEntry(c.className, c.properties[k].name);
    ThreeParts(CreateEntry(c.className), Concat(ps), Concat(MethodParts(c)));
    ConcatOccurs(ps, k);
    OccursWithin(ClassExports(c), Concat(ps), ps[k], |CreateEntry(c.className)|, |Concat(ps[..k])|);
  }

  /** Each method's caller follows all property entries and the callers of the methods before it. */
  lemma ClassExportsHasMethod(c: ClassProperties, k: nat)
    requires k < |c.methods|
    ensures OccursAt(ClassExports(c), MethodEntry(c.className, c.methods[k]),
      |CreateEntry(c.className)| + |Concat(PropertyParts(c))| + |Concat(MethodParts(c)[..k])|)
  {
    var ms := MethodParts(c);
    ThreeParts(CreateEntry(c.className), Concat(PropertyParts(c)), Concat(ms));
    ConcatOccurs(ms, k);
    OccursWithin(ClassExports(c), Concat(ms), ms[k], |CreateEntry(c.className)| + |Concat(PropertyParts(c))|, |Concat(ms[..k])|);
  }

  /** Two classes that agree on everything the glue header uses: names, base, marker line and methods. */
  predicate SameNames(c: ClassProperties, d: ClassProperties) {
    && c.className == d.className && c.baseClassName == d.baseClassName
    && c.lineNumber == d.lineNumber && c.methods == d.methods
    && |c.properties| == |d.properties|
    && forall k :: 0 <= k < |c.properties| ==> c.properties[k].name == d.properties[k].name
  }

  /** Property types and attributes never reach the glue header: only names do. */
  lemma GeneratedFileIgnoresTypes(id: string, classes: seq<ClassProperties>, others: seq<ClassProperties>)
    requires |others| == |classes|
    requires forall i :: 0 <= i < |classes| ==> SameNames(others[i], classes[i])
    ensures GeneratedFile(id, others) == GeneratedFile(id, classes)
  {
    SameBodies(id, classes, others);
    SameExports(classes, others);
  }

  lemma SameBodies(id: string, classes: seq<ClassProperties>, others: seq<ClassProperties>)
    requires |others| == |classes|
    requires forall i :: 0 <= i < |classes| ==> SameNames(others[i], classes[i])
    ensures BodyParts(id, others) == BodyParts(id, classes)
  {
    forall i | 0 <= i < |classes| ensures BodyParts(id, others)[i] == BodyParts(id, classes)[i] {
      SameNamesSameBody(id, others[i], classes[i]);
    }
  }

  lemma SameExports(classes: seq<ClassProperties>, others: seq<ClassProperties>)
    requires |others| == |classes|
    requires forall i :: 0 <= i < |classes| ==> SameNames(others[i], classes[i])
    ensures ExportParts(others) == ExportParts(classes)
  {
    forall i | 0 <= i < |classes| ensures ExportParts(others)[i] == ExportParts(classes)[i] {
      SameNamesSameExports(others[i], classes[i]);
    }
  }

  /** Two classes that agree on everything but property types get the same body macro... */
  lemma SameNamesSameBody(id: string, c: ClassProperties, d: ClassProperties)
    requires SameNames(c, d)
    ensures GeneratedBody(id, c) + "\n" == GeneratedBody(id, d) + "\n"
  {
    assert BodyLines(id, c) == BodyLines(id, d);
  }

  /** ...and the same exports. */
  lemma SameNamesSameExports(c: ClassProperties, d: ClassProperties)
    requires SameNames(c, d)
    ensures ClassExports(c) == ClassExports(d)
  {
    assert PropertyParts(c) == PropertyParts(d);
    assert MethodParts(c) == MethodParts(d);
  }

  // ---------------------------------------------------------------------
  // The emitter
  // ---------------------------------------------------------------------

  /**
   * A text holding `head` and the first `j` pieces, extended by piece `j`,
   * holds `head` and the first `j + 1` pieces.
   */
  lemma AppendPiece(head: string, parts: seq<string>, j: nat, text: string, piece: string)
    requires j < |parts| && parts[j] == piece
    requires text == head + Concat(parts[..j])
    ensures text + piece == head + Concat(parts[..j + 1])
  {
    assert parts[..j + 1] == parts[..j] + [piece];
    ConcatSnoc(parts[..j], piece);
    AppendAssoc(head, Concat(parts[..j]), piece);
  }

  /** The file text so far, extended by the body of class `i`. */
  lemma AppendBody(id: string, classes: seq<ClassProperties>, i: nat, text: string)
    requires i < |classes| && text == Pragma + Concat(BodyParts(id, classes)[..i])
    ensures text + (GeneratedBody(id, classes[i]) + "\n") == Pragma + Concat(BodyParts(id, classes)[..i + 1])
  {
    AppendPiece(Pragma, BodyParts(id, classes), i, text, GeneratedBody(id, classes[i]) + "\n");
  }

  /** The `END_FILE()` text so far, extended by the exports of class `i`. */
  lemma AppendExports(classes: seq<ClassProperties>, i: nat, text: string)
    requires i < |classes| && text == EndFileHeader + Concat(ExportParts(classes)[..i])
    ensures text + ClassExports(classes[i]) == EndFileHeader + Concat(ExportParts(classes)[..i + 1])
  {
    AppendPiece(EndFileHeader, ExportParts(classes), i, text, ClassExports(classes[i]));
  }

  /**
   * The body of the class loop that extends `END_FILE()`: the factory entry,
   * then a getter and setter per property, then (when there are methods) a
   * caller per method.
   */
  method AppendClassExports(endFile: string, c: ClassProperties) returns (r: string)
    ensures r == endFile + ClassExports(c)
  {
    var ps := PropertyParts(c);
    var ms := MethodParts(c);
    r := endFile + CreateEntry(c.className);
    ghost var afterCreate := r;
    assert ps[..0] == [];
    for k := 0 to |c.properties|
      invariant r == afterCreate + Concat(ps[..k])
    {
      AppendPiece(afterCreate, ps, k, r, PropertyEntry(c.className, c.properties[k].name));
      r := r + PropertyEntry(c.className, c.properties[k].name);
    }
    assert ps[..|ps|] == ps;
    ghost var afterProperties := r;
    assert ms[..0] == [];
    if c.methods != [] {
      for k := 0 to |c.methods|
        invariant r == afterProperties + Concat(ms[..k])
      {
        AppendPiece(afterProperties, ms, k, r, MethodEntry(c.className, c.methods[k]));
        r := r + MethodEntry(c.className, c.methods[k]);
      }
      assert ms[..|ms|] == ms;
    }
    AppendThree(endFile, CreateEntry(c.className), Concat(ps), Concat(ms));
  }

  /**
   * The text `CreateGeneratedFile` writes for the header at `path` (in
   * generic form). Writing it to the output folder is done by the caller.
   */
  method CreateGeneratedFile(path: string, properties: HeaderProperties) returns (fileContent: string)
    ensures fileContent == GeneratedFile(PathId(path), properties.classProperties)
  {
    var classes := properties.classProperties;
    fileContent := Pragma;
    var endFile := EndFileHeader;
    var pathDefine := MakePathDefine(path);
    assert classes[..0] == [] && BodyParts(pathDefine, classes)[..0] == [] && ExportParts(classes)[..0] == [];
    for i := 0 to |classes|
      invariant fileContent == Pragma + Concat(BodyParts(pathDefine, classes)[..i])
      invariant endFile == EndFileHeader + Concat(ExportParts(classes)[..i])
    {
      var c := classes[i];
      var generatedContent := GeneratedBody(pathDefine, c);
      AppendExports(classes, i, endFile);
      endFile := AppendClassExports(endFile, c);
      generatedContent := generatedContent + "\n";
      AppendBody(pathDefine, classes, i, fileContent);
      fileContent := fileContent + generatedContent;
    }
    assert BodyParts(pathDefine, classes)[..|classes|] == BodyParts(pathDefine, classes);
    assert ExportParts(classes)[..|classes|] == ExportParts(classes);
    AppendAssoc(fileContent, EndFileHeader, Concat(ExportParts(classes)));
    fileContent := fileContent + endFile;
    fileContent := fileContent + FileIdDefine;
    fileContent := fileContent + pathDefine;
  }
}
