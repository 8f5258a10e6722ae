/**
 * `CreateGenFile` (src/HeaderTool.cpp): the `<stem>.gen` metadata file. The
 * serializer it writes through belongs to another library, so the file is
 * modelled as the sequence of calls made on it: maps opened and closed by
 * name, keys, and values (text or a count).
 *
 * `GenEvents` states the sequence for a header's classes; the methods write
 * it with the source's loops. `DecodeGen` reads a sequence back, and the
 * round trip shows the file records exactly each class's name, properties
 * (attributes, type, name) and method names: nothing else, nothing lost.
 */
module Metadata {
  import opened Text
  import opened Records

  datatype Scalar = Str(text: string) | Num(count: nat)

  /** One call on the serializer: `BeginMap << name`, `Key << key`, `Value << v`, `EndMap << name`. */
  datatype Event = BeginMap(name: string) | Key(key: string) | Value(scalar: Scalar) | EndMap(name: string)

  // ---------------------------------------------------------------------
  // Sequences of event blocks
  // ---------------------------------------------------------------------

  /** The blocks written one after another. */
  function Flatten<T>(blocks: seq<seq<T>>): seq<T> {
    if blocks == [] then [] else blocks[0] + Flatten(blocks[1..])
  }

  lemma {:induction false} FlattenSnoc<T>(blocks: seq<seq<T>>, b: seq<T>)
    ensures Flatten(blocks + [b]) == Flatten(blocks) + b
    decreases |blocks|
  {
    if blocks == [] {
      assert [] + [b] == [b];
      assert [b][1..] == [];
    } else {
      assert (blocks + [b])[1..] == blocks[1..] + [b];
      FlattenSnoc(blocks[1..], b);
    }
  }

  /** The blocks from `j` on: block `j`, then the ones after it. */
  lemma FlattenFrom<T>(blocks: seq<seq<T>>, j: nat)
    requires j < |blocks|
    ensures Flatten(blocks[j..]) == blocks[j] + Flatten(blocks[j + 1..])
  {
    assert blocks[j..][1..] == blocks[j + 1..];
  }

  lemma Regroup<T>(h: seq<T>, p: seq<T>, a: seq<T>, b: seq<T>, c: seq<T>, r: seq<T>)
    ensures h + p + a + b + c + r == h + (p + (a + b + c + r))
  {
  }

  lemma DropPrefix<T>(h: seq<T>, x: seq<T>)
    ensures (h + x)[|h|..] == x
  {
  }

  /**
   * A sequence holding `head` and the first `j` blocks, extended by block
   * `j`, holds `head` and the first `j + 1` blocks.
   */
  lemma AppendBlock<T>(head: seq<T>, blocks: seq<seq<T>>, j: nat, current: seq<T>, block: seq<T>)
    requires j < |blocks| && blocks[j] == block
    requires current == head + Flatten(blocks[..j])
    ensures current + block == head + Flatten(blocks[..j + 1])
  {
    assert blocks[..j + 1] == blocks[..j] + [block];
    FlattenSnoc(blocks[..j], block);
  }

  // ---------------------------------------------------------------------
  // What the file records
  // ---------------------------------------------------------------------

  /** `Argument <i>` and the attribute token, for each token in order. */
  function ArgumentPairs(arguments: seq<string>): (blocks: seq<seq<Event>>)
    ensures |blocks| == |arguments|
  {
    seq(|arguments|, i requires 0 <= i < |arguments| => [Key("Argument " + Decimal(i)), Value(Str(arguments[i]))])
  }

  function PropertyHead(p: Property): seq<Event> {
    [BeginMap("Property"), Key("Argument Size"), Value(Num(|p.arguments|))]
  }

  function PropertyTail(p: Property): seq<Event> {
    [Key("Name"), Value(Str(p.name)), Key("Type"), Value(Str(p.typeName)), EndMap("Property")]
  }

  /** The `Property` map: the number of attributes, each attribute, the name and the type. */
  function PropertyEvents(p: Property): seq<Event> {
    PropertyHead(p) + Flatten(ArgumentPairs(p.arguments)) + PropertyTail(p)
  }

  function PropertyBlocks(properties: seq<Property>): (blocks: seq<seq<Event>>)
    ensures |blocks| == |properties|
  {
    seq(|properties|, k requires 0 <= k < |properties| => PropertyEvents(properties[k]))
  }

  /** The `Method` map: just the name. */
  function MethodEvents(name: string): seq<Event> {
    [BeginMap("Method"), Key("Name"), Value(Str(name)), EndMap("Method")]
  }

  function MethodBlocks(methods: seq<string>): (blocks: seq<seq<Event>>)
    ensures |blocks| == |methods|
  {
    seq(|methods|, k requires 0 <= k < |methods| => MethodEvents(methods[k]))
  }

  function ClassHead(c: ClassProperties): seq<Event> {
    [BeginMap("Class"), Key("Class Name"), Value(Str(c.className)), Key("Property Size"), Value(Num(|c.properties|))]
  }

  function MethodSize(c: ClassProperties): seq<Event> {
    [Key("Method Size"), Value(Num(|c.methods|))]
  }

  /** The `Class` map: the name, the properties with their count, the methods with theirs. */
  function ClassEvents(c: ClassProperties): seq<Event> {
    ClassHead(c) + Flatten(PropertyBlocks(c.properties)) + MethodSize(c) + Flatten(MethodBlocks(c.methods)) + [EndMap("Class")]
  }

  function ClassBlocks(classes: seq<ClassProperties>): (blocks: seq<seq<Event>>)
    ensures |blocks| == |classes|
  {
    seq(|classes|, i requires 0 <= i < |classes| => ClassEvents(classes[i]))
  }

  /** Everything written for one header: a `Class` map per class, in order. */
  function GenEvents(classes: seq<ClassProperties>): seq<Event> {
    Flatten(ClassBlocks(classes))
  }

  // ---------------------------------------------------------------------
  // The writer
  // ---------------------------------------------------------------------

  /** The body of the property loop: one `Property` map, its attributes written in a counted loop. */
  method AppendPropertyEvents(events: seq<Event>, p: Property) returns (r: seq<Event>)
    ensures r == events + PropertyEvents(p)
  {
    var pairs := ArgumentPairs(p.arguments);
    r := events + PropertyHead(p);
    ghost var head := r;
    assert pairs[..0] == [];
    for i := 0 to |p.arguments|
      invariant r == head + Flatten(pairs[..i])
    {
      AppendBlock(head, pairs, i, r, [Key("Argument " + Decimal(i)), Value(Str(p.arguments[i]))]);
      r := r + [Key("Argument " + Decimal(i)), Value(Str(p.arguments[i]))];
    }
    assert pairs[..|pairs|] == pairs;
    r := r + PropertyTail(p);
    AppendThree(events, PropertyHead(p), Flatten(pairs), PropertyTail(p));
  }

  /** The body of the class loop: one `Class` map with its property and method maps. */
  method AppendClassEvents(events: seq<Event>, c: ClassProperties) returns (r: seq<Event>)
    ensures r == events + ClassEvents(c)
  {
    var propertyBlocks := PropertyBlocks(c.properties);
    var methodBlocks := MethodBlocks(c.methods);
    r := events + ClassHead(c);
    ghost var afterHead := r;
    assert propertyBlocks[..0] == [];
    for k := 0 to |c.properties|
      invariant r == afterHead + Flatten(propertyBlocks[..k])
    {
      var before := r;
      r := AppendPropertyEvents(r, c.properties[k]);
      AppendBlock(afterHead, propertyBlocks, k, before, PropertyEvents(c.properties[k]));
    }
    assert propertyBlocks[..|propertyBlocks|] == propertyBlocks;
    r := r + MethodSize(c);
    ghost var afterSize := r;
    assert methodBlocks[..0] == [];
    for k := 0 to |c.methods|
      invariant r == afterSize + Flatten(methodBlocks[..k])
    {
      AppendBlock(afterSize, methodBlocks, k, r, MethodEvents(c.methods[k]));
      r := r + MethodEvents(c.methods[k]);
    }
    assert methodBlocks[..|methodBlocks|] == methodBlocks;
    r := r + [EndMap("Class")];
    AppendFive(events, ClassHead(c), Flatten(propertyBlocks), MethodSize(c), Flatten(methodBlocks), [EndMap("Class")]);
  }

  /** The calls `CreateGenFile` makes on the serializer for one header. */
  method CreateGenFile(headerProperties: HeaderProperties) returns (events: seq<Event>)
    ensures events == GenEvents(headerProperties.classProperties)
  {
    var classes := headerProperties.classProperties;
    var blocks := ClassBlocks(classes);
    events := [];
    assert blocks[..0] == [];
    for i := 0 to |classes|
      invariant events == Flatten(blocks[..i])
    {
      var before := events;
      events := AppendClassEvents(events, classes[i]);
      AppendBlock([], blocks, i, before, ClassEvents(classes[i]));
      assert [] + Flatten(blocks[..i + 1]) == Flatten(blocks[..i + 1]);
    }
    assert blocks[..|blocks|] == blocks;
  }

  // ---------------------------------------------------------------------
  // Reading a file back
  // ---------------------------------------------------------------------

  /** What the file keeps of a class: neither its base class nor its marker line. */
  datatype ClassView = ClassView(className: string, properties: seq<Property>, methods: seq<string>)

  function View(c: ClassProperties): ClassView {
    ClassView(c.className, c.properties, c.methods)
  }

  function Views(classes: seq<ClassProperties>): (views: seq<ClassView>)
    ensures |views| == |classes|
  {
    seq(|classes|, i requires 0 <= i < |classes| => View(classes[i]))
  }

  /** `n` attribute pairs numbered from `i`, and what follows them. */
  function DecodeArguments(es: seq<Event>, n: nat, i: nat): (r: Option<(seq<string>, seq<Event>)>)
    ensures r.Some? ==> |r.value.0| == n && |r.value.1| <= |es|
    decreases n
  {
    if n == 0 then Some(([], es))
    else if |es| >= 2 && es[0] == Key("Argument " + Decimal(i)) && es[1].Value? && es[1].scalar.Str? then
      match DecodeArguments(es[2..], n - 1, i + 1)
      case None => None
      case Some((arguments, rest)) => Some(([es[1].scalar.text] + arguments, rest))
    else None
  }

  function DecodeProperty(es: seq<Event>): (r: Option<(Property, seq<Event>)>)
    ensures r.Some? ==> |r.value.1| < |es|
  {
    if |es| >= 3 && es[0] == BeginMap("Property") && es[1] == Key("Argument Size") && es[2].Value? && es[2].scalar.Num? then
      match DecodeArguments(es[3..], es[2].scalar.count, 0)
      case None => None
      case Some((arguments, rest)) =>
        if |rest| >= 5 && rest[0] == Key("Name") && rest[1].Value? && rest[1].scalar.Str?
          && rest[2] == Key("Type") && rest[3].Value? && rest[3].scalar.Str? && rest[4] == EndMap("Property")
        then Some((Property(arguments, rest[3].scalar.text, rest[1].scalar.text), rest[5..]))
        else None
    else None
  }

  function DecodeProperties(es: seq<Event>, n: nat): (r: Option<(seq<Property>, seq<Event>)>)
    ensures r.Some? ==> |r.value.0| == n && |r.value.1| <= |es|
    decreases n
  {
    if n == 0 then Some(([], es))
    else match DecodeProperty(es)
      case None => None
      case Some((p, rest)) =>
        match DecodeProperties(rest, n - 1)
        case None => None
        case Some((ps, rest')) => Some(([p] + ps, rest'))
  }

  function DecodeMethods(es: seq<Event>, n: nat): (r: Option<(seq<string>, seq<Event>)>)
    ensures r.Some? ==> |r.value.0| == n && |r.value.1| <= |es|
    decreases n
  {
    if n == 0 then Some(([], es))
    else if |es| >= 4 && es[0] == BeginMap("Method") && es[1] == Key("Name") && es[2].Value? && es[2].scalar.Str?
      && es[3] == EndMap("Method")
    then
      match DecodeMethods(es[4..], n - 1)
      case None => None
      case Some((ms, rest)) => Some(([es[2].scalar.text] + ms, rest))
    else None
  }

  /** The rest of a `Class` map after its property maps. */
  function DecodeClassTail(es: seq<Event>): (r: Option<(seq<string>, seq<Event>)>)
    ensures r.Some? ==> |r.value.1| < |es|
  {
    if |es| >= 2 && es[0] == Key("Method Size") && es[1].Value? && es[1].scalar.Num? then
      match DecodeMethods(es[2..], es[1].scalar.count)
      case None => None
      case Some((ms, rest)) =>
        if |rest| >= 1 && rest[0] == EndMap("Class") then Some((ms, rest[1..])) else None
    else None
  }

  function DecodeClass(es: seq<Event>): (r: Option<(ClassView, seq<Event>)>)
    ensures r.Some? ==> |r.value.1| < |es|
  {
    if |es| >= 5 && es[0] == BeginMap("Class") && es[1] == Key("Class Name") && es[2].Value? && es[2].scalar.Str?
      && es[3] == Key("Property Size") && es[4].Value? && es[4].scalar.Num?
    then
      match DecodeProperties(es[5..], es[4].scalar.count)
      case None => None
      case Some((ps, rest)) =>
        match DecodeClassTail(rest)
        case None => None
        case Some((ms, rest')) => Some((ClassView(es[2].scalar.text, ps, ms), rest'))
    else None
  }

  /** The classes a whole file records, or `None` when it is not a sequence of `Class` maps. */
  function DecodeGen(es: seq<Event>): Option<seq<ClassView>>
    decreases |es|
  {
    if es == [] then Some([])
    else match DecodeClass(es)
      case None => None
      case Some((v, rest)) =>
        match DecodeGen(rest)
        case None => None
        case Some(vs) => Some([v] + vs)
  }

  // ---------------------------------------------------------------------
  // Round trip
  // ---------------------------------------------------------------------

  lemma {:induction false} ArgumentsRoundTrip(arguments: seq<string>, j: nat, rest: seq<Event>)
    requires j <= |arguments|
    ensures DecodeArguments(Flatten(ArgumentPairs(arguments)[j..]) + rest, |arguments| - j, j)
      == Some((arguments[j..], rest))
    decreases |arguments| - j
  {
    var pairs := ArgumentPairs(arguments);
    if j == |arguments| {
      assert pairs[j..] == [];
      assert Flatten(pairs[j..]) + rest == rest;
      assert arguments[j..] == [];
    } else {
      FlattenFrom(pairs, j);
      var es := Flatten(pairs[j..]) + rest;
      var tail := Flatten(pairs[j + 1..]) + rest;
      assert es == pairs[j] + tail;
      assert es[0] == Key("Argument " + Decimal(j));
      assert es[1] == Value(Str(arguments[j]));
      assert es[2..] == tail;
      ArgumentsRoundTrip(arguments, j + 1, rest);
      assert [arguments[j]] + arguments[j + 1..] == arguments[j..];
    }
  }

  lemma PropertyRoundTrip(p: Property, rest: seq<Event>)
    ensures DecodeProperty(PropertyEvents(p) + rest) == Some((p, rest))
  {
    var es := PropertyEvents(p) + rest;
    var arguments := Flatten(ArgumentPairs(p.arguments));
    var after := PropertyTail(p) + rest;
    assert es == PropertyHead(p) + (arguments + after);
    assert es[3..] == arguments + after;
    ArgumentsRoundTrip(p.arguments, 0, after);
    assert ArgumentPairs(p.arguments)[0..] == ArgumentPairs(p.arguments);
    assert p.arguments[0..] == p.arguments;
    assert after[5..] == rest;
  }

  lemma {:induction false} PropertiesRoundTrip(properties: seq<Property>, j: nat, rest: seq<Event>)
    requires j <= |properties|
    ensures DecodeProperties(Flatten(PropertyBlocks(properties)[j..]) + rest, |properties| - j)
      == Some((properties[j..], rest))
    decreases |properties| - j
  {
    var blocks := PropertyBlocks(properties);
    if j == |properties| {
      assert blocks[j..] == [];
      assert Flatten(blocks[j..]) + rest == rest;
      assert properties[j..] == [];
    } else {
      PropertiesRoundTrip(properties, j + 1, rest);
      PropertiesRoundTripStep(properties, j, rest);
    }
  }

  /** The step of the round trip over the property maps: one more map in front. */
  lemma PropertiesRoundTripStep(properties: seq<Property>, j: nat, rest: seq<Event>)
    requires j < |properties|
    requires DecodeProperties(Flatten(PropertyBlocks(properties)[j + 1..]) + rest, |properties| - (j + 1))
      == Some((properties[j + 1..], rest))
    ensures DecodeProperties(Flatten(PropertyBlocks(properties)[j..]) + rest, |properties| - j)
      == Some((properties[j..], rest))
  {
    var blocks := PropertyBlocks(properties);
    FlattenFrom(blocks, j);
    var tail := Flatten(blocks[j + 1..]) + rest;
    AppendAssoc(blocks[j], Flatten(blocks[j + 1..]), rest);
    assert blocks[j] == PropertyEvents(properties[j]);
    DecodePropertiesCons(properties[j], tail, |properties| - j, properties[j + 1..], rest);
    assert [properties[j]] + properties[j + 1..] == properties[j..];
  }

  /** Decoding `n` properties: the first one, then `n - 1` more from where it ends. */
  lemma DecodePropertiesCons(p: Property, tail: seq<Event>, n: nat, ps: seq<Property>, rest: seq<Event>)
    requires n > 0 && DecodeProperties(tail, n - 1) == Some((ps, rest))
    ensures DecodeProperties(PropertyEvents(p) + tail, n) == Some(([p] + ps, rest))
  {
    PropertyRoundTrip(p, tail);
  }

  lemma {:induction false} MethodsRoundTrip(methods: seq<string>, j: nat, rest: seq<Event>)
    requires j <= |methods|
    ensures DecodeMethods(Flatten(MethodBlocks(methods)[j..]) + rest, |methods| - j) == Some((methods[j..], rest))
    decreases |methods| - j
  {
    var blocks := MethodBlocks(methods);
    if j == |methods| {
      assert blocks[j..] == [];
      assert Flatten(blocks[j..]) + rest == rest;
      assert methods[j..] == [];
    } else {
      FlattenFrom(blocks, j);
      var es := Flatten(blocks[j..]) + rest;
      var tail := Flatten(blocks[j + 1..]) + rest;
      assert es == MethodEvents(methods[j]) + tail;
      assert es[4..] == tail;
      MethodsRoundTrip(methods, j + 1, rest);
      assert [methods[j]] + methods[j + 1..] == methods[j..];
    }
  }

  lemma ClassTailRoundTrip(c: ClassProperties, rest: seq<Event>)
    ensures DecodeClassTail(MethodSize(c) + Flatten(MethodBlocks(c.methods)) + [EndMap("Class")] + rest)
      == Some((c.methods, rest))
  {
    var ms := Flatten(MethodBlocks(c.methods));
    var after := [EndMap("Class")] + rest;
    var es := MethodSize(c) + ms + [EndMap("Class")] + rest;
    assert es == MethodSize(c) + (ms + after);
    assert es[2..] == ms + after;
    MethodsRoundTrip(c.methods, 0, after);
    assert MethodBlocks(c.methods)[0..] == MethodBlocks(c.methods);
    assert c.methods[0..] == c.methods;
    assert after[1..] == rest;
  }

  lemma ClassRoundTrip(c: ClassProperties, rest: seq<Event>)
    ensures DecodeClass(ClassEvents(c) + rest) == Some((View(c), rest))
  {
    var blocks := PropertyBlocks(c.properties);
    var ps := Flatten(blocks);
    var tail := MethodSize(c) + Flatten(MethodBlocks(c.methods)) + [EndMap("Class")] + rest;
    Regroup(ClassHead(c), ps, MethodSize(c), Flatten(MethodBlocks(c.methods)), [EndMap("Class")], rest);
    PropertiesRoundTrip(c.properties, 0, tail);
    assert blocks[0..] == blocks;
    assert c.properties[0..] == c.properties;
    ClassTailRoundTrip(c, rest);
    DecodeClassHead(c, ps + tail, tail, rest);
  }

  /** A `Class` map is read as its head, then its property maps, then the rest of the map. */
  lemma DecodeClassHead(c: ClassProperties, body: seq<Event>, tail: seq<Event>, rest: seq<Event>)
    requires DecodeProperties(body, |c.properties|) == Some((c.properties, tail))
    requires DecodeClassTail(tail) == Some((c.methods, rest))
    ensures DecodeClass(ClassHead(c) + body) == Some((View(c), rest))
  {
    DropPrefix(ClassHead(c), body);
  }

  lemma {:induction false} GenRoundTripFrom(classes: seq<ClassProperties>, j: nat)
    requires j <= |classes|
    ensures DecodeGen(Flatten(ClassBlocks(classes)[j..])) == Some(Views(classes)[j..])
    decreases |classes| - j
  {
    var blocks := ClassBlocks(classes);
    if j == |classes| {
      assert blocks[j..] == [];
    } else {
      FlattenFrom(blocks, j);
      var tail := Flatten(blocks[j + 1..]);
      ClassRoundTrip(classes[j], tail);
      assert ClassEvents(classes[j]) != [];
      GenRoundTripFrom(classes, j + 1);
      assert [View(classes[j])] + Views(classes)[j + 1..] == Views(classes)[j..];
    }
  }

  /** Reading the file back gives every class's name, properties and methods, in order. */
  lemma GenRoundTrip(classes: seq<ClassProperties>)
    ensures DecodeGen(GenEvents(classes)) == Some(Views(classes))
  {
    GenRoundTripFrom(classes, 0);
    assert ClassBlocks(classes)[0..] == ClassBlocks(classes);
    assert Views(classes)[0..] == Views(classes);
  }

  /**
   * Two headers give the same metadata exactly when their classes agree on
   * names, properties and methods: base classes and marker lines are not
   * recorded, and nothing else is lost.
   */
  lemma GenEventsExactlyViews(classes: seq<ClassProperties>, others: seq<ClassProperties>)
    ensures GenEvents(classes) == GenEvents(others) <==> Views(classes) == Views(others)
  {
    if GenEvents(classes) == GenEvents(others) {
      GenRoundTrip(classes);
      GenRoundTrip(others);
    }
    if Views(classes) == Views(others) {
      assert |classes| == |others|;
      forall i | 0 <= i < |classes| ensures ClassEvents(classes[i]) == ClassEvents(others[i]) {
        assert View(classes[i]) == Views(classes)[i] == Views(others)[i] == View(others[i]);
      }
      assert ClassBlocks(classes) == ClassBlocks(others);
    }
  }
}
