/**
 * The records the header tool builds for one input file, as the scanner and
 * the declaration parser fill them in and both emitters read them.
 */
module Records {

  /** One `PROPERTY(...)` field: its attribute tokens, declared type text and name. */
  datatype Property = Property(arguments: seq<string>, typeName: string, name: string)

  /**
   * One annotated class. `baseClassName == className` marks a root class;
   * `lineNumber` is the 1-based line of the `GENERATED_BODY()` marker the
   * scanner saw (see Scanner for the exact rule). Methods are kept by name.
   */
  datatype ClassProperties = ClassProperties(
    className: string,
    baseClassName: string,
    lineNumber: nat,
    properties: seq<Property>,
    methods: seq<string>)

  /** Everything gathered from one header file, classes in closing order. */
  datatype HeaderProperties = HeaderProperties(classProperties: seq<ClassProperties>)

  /** The one error of the core: a class block whose header names no class. */
  datatype ParseError = ClassNameNotFound(classContent: string)

  datatype Result<+T> = Ok(value: T) | Err(error: ParseError)
}
