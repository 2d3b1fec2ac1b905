/** The slice of the .NET runtime the evaluator touches: 32-bit integers,
    the run-time values a caller can bind, their run-time types, and the
    exceptions the evaluator can throw. */
module Runtime {

  const MinInt32: int := -0x8000_0000
  const MaxInt32: int := 0x7FFF_FFFF

  /** `System.Int32`. */
  newtype int32 = x: int | MinInt32 <= x <= MaxInt32

  /** A `System.Type` as far as the model needs one: the four primitive types
      literals produce, `object` (the type of an untyped null constant), and
      any other type by its full name. */
  datatype ClrType = Int32 | String | Char | Boolean | Object | Named(fullName: string)

  /** A non-null run-time value. `Instance` is an object of some other type,
      identified by a handle; its fields are never inspected here. */
  datatype Value =
    | Int(i: int32)
    | Str(s: string)
    | Chr(c: char)
    | Bool(b: bool)
    | Instance(typeName: string, handle: nat)

  /** `object.GetType()` on a non-null value. */
  function TypeOf(v: Value): (t: ClrType)
    ensures t != Object
    ensures v.Instance? <==> t.Named?
    ensures v.Instance? ==> t.fullName == v.typeName
  {
    match v
    case Int(_) => Int32
    case Str(_) => String
    case Chr(_) => Char
    case Bool(_) => Boolean
    case Instance(name, _) => Named(name)
  }

  /** Every exception the modelled code can throw, one constructor per kind
      of exception, with the parameter or key telling the throwing sites
      apart where it can. `Rejected` stands for whatever the expression-tree
      factories or the compiler refuse after reflection (a type mismatch, a
      member that does not exist). */
  datatype Error =
    | EmptyCode                  // Evaluator.ValidateCode, blank text
    | ParseDiagnostic(text: string) // Evaluator.ValidateCode, first diagnostic
    | NullStaticContext          // SetContext(Type) given null
    | NullInstanceContext        // SetContext(object) given null
    | DuplicateKey(key: string)  // Dictionary.Add, ArgumentException
    | NullArgument(param: string) // ArgumentNullException
    | NoElements                 // Enumerable.First on an empty sequence
    | MalformedNumber            // int.Parse, FormatException
    | NumberOutOfRange           // int.Parse, OverflowException
    | IndexOutOfRange            // string indexer on an empty string
    | NameNotFound(name: string) // identifier unbound or bound to null
    | UnsupportedExpression      // node kind or callee shape not handled
    | Rejected(reason: string)   // reflection check in a factory or the compiler

  const NameNotFoundPrefix: string := "CS0103: The name '"
  const NameNotFoundSuffix: string := "' does not exist in the current context"

  /** The CS0103 message for an unresolved identifier. */
  function NameNotFoundMessage(name: string): (m: string)
    ensures |m| == |NameNotFoundPrefix| + |name| + |NameNotFoundSuffix|
    ensures m[..|NameNotFoundPrefix|] == NameNotFoundPrefix
    ensures m[|m| - |NameNotFoundSuffix|..] == NameNotFoundSuffix
  {
    NameNotFoundPrefix + name + NameNotFoundSuffix
  }

  /** Recovers the identifier from a CS0103 message: the message names
      exactly the identifier that failed. */
  function NameInMessage(m: string): string
    requires |m| >= |NameNotFoundPrefix| + |NameNotFoundSuffix|
  {
    m[|NameNotFoundPrefix|..|m| - |NameNotFoundSuffix|]
  }

  lemma NameNotFoundMessageNamesIdentifier(name: string)
    ensures NameInMessage(NameNotFoundMessage(name)) == name
  {
    var m := NameNotFoundMessage(name);
    assert m == NameNotFoundPrefix + name + NameNotFoundSuffix;
    assert m[|NameNotFoundPrefix|..|m| - |NameNotFoundSuffix|] == name;
  }

  /** Distinct identifiers never share a CS0103 message. */
  lemma NameNotFoundMessageInjective(a: string, b: string)
    requires a != b
    ensures NameNotFoundMessage(a) != NameNotFoundMessage(b)
  {
    NameNotFoundMessageNamesIdentifier(a);
    NameNotFoundMessageNamesIdentifier(b);
  }

  /** `Exception.Message` as the source constructs it. Framework messages
      (ArgumentNullException and friends) are summarised by their
      parameter or key. */
  function Message(e: Error): (m: string)
    ensures e.ParseDiagnostic? ==> m == e.text
    ensures e.NameNotFound? ==>
      |m| >= |NameNotFoundPrefix| + |NameNotFoundSuffix| && NameInMessage(m) == e.name
    ensures e.Rejected? ==> m == e.reason
  {
    match e
    case EmptyCode => "Code cannot be empty or null"
    case ParseDiagnostic(text) => text
    case NullStaticContext => "Static context object cannot be null"
    case NullInstanceContext => "Non-static context object cannot be null"
    case DuplicateKey(key) => "An item with the same key has already been added. Key: " + key
    case NullArgument(param) => "Value cannot be null. (Parameter '" + param + "')"
    case NoElements => "Sequence contains no elements"
    case MalformedNumber => "Input string was not in a correct format."
    case NumberOutOfRange => "Value was either too large or too small for an Int32."
    case IndexOutOfRange => "Index was outside the bounds of the array."
    case NameNotFound(name) => NameNotFoundMessage(name)
    case UnsupportedExpression => "Unsupported Expression"
    case Rejected(reason) => reason
  }

  /** The exceptions the library raises with its own texts: the blank-code
      check, the two null contexts, CS0103 and "Unsupported Expression". */
  predicate ThrownByLibrary(e: Error) {
    e.EmptyCode? || e.NullStaticContext? || e.NullInstanceContext? || e.NameNotFound? || e.UnsupportedExpression?
  }

  /** The first two characters of each library message: CS0103 is the only
      one whose second character is `S`, and the fixed texts start with
      different letters. */
  lemma LibraryMessageHead(e: Error)
    requires ThrownByLibrary(e)
    ensures |Message(e)| >= 2
    ensures Message(e)[1] == 'S' <==> e.NameNotFound?
    ensures !e.NameNotFound? ==>
      Message(e)[0] == (if e.EmptyCode? then 'C' else if e.NullStaticContext? then 'S' else if e.NullInstanceContext? then 'N' else 'U')
  {
    if e.NameNotFound? {
      assert Message(e) == NameNotFoundPrefix + e.name + NameNotFoundSuffix;
    }
  }

  /** The library's own messages tell its exceptions apart: two different
      ones never share a text. */
  lemma LibraryMessagesDistinct(a: Error, b: Error)
    requires ThrownByLibrary(a) && ThrownByLibrary(b) && a != b
    ensures Message(a) != Message(b)
  {
    if a.NameNotFound? && b.NameNotFound? {
      NameNotFoundMessageInjective(a.name, b.name);
    } else {
      LibraryMessageHead(a);
      LibraryMessageHead(b);
    }
  }
}
