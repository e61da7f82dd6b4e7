/** `getTypeName`: prints a type node back as TypeScript source text. */
module TypeName {
  import opened Wrappers
  import opened JsStrings
  import opened TypeSyntax

  function GetTypeName(n: Node): string
    decreases n
  {
    match n
    case UnionType(ts) => Join(Names(ts), " | ")
    case IntersectionType(ts) => Join(Names(ts), " & ")
    case LiteralType(lit) => GetTypeName(lit)
    case StringLiteral(text) => text
    case BooleanKeyword => "boolean"
    case NumberKeyword => "number"
    case StringKeyword => "string"
    case NullKeyword => "null"
    case UndefinedKeyword => "undefined"
    case AnyKeyword => "any"
    case VoidKeyword => "void"
    case UnknownKeyword => "unknown"
    case Parameter(name, paramType, dotDotDot, question) =>
      if dotDotDot then "...rest"
      else GetTypeName(name) + QuestionMark(question) + TypeAnnotation(OptionalTypeName(paramType))
    case ObjectBindingPattern(elements) => "{ " + Join(Names(elements), ", ") + " }"
    case BindingElement(name) => GetTypeName(name)
    case Identifier(text) => text
    case QualifiedName(left, right) => GetTypeName(left) + "." + GetTypeName(right)
    case TypeLiteral(members) => "{\n" + Join(Names(members), "\n") + "\n}"
    case TypeParameter(name, constraint) => GetTypeName(name) + " in " + GetTypeName(constraint)
    case MappedType(typeParameter, question, mapped) =>
      "{\n[" + GetTypeName(typeParameter) + "]" + QuestionMark(question) + ":" + GetTypeName(mapped) + "\n}"
    case PropertySignature(propName, question, propType) =>
      propName + QuestionMark(question) + ": " + GetTypeName(propType) + ";"
    case IndexSignature(indexParams, returnType) =>
      "[" + Join(IndexParamNames(indexParams), ", ") + "]: " + GetTypeName(returnType)
    case ParenthesizedType(inner) => "(" + GetTypeName(inner) + ")"
    case FunctionType(parameters, returnType) =>
      "(" + Join(Names(parameters), ", ") + ") => " + GetTypeName(returnType)
    case TypeReference(typeName, typeArguments) =>
      GetTypeName(typeName) + AngleBrackets(Join(Names(typeArguments), ", "))
    case ArrayType(elementType) => GetTypeName(elementType) + "[]"
    case TupleType(elements) => "[" + Join(Names(elements), ", ") + "]"
    case OtherKind(_) => "any"
  }

  /** `nodes.map(getTypeName)`. */
  function Names(ns: seq<Node>): (r: seq<string>)
    ensures |r| == |ns|
    ensures forall i :: 0 <= i < |ns| ==> r[i] == GetTypeName(ns[i])
    decreases ns
  {
    if ns == [] then [] else [GetTypeName(ns[0])] + Names(ns[1..])
  }

  /** Each index-signature parameter printed as `name?: type`. */
  function IndexParamNames(ps: seq<IndexParam>): (r: seq<string>)
    ensures |r| == |ps|
    decreases ps
  {
    if ps == [] then []
    else [ps[0].name + QuestionMark(ps[0].question) + TypeAnnotation(OptionalTypeName(ps[0].paramType))]
         + IndexParamNames(ps[1..])
  }

  /** The printed type of an optional annotation; absent prints as nothing. */
  function OptionalTypeName(t: Option<Node>): string
    decreases t
  {
    if t.Some? then GetTypeName(t.value) else ""
  }

  /** `${paramType ? `: ${paramType}` : ''}`: an empty printed type is falsy and omitted. */
  function TypeAnnotation(printed: string): string
  {
    if printed == "" then "" else ": " + printed
  }

  function QuestionMark(question: bool): string
  {
    if question then "?" else ""
  }

  /** `<A, B>` when the joined arguments are non-empty (a truthy string), otherwise nothing. */
  function AngleBrackets(generics: string): string
  {
    if generics == "" then "" else "<" + generics + ">"
  }

  // ---------------------------------------------------------------------------------------
  // Printing rules

  /** A rest parameter prints as `...rest` whatever its name, type and question token. */
  lemma RestParameterIgnoresNameAndType(n1: Node, t1: Option<Node>, q1: bool, n2: Node, t2: Option<Node>, q2: bool)
    ensures GetTypeName(Parameter(n1, t1, true, q1)) == GetTypeName(Parameter(n2, t2, true, q2)) == "...rest"
  {
  }

  /**
   * Any other parameter prints its name first, and the character right after the name is `?`
   * exactly when the question token is present.
   */
  lemma ParameterQuestionToken(name: Node, t: Option<Node>, question: bool)
    ensures var r := GetTypeName(Parameter(name, t, false, question));
            var k := |GetTypeName(name)|;
            k <= |r| && r[..k] == GetTypeName(name) &&
            ((k < |r| && r[k] == '?') <==> question)
  {
    var r := GetTypeName(Parameter(name, t, false, question));
    var nm := GetTypeName(name);
    assert r == nm + (QuestionMark(question) + TypeAnnotation(OptionalTypeName(t)));
    assert r[..|nm|] == nm;
    if !question && |nm| < |r| {
      assert r[|nm|] == ':';
    }
  }

  /** A union prints as its members separated by ` | `, an intersection by ` & `. */
  lemma {:induction false} UnionAndIntersectionSeparators(ts: seq<Node>)
    requires |ts| >= 2
    ensures GetTypeName(UnionType(ts)) == GetTypeName(ts[0]) + " | " + GetTypeName(UnionType(ts[1..]))
    ensures GetTypeName(IntersectionType(ts)) == GetTypeName(ts[0]) + " & " + GetTypeName(IntersectionType(ts[1..]))
  {
    assert Names(ts)[1..] == Names(ts[1..]);
  }

  /** An array type prints as its element type followed by `[]`, so it always ends in `[]`. */
  lemma ArrayTypeSuffix(e: Node)
    ensures var r := GetTypeName(ArrayType(e));
            |r| >= 2 && r[|r| - 2..] == "[]" && r[..|r| - 2] == GetTypeName(e)
  {
  }

  /**
   * A type reference prints as its bare name exactly when its type arguments print to nothing
   * (in particular when it has none); otherwise as `Name<A, B>`.
   */
  lemma TypeReferenceArguments(name: Node, args: seq<Node>)
    ensures var r := GetTypeName(TypeReference(name, args));
            var nm := GetTypeName(name);
            (r == nm <==> Join(Names(args), ", ") == "") &&
            (r != nm ==> r == nm + "<" + Join(Names(args), ", ") + ">") &&
            (args == [] ==> r == nm)
  {
  }

  /** Unhandled syntax kinds print as `any`. */
  lemma UnhandledKindIsAny(k: nat)
    ensures GetTypeName(OtherKind(k)) == "any"
  {
  }
}
