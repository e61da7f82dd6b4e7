/**
 * The part of the TypeScript syntax tree the wrapper generator reads: type nodes, one
 * constructor per syntax kind the generator distinguishes, and the declarations of a
 * config file (imports, the config interface, its members, heritage and type parameters).
 */
module TypeSyntax {
  import opened Wrappers

  datatype Node =
    | UnionType(types: seq<Node>)
    | IntersectionType(types: seq<Node>)
    | LiteralType(literal: Node)
    | StringLiteral(text: string)
    | BooleanKeyword
    | NumberKeyword
    | StringKeyword
    | NullKeyword
    | UndefinedKeyword
    | AnyKeyword
    | VoidKeyword
    | UnknownKeyword
      /** A function parameter: its name (an identifier or a binding pattern), its optional type annotation, `...` and `?`. */
    | Parameter(name: Node, paramType: Option<Node>, dotDotDot: bool, question: bool)
    | ObjectBindingPattern(elements: seq<Node>)
    | BindingElement(name: Node)
    | Identifier(escapedText: string)
    | QualifiedName(left: Node, right: Node)
    | TypeLiteral(members: seq<Node>)
      /** `K in C`, the type parameter of a mapped type. */
    | TypeParameter(name: Node, constraint: Node)
    | MappedType(typeParameter: Node, question: bool, mapped: Node)
    | PropertySignature(propName: string, question: bool, propType: Node)
    | IndexSignature(indexParams: seq<IndexParam>, returnType: Node)
    | ParenthesizedType(inner: Node)
    | FunctionType(parameters: seq<Node>, returnType: Node)
      /** `Name<A, B>`; an absent argument list is empty (both print and gather alike). */
    | TypeReference(typeName: Node, typeArguments: seq<Node>)
    | ArrayType(elementType: Node)
    | TupleType(elements: seq<Node>)
      /** Any other syntax kind, identified by its number. */
    | OtherKind(kind: nat)

  /** A parameter of an index signature `[key: string]`, whose name is always an identifier. */
  datatype IndexParam = IndexParam(name: string, question: bool, paramType: Option<Node>)

  /** A member of a config interface: `name?: type`, with the comments of its JSDoc blocks. */
  datatype PropertyDecl = PropertyDecl(name: string, typ: Node, question: bool, jsDoc: Option<seq<Option<string>>>)

  /** A type of an `extends` clause: `Partial<X>`, `WithOptional<X, 'k'>` or a plain `X`. */
  datatype HeritageType = HeritageType(expression: string, typeArguments: Option<seq<Node>>)

  /** A type parameter of the config interface: `Datum extends Base = Default`. */
  datatype TypeParamDecl = TypeParamDecl(name: string, constraint: Option<Node>, defaultType: Option<Node>)

  datatype InterfaceDecl = InterfaceDecl(
    name: string,
    members: seq<PropertyDecl>,
    heritage: seq<HeritageType>,
    typeParameters: Option<seq<TypeParamDecl>>)

  /** A top-level statement of a config file; an import lists the names it binds. */
  datatype Statement =
    | ImportDeclaration(moduleSpecifier: string, namedBindings: seq<string>)
    | InterfaceDeclaration(decl: InterfaceDecl)
    | OtherStatement

  /**
   * The generator's summary of a type parameter: its name and the identifiers of the
   * references it extends and defaults to, when those are plain identifiers.
   */
  datatype Generic = Generic(name: string, extendsName: Option<string>, defaultName: Option<string>)
}
