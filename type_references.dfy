/**
 * `gatherTypeReferences`: collects the identifiers a type refers to into a JavaScript `Set`
 * shared by the recursive calls, so that the wrapper can import them.
 */
module TypeReferences {
  import opened Wrappers
  import opened Collections
  import opened JsStrings
  import opened TypeSyntax
  import opened TypeName

  // ---------------------------------------------------------------------------------------
  // What one visit adds to the set, in visiting order, repetitions included

  function Refs(n: Node): seq<string>
    decreases n
  {
    match n
    case Identifier(text) => [text]
    case QualifiedName(left, _) => Refs(left)
    case TypeReference(typeName, args) => Refs(typeName) + RefsNodes(args)
    case ParenthesizedType(inner) => Refs(inner)
    case FunctionType(parameters, returnType) => RefsParams(parameters) + Refs(returnType)
    // visited into a fresh set that is then dropped
    case TupleType(_) => []
    case UnionType(ts) => RefsNodes(ts)
    case IntersectionType(ts) => RefsNodes(ts)
    case ArrayType(elementType) => Refs(elementType)
    case TypeLiteral(members) => RefsNodes(members)
    case PropertySignature(_, _, propType) => Refs(propType)
    case IndexSignature(indexParams, returnType) => RefsIndexParams(indexParams) + Refs(returnType)
    case TypeParameter(_, constraint) => Refs(constraint)
    case MappedType(typeParameter, _, mapped) => Refs(typeParameter) + Refs(mapped)
    case _ => []
  }

  function RefsNodes(ns: seq<Node>): seq<string>
    decreases ns
  {
    if ns == [] then [] else RefsNodes(ns[..|ns| - 1]) + Refs(ns[|ns| - 1])
  }

  /** The parameters' type annotations; parameters without one are filtered out. */
  function RefsParams(ps: seq<Node>): seq<string>
    decreases ps
  {
    if ps == [] then []
    else
      RefsParams(ps[..|ps| - 1]) + ParamRefs(ps[|ps| - 1])
  }

  function ParamRefs(p: Node): seq<string>
    decreases p
  {
    match p
    case Parameter(_, Some(t), _, _) => Refs(t)
    case _ => []
  }

  function RefsIndexParams(ps: seq<IndexParam>): seq<string>
    decreases ps
  {
    if ps == [] then [] else RefsIndexParams(ps[..|ps| - 1]) + IndexParamRefs(ps[|ps| - 1])
  }

  function IndexParamRefs(p: IndexParam): seq<string>
    decreases p
  {
    if p.paramType.Some? then Refs(p.paramType.value) else []
  }

  /** A list given to `gatherTypeReferences`, whose absent (`null`/`undefined`) entries are skipped. */
  function RefsOpts(ns: seq<Option<Node>>): seq<string>
    decreases |ns|
  {
    if ns == [] then []
    else RefsOpts(ns[..|ns| - 1]) + (if ns[|ns| - 1].Some? then Refs(ns[|ns| - 1].value) else [])
  }

  // ---------------------------------------------------------------------------------------
  // The mutable set and the traversal

  /** A JavaScript `Set` of strings: iteration follows first insertion. */
  class OrderedSet {
    var elems: seq<string>

    ghost predicate Valid()
      reads this
    {
      NoDuplicates(elems)
    }

    constructor ()
      ensures Valid() && elems == []
    {
      elems := [];
    }

    /** `set.add(x)`. */
    method Add(x: string)
      modifies this
      ensures elems == Insert(old(elems), x)
      ensures old(Valid()) ==> Valid()
    {
      if x !in elems {
        elems := elems + [x];
      }
    }
  }

  /**
   * `gatherTypeReferences(types, collected)`: adds every identifier the types refer to to
   * `collected` and returns the set's elements.
   */
  method GatherTypeReferences(types: seq<Option<Node>>, collected: OrderedSet) returns (result: seq<string>)
    requires collected.Valid()
    modifies collected
    ensures collected.Valid()
    ensures collected.elems == AddAll(old(collected.elems), RefsOpts(types))
    ensures result == collected.elems
  {
    for i := 0 to |types|
      invariant collected.elems == AddAll(old(collected.elems), RefsOpts(types[..i]))
    {
      assert types[..i + 1][..i] == types[..i];
      ghost var added := if types[i].Some? then Refs(types[i].value) else [];
      assert RefsOpts(types[..i + 1]) == RefsOpts(types[..i]) + added;
      if types[i].Some? {
        GatherNode(types[i].value, collected);
      }
      AddAllAppend(old(collected.elems), RefsOpts(types[..i]), added);
    }
    assert types[..|types|] == types;
    AddAllProperties(old(collected.elems), RefsOpts(types));
    result := collected.elems;
  }

  /** The kinds whose visit is the visit of one child. */
  predicate HasOneChild(n: Node)
  {
    n.QualifiedName? || n.ParenthesizedType? || n.ArrayType? || n.PropertySignature? || n.TypeParameter?
  }

  /** That child: the left of a qualified name, the inner, element, property or constraint type. */
  function OnlyChild(n: Node): (c: Node)
    requires HasOneChild(n)
    ensures c < n && Refs(n) == Refs(c)
  {
    match n
    case QualifiedName(left, _) => left
    case ParenthesizedType(inner) => inner
    case ArrayType(elementType) => elementType
    case PropertySignature(_, _, propType) => propType
    case TypeParameter(_, constraint) => constraint
  }

  /** One entry of the list: the `switch` on its syntax kind. */
  method GatherNode(n: Node, collected: OrderedSet)
    modifies collected
    ensures collected.elems == AddAll(old(collected.elems), Refs(n))
    decreases n, 2
  {
    if n.Identifier? {
      collected.Add(n.escapedText);
      AddAllOne(old(collected.elems), n.escapedText);
    } else if HasOneChild(n) {
      GatherNode(OnlyChild(n), collected);
    } else {
      GatherCompound(n, collected);
    }
  }

  /** The rest of the `switch`: the kinds with several children, and the kinds that refer to nothing. */
  method GatherCompound(n: Node, collected: OrderedSet)
    requires !n.Identifier? && !HasOneChild(n)
    modifies collected
    ensures collected.elems == AddAll(old(collected.elems), Refs(n))
    decreases n, 1
  {
    match n {
      case TypeReference(_, _) =>
        GatherTypeReference(n, collected);
      case FunctionType(_, _) =>
        GatherFunctionType(n, collected);
      case IndexSignature(_, _) =>
        GatherIndexSignature(n, collected);
      case MappedType(_, _, _) =>
        GatherMappedType(n, collected);
      case TupleType(elements) =>
        var scratch := new OrderedSet();
        GatherNodes(elements, scratch);
      case UnionType(ts) =>
        GatherNodes(ts, collected);
      case IntersectionType(ts) =>
        GatherNodes(ts, collected);
      case TypeLiteral(members) =>
        GatherNodes(members, collected);
      case _ =>
    }
  }

  /** The name, then the type arguments. */
  method GatherTypeReference(n: Node, collected: OrderedSet)
    requires n.TypeReference?
    modifies collected
    ensures collected.elems == AddAll(old(collected.elems), Refs(n))
    decreases n, 0
  {
    ghost var start := collected.elems;
    var TypeReference(typeName, args) := n;
    GatherNode(typeName, collected);
    GatherNodes(args, collected);
    AddAllAppend(start, Refs(typeName), RefsNodes(args));
  }

  /** The parameters' annotations, then the return type. */
  method GatherFunctionType(n: Node, collected: OrderedSet)
    requires n.FunctionType?
    modifies collected
    ensures collected.elems == AddAll(old(collected.elems), Refs(n))
    decreases n, 0
  {
    ghost var start := collected.elems;
    var FunctionType(parameters, returnType) := n;
    GatherParams(parameters, collected);
    GatherNode(returnType, collected);
    AddAllAppend(start, RefsParams(parameters), Refs(returnType));
  }

  /** The key parameters' annotations, then the value type. */
  method GatherIndexSignature(n: Node, collected: OrderedSet)
    requires n.IndexSignature?
    modifies collected
    ensures collected.elems == AddAll(old(collected.elems), Refs(n))
    decreases n, 0
  {
    ghost var start := collected.elems;
    var IndexSignature(indexParams, returnType) := n;
    GatherIndexParams(indexParams, collected);
    GatherNode(returnType, collected);
    AddAllAppend(start, RefsIndexParams(indexParams), Refs(returnType));
  }

  /** The type parameter, then the mapped type. */
  method GatherMappedType(n: Node, collected: OrderedSet)
    requires n.MappedType?
    modifies collected
    ensures collected.elems == AddAll(old(collected.elems), Refs(n))
    decreases n, 0
  {
    ghost var start := collected.elems;
    var MappedType(typeParameter, _, mapped) := n;
    GatherNode(typeParameter, collected);
    GatherNode(mapped, collected);
    AddAllAppend(start, Refs(typeParameter), Refs(mapped));
  }

  /** A list of nodes that are all present (`type.types`, `type.members`, `typeArguments`). */
  method GatherNodes(ns: seq<Node>, collected: OrderedSet)
    modifies collected
    ensures collected.elems == AddAll(old(collected.elems), RefsNodes(ns))
    decreases ns, 0
  {
    for i := 0 to |ns|
      invariant collected.elems == AddAll(old(collected.elems), RefsNodes(ns[..i]))
    {
      assert ns[..i + 1][..i] == ns[..i];
      GatherNode(ns[i], collected);
      AddAllAppend(old(collected.elems), RefsNodes(ns[..i]), Refs(ns[i]));
    }
    assert ns[..|ns|] == ns;
  }

  /** `parameters.map(p => p.type).filter(t => t)`, then each type in turn. */
  method GatherParams(ps: seq<Node>, collected: OrderedSet)
    modifies collected
    ensures collected.elems == AddAll(old(collected.elems), RefsParams(ps))
    decreases ps, 0
  {
    for i := 0 to |ps|
      invariant collected.elems == AddAll(old(collected.elems), RefsParams(ps[..i]))
    {
      assert ps[..i + 1][..i] == ps[..i];
      GatherParam(ps[i], collected);
      AddAllAppend(old(collected.elems), RefsParams(ps[..i]), ParamRefs(ps[i]));
    }
    assert ps[..|ps|] == ps;
  }

  /** `p.type`, when the parameter has one. */
  method GatherParam(p: Node, collected: OrderedSet)
    modifies collected
    ensures collected.elems == AddAll(old(collected.elems), ParamRefs(p))
    decreases p, 0
  {
    match p {
      case Parameter(_, Some(t), _, _) => GatherNode(t, collected);
      case _ =>
    }
  }

  method GatherIndexParams(ps: seq<IndexParam>, collected: OrderedSet)
    modifies collected
    ensures collected.elems == AddAll(old(collected.elems), RefsIndexParams(ps))
    decreases ps, 0
  {
    for i := 0 to |ps|
      invariant collected.elems == AddAll(old(collected.elems), RefsIndexParams(ps[..i]))
    {
      assert ps[..i + 1][..i] == ps[..i];
      GatherIndexParam(ps[i], collected);
      AddAllAppend(old(collected.elems), RefsIndexParams(ps[..i]), IndexParamRefs(ps[i]));
    }
    assert ps[..|ps|] == ps;
  }

  /** `p.type`, when the key parameter has one. */
  method GatherIndexParam(p: IndexParam, collected: OrderedSet)
    modifies collected
    ensures collected.elems == AddAll(old(collected.elems), IndexParamRefs(p))
    decreases p, 0
  {
    match p.paramType {
      case Some(t) => GatherNode(t, collected);
      case None =>
    }
  }

  // ---------------------------------------------------------------------------------------
  // Properties of the traversal

  predicate IsEntityName(n: Node)
  {
    n.Identifier? || (n.QualifiedName? && IsEntityName(n.left))
  }

  function Leftmost(n: Node): string
    requires IsEntityName(n)
  {
    if n.Identifier? then n.escapedText else Leftmost(n.left)
  }

  /** A qualified name `A.B.C` contributes its leftmost identifier `A` and nothing else. */
  lemma {:induction false} QualifiedNameContributesLeftmost(n: Node)
    requires IsEntityName(n)
    ensures Refs(n) == [Leftmost(n)]
  {
    if n.QualifiedName? {
      QualifiedNameContributesLeftmost(n.left);
    }
  }

  /** Absent entries of the list contribute nothing: dropping one leaves the references unchanged. */
  lemma {:induction false} AbsentEntriesSkipped(types: seq<Option<Node>>, i: nat)
    requires i < |types| && types[i].None?
    ensures RefsOpts(types) == RefsOpts(types[..i] + types[i + 1..])
    decreases |types|
  {
    var last := |types| - 1;
    if i == last {
      assert types[..i] + types[i + 1..] == types[..last];
    } else {
      AbsentEntriesSkipped(types[..last], i);
      assert types[..last][..i] + types[..last][i + 1..] == (types[..i] + types[i + 1..])[..last - 1];
      assert (types[..i] + types[i + 1..])[last - 1] == types[last];
    }
  }

  /** Every identifier written in `n` other than inside a tuple type. */
  ghost function IdentsOutsideTuples(n: Node): set<string>
    decreases n
  {
    match n
    case Identifier(text) => {text}
    case TupleType(_) => {}
    case UnionType(ts) => IdentsNodes(ts)
    case IntersectionType(ts) => IdentsNodes(ts)
    case LiteralType(literal) => IdentsOutsideTuples(literal)
    case Parameter(name, paramType, _, _) => IdentsOutsideTuples(name) + IdentsOpt(paramType)
    case ObjectBindingPattern(elements) => IdentsNodes(elements)
    case BindingElement(name) => IdentsOutsideTuples(name)
    case QualifiedName(left, right) => IdentsOutsideTuples(left) + IdentsOutsideTuples(right)
    case TypeLiteral(members) => IdentsNodes(members)
    case TypeParameter(name, constraint) => IdentsOutsideTuples(name) + IdentsOutsideTuples(constraint)
    case MappedType(typeParameter, _, mapped) => IdentsOutsideTuples(typeParameter) + IdentsOutsideTuples(mapped)
    case PropertySignature(propName, _, propType) => {propName} + IdentsOutsideTuples(propType)
    case IndexSignature(indexParams, returnType) => IdentsIndexParams(indexParams) + IdentsOutsideTuples(returnType)
    case ParenthesizedType(inner) => IdentsOutsideTuples(inner)
    case FunctionType(parameters, returnType) => IdentsNodes(parameters) + IdentsOutsideTuples(returnType)
    case TypeReference(typeName, args) => IdentsOutsideTuples(typeName) + IdentsNodes(args)
    case ArrayType(elementType) => IdentsOutsideTuples(elementType)
    case _ => {}
  }

  ghost function IdentsNodes(ns: seq<Node>): set<string>
    decreases ns
  {
    if ns == [] then {} else IdentsNodes(ns[..|ns| - 1]) + IdentsOutsideTuples(ns[|ns| - 1])
  }

  ghost function IdentsOpt(t: Option<Node>): set<string>
    decreases t
  {
    if t.Some? then IdentsOutsideTuples(t.value) else {}
  }

  ghost function IdentsIndexParams(ps: seq<IndexParam>): set<string>
    decreases ps
  {
    if ps == [] then {}
    else IdentsIndexParams(ps[..|ps| - 1]) + {ps[|ps| - 1].name} + IdentsOpt(ps[|ps| - 1].paramType)
  }

  /**
   * Every collected name is written in the type outside any tuple type: a name that occurs
   * only inside tuple types is never collected, because the tuple case gathers into a fresh set.
   */
  lemma {:induction false} CollectedOutsideTuples(n: Node)
    ensures forall x :: x in Refs(n) ==> x in IdentsOutsideTuples(n)
    decreases n, 1
  {
    match n {
      case QualifiedName(left, _) => CollectedOutsideTuples(left);
      case TypeReference(typeName, args) => CollectedOutsideTuples(typeName); NodesOutsideTuples(args);
      case ParenthesizedType(inner) => CollectedOutsideTuples(inner);
      case FunctionType(parameters, returnType) => ParamsOutsideTuples(parameters); CollectedOutsideTuples(returnType);
      case UnionType(ts) => NodesOutsideTuples(ts);
      case IntersectionType(ts) => NodesOutsideTuples(ts);
      case ArrayType(elementType) => CollectedOutsideTuples(elementType);
      case TypeLiteral(members) => NodesOutsideTuples(members);
      case PropertySignature(_, _, propType) => CollectedOutsideTuples(propType);
      case IndexSignature(indexParams, returnType) => IndexParamsOutsideTuples(indexParams); CollectedOutsideTuples(returnType);
      case TypeParameter(_, constraint) => CollectedOutsideTuples(constraint);
      case MappedType(typeParameter, _, mapped) => CollectedOutsideTuples(typeParameter); CollectedOutsideTuples(mapped);
      case _ =>
    }
  }

  lemma {:induction false} NodesOutsideTuples(ns: seq<Node>)
    ensures forall x :: x in RefsNodes(ns) ==> x in IdentsNodes(ns)
    decreases ns, 0
  {
    if ns != [] {
      NodesOutsideTuples(ns[..|ns| - 1]);
      CollectedOutsideTuples(ns[|ns| - 1]);
    }
  }

  lemma {:induction false} ParamsOutsideTuples(ps: seq<Node>)
    ensures forall x :: x in RefsParams(ps) ==> x in IdentsNodes(ps)
    decreases ps, 0
  {
    if ps != [] {
      ParamsOutsideTuples(ps[..|ps| - 1]);
      ParamOutsideTuples(ps[|ps| - 1]);
    }
  }

  lemma {:induction false} ParamOutsideTuples(p: Node)
    ensures forall x :: x in ParamRefs(p) ==> x in IdentsOutsideTuples(p)
    decreases p, 0
  {
    match p {
      case Parameter(_, Some(t), _, _) => CollectedOutsideTuples(t);
      case _ =>
    }
  }

  lemma {:induction false} IndexParamsOutsideTuples(ps: seq<IndexParam>)
    ensures forall x :: x in RefsIndexParams(ps) ==> x in IdentsIndexParams(ps)
    decreases ps, 0
  {
    if ps != [] {
      IndexParamsOutsideTuples(ps[..|ps| - 1]);
      assert RefsIndexParams(ps) == RefsIndexParams(ps[..|ps| - 1]) + IndexParamRefs(ps[|ps| - 1]);
      match ps[|ps| - 1].paramType {
        case Some(t) => CollectedOutsideTuples(t);
        case None =>
      }
    }
  }

  /** `[Foo][]` collects nothing: the traversal does not enter tuples. */
  lemma TupleElementNotCollected(n: Node)
    requires n == ArrayType(TupleType([TypeReference(Identifier("Foo"), [])]))
    ensures Refs(n) == []
  {
    assert Refs(n) == Refs(n.elementType);
  }

  /** `[Foo][]` still prints `Foo`. */
  lemma TupleElementPrinted(n: Node)
    requires n == ArrayType(TupleType([TypeReference(Identifier("Foo"), [])]))
    ensures GetTypeName(n) == "[Foo][]"
  {
    var foo := n.elementType.elements[0];
    FooPrinted(foo);
    TuplePrinted(n.elementType, foo);
    ArrayOfTuplePrinted(n, n.elementType);
  }

  lemma ArrayOfTuplePrinted(n: Node, t: Node)
    requires n == ArrayType(t) && GetTypeName(t) == "[Foo]"
    ensures GetTypeName(n) == "[Foo][]"
  {
  }

  lemma FooPrinted(foo: Node)
    requires foo == TypeReference(Identifier("Foo"), [])
    ensures GetTypeName(foo) == "Foo"
  {
    assert GetTypeName(foo.typeName) == "Foo";
    assert Join(Names(foo.typeArguments), ", ") == "";
  }

  lemma TuplePrinted(t: Node, foo: Node)
    requires t == TupleType([foo]) && GetTypeName(foo) == "Foo"
    ensures GetTypeName(t) == "[Foo]"
  {
    var names := Names(t.elements);
    assert |names| == 1 && names[0] == "Foo";
    assert names == ["Foo"];
  }

  /** No rest parameter on any path the traversal follows. */
  ghost predicate NoRestParameters(n: Node)
    decreases n
  {
    match n
    case QualifiedName(left, _) => NoRestParameters(left)
    case TypeReference(typeName, args) => NoRestParameters(typeName) && NoRestNodes(args)
    case ParenthesizedType(inner) => NoRestParameters(inner)
    case FunctionType(parameters, returnType) =>
      (forall i :: 0 <= i < |parameters| ==> ParamNotRest(parameters[i])) && NoRestParameters(returnType)
    case UnionType(ts) => NoRestNodes(ts)
    case IntersectionType(ts) => NoRestNodes(ts)
    case ArrayType(elementType) => NoRestParameters(elementType)
    case TypeLiteral(members) => NoRestNodes(members)
    case PropertySignature(_, _, propType) => NoRestParameters(propType)
    case IndexSignature(indexParams, returnType) =>
      (forall i :: 0 <= i < |indexParams| ==> IndexParamNotRest(indexParams[i])) && NoRestParameters(returnType)
    case TypeParameter(_, constraint) => NoRestParameters(constraint)
    case MappedType(typeParameter, _, mapped) => NoRestParameters(typeParameter) && NoRestParameters(mapped)
    case _ => true
  }

  ghost predicate NoRestNodes(ns: seq<Node>)
    decreases ns
  {
    forall i :: 0 <= i < |ns| ==> NoRestParameters(ns[i])
  }

  ghost predicate ParamNotRest(p: Node)
    decreases p
  {
    match p
    case Parameter(_, Some(t), dotDotDot, _) => !dotDotDot && NoRestParameters(t)
    case Parameter(_, None, dotDotDot, _) => !dotDotDot
    case _ => true
  }

  ghost predicate IndexParamNotRest(p: IndexParam)
    decreases p
  {
    match p.paramType
    case Some(t) => NoRestParameters(t)
    case None => true
  }

  lemma ContainsEmpty(s: string)
    ensures Contains(s, "")
  {
    assert s == s + "" + "";
  }

  /** What occurs in a piece occurs in the whole. */
  lemma ContainsWithin(x: string, a: string, t: string, b: string)
    requires Contains(t, x)
    ensures Contains(a + t + b, x)
  {
    ContainsPiece(a, t, b);
    ContainsTrans(a + t + b, t, x);
  }

  lemma {:induction false} RefsNodesWitness(ns: seq<Node>, x: string) returns (k: nat)
    requires x in RefsNodes(ns)
    ensures k < |ns| && x in Refs(ns[k])
    decreases |ns|
  {
    if x in Refs(ns[|ns| - 1]) {
      k := |ns| - 1;
    } else {
      k := RefsNodesWitness(ns[..|ns| - 1], x);
    }
  }

  lemma {:induction false} RefsParamsWitness(ps: seq<Node>, x: string) returns (k: nat)
    requires x in RefsParams(ps)
    ensures k < |ps| && x in ParamRefs(ps[k])
    decreases |ps|
  {
    if x in ParamRefs(ps[|ps| - 1]) {
      k := |ps| - 1;
    } else {
      k := RefsParamsWitness(ps[..|ps| - 1], x);
    }
  }

  lemma {:induction false} RefsIndexParamsWitness(ps: seq<IndexParam>, x: string) returns (k: nat)
    requires x in RefsIndexParams(ps)
    ensures k < |ps| && ps[k].paramType.Some? && x in Refs(ps[k].paramType.value)
    decreases |ps|
  {
    var p := ps[|ps| - 1];
    assert RefsIndexParams(ps) == RefsIndexParams(ps[..|ps| - 1]) + IndexParamRefs(p);
    if p.paramType.Some? && x in Refs(p.paramType.value) {
      k := |ps| - 1;
    } else {
      k := RefsIndexParamsWitness(ps[..|ps| - 1], x);
    }
  }

  /** A printed type annotation `: T` shows everything `T` shows. */
  lemma AnnotationShows(printed: string, x: string)
    requires Contains(printed, x)
    ensures Contains(TypeAnnotation(printed), x)
  {
    if printed == "" {
      ContainsInEmpty(x);
      ContainsEmpty(TypeAnnotation(printed));
    } else {
      ContainsWithin(x, ": ", printed, "");
    }
  }

  /**
   * Every collected name can be read in the printed type, so that the generated wrapper
   * imports only names its `@Input` types mention. Rest parameters are excluded: they
   * print as `...rest` without their type, which is still collected.
   */
  lemma {:induction false} CollectedNamesArePrinted(n: Node)
    requires NoRestParameters(n)
    ensures forall x :: x in Refs(n) ==> Contains(GetTypeName(n), x)
    decreases n, 2
  {
    if n.Identifier? {
      ContainsSelf(n.escapedText);
    } else if HasOneChild(n) {
      OnlyChildNoRest(n);
      CollectedNamesArePrinted(OnlyChild(n));
      forall x | x in Refs(n) ensures Contains(GetTypeName(n), x) {
        WrapperShows(n, x);
      }
    } else {
      match n {
        case TypeReference(typeName, args) =>
          TypeReferencePrinted(typeName, args);
        case FunctionType(parameters, returnType) =>
          FunctionTypePrinted(parameters, returnType);
        case UnionType(ts) =>
          NodesPrinted(ts, " | ");
        case IntersectionType(ts) =>
          NodesPrinted(ts, " & ");
        case TypeLiteral(members) =>
          TypeLiteralPrinted(members);
        case IndexSignature(indexParams, returnType) =>
          IndexSignaturePrinted(indexParams, returnType);
        case MappedType(typeParameter, question, mapped) =>
          MappedTypePrinted(typeParameter, question, mapped);
        case _ =>
      }
    }
  }

  lemma OnlyChildNoRest(n: Node)
    requires HasOneChild(n) && NoRestParameters(n)
    ensures NoRestParameters(OnlyChild(n))
  {
  }

  /** What the only child shows, the node shows. */
  lemma WrapperShows(n: Node, x: string)
    requires HasOneChild(n) && Contains(GetTypeName(OnlyChild(n)), x)
    ensures Contains(GetTypeName(n), x)
  {
    match n {
      case QualifiedName(left, right) =>
        ShowsBefore(x, GetTypeName(left), ".");
        ShowsBefore(x, GetTypeName(left) + ".", GetTypeName(right));
      case ParenthesizedType(inner) =>
        ShowsAfter(x, "(", GetTypeName(inner));
        ShowsBefore(x, "(" + GetTypeName(inner), ")");
      case ArrayType(elementType) =>
        ShowsBefore(x, GetTypeName(elementType), "[]");
      case PropertySignature(propName, question, propType) =>
        ShowsAfter(x, propName + QuestionMark(question) + ": ", GetTypeName(propType));
        ShowsBefore(x, propName + QuestionMark(question) + ": " + GetTypeName(propType), ";");
      case TypeParameter(name, constraint) =>
        ShowsAfter(x, GetTypeName(name) + " in ", GetTypeName(constraint));
    }
  }

  lemma ShowsBefore(x: string, t: string, b: string)
    requires Contains(t, x)
    ensures Contains(t + b, x)
  {
    ContainsWithin(x, "", t, b);
    assert "" + t + b == t + b;
  }

  lemma ShowsAfter(x: string, a: string, t: string)
    requires Contains(t, x)
    ensures Contains(a + t, x)
  {
    ContainsWithin(x, a, t, "");
    assert a + t + "" == a + t;
  }

  lemma {:induction false} TypeLiteralPrinted(members: seq<Node>)
    requires NoRestParameters(TypeLiteral(members))
    ensures forall x :: x in Refs(TypeLiteral(members)) ==> Contains(GetTypeName(TypeLiteral(members)), x)
    decreases TypeLiteral(members), 1
  {
    NodesPrinted(members, "\n");
    forall x | x in Refs(TypeLiteral(members)) ensures Contains(GetTypeName(TypeLiteral(members)), x) {
      ContainsWithin(x, "{\n", Join(Names(members), "\n"), "\n}");
    }
  }

  lemma {:induction false} TypeReferencePrinted(typeName: Node, args: seq<Node>)
    requires NoRestParameters(TypeReference(typeName, args))
    ensures forall x :: x in Refs(TypeReference(typeName, args)) ==> Contains(GetTypeName(TypeReference(typeName, args)), x)
    decreases TypeReference(typeName, args), 1
  {
    CollectedNamesArePrinted(typeName);
    NodesPrinted(args, ", ");
    var t := GetTypeName(typeName);
    var g := Join(Names(args), ", ");
    assert GetTypeName(TypeReference(typeName, args)) == t + AngleBrackets(g);
    forall x | x in Refs(TypeReference(typeName, args)) ensures Contains(t + AngleBrackets(g), x) {
      TypeReferenceShows(t, g, x);
    }
  }

  /** What the name or the argument list shows, the reference shows. */
  lemma TypeReferenceShows(t: string, g: string, x: string)
    requires Contains(t, x) || Contains(g, x)
    ensures Contains(t + AngleBrackets(g), x)
  {
    if Contains(t, x) {
      ContainsWithin(x, "", t, AngleBrackets(g));
      assert "" + t + AngleBrackets(g) == t + AngleBrackets(g);
    } else if g == "" {
      ContainsInEmpty(x);
      ContainsEmpty(t + AngleBrackets(g));
    } else {
      ContainsWithin(x, t + "<", g, ">");
      assert t + "<" + g + ">" == t + AngleBrackets(g);
    }
  }

  lemma {:induction false} FunctionTypePrinted(parameters: seq<Node>, returnType: Node)
    requires NoRestParameters(FunctionType(parameters, returnType))
    ensures forall x :: x in Refs(FunctionType(parameters, returnType)) ==> Contains(GetTypeName(FunctionType(parameters, returnType)), x)
    decreases FunctionType(parameters, returnType), 1
  {
    CollectedNamesArePrinted(returnType);
    var j := Join(Names(parameters), ", ");
    var r := GetTypeName(returnType);
    assert GetTypeName(FunctionType(parameters, returnType)) == "(" + j + ") => " + r;
    forall x | x in Refs(FunctionType(parameters, returnType)) ensures Contains("(" + j + ") => " + r, x) {
      if x in RefsParams(parameters) {
        ParamsPrinted(parameters, x);
      }
      BracketedShows("(", j, ") => ", r, x);
    }
  }

  /**
   * What the parameter list or the result type shows, the printed type built around them
   * shows: `(j) => r` for a function type, `[j]: r` for an index signature.
   */
  lemma BracketedShows(left: string, j: string, right: string, r: string, x: string)
    requires Contains(j, x) || Contains(r, x)
    ensures Contains(left + j + right + r, x)
  {
    if Contains(j, x) {
      ContainsWithin(x, left, j, right + r);
      assert left + j + (right + r) == left + j + right + r;
    } else {
      ContainsWithin(x, left + j + right, r, "");
      assert left + j + right + r + "" == left + j + right + r;
    }
  }

  lemma {:induction false} IndexSignaturePrinted(indexParams: seq<IndexParam>, returnType: Node)
    requires NoRestParameters(IndexSignature(indexParams, returnType))
    ensures forall x :: x in Refs(IndexSignature(indexParams, returnType)) ==> Contains(GetTypeName(IndexSignature(indexParams, returnType)), x)
    decreases IndexSignature(indexParams, returnType), 1
  {
    CollectedNamesArePrinted(returnType);
    var j := Join(IndexParamNames(indexParams), ", ");
    var r := GetTypeName(returnType);
    assert GetTypeName(IndexSignature(indexParams, returnType)) == "[" + j + "]: " + r;
    forall x | x in Refs(IndexSignature(indexParams, returnType)) ensures Contains("[" + j + "]: " + r, x) {
      if x in RefsIndexParams(indexParams) {
        IndexParamsPrinted(indexParams, x);
      }
      BracketedShows("[", j, "]: ", r, x);
    }
  }

  lemma {:induction false} MappedTypePrinted(typeParameter: Node, question: bool, mapped: Node)
    requires NoRestParameters(MappedType(typeParameter, question, mapped))
    ensures forall x :: x in Refs(MappedType(typeParameter, question, mapped)) ==> Contains(GetTypeName(MappedType(typeParameter, question, mapped)), x)
    decreases MappedType(typeParameter, question, mapped), 1
  {
    CollectedNamesArePrinted(typeParameter);
    CollectedNamesArePrinted(mapped);
    var tp := GetTypeName(typeParameter);
    var q := QuestionMark(question);
    var m := GetTypeName(mapped);
    assert GetTypeName(MappedType(typeParameter, question, mapped)) == "{\n[" + tp + "]" + q + ":" + m + "\n}";
    forall x | x in Refs(MappedType(typeParameter, question, mapped)) ensures Contains("{\n[" + tp + "]" + q + ":" + m + "\n}", x) {
      MappedTypeShows(tp, q, m, x);
    }
  }

  /** What the type parameter or the mapped type shows, the mapped type shows. */
  lemma MappedTypeShows(tp: string, q: string, m: string, x: string)
    requires Contains(tp, x) || Contains(m, x)
    ensures Contains("{\n[" + tp + "]" + q + ":" + m + "\n}", x)
  {
    if Contains(tp, x) {
      ContainsWithin(x, "{\n[", tp, "]" + q + ":" + m + "\n}");
      assert "{\n[" + tp + ("]" + q + ":" + m + "\n}") == "{\n[" + tp + "]" + q + ":" + m + "\n}";
    } else {
      ContainsWithin(x, "{\n[" + tp + "]" + q + ":", m, "\n}");
    }
  }

  lemma {:induction false} NodesPrinted(ns: seq<Node>, sep: string)
    requires NoRestNodes(ns)
    ensures forall x :: x in RefsNodes(ns) ==> Contains(Join(Names(ns), sep), x)
    decreases ns, 0
  {
    forall x | x in RefsNodes(ns)
      ensures Contains(Join(Names(ns), sep), x)
    {
      var k := RefsNodesWitness(ns, x);
      CollectedNamesArePrinted(ns[k]);
      ContainsJoinPart(Names(ns), sep, k);
      ContainsTrans(Join(Names(ns), sep), GetTypeName(ns[k]), x);
    }
  }

  lemma {:induction false} ParamsPrinted(ps: seq<Node>, x: string)
    requires forall i :: 0 <= i < |ps| ==> ParamNotRest(ps[i])
    requires x in RefsParams(ps)
    ensures Contains(Join(Names(ps), ", "), x)
    decreases ps, 0
  {
    var k := RefsParamsWitness(ps, x);
    ParamPrinted(ps[k], x);
    ContainsJoinPart(Names(ps), ", ", k);
    ContainsTrans(Join(Names(ps), ", "), GetTypeName(ps[k]), x);
  }

  lemma {:induction false} ParamPrinted(p: Node, x: string)
    requires ParamNotRest(p)
    requires x in ParamRefs(p)
    ensures Contains(GetTypeName(p), x)
    decreases p, 0
  {
    match p {
      case Parameter(name, Some(t), _, question) =>
        CollectedNamesArePrinted(t);
        AnnotationShows(GetTypeName(t), x);
        assert OptionalTypeName(Some(t)) == GetTypeName(t);
        assert GetTypeName(p) == GetTypeName(name) + QuestionMark(question) + TypeAnnotation(GetTypeName(t));
        ContainsWithin(x, GetTypeName(name) + QuestionMark(question), TypeAnnotation(GetTypeName(t)), "");
    }
  }

  lemma {:induction false} IndexParamsPrinted(ps: seq<IndexParam>, x: string)
    requires forall i :: 0 <= i < |ps| ==> IndexParamNotRest(ps[i])
    requires x in RefsIndexParams(ps)
    ensures Contains(Join(IndexParamNames(ps), ", "), x)
    decreases ps, 0
  {
    var k := RefsIndexParamsWitness(ps, x);
    IndexParamPrinted(ps[k], x);
    IndexParamNameAt(ps, k);
    ContainsJoinPart(IndexParamNames(ps), ", ", k);
    ContainsTrans(Join(IndexParamNames(ps), ", "), IndexParamNames(ps)[k], x);
  }

  lemma {:induction false} IndexParamPrinted(p: IndexParam, x: string)
    requires IndexParamNotRest(p)
    requires p.paramType.Some? && x in Refs(p.paramType.value)
    ensures Contains(p.name + QuestionMark(p.question) + TypeAnnotation(OptionalTypeName(p.paramType)), x)
    decreases p, 0
  {
    match p.paramType {
      case Some(t) =>
        CollectedNamesArePrinted(t);
        AnnotationShows(GetTypeName(t), x);
        ContainsWithin(x, p.name + QuestionMark(p.question), TypeAnnotation(GetTypeName(t)), "");
    }
  }

  lemma {:induction false} IndexParamNameAt(ps: seq<IndexParam>, k: nat)
    requires k < |ps|
    ensures IndexParamNames(ps)[k] == ps[k].name + QuestionMark(ps[k].question) + TypeAnnotation(OptionalTypeName(ps[k].paramType))
    decreases |ps|
  {
    if k > 0 {
      IndexParamNameAt(ps[1..], k - 1);
    }
  }
}
