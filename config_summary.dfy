/**
 * `getConfigProperties` and `getConfigSummary`: the properties, members, statements and
 * generics that a component's chain of config interfaces contributes to its wrapper.
 * Each source file is given as its parsed statements.
 */
module ConfigSummary {
  import opened Wrappers
  import opened Collections
  import opened TypeSyntax
  import opened TypeName

  /** One property of a config interface, as the generator records it. */
  datatype ConfigProperty = ConfigProperty(name: string, typ: string, doc: Option<seq<Option<string>>>, required: bool)

  /** What `getConfigSummary` returns. */
  datatype ConfigSummary = ConfigSummary(
    configProperties: seq<ConfigProperty>,
    configInterfaceMembers: seq<PropertyDecl>,
    generics: Option<seq<Generic>>,
    statements: seq<Statement>)

  function MemberNames(members: seq<PropertyDecl>): (names: seq<string>)
    ensures |names| == |members| && forall i :: 0 <= i < |members| ==> names[i] == members[i].name
  {
    seq(|members|, i requires 0 <= i < |members| => members[i].name)
  }

  function PropertyNames(props: seq<ConfigProperty>): (names: seq<string>)
    ensures |names| == |props| && forall i :: 0 <= i < |props| ==> names[i] == props[i].name
  {
    seq(|props|, i requires 0 <= i < |props| => props[i].name)
  }

  function GetConfigProperty(member: PropertyDecl): (p: ConfigProperty)
    ensures p.name == member.name && p.typ == GetTypeName(member.typ) && p.doc == member.jsDoc
    ensures p.required <==> !member.question
  {
    ConfigProperty(member.name, GetTypeName(member.typ), member.jsDoc, !member.question)
  }

  /** One property per member, in the members' order; a property is required exactly when its member has no `?`. */
  function GetConfigProperties(iface: InterfaceDecl): (props: seq<ConfigProperty>)
    ensures |props| == |iface.members|
    ensures forall i :: 0 <= i < |props| ==> props[i] == GetConfigProperty(iface.members[i])
    ensures PropertyNames(props) == MemberNames(iface.members)
  {
    seq(|iface.members|, i requires 0 <= i < |iface.members| => GetConfigProperty(iface.members[i]))
  }

  /** `statements.find(isInterfaceDeclaration)`. */
  function FindInterface(stmts: seq<Statement>): (r: Option<InterfaceDecl>)
    ensures r.None? <==> forall i :: 0 <= i < |stmts| ==> !stmts[i].InterfaceDeclaration?
    ensures r.Some? ==> exists i :: 0 <= i < |stmts| && stmts[i] == InterfaceDeclaration(r.value)
                                    && forall j :: 0 <= j < i ==> !stmts[j].InterfaceDeclaration?
    decreases |stmts|
  {
    if stmts == [] then None
    else if stmts[0].InterfaceDeclaration? then Some(stmts[0].decl)
    else
      var r := FindInterface(stmts[1..]);
      assert r.Some? ==> exists i :: 0 <= i < |stmts[1..]| && stmts[1..][i] == InterfaceDeclaration(r.value)
                           && forall j :: 0 <= j < i ==> !stmts[1..][j].InterfaceDeclaration?;
      assert r.Some? ==> exists i :: 1 <= i < |stmts| && stmts[i] == InterfaceDeclaration(r.value)
                           && forall j :: 1 <= j < i ==> !stmts[j].InterfaceDeclaration?;
      r
  }

  /** The index of the first member of that name at or after `from`. */
  function FirstMemberIndex(members: seq<PropertyDecl>, name: string, from: nat): (k: Option<nat>)
    requires from <= |members|
    ensures k.None? <==> forall i :: from <= i < |members| ==> members[i].name != name
    ensures k.Some? ==> from <= k.value < |members| && members[k.value].name == name
                        && forall j :: from <= j < k.value ==> members[j].name != name
    decreases |members| - from
  {
    if from == |members| then None
    else if members[from].name == name then Some(from)
    else FirstMemberIndex(members, name, from + 1)
  }

  /** `members.find(m => m.name?.escapedText === name)`: the first member of that name. */
  function FindMember(members: seq<PropertyDecl>, name: string): (r: Option<PropertyDecl>)
    ensures r.None? <==> name !in MemberNames(members)
    ensures r.Some? ==> r.value in members && r.value.name == name
    ensures r.Some? ==> exists i :: 0 <= i < |members| && members[i] == r.value
                                    && forall j :: 0 <= j < i ==> members[j].name != name
  {
    match FirstMemberIndex(members, name, 0)
    case None => None
    case Some(i) => Some(members[i])
  }

  /** `members.filter(m => m.name?.escapedText !== name)`. */
  function WithoutMember(members: seq<PropertyDecl>, name: string): (r: seq<PropertyDecl>)
    ensures forall m :: m in r ==> m in members && m.name != name
    ensures forall m :: m in members && m.name != name ==> m in r
    ensures forall m: PropertyDecl :: m.name != name ==> multiset(r)[m] == multiset(members)[m]
    ensures forall x :: x in MemberNames(r) <==> x in MemberNames(members) && x != name
    decreases |members|
  {
    if members == [] then []
    else
      var last := members[|members| - 1];
      var init := members[..|members| - 1];
      var ri := WithoutMember(init, name);
      WithoutMemberStep(init, last, ri, name);
      assert members == init + [last];
      var r := ri + (if last.name == name then [] else [last]);
      SameNamesWithout(r, members, name);
      r
  }

  /** Filtering one more member keeps the members of other names, with their multiplicity. */
  lemma WithoutMemberStep(init: seq<PropertyDecl>, last: PropertyDecl, ri: seq<PropertyDecl>, name: string)
    requires forall m :: m in ri ==> m in init && m.name != name
    requires forall m: PropertyDecl :: m.name != name ==> multiset(ri)[m] == multiset(init)[m]
    ensures var r := ri + (if last.name == name then [] else [last]);
            (forall m :: m in r ==> m in init + [last] && m.name != name) &&
            (forall m: PropertyDecl :: m.name != name ==> multiset(r)[m] == multiset(init + [last])[m]) &&
            (forall m :: m in init + [last] && m.name != name ==> m in r)
  {
    var r := ri + (if last.name == name then [] else [last]);
    assert multiset(init + [last]) == multiset(init) + multiset{last};
    assert multiset(r) == multiset(ri) + (if last.name == name then multiset{} else multiset{last});
    forall m | m in init + [last] && m.name != name
      ensures m in r
    {
      assert multiset(init + [last])[m] > 0;
    }
  }

  /** Two member lists that agree on the members of other names agree on the other names. */
  lemma SameNamesWithout(r: seq<PropertyDecl>, members: seq<PropertyDecl>, name: string)
    requires forall m :: m in r ==> m in members && m.name != name
    requires forall m :: m in members && m.name != name ==> m in r
    ensures forall x :: x in MemberNames(r) <==> x in MemberNames(members) && x != name
  {
    forall x | x in MemberNames(r)
      ensures x in MemberNames(members) && x != name
    {
      var i :| 0 <= i < |r| && MemberNames(r)[i] == x;
      assert r[i] in members;
      var j :| 0 <= j < |members| && members[j] == r[i];
      assert MemberNames(members)[j] == x;
    }
    forall x | x in MemberNames(members) && x != name
      ensures x in MemberNames(r)
    {
      var j :| 0 <= j < |members| && MemberNames(members)[j] == x;
      assert members[j] in r;
      var i :| 0 <= i < |r| && r[i] == members[j];
      assert MemberNames(r)[i] == x;
    }
  }

  // ---------------------------------------------------------------------------------------
  // The state threaded through the source files

  /**
   * `requiredProps` maps an interface name to the properties it contributed; `configProperties`
   * is the `Map` of all properties; `members` the members whose types need importing.
   */
  datatype Summary = Summary(
    requiredProps: map<string, seq<string>>,
    configProperties: OrderedMap<ConfigProperty>,
    statements: seq<Statement>,
    members: seq<PropertyDecl>,
    generics: Option<seq<Generic>>)

  function Initial(): (s: Summary)
    ensures s.configProperties.Valid()
  {
    Summary(map[], EmptyMap(), [], [], Some([]))
  }

  /** The `props.forEach` body: skipped and (when asked) optional properties are dropped. */
  function AddProp(s: Summary, iface: InterfaceDecl, interfaceName: string, p: ConfigProperty,
                   skip: seq<string>, keepOnlyRequired: bool): (r: Summary)
    requires s.configProperties.Valid() && interfaceName in s.requiredProps
    ensures r.configProperties.Valid() && interfaceName in r.requiredProps
    ensures r.statements == s.statements && r.generics == s.generics
  {
    if p.name in skip || (keepOnlyRequired && !p.required) then s
    else
      var member := FindMember(iface.members, p.name);
      s.(configProperties := s.configProperties.Set(p.name, p),
         requiredProps := s.requiredProps[interfaceName := s.requiredProps[interfaceName] + [p.name]],
         members := s.members + (if member.Some? then [member.value] else []))
  }

  function AddProps(s: Summary, iface: InterfaceDecl, interfaceName: string, props: seq<ConfigProperty>,
                    skip: seq<string>, keepOnlyRequired: bool): (r: Summary)
    requires s.configProperties.Valid() && interfaceName in s.requiredProps
    ensures r.configProperties.Valid() && interfaceName in r.requiredProps
    ensures r.statements == s.statements && r.generics == s.generics
    decreases |props|
  {
    if props == [] then s
    else AddProp(AddProps(s, iface, interfaceName, props[..|props| - 1], skip, keepOnlyRequired),
                 iface, interfaceName, props[|props| - 1], skip, keepOnlyRequired)
  }

  /** A property survives the filters of the `forEach` body: not skipped, and required when only required ones are kept. */
  predicate Kept(p: ConfigProperty, skip: seq<string>, keepOnlyRequired: bool)
  {
    p.name !in skip && (!keepOnlyRequired || p.required)
  }

  /** The names of the kept properties, in order. */
  function KeptNames(props: seq<ConfigProperty>, skip: seq<string>, keepOnlyRequired: bool): (names: seq<string>)
    ensures forall x :: x in names <==> exists i :: 0 <= i < |props| && Kept(props[i], skip, keepOnlyRequired) && props[i].name == x
    decreases |props|
  {
    if props == [] then []
    else
      var last := props[|props| - 1];
      var init := props[..|props| - 1];
      assert forall i :: 0 <= i < |init| ==> init[i] == props[i];
      KeptNames(init, skip, keepOnlyRequired) + (if Kept(last, skip, keepOnlyRequired) then [last.name] else [])
  }

  /** `props[i]` is kept and no later kept property has its name: its definition is the one that stays. */
  predicate LastKept(props: seq<ConfigProperty>, i: int, skip: seq<string>, keepOnlyRequired: bool)
  {
    0 <= i < |props| && Kept(props[i], skip, keepOnlyRequired) &&
    forall j :: i < j < |props| && Kept(props[j], skip, keepOnlyRequired) ==> props[j].name != props[i].name
  }

  /** The heritage types given type arguments: `hc.types.filter(t => t.typeArguments)`. */
  function UtilityTypes(heritage: seq<HeritageType>): (r: seq<HeritageType>)
    ensures forall t :: t in r <==> t in heritage && t.typeArguments.Some?
    decreases |heritage|
  {
    if heritage == [] then []
    else
      var last := heritage[|heritage| - 1];
      assert heritage == heritage[..|heritage| - 1] + [last];
      UtilityTypes(heritage[..|heritage| - 1]) + (if last.typeArguments.Some? then [last] else [])
  }

  /**
   * The properties a utility type makes optional: `Partial<I>` all those recorded for `I`,
   * `WithOptional<I, K>` the single name `K`, anything else none. The cases where the
   * generator dereferences a missing value are failures.
   */
  function OptionalProps(requiredProps: map<string, seq<string>>, t: HeritageType): (r: Result<seq<string>>)
  {
    var types := if t.typeArguments.Some? then t.typeArguments.value else [];
    if t.expression == "Partial" then
      if |types| == 0 then Failure("TypeError: Partial has no type argument")
      else if !types[0].TypeReference? then Failure("TypeError: the argument of Partial has no type name")
      else if GetTypeName(types[0].typeName) !in requiredProps then Failure("TypeError: no properties recorded for the argument of Partial")
      else Ok(requiredProps[GetTypeName(types[0].typeName)])
    else if t.expression == "WithOptional" then
      if |types| < 2 then Failure("TypeError: WithOptional has no property argument")
      else Ok([GetTypeName(types[1])])
    else Ok([])
  }

  /** Deleting one property from the map and dropping the members of that name. */
  function RemoveProp(s: Summary, p: string): (r: Summary)
    requires s.configProperties.Valid()
    ensures r.configProperties.Valid()
  {
    s.(configProperties := s.configProperties.Delete(p), members := WithoutMember(s.members, p))
  }

  function RemoveProps(s: Summary, ps: seq<string>): (r: Summary)
    requires s.configProperties.Valid()
    ensures r.configProperties.Valid()
    decreases |ps|
  {
    if ps == [] then s else RemoveProp(RemoveProps(s, ps[..|ps| - 1]), ps[|ps| - 1])
  }

  function ApplyUtility(s: Summary, t: HeritageType): (r: Result<Summary>)
    requires s.configProperties.Valid()
    ensures r.Ok? ==> r.value.configProperties.Valid()
  {
    match OptionalProps(s.requiredProps, t)
    case Failure(e) => Failure(e)
    case Ok(ps) => Ok(RemoveProps(s, ps))
  }

  function ApplyUtilities(s: Summary, ts: seq<HeritageType>): (r: Result<Summary>)
    requires s.configProperties.Valid()
    ensures r.Ok? ==> r.value.configProperties.Valid()
    decreases |ts|
  {
    if ts == [] then Ok(s)
    else
      match ApplyUtilities(s, ts[..|ts| - 1])
      case Failure(e) => Failure(e)
      case Ok(s') => ApplyUtility(s', ts[|ts| - 1])
  }

  /**
   * The names a list of utility types deletes, as long as none fails. Deleting never changes
   * `requiredProps`, so each type reads the same record.
   */
  function Removed(requiredProps: map<string, seq<string>>, ts: seq<HeritageType>): seq<string>
    decreases |ts|
  {
    if ts == [] then []
    else
      Removed(requiredProps, ts[..|ts| - 1]) +
      match OptionalProps(requiredProps, ts[|ts| - 1])
      case Ok(ps) => ps
      case Failure(_) => []
  }

  /** `constraint?.typeName?.escapedText`: present only for a reference to a plain identifier. */
  function ReferencedIdentifier(t: Option<Node>): (r: Option<string>)
    ensures r.Some? <==> t.Some? && t.value.TypeReference? && t.value.typeName.Identifier?
    ensures r.Some? ==> r.value == t.value.typeName.escapedText
  {
    match t
    case Some(TypeReference(Identifier(text), _)) => Some(text)
    case _ => None
  }

  /** The generics of the last interface: absent when it declares no type parameters. */
  function GenericsOf(typeParameters: Option<seq<TypeParamDecl>>): (r: Option<seq<Generic>>)
    ensures r.None? <==> typeParameters.None?
    ensures r.Some? ==> |r.value| == |typeParameters.value|
                        && forall i :: 0 <= i < |r.value| ==> r.value[i].name == typeParameters.value[i].name
    ensures r.Some? ==> forall i :: 0 <= i < |r.value| ==>
                          r.value[i].extendsName == ReferencedIdentifier(typeParameters.value[i].constraint)
                          && r.value[i].defaultName == ReferencedIdentifier(typeParameters.value[i].defaultType)
  {
    match typeParameters
    case None => None
    case Some(tps) =>
      Some(seq(|tps|, i requires 0 <= i < |tps| =>
        Generic(tps[i].name, ReferencedIdentifier(tps[i].constraint), ReferencedIdentifier(tps[i].defaultType))))
  }

  /** One iteration of the loop over the component's source files. */
  function StepFile(s: Summary, stmts: seq<Statement>, isLast: bool, skip: seq<string>, keepOnlyRequired: bool): (r: Result<Summary>)
    requires s.configProperties.Valid()
    ensures r.Ok? ==> r.value.configProperties.Valid()
  {
    match FindInterface(stmts)
    case None => Ok(s)
    case Some(iface) =>
      var s1 := s.(requiredProps := s.requiredProps[iface.name := []]);
      var s2 := AddProps(s1, iface, iface.name, GetConfigProperties(iface), skip, keepOnlyRequired);
      match ApplyUtilities(s2, UtilityTypes(iface.heritage))
      case Failure(e) => Failure(e)
      case Ok(s3) =>
        var s4 := s3.(statements := s3.statements + stmts);
        Ok(if isLast then s4.(generics := GenericsOf(iface.typeParameters)) else s4)
  }

  /** The first files of a component with `total` files. */
  function SummarizeFiles(files: seq<seq<Statement>>, total: nat, skip: seq<string>, keepOnlyRequired: bool): (r: Result<Summary>)
    ensures r.Ok? ==> r.value.configProperties.Valid()
    decreases |files|
  {
    if files == [] then Ok(Initial())
    else
      match SummarizeFiles(files[..|files| - 1], total, skip, keepOnlyRequired)
      case Failure(e) => Failure(e)
      case Ok(s) => StepFile(s, files[|files| - 1], |files| == total, skip, keepOnlyRequired)
  }

  function Finish(s: Summary): ConfigSummary
    requires s.configProperties.Valid()
  {
    ConfigSummary(s.configProperties.Values(), s.members, s.generics, s.statements)
  }

  /** The specification of `getConfigSummary`. */
  function Summarize(files: seq<seq<Statement>>, skip: seq<string>, keepOnlyRequired: bool): Result<ConfigSummary>
  {
    match SummarizeFiles(files, |files|, skip, keepOnlyRequired)
    case Failure(e) => Failure(e)
    case Ok(s) => Ok(Finish(s))
  }

  lemma {:induction false} ApplyUtilitiesFailurePersists(s: Summary, ts: seq<HeritageType>, j: nat)
    requires s.configProperties.Valid()
    requires j < |ts| && ApplyUtilities(s, ts[..j + 1]).Failure?
    ensures ApplyUtilities(s, ts) == ApplyUtilities(s, ts[..j + 1])
    decreases |ts|
  {
    if |ts| != j + 1 {
      assert ts[..|ts| - 1][..j + 1] == ts[..j + 1];
      ApplyUtilitiesFailurePersists(s, ts[..|ts| - 1], j);
    } else {
      assert ts[..j + 1] == ts;
    }
  }

  lemma {:induction false} SummarizeFailurePersists(files: seq<seq<Statement>>, total: nat, skip: seq<string>, keep: bool, i: nat)
    requires i < |files| && SummarizeFiles(files[..i + 1], total, skip, keep).Failure?
    ensures SummarizeFiles(files, total, skip, keep) == SummarizeFiles(files[..i + 1], total, skip, keep)
    decreases |files|
  {
    if |files| != i + 1 {
      assert files[..|files| - 1][..i + 1] == files[..i + 1];
      SummarizeFailurePersists(files[..|files| - 1], total, skip, keep, i);
    } else {
      assert files[..i + 1] == files;
    }
  }

  // ---------------------------------------------------------------------------------------
  // The operation

  method GetConfigSummary(files: seq<seq<Statement>>, skipProperties: seq<string>, keepOnlyRequiredProperties: bool)
    returns (r: Result<ConfigSummary>)
    ensures r == Summarize(files, skipProperties, keepOnlyRequiredProperties)
  {
    var requiredProps: map<string, seq<string>> := map[];
    var configPropertiesMap := EmptyMap<ConfigProperty>();
    var statements: seq<Statement> := [];
    var configInterfaceMembers: seq<PropertyDecl> := [];
    var generics: Option<seq<Generic>> := Some([]);
    for i := 0 to |files|
      invariant SummarizeFiles(files[..i], |files|, skipProperties, keepOnlyRequiredProperties)
                == Ok(Summary(requiredProps, configPropertiesMap, statements, configInterfaceMembers, generics))
    {
      assert files[..i + 1][..i] == files[..i];
      ghost var s := Summary(requiredProps, configPropertiesMap, statements, configInterfaceMembers, generics);
      var sourceStatements := files[i];
      var configInterface := FindInterface(sourceStatements);
      if configInterface.Some? {
        var iface := configInterface.value;
        var interfaceName := iface.name;
        requiredProps := requiredProps[interfaceName := []];
        var s1 := Summary(requiredProps, configPropertiesMap, statements, configInterfaceMembers, generics);
        var added := AddInterfaceProperties(s1, iface, interfaceName, skipProperties, keepOnlyRequiredProperties);
        requiredProps, configPropertiesMap, configInterfaceMembers := added.requiredProps, added.configProperties, added.members;
        var s2 := Summary(requiredProps, configPropertiesMap, statements, configInterfaceMembers, generics);
        var applied := ApplyUtilityTypes(s2, UtilityTypes(iface.heritage));
        if applied.Failure? {
          assert files[..i + 1][..i] == files[..i];
          SummarizeFailurePersists(files, |files|, skipProperties, keepOnlyRequiredProperties, i);
          return Failure(applied.error);
        }
        configPropertiesMap, configInterfaceMembers := applied.value.configProperties, applied.value.members;
        statements := statements + sourceStatements;
        if i == |files| - 1 {
          generics := GenericsOf(iface.typeParameters);
        }
      }
    }
    assert files[..|files|] == files;
    r := Ok(ConfigSummary(configPropertiesMap.Values(), configInterfaceMembers, generics, statements));
  }

  /**
   * The loop over the properties of one config interface: each one not skipped is set in the
   * map, recorded under the interface's name and its member kept.
   */
  method AddInterfaceProperties(s: Summary, iface: InterfaceDecl, interfaceName: string,
                                skipProperties: seq<string>, keepOnlyRequiredProperties: bool) returns (r: Summary)
    requires s.configProperties.Valid() && interfaceName in s.requiredProps
    ensures r == AddProps(s, iface, interfaceName, GetConfigProperties(iface), skipProperties, keepOnlyRequiredProperties)
    ensures r.statements == s.statements && r.generics == s.generics
  {
    var props := GetConfigProperties(iface);
    r := s;
    for j := 0 to |props|
      invariant r == AddProps(s, iface, interfaceName, props[..j], skipProperties, keepOnlyRequiredProperties)
    {
      AddPropsStep(s, iface, interfaceName, props, j, skipProperties, keepOnlyRequiredProperties);
      r := AddInterfaceProperty(r, iface, interfaceName, props[j], skipProperties, keepOnlyRequiredProperties);
    }
    assert props[..|props|] == props;
  }

  lemma AddPropsStep(s: Summary, iface: InterfaceDecl, interfaceName: string, props: seq<ConfigProperty>, j: nat,
                     skip: seq<string>, keep: bool)
    requires s.configProperties.Valid() && interfaceName in s.requiredProps && j < |props|
    ensures AddProps(s, iface, interfaceName, props[..j + 1], skip, keep)
            == AddProp(AddProps(s, iface, interfaceName, props[..j], skip, keep), iface, interfaceName, props[j], skip, keep)
  {
    assert props[..j + 1][..j] == props[..j];
  }

  /** The body of that loop for one property. */
  method AddInterfaceProperty(s: Summary, iface: InterfaceDecl, interfaceName: string, p: ConfigProperty,
                              skipProperties: seq<string>, keepOnlyRequiredProperties: bool) returns (r: Summary)
    requires s.configProperties.Valid() && interfaceName in s.requiredProps
    ensures r == AddProp(s, iface, interfaceName, p, skipProperties, keepOnlyRequiredProperties)
    ensures r.statements == s.statements && r.generics == s.generics
  {
    r := s;
    if p.name !in skipProperties && !(keepOnlyRequiredProperties && !p.required) {
      var configPropertiesMap := s.configProperties.Set(p.name, p);
      var requiredProps := s.requiredProps[interfaceName := s.requiredProps[interfaceName] + [p.name]];
      var configInterfaceMembers := s.members;
      var member := FindMember(iface.members, p.name);
      if member.Some? {
        configInterfaceMembers := configInterfaceMembers + [member.value];
      }
      r := s.(requiredProps := requiredProps, configProperties := configPropertiesMap, members := configInterfaceMembers);
    }
  }

  /**
   * The loop over the heritage types with type arguments: each makes its properties optional by
   * deleting them from the map and from the members; the first failing one ends the run.
   */
  method ApplyUtilityTypes(s: Summary, utilityTypes: seq<HeritageType>) returns (r: Result<Summary>)
    requires s.configProperties.Valid()
    ensures r == ApplyUtilities(s, utilityTypes)
    ensures r.Ok? ==> r.value == s.(configProperties := r.value.configProperties, members := r.value.members)
  {
    var cur := s;
    for j := 0 to |utilityTypes|
      invariant ApplyUtilities(s, utilityTypes[..j]) == Ok(cur)
      invariant cur == s.(configProperties := cur.configProperties, members := cur.members)
    {
      assert utilityTypes[..j + 1][..j] == utilityTypes[..j];
      var optionalProps := OptionalProps(s.requiredProps, utilityTypes[j]);
      if optionalProps.Failure? {
        ApplyUtilitiesFailurePersists(s, utilityTypes, j);
        return Failure(optionalProps.error);
      }
      cur := RemoveOptionalProps(cur, optionalProps.value);
    }
    assert utilityTypes[..|utilityTypes|] == utilityTypes;
    r := Ok(cur);
  }

  /** Deletes each optional property from the map and drops the members of that name. */
  method RemoveOptionalProps(s: Summary, ps: seq<string>) returns (r: Summary)
    requires s.configProperties.Valid()
    ensures r == RemoveProps(s, ps)
    ensures r == s.(configProperties := r.configProperties, members := r.members)
  {
    var configPropertiesMap := s.configProperties;
    var configInterfaceMembers := s.members;
    for k := 0 to |ps|
      invariant s.(configProperties := configPropertiesMap, members := configInterfaceMembers) == RemoveProps(s, ps[..k])
    {
      assert ps[..k + 1][..k] == ps[..k];
      configPropertiesMap := configPropertiesMap.Delete(ps[k]);
      configInterfaceMembers := WithoutMember(configInterfaceMembers, ps[k]);
    }
    assert ps[..|ps|] == ps;
    r := s.(configProperties := configPropertiesMap, members := configInterfaceMembers);
  }

  // ---------------------------------------------------------------------------------------
  // Properties

  /**
   * What every reachable state satisfies: no listed property is skipped, only required ones
   * are listed when optional ones are dropped, each entry sits under its own name, and the
   * members kept for import resolution are exactly those of the listed properties.
   */
  ghost predicate Consistent(s: Summary, skip: seq<string>, keepOnlyRequired: bool)
  {
    var m := s.configProperties;
    m.Valid() &&
    (forall k :: k in m.entries ==> k !in skip && m.entries[k].name == k && (keepOnlyRequired ==> m.entries[k].required)) &&
    (forall x :: x in m.entries <==> x in MemberNames(s.members))
  }

  lemma AddPropConsistent(s: Summary, iface: InterfaceDecl, interfaceName: string, p: ConfigProperty,
                          skip: seq<string>, keep: bool)
    requires Consistent(s, skip, keep) && interfaceName in s.requiredProps
    requires p.name in MemberNames(iface.members)
    ensures Consistent(AddProp(s, iface, interfaceName, p, skip, keep), skip, keep)
  {
    if !(p.name in skip || (keep && !p.required)) {
      var member := FindMember(iface.members, p.name);
      assert MemberNames(s.members + [member.value]) == MemberNames(s.members) + [p.name];
    }
  }

  lemma {:induction false} AddPropsConsistent(s: Summary, iface: InterfaceDecl, interfaceName: string,
                                              props: seq<ConfigProperty>, skip: seq<string>, keep: bool)
    requires Consistent(s, skip, keep) && interfaceName in s.requiredProps
    requires forall p :: p in props ==> p.name in MemberNames(iface.members)
    ensures Consistent(AddProps(s, iface, interfaceName, props, skip, keep), skip, keep)
    decreases |props|
  {
    if props != [] {
      AddPropsConsistent(s, iface, interfaceName, props[..|props| - 1], skip, keep);
      AddPropConsistent(AddProps(s, iface, interfaceName, props[..|props| - 1], skip, keep),
                        iface, interfaceName, props[|props| - 1], skip, keep);
    }
  }

  /** Removing one property deletes that name from the map, its order and the members, and keeps every other entry. */
  lemma RemovePropEffect(s: Summary, p: string)
    requires s.configProperties.Valid()
    ensures var r := RemoveProp(s, p);
            (forall k :: k in r.configProperties.entries <==> k in s.configProperties.entries && k != p) &&
            (forall k :: k in r.configProperties.entries ==> r.configProperties.entries[k] == s.configProperties.entries[k]) &&
            (forall x :: x in MemberNames(r.members) <==> x in MemberNames(s.members) && x != p) &&
            r.configProperties.keys == Remove(s.configProperties.keys, p) &&
            r.requiredProps == s.requiredProps && r.statements == s.statements && r.generics == s.generics
  {
  }

  /**
   * Removing properties deletes exactly those names from the map and the members, keeps every
   * other entry, and leaves the remaining names in their order.
   */
  lemma {:induction false} RemovePropsEffect(s: Summary, ps: seq<string>)
    requires s.configProperties.Valid()
    ensures var r := RemoveProps(s, ps);
            (forall k :: k in r.configProperties.entries <==> k in s.configProperties.entries && k !in ps) &&
            (forall k :: k in r.configProperties.entries ==> r.configProperties.entries[k] == s.configProperties.entries[k]) &&
            (forall x :: x in MemberNames(r.members) <==> x in MemberNames(s.members) && x !in ps) &&
            r.configProperties.keys == RemoveAll(s.configProperties.keys, ps) &&
            r.requiredProps == s.requiredProps && r.statements == s.statements && r.generics == s.generics
    decreases |ps|
  {
    if ps != [] {
      RemovePropsEffect(s, ps[..|ps| - 1]);
      RemovePropEffect(RemoveProps(s, ps[..|ps| - 1]), ps[|ps| - 1]);
      assert ps == ps[..|ps| - 1] + [ps[|ps| - 1]];
    }
  }

  /** One kept property is set in the map: a new name goes last, a known one keeps its place and takes the new definition. */
  lemma AddPropMerge(s: Summary, iface: InterfaceDecl, interfaceName: string, p: ConfigProperty,
                     skip: seq<string>, keep: bool)
    requires s.configProperties.Valid() && interfaceName in s.requiredProps
    ensures var r := AddProp(s, iface, interfaceName, p, skip, keep);
            var added := if Kept(p, skip, keep) then [p.name] else [];
            r.configProperties.keys == AddAll(s.configProperties.keys, added) &&
            r.configProperties.entries == (if Kept(p, skip, keep) then s.configProperties.entries[p.name := p] else s.configProperties.entries) &&
            r.requiredProps == s.requiredProps[interfaceName := s.requiredProps[interfaceName] + added]
  {
    if Kept(p, skip, keep) {
      AddAllOne(s.configProperties.keys, p.name);
    } else {
      assert s.requiredProps[interfaceName] + [] == s.requiredProps[interfaceName];
    }
  }

  /**
   * The `forEach` over an interface's properties, for all inputs: the names already in the map
   * keep their places and new kept names follow in first-occurrence order, and the interface's
   * record lists the kept names.
   */
  lemma {:induction false} AddPropsOrder(s: Summary, iface: InterfaceDecl, interfaceName: string,
                                         props: seq<ConfigProperty>, skip: seq<string>, keep: bool)
    requires s.configProperties.Valid() && interfaceName in s.requiredProps
    ensures var r := AddProps(s, iface, interfaceName, props, skip, keep);
            var kept := KeptNames(props, skip, keep);
            r.configProperties.keys == AddAll(s.configProperties.keys, kept) &&
            r.requiredProps == s.requiredProps[interfaceName := s.requiredProps[interfaceName] + kept]
    decreases |props|
  {
    if props == [] {
      assert s.requiredProps[interfaceName] + [] == s.requiredProps[interfaceName];
      assert s.requiredProps[interfaceName := s.requiredProps[interfaceName]] == s.requiredProps;
    } else {
      var init := props[..|props| - 1];
      var p := props[|props| - 1];
      AddPropsOrder(s, iface, interfaceName, init, skip, keep);
      AddPropMerge(AddProps(s, iface, interfaceName, init, skip, keep), iface, interfaceName, p, skip, keep);
      var added := if Kept(p, skip, keep) then [p.name] else [];
      var keptInit := KeptNames(init, skip, keep);
      assert KeptNames(props, skip, keep) == keptInit + added;
      AddAllAppend(s.configProperties.keys, keptInit, added);
      var before := s.requiredProps[interfaceName];
      calc {
        AddProps(s, iface, interfaceName, props, skip, keep).requiredProps;
        s.requiredProps[interfaceName := before + keptInit][interfaceName := before + keptInit + added];
        { assert before + keptInit + added == before + (keptInit + added); }
        s.requiredProps[interfaceName := before + (keptInit + added)];
      }
    }
  }

  /**
   * The same loop on the definitions: the map holds exactly the old names and the kept ones,
   * a kept property that no later kept property overrides is the definition that stays, and
   * names the loop does not touch keep their definitions.
   */
  lemma {:induction false} AddPropsDefinitions(s: Summary, iface: InterfaceDecl, interfaceName: string,
                                               props: seq<ConfigProperty>, skip: seq<string>, keep: bool)
    requires s.configProperties.Valid() && interfaceName in s.requiredProps
    ensures var m := AddProps(s, iface, interfaceName, props, skip, keep).configProperties;
            var kept := KeptNames(props, skip, keep);
            (forall k :: k in m.entries <==> k in s.configProperties.entries || k in kept) &&
            (forall i :: LastKept(props, i, skip, keep) ==> m.entries[props[i].name] == props[i]) &&
            (forall k :: k in s.configProperties.entries && k !in kept ==> m.entries[k] == s.configProperties.entries[k])
    decreases |props|
  {
    if props != [] {
      var init := props[..|props| - 1];
      var p := props[|props| - 1];
      AddPropsDefinitions(s, iface, interfaceName, init, skip, keep);
      AddPropMerge(AddProps(s, iface, interfaceName, init, skip, keep), iface, interfaceName, p, skip, keep);
      var m := AddProps(s, iface, interfaceName, props, skip, keep).configProperties;
      forall i | LastKept(props, i, skip, keep)
        ensures m.entries[props[i].name] == props[i]
      {
        if i < |props| - 1 {
          assert init[i] == props[i];
          assert LastKept(init, i, skip, keep);
        }
      }
    }
  }

  /**
   * Applying an interface's utility types, when none fails, deletes exactly the names they
   * list from the map (keeping the order of the rest) and changes no remaining definition.
   */
  lemma {:induction false} ApplyUtilitiesEffect(s: Summary, ts: seq<HeritageType>)
    requires s.configProperties.Valid()
    ensures ApplyUtilities(s, ts).Ok? ==>
              var r := ApplyUtilities(s, ts).value;
              var removed := Removed(s.requiredProps, ts);
              r.configProperties.keys == RemoveAll(s.configProperties.keys, removed) &&
              (forall k :: k in r.configProperties.entries <==> k in s.configProperties.entries && k !in removed) &&
              (forall k :: k in r.configProperties.entries ==> r.configProperties.entries[k] == s.configProperties.entries[k]) &&
              r.requiredProps == s.requiredProps
    decreases |ts|
  {
    if ts != [] {
      var init := ts[..|ts| - 1];
      ApplyUtilitiesEffect(s, init);
      var prev := ApplyUtilities(s, init);
      if prev.Ok? {
        var o := OptionalProps(prev.value.requiredProps, ts[|ts| - 1]);
        if o.Ok? {
          RemovePropsEffect(prev.value, o.value);
          RemoveAllAppend(s.configProperties.keys, Removed(s.requiredProps, init), o.value);
        }
      }
    }
  }

  /** What one file with a config interface does to the map: the interface's properties are added, then its utility types applied. */
  lemma StepFileProperties(s: Summary, stmts: seq<Statement>, isLast: bool, skip: seq<string>, keep: bool)
    requires s.configProperties.Valid() && FindInterface(stmts).Some?
    ensures var iface := FindInterface(stmts).value;
            var s1 := s.(requiredProps := s.requiredProps[iface.name := []]);
            var s2 := AddProps(s1, iface, iface.name, GetConfigProperties(iface), skip, keep);
            var r := StepFile(s, stmts, isLast, skip, keep);
            r.Ok? ==> ApplyUtilities(s2, UtilityTypes(iface.heritage)).Ok? &&
                      r.value.configProperties == ApplyUtilities(s2, UtilityTypes(iface.heritage)).value.configProperties
  {
  }

  /** After an interface's `forEach`, its record lists exactly its kept property names. */
  lemma InterfaceRecord(s: Summary, iface: InterfaceDecl, skip: seq<string>, keep: bool)
    requires s.configProperties.Valid()
    ensures var s1 := s.(requiredProps := s.requiredProps[iface.name := []]);
            var props := GetConfigProperties(iface);
            AddProps(s1, iface, iface.name, props, skip, keep).requiredProps == s.requiredProps[iface.name := KeptNames(props, skip, keep)]
  {
    var s1 := s.(requiredProps := s.requiredProps[iface.name := []]);
    var props := GetConfigProperties(iface);
    AddPropsOrder(s1, iface, iface.name, props, skip, keep);
    assert [] + KeptNames(props, skip, keep) == KeptNames(props, skip, keep);
  }

  /**
   * A property set again by a later interface keeps the place its name first took in the map
   * and takes the definition of the last kept property of that name.
   */
  lemma RedefinedPropertyKeepsPlace(s: Summary, iface: InterfaceDecl, interfaceName: string,
                                    props: seq<ConfigProperty>, skip: seq<string>, keep: bool, j: nat, i: nat)
    requires s.configProperties.Valid() && interfaceName in s.requiredProps
    requires j < |s.configProperties.keys| && LastKept(props, i, skip, keep) && props[i].name == s.configProperties.keys[j]
    ensures var m := AddProps(s, iface, interfaceName, props, skip, keep).configProperties;
            j < |m.keys| && m.keys[j] == props[i].name && m.entries[props[i].name] == props[i]
  {
    AddPropsOrder(s, iface, interfaceName, props, skip, keep);
    AddPropsDefinitions(s, iface, interfaceName, props, skip, keep);
    AddAllProperties(s.configProperties.keys, KeptNames(props, skip, keep));
    var m := AddProps(s, iface, interfaceName, props, skip, keep).configProperties;
    assert m.keys[..|s.configProperties.keys|][j] == m.keys[j];
  }

  /**
   * One config interface, on the order of the map: its new kept names follow the names
   * already there, then its utility types delete the names they list.
   */
  lemma InterfaceMergeOrder(s: Summary, iface: InterfaceDecl, skip: seq<string>, keep: bool)
    requires s.configProperties.Valid()
    ensures var s1 := s.(requiredProps := s.requiredProps[iface.name := []]);
            var props := GetConfigProperties(iface);
            var kept := KeptNames(props, skip, keep);
            var removed := Removed(s.requiredProps[iface.name := kept], UtilityTypes(iface.heritage));
            var r := ApplyUtilities(AddProps(s1, iface, iface.name, props, skip, keep), UtilityTypes(iface.heritage));
            r.Ok? ==> r.value.configProperties.keys == RemoveAll(AddAll(s.configProperties.keys, kept), removed)
  {
    var s1 := s.(requiredProps := s.requiredProps[iface.name := []]);
    var props := GetConfigProperties(iface);
    var kept := KeptNames(props, skip, keep);
    var s2 := AddProps(s1, iface, iface.name, props, skip, keep);
    InterfaceRecord(s, iface, skip, keep);
    AddPropsOrder(s1, iface, iface.name, props, skip, keep);
    ApplyUtilitiesEffect(s2, UtilityTypes(iface.heritage));
  }

  /**
   * One config interface, on the definitions: the map holds the old and the kept names less
   * the deleted ones; a kept property that no later kept property overrides and no utility
   * type deletes is the definition that stays; an older name the interface neither sets nor
   * deletes keeps its definition.
   */
  lemma InterfaceMergeDefinitions(s: Summary, iface: InterfaceDecl, skip: seq<string>, keep: bool)
    requires s.configProperties.Valid()
    ensures var s1 := s.(requiredProps := s.requiredProps[iface.name := []]);
            var props := GetConfigProperties(iface);
            var kept := KeptNames(props, skip, keep);
            var removed := Removed(s.requiredProps[iface.name := kept], UtilityTypes(iface.heritage));
            var r := ApplyUtilities(AddProps(s1, iface, iface.name, props, skip, keep), UtilityTypes(iface.heritage));
            r.Ok? ==>
              var m := r.value.configProperties;
              (forall k :: k in m.entries <==> (k in s.configProperties.entries || k in kept) && k !in removed) &&
              (forall i :: LastKept(props, i, skip, keep) && props[i].name !in removed ==> m.entries[props[i].name] == props[i]) &&
              (forall k :: k in s.configProperties.entries && k !in kept && k !in removed ==> m.entries[k] == s.configProperties.entries[k])
  {
    var s1 := s.(requiredProps := s.requiredProps[iface.name := []]);
    var props := GetConfigProperties(iface);
    var kept := KeptNames(props, skip, keep);
    var s2 := AddProps(s1, iface, iface.name, props, skip, keep);
    InterfaceRecord(s, iface, skip, keep);
    AddPropsDefinitions(s1, iface, iface.name, props, skip, keep);
    ApplyUtilitiesEffect(s2, UtilityTypes(iface.heritage));
  }

  /** The same merge, for one step of the loop over the component's files. */
  lemma StepFileMerge(s: Summary, stmts: seq<Statement>, isLast: bool, skip: seq<string>, keep: bool)
    requires s.configProperties.Valid() && FindInterface(stmts).Some?
    ensures var r := StepFile(s, stmts, isLast, skip, keep);
            var iface := FindInterface(stmts).value;
            var props := GetConfigProperties(iface);
            var kept := KeptNames(props, skip, keep);
            var removed := Removed(s.requiredProps[iface.name := kept], UtilityTypes(iface.heritage));
            r.Ok? ==>
              var m := r.value.configProperties;
              m.keys == RemoveAll(AddAll(s.configProperties.keys, kept), removed) &&
              (forall k :: k in m.entries <==> (k in s.configProperties.entries || k in kept) && k !in removed) &&
              (forall i :: LastKept(props, i, skip, keep) && props[i].name !in removed ==> m.entries[props[i].name] == props[i]) &&
              (forall k :: k in s.configProperties.entries && k !in kept && k !in removed ==> m.entries[k] == s.configProperties.entries[k])
  {
    StepFileProperties(s, stmts, isLast, skip, keep);
    InterfaceMergeOrder(s, FindInterface(stmts).value, skip, keep);
    InterfaceMergeDefinitions(s, FindInterface(stmts).value, skip, keep);
  }

  lemma {:induction false} ApplyUtilitiesConsistent(s: Summary, ts: seq<HeritageType>, skip: seq<string>, keep: bool)
    requires Consistent(s, skip, keep)
    ensures ApplyUtilities(s, ts).Ok? ==> Consistent(ApplyUtilities(s, ts).value, skip, keep)
    decreases |ts|
  {
    if ts != [] {
      ApplyUtilitiesConsistent(s, ts[..|ts| - 1], skip, keep);
      var prev := ApplyUtilities(s, ts[..|ts| - 1]);
      if prev.Ok? {
        var o := OptionalProps(prev.value.requiredProps, ts[|ts| - 1]);
        if o.Ok? {
          RemovePropsEffect(prev.value, o.value);
        }
      }
    }
  }

  lemma StepFileConsistent(s: Summary, stmts: seq<Statement>, isLast: bool, skip: seq<string>, keep: bool)
    requires Consistent(s, skip, keep)
    ensures StepFile(s, stmts, isLast, skip, keep).Ok? ==> Consistent(StepFile(s, stmts, isLast, skip, keep).value, skip, keep)
  {
    var iface := FindInterface(stmts);
    if iface.Some? {
      var i := iface.value;
      var s1 := s.(requiredProps := s.requiredProps[i.name := []]);
      var props := GetConfigProperties(i);
      assert forall p :: p in props ==> p.name in PropertyNames(props);
      AddPropsConsistent(s1, i, i.name, props, skip, keep);
      ApplyUtilitiesConsistent(AddProps(s1, i, i.name, props, skip, keep), UtilityTypes(i.heritage), skip, keep);
    }
  }

  lemma {:induction false} SummarizeFilesConsistent(files: seq<seq<Statement>>, total: nat, skip: seq<string>, keep: bool)
    ensures SummarizeFiles(files, total, skip, keep).Ok? ==> Consistent(SummarizeFiles(files, total, skip, keep).value, skip, keep)
    decreases |files|
  {
    if files != [] {
      SummarizeFilesConsistent(files[..|files| - 1], total, skip, keep);
      var prev := SummarizeFiles(files[..|files| - 1], total, skip, keep);
      if prev.Ok? {
        StepFileConsistent(prev.value, files[|files| - 1], |files| == total, skip, keep);
      }
    }
  }

  /**
   * The summary lists each property once, never a skipped one, only required ones when asked,
   * and keeps for import resolution exactly the members of the listed properties.
   */
  lemma GetConfigSummaryListsProperties(files: seq<seq<Statement>>, skip: seq<string>, keep: bool)
    ensures var r := Summarize(files, skip, keep);
            r.Ok? ==>
              var props := r.value.configProperties;
              (forall i :: 0 <= i < |props| ==> props[i].name !in skip && (keep ==> props[i].required)) &&
              NoDuplicates(PropertyNames(props)) &&
              (forall x :: x in PropertyNames(props) <==> x in MemberNames(r.value.configInterfaceMembers))
  {
    SummarizeFilesConsistent(files, |files|, skip, keep);
    var s := SummarizeFiles(files, |files|, skip, keep);
    if s.Ok? {
      var m := s.value.configProperties;
      assert PropertyNames(m.Values()) == m.keys;
    }
  }

  /**
   * The merge, seen from `getConfigSummary`: when the last file declares an interface, the
   * summary lists the names gathered from the earlier files, in place, then that interface's
   * new kept names in order, less the names its utility types delete.
   */
  lemma GetConfigSummaryMergeOrder(files: seq<seq<Statement>>, skip: seq<string>, keep: bool)
    requires files != [] && FindInterface(files[|files| - 1]).Some?
    ensures var r := Summarize(files, skip, keep);
            var prev := SummarizeFiles(files[..|files| - 1], |files|, skip, keep);
            r.Ok? ==>
              prev.Ok? &&
              var iface := FindInterface(files[|files| - 1]).value;
              var kept := KeptNames(GetConfigProperties(iface), skip, keep);
              var removed := Removed(prev.value.requiredProps[iface.name := kept], UtilityTypes(iface.heritage));
              PropertyNames(r.value.configProperties) == RemoveAll(AddAll(prev.value.configProperties.keys, kept), removed)
  {
    var r := Summarize(files, skip, keep);
    var prev := SummarizeFiles(files[..|files| - 1], |files|, skip, keep);
    if r.Ok? {
      var last := files[|files| - 1];
      var iface := FindInterface(last).value;
      var kept := KeptNames(GetConfigProperties(iface), skip, keep);
      var removed := Removed(prev.value.requiredProps[iface.name := kept], UtilityTypes(iface.heritage));
      var m := StepFile(prev.value, last, true, skip, keep).value.configProperties;
      assert m.keys == RemoveAll(AddAll(prev.value.configProperties.keys, kept), removed) by {
        StepFileMerge(prev.value, last, true, skip, keep);
      }
      assert PropertyNames(r.value.configProperties) == m.keys by {
        SummarizeFilesConsistent(files, |files|, skip, keep);
        assert r.value.configProperties == m.Values();
      }
    }
  }

  /**
   * The definitions, seen from `getConfigSummary`: each kept property of the last interface
   * that no later one overrides and no utility type deletes is listed as defined there, and an
   * earlier property that interface neither redefines nor deletes is listed unchanged.
   */
  lemma GetConfigSummaryMergeDefinitions(files: seq<seq<Statement>>, skip: seq<string>, keep: bool)
    requires files != [] && FindInterface(files[|files| - 1]).Some?
    ensures var r := Summarize(files, skip, keep);
            var prev := SummarizeFiles(files[..|files| - 1], |files|, skip, keep);
            r.Ok? ==>
              prev.Ok? &&
              var iface := FindInterface(files[|files| - 1]).value;
              var props := GetConfigProperties(iface);
              var kept := KeptNames(props, skip, keep);
              var removed := Removed(prev.value.requiredProps[iface.name := kept], UtilityTypes(iface.heritage));
              var listed := r.value.configProperties;
              (forall i :: LastKept(props, i, skip, keep) && props[i].name !in removed ==> props[i] in listed) &&
              (forall p :: p in Finish(prev.value).configProperties && p.name !in kept && p.name !in removed ==> p in listed)
  {
    var r := Summarize(files, skip, keep);
    var prev := SummarizeFiles(files[..|files| - 1], |files|, skip, keep);
    if r.Ok? {
      var last := files[|files| - 1];
      var iface := FindInterface(last).value;
      var props := GetConfigProperties(iface);
      var kept := KeptNames(props, skip, keep);
      var removed := Removed(prev.value.requiredProps[iface.name := kept], UtilityTypes(iface.heritage));
      var m := StepFile(prev.value, last, true, skip, keep).value.configProperties;
      var before := prev.value.configProperties;
      assert (forall k :: k in m.entries <==> (k in before.entries || k in kept) && k !in removed) &&
             (forall i :: LastKept(props, i, skip, keep) && props[i].name !in removed ==> m.entries[props[i].name] == props[i]) &&
             (forall k :: k in before.entries && k !in kept && k !in removed ==> m.entries[k] == before.entries[k]) by {
        StepFileMerge(prev.value, last, true, skip, keep);
      }
      assert forall k :: k in before.entries ==> before.entries[k].name == k by {
        SummarizeFilesConsistent(files[..|files| - 1], |files|, skip, keep);
      }
      MergedListed(before, m, props, kept, removed, skip, keep);
    }
  }

  /** The map-level step of that proof: entries that stay in the merged map are among its values. */
  lemma MergedListed(before: OrderedMap<ConfigProperty>, m: OrderedMap<ConfigProperty>, props: seq<ConfigProperty>,
                     kept: seq<string>, removed: seq<string>, skip: seq<string>, keep: bool)
    requires before.Valid() && m.Valid() && kept == KeptNames(props, skip, keep)
    requires forall k :: k in before.entries ==> before.entries[k].name == k
    requires forall k :: k in m.entries <==> (k in before.entries || k in kept) && k !in removed
    requires forall i :: LastKept(props, i, skip, keep) && props[i].name !in removed ==> m.entries[props[i].name] == props[i]
    requires forall k :: k in before.entries && k !in kept && k !in removed ==> m.entries[k] == before.entries[k]
    ensures forall i :: LastKept(props, i, skip, keep) && props[i].name !in removed ==> props[i] in m.Values()
    ensures forall p :: p in before.Values() && p.name !in kept && p.name !in removed ==> p in m.Values()
  {
    forall i | LastKept(props, i, skip, keep) && props[i].name !in removed
      ensures props[i] in m.Values()
    {
      EntryListed(m, props[i].name);
    }
    forall p | p in before.Values() && p.name !in kept && p.name !in removed
      ensures p in m.Values()
    {
      var i :| 0 <= i < |before.keys| && before.Values()[i] == p;
      EntryListed(m, p.name);
    }
  }


  /**
   * `Partial<I>` removes every property recorded for `I`, whichever interface declared it
   * (the current one included), and leaves every other property as it was.
   */
  lemma PartialMakesRecordedPropertiesOptional(s: Summary, t: HeritageType)
    requires s.configProperties.Valid() && t.typeArguments.Some? && t.expression == "Partial"
    requires ApplyUtility(s, t).Ok?
    ensures var types := t.typeArguments.value;
            |types| > 0 && types[0].TypeReference? && GetTypeName(types[0].typeName) in s.requiredProps
    ensures var n := GetTypeName(t.typeArguments.value[0].typeName);
            var r := ApplyUtility(s, t).value;
            (forall p :: p in s.requiredProps[n] ==> p !in r.configProperties.entries && p !in MemberNames(r.members)) &&
            (forall k :: k in s.configProperties.entries && k !in s.requiredProps[n] ==>
               k in r.configProperties.entries && r.configProperties.entries[k] == s.configProperties.entries[k])
  {
    RemovePropsEffect(s, OptionalProps(s.requiredProps, t).value);
  }

  /** `WithOptional<I, K>` removes the property named by `K` and nothing else. */
  lemma WithOptionalRemovesOneProperty(s: Summary, t: HeritageType)
    requires s.configProperties.Valid() && t.typeArguments.Some? && t.expression == "WithOptional"
    requires |t.typeArguments.value| >= 2
    ensures ApplyUtility(s, t).Ok?
    ensures var k := GetTypeName(t.typeArguments.value[1]);
            var r := ApplyUtility(s, t).value;
            (forall x :: x in r.configProperties.entries <==> x in s.configProperties.entries && x != k) &&
            (forall x :: x in MemberNames(r.members) <==> x in MemberNames(s.members) && x != k)
  {
    RemovePropsEffect(s, [GetTypeName(t.typeArguments.value[1])]);
  }

  /**
   * A utility type fails exactly when the generator would dereference something missing:
   * `Partial` without a type reference argument or of an interface not seen before, and
   * `WithOptional` without a second argument.
   */
  lemma UtilityTypeFailures(s: Summary, t: HeritageType)
    requires s.configProperties.Valid() && t.typeArguments.Some?
    ensures var types := t.typeArguments.value;
            ApplyUtility(s, t).Failure? <==>
              (t.expression == "Partial" &&
                 (|types| == 0 || !types[0].TypeReference? || GetTypeName(types[0].typeName) !in s.requiredProps)) ||
              (t.expression == "WithOptional" && |types| < 2)
  {
    assert ApplyUtility(s, t).Failure? <==> OptionalProps(s.requiredProps, t).Failure?;
    OptionalPropsFailures(s.requiredProps, t);
  }

  lemma OptionalPropsFailures(requiredProps: map<string, seq<string>>, t: HeritageType)
    requires t.typeArguments.Some?
    ensures var types := t.typeArguments.value;
            OptionalProps(requiredProps, t).Failure? <==>
              (t.expression == "Partial" &&
                 (|types| == 0 || !types[0].TypeReference? || GetTypeName(types[0].typeName) !in requiredProps)) ||
              (t.expression == "WithOptional" && |types| < 2)
  {
    if t.expression == "Partial" {
      assert t.expression != "WithOptional";
    }
  }

  /** Any utility type other than `Partial` and `WithOptional` changes nothing. */
  lemma OtherUtilityTypesKeepSummary(s: Summary, t: HeritageType)
    requires s.configProperties.Valid()
    requires t.expression != "Partial" && t.expression != "WithOptional"
    ensures ApplyUtility(s, t) == Ok(s)
  {
    assert OptionalProps(s.requiredProps, t) == Ok([]);
    assert RemoveProps(s, []) == s;
  }

  /** A base interface `XYComponentConfigInterface<Datum>` with a required `x` and an optional `color`. */
  function ExampleBase(): InterfaceDecl
  {
    InterfaceDecl("XYComponentConfigInterface",
      [PropertyDecl("x", NumberKeyword, false, None), PropertyDecl("color", StringKeyword, true, None)],
      [], Some([TypeParamDecl("Datum", None, None)]))
  }

  /** `PlotlineConfigInterface<Datum> extends Partial<XYComponentConfigInterface<Datum>>`, redeclaring `color`. */
  function ExampleDerived(): InterfaceDecl
  {
    InterfaceDecl("PlotlineConfigInterface",
      [PropertyDecl("color", StringKeyword, true, None), PropertyDecl("labelOffsetX", NumberKeyword, false, None)],
      [HeritageType("Partial", Some([TypeReference(Identifier("XYComponentConfigInterface"),
                                                   [TypeReference(Identifier("Datum"), [])])]))],
      Some([TypeParamDecl("Datum", None, None)]))
  }

  lemma ExampleBaseStep(skip: seq<string>)
    requires skip == ["width", "height"]
    ensures var r := StepFile(Initial(), [InterfaceDeclaration(ExampleBase())], false, skip, false);
            r.Ok? && "XYComponentConfigInterface" in r.value.requiredProps
            && r.value.requiredProps["XYComponentConfigInterface"] == ["x", "color"]
            && r.value.configProperties.keys == ["x", "color"]
  {
    var xy := ExampleBase();
    var props := GetConfigProperties(xy);
    assert props[0] == ConfigProperty("x", "number", None, true);
    assert props[1] == ConfigProperty("color", "string", None, false);
    assert props[..1] == [props[0]] && props[..1][..0] == [] && props[..2] == props;
    var i1 := Initial().(requiredProps := Initial().requiredProps[xy.name := []]);
    assert AddProps(i1, xy, xy.name, props[..1][..0], skip, false) == i1;
    assert "x" !in skip && "color" !in skip;
    var b1 := AddProps(i1, xy, xy.name, props[..1], skip, false);
    assert b1 == AddProp(i1, xy, xy.name, props[0], skip, false);
    assert b1.requiredProps[xy.name] == ["x"] && b1.configProperties.keys == ["x"];
    var a1 := AddProps(i1, xy, xy.name, props, skip, false);
    assert a1 == AddProp(b1, xy, xy.name, props[1], skip, false);
    assert a1.requiredProps[xy.name] == ["x", "color"] && a1.configProperties.keys == ["x", "color"];
    assert UtilityTypes(xy.heritage) == [];
  }

  lemma ExampleDerivedAdds(i2: Summary, skip: seq<string>)
    requires i2.configProperties.Valid() && skip == ["width", "height"]
    requires ExampleDerived().name in i2.requiredProps && "XYComponentConfigInterface" in i2.requiredProps
    requires i2.requiredProps["XYComponentConfigInterface"] == ["x", "color"]
    requires i2.configProperties.keys == ["x", "color"]
    ensures var a := AddProps(i2, ExampleDerived(), ExampleDerived().name, GetConfigProperties(ExampleDerived()), skip, false);
            a.configProperties.keys == ["x", "color", "labelOffsetX"]
            && "XYComponentConfigInterface" in a.requiredProps
            && a.requiredProps["XYComponentConfigInterface"] == ["x", "color"]
  {
    var pl := ExampleDerived();
    var props := GetConfigProperties(pl);
    assert props[0] == ConfigProperty("color", "string", None, false);
    assert props[1] == ConfigProperty("labelOffsetX", "number", None, true);
    assert props[..1] == [props[0]] && props[..1][..0] == [] && props[..2] == props;
    assert AddProps(i2, pl, pl.name, props[..1][..0], skip, false) == i2;
    assert "color" !in skip && "labelOffsetX" !in skip;
    var b2 := AddProps(i2, pl, pl.name, props[..1], skip, false);
    assert b2 == AddProp(i2, pl, pl.name, props[0], skip, false);
    assert b2.configProperties.keys == ["x", "color"];
    var a2 := AddProps(i2, pl, pl.name, props, skip, false);
    assert a2 == AddProp(b2, pl, pl.name, props[1], skip, false);
  }

  lemma ExampleDerivedPartial(a2: Summary)
    requires a2.configProperties.Valid()
    requires "XYComponentConfigInterface" in a2.requiredProps
    requires a2.requiredProps["XYComponentConfigInterface"] == ["x", "color"]
    requires a2.configProperties.keys == ["x", "color", "labelOffsetX"]
    ensures var r := ApplyUtilities(a2, UtilityTypes(ExampleDerived().heritage));
            r.Ok? && r.value.configProperties.keys == ["labelOffsetX"] && r.value.generics == a2.generics
  {
    var ts := UtilityTypes(ExampleDerived().heritage);
    assert ts == ExampleDerived().heritage && ts[..0] == [] && ts[..1] == ts;
    assert OptionalProps(a2.requiredProps, ts[0]) == Ok(["x", "color"]);
    var ps := ["x", "color"];
    assert ps[..1] == ["x"] && ps[..1][..0] == [];
    ExampleRemovals();
    assert RemoveProps(a2, ps[..1]).configProperties.keys == ["color", "labelOffsetX"];
    assert RemoveProps(a2, ps).configProperties.keys == ["labelOffsetX"];
  }

  lemma ExampleRemovals()
    ensures Remove(["x", "color", "labelOffsetX"], "x") == ["color", "labelOffsetX"]
    ensures Remove(["color", "labelOffsetX"], "color") == ["labelOffsetX"]
  {
    RemoveFirst("x", ["color", "labelOffsetX"]);
    assert ["x"] + ["color", "labelOffsetX"] == ["x", "color", "labelOffsetX"];
    RemoveFirst("color", ["labelOffsetX"]);
    assert ["color"] + ["labelOffsetX"] == ["color", "labelOffsetX"];
  }

  lemma ExampleDerivedFound()
    ensures FindInterface([OtherStatement, InterfaceDeclaration(ExampleDerived())]) == Some(ExampleDerived())
    ensures GenericsOf(ExampleDerived().typeParameters) == Some([Generic("Datum", None, None)])
  {
    var stmts := [OtherStatement, InterfaceDeclaration(ExampleDerived())];
    assert stmts[1..] == [InterfaceDeclaration(ExampleDerived())];
    var g := GenericsOf(ExampleDerived().typeParameters).value;
    assert |g| == 1 && g[0] == Generic("Datum", None, None);
    assert g == [Generic("Datum", None, None)];
  }

  lemma ExampleDerivedStep(s: Summary, skip: seq<string>)
    requires s.configProperties.Valid() && skip == ["width", "height"]
    requires "XYComponentConfigInterface" in s.requiredProps
    requires s.requiredProps["XYComponentConfigInterface"] == ["x", "color"]
    requires s.configProperties.keys == ["x", "color"]
    ensures var r := StepFile(s, [OtherStatement, InterfaceDeclaration(ExampleDerived())], true, skip, false);
            r.Ok? && r.value.configProperties.keys == ["labelOffsetX"]
            && r.value.generics == Some([Generic("Datum", None, None)])
  {
    var pl := ExampleDerived();
    var stmts := [OtherStatement, InterfaceDeclaration(pl)];
    ExampleDerivedFound();
    var i2 := s.(requiredProps := s.requiredProps[pl.name := []]);
    ExampleDerivedAdds(i2, skip);
    var a2 := AddProps(i2, pl, pl.name, GetConfigProperties(pl), skip, false);
    ExampleDerivedPartial(a2);
    var s3 := ApplyUtilities(a2, UtilityTypes(pl.heritage)).value;
    assert StepFile(s, stmts, true, skip, false)
           == Ok(s3.(statements := s3.statements + stmts).(generics := GenericsOf(pl.typeParameters)));
  }

  /** The two config files: the base interface, then the derived one after an unrelated statement. */
  function ExampleFiles(): seq<seq<Statement>>
  {
    [[InterfaceDeclaration(ExampleBase())], [OtherStatement, InterfaceDeclaration(ExampleDerived())]]
  }

  lemma ExampleFirstFile(skip: seq<string>)
    requires skip == ["width", "height"]
    ensures var s1 := SummarizeFiles(ExampleFiles()[..1], 2, skip, false);
            s1.Ok? && s1.value.configProperties.Valid()
            && "XYComponentConfigInterface" in s1.value.requiredProps
            && s1.value.requiredProps["XYComponentConfigInterface"] == ["x", "color"]
            && s1.value.configProperties.keys == ["x", "color"]
  {
    var files := ExampleFiles()[..1];
    assert files == [[InterfaceDeclaration(ExampleBase())]] && files[..0] == [];
    assert SummarizeFiles(files, 2, skip, false) == StepFile(Initial(), files[0], false, skip, false);
    ExampleBaseStep(skip);
  }

  lemma ExampleBothFiles(skip: seq<string>)
    requires skip == ["width", "height"]
    ensures var s2 := SummarizeFiles(ExampleFiles(), 2, skip, false);
            s2.Ok? && s2.value.configProperties.keys == ["labelOffsetX"]
            && s2.value.generics == Some([Generic("Datum", None, None)])
  {
    var files := ExampleFiles();
    assert files[..|files| - 1] == files[..1];
    ExampleFirstFile(skip);
    var s1 := SummarizeFiles(files[..1], 2, skip, false);
    assert SummarizeFiles(files, 2, skip, false) == StepFile(s1.value, files[1], true, skip, false);
    ExampleDerivedStep(s1.value, skip);
  }

  /**
   * An interface that extends `Partial` of an earlier one loses its own property of a name
   * the earlier one also declared: the deletion happens after the interface's own properties
   * were added.
   */
  lemma PartialRemovesOwnPropertyOfSameName()
    ensures var r := Summarize(ExampleFiles(), ["width", "height"], false);
            r.Ok? && PropertyNames(r.value.configProperties) == ["labelOffsetX"]
            && r.value.generics == Some([Generic("Datum", None, None)])
  {
    var skip := ["width", "height"];
    ExampleBothFiles(skip);
    SummarizeFilesConsistent(ExampleFiles(), 2, skip, false);
    var s := SummarizeFiles(ExampleFiles(), 2, skip, false).value;
    assert Summarize(ExampleFiles(), skip, false) == Ok(Finish(s));
    SingleEntryNames(s, skip);
  }

  lemma SingleEntryNames(s: Summary, skip: seq<string>)
    requires Consistent(s, skip, false) && s.configProperties.keys == ["labelOffsetX"]
    ensures PropertyNames(s.configProperties.Values()) == ["labelOffsetX"]
  {
    var vs := s.configProperties.Values();
    assert "labelOffsetX" in s.configProperties.entries;
    assert |vs| == 1 && vs[0].name == "labelOffsetX";
  }
}
