/**
 * `getImportStatements`: decides where each name a generated wrapper needs is imported from,
 * and groups the names into one import statement per module.
 */
module ImportStatements {
  import opened Wrappers
  import opened Collections
  import opened JsStrings
  import opened TypeSyntax
  import opened TypeReferences

  const UnovisTs := "@unovis/ts"

  datatype ImportStatement = ImportStatement(source: string, elements: seq<string>)

  /** Module specifiers of the core library's own tree, which the wrappers import from the published package. */
  predicate IsLocalSpecifier(spec: string)
  {
    StartsWith(spec, "./") || StartsWith(spec, "core/") || StartsWith(spec, "types/") || StartsWith(spec, "utils/")
    || StartsWith(spec, "components/") || StartsWith(spec, "styles/") || StartsWith(spec, "data-models/")
    || StartsWith(spec, "data/")
  }

  /** An empty or local module specifier is rewritten to the published package; any other is kept. */
  function ResolveSource(spec: string): (r: string)
    ensures r != "" && !IsLocalSpecifier(r)
    ensures r == spec || r == UnovisTs
    ensures spec == "" || IsLocalSpecifier(spec) ==> r == UnovisTs
  {
    if spec == "" || IsLocalSpecifier(spec) then
      assert UnovisTs[0] == '@';
      UnovisTs
    else spec
  }

  /** Resolving is idempotent: a resolved source resolves to itself. */
  lemma ResolveSourceIdempotent(spec: string)
    ensures ResolveSource(ResolveSource(spec)) == ResolveSource(spec)
  {
  }

  /** `values.filter(v => v)` over optional strings: absent and empty values are dropped. */
  function Truthy(xs: seq<Option<string>>): (r: seq<string>)
    ensures forall i :: 0 <= i < |r| ==> r[i] != ""
    ensures forall s :: s in r <==> s != "" && Some(s) in xs
    decreases |xs|
  {
    if xs == [] then []
    else
      var last := xs[|xs| - 1];
      assert xs == xs[..|xs| - 1] + [last];
      Truthy(xs[..|xs| - 1]) + (if last.Some? && last.value != "" then [last.value] else [])
  }

  function GenericExtends(generics: seq<Generic>): seq<string>
  {
    Truthy(seq(|generics|, i requires 0 <= i < |generics| => generics[i].extendsName))
  }

  function GenericDefaults(generics: seq<Generic>): seq<string>
  {
    Truthy(seq(|generics|, i requires 0 <= i < |generics| => generics[i].defaultName))
  }

  function GenericNames(generics: seq<Generic>): seq<string>
  {
    seq(|generics|, i requires 0 <= i < |generics| => generics[i].name)
  }

  /** `typeList.filter(name => !excluded.includes(name))`. */
  function Without(xs: seq<string>, excluded: seq<string>): (r: seq<string>)
    ensures forall x :: x in r <==> x in xs && x !in excluded
    ensures NoDuplicates(xs) ==> NoDuplicates(r)
    decreases |xs|
  {
    if xs == [] then []
    else
      var last := xs[|xs| - 1];
      assert xs == xs[..|xs| - 1] + [last];
      assert NoDuplicates(xs) ==> last !in xs[..|xs| - 1];
      Without(xs[..|xs| - 1], excluded) + (if last in excluded then [] else [last])
  }

  function MemberTypes(members: seq<PropertyDecl>): seq<Option<Node>>
  {
    seq(|members|, i requires 0 <= i < |members| => Some(members[i].typ))
  }

  // ---------------------------------------------------------------------------------------
  // The table of import sources

  /** The component's own types and the generics' bounds and defaults all come from the package. */
  function SeedSources(names: seq<string>): (table: map<string, string>)
    ensures forall x :: x in table <==> x in names
    ensures forall x :: x in table ==> table[x] == UnovisTs
    decreases |names|
  {
    if names == [] then map[]
    else
      assert names == names[..|names| - 1] + [names[|names| - 1]];
      SeedSources(names[..|names| - 1])[names[|names| - 1] := UnovisTs]
  }

  /** Each name an import binds takes that import's resolved source; later imports win. */
  function BindNames(table: map<string, string>, names: seq<string>, source: string): map<string, string>
    decreases |names|
  {
    if names == [] then table
    else BindNames(table, names[..|names| - 1], source)[names[|names| - 1] := source]
  }

  function BindImports(table: map<string, string>, statements: seq<Statement>): map<string, string>
    decreases |statements|
  {
    if statements == [] then table
    else
      var st := statements[|statements| - 1];
      var before := BindImports(table, statements[..|statements| - 1]);
      if st.ImportDeclaration? then BindNames(before, st.namedBindings, ResolveSource(st.moduleSpecifier))
      else before
  }

  /** Every source in the table is non-empty and never a local path. */
  ghost predicate AllResolved(table: map<string, string>)
  {
    forall x :: x in table ==> table[x] != "" && !IsLocalSpecifier(table[x])
  }

  /** Binding imports keeps every source of the table resolved. */
  lemma {:induction false} SourcesAreResolved(table: map<string, string>, statements: seq<Statement>)
    requires AllResolved(table)
    ensures AllResolved(BindImports(table, statements))
    decreases |statements|
  {
    if statements != [] {
      SourcesAreResolved(table, statements[..|statements| - 1]);
      var st := statements[|statements| - 1];
      if st.ImportDeclaration? {
        BindNamesSources(BindImports(table, statements[..|statements| - 1]), st.namedBindings, ResolveSource(st.moduleSpecifier));
      }
    }
  }

  lemma {:induction false} BindNamesSources(table: map<string, string>, names: seq<string>, source: string)
    requires AllResolved(table)
    requires source != "" && !IsLocalSpecifier(source)
    ensures AllResolved(BindNames(table, names, source))
    decreases |names|
  {
    if names != [] {
      BindNamesSources(table, names[..|names| - 1], source);
    }
  }

  // ---------------------------------------------------------------------------------------
  // Grouping names by source

  /** `importStatements.find(s => s.source === source)`, as an index. */
  function FindSource(stmts: seq<ImportStatement>, source: string): (k: Option<nat>)
    ensures k.None? <==> forall i :: 0 <= i < |stmts| ==> stmts[i].source != source
    ensures k.Some? ==> k.value < |stmts| && stmts[k.value].source == source
                        && forall i :: 0 <= i < k.value ==> stmts[i].source != source
    decreases |stmts|
  {
    if stmts == [] then None
    else if stmts[0].source == source then Some(0)
    else
      var k := FindSource(stmts[1..], source);
      if k.None? then None else Some(k.value + 1)
  }

  /** One name: dropped when it has no known source, else pushed onto its source's statement or a new one. */
  function GroupAdd(stmts: seq<ImportStatement>, name: string, table: map<string, string>): seq<ImportStatement>
  {
    if name !in table || table[name] == "" then stmts
    else
      var k := FindSource(stmts, table[name]);
      if k.None? then stmts + [ImportStatement(table[name], [name])]
      else stmts[k.value := stmts[k.value].(elements := stmts[k.value].elements + [name])]
  }

  function Group(names: seq<string>, table: map<string, string>): seq<ImportStatement>
    decreases |names|
  {
    if names == [] then [] else GroupAdd(Group(names[..|names| - 1], table), names[|names| - 1], table)
  }

  /** The names placed in a statement are exactly those whose source it is. */
  ghost predicate WellPlaced(stmts: seq<ImportStatement>, names: seq<string>, table: map<string, string>)
  {
    (forall i, j :: 0 <= i < j < |stmts| ==> stmts[i].source != stmts[j].source) &&
    (forall i :: 0 <= i < |stmts| ==> stmts[i].source != "" && NoDuplicates(stmts[i].elements) && stmts[i].elements != []) &&
    (forall i, x :: 0 <= i < |stmts| && x in stmts[i].elements ==>
       x in names && x in table && table[x] == stmts[i].source)
  }

  /** Every name with a known source has been placed in some statement. */
  ghost predicate Complete(stmts: seq<ImportStatement>, names: seq<string>, table: map<string, string>)
  {
    forall x :: x in names && x in table && table[x] != "" ==> exists i :: 0 <= i < |stmts| && x in stmts[i].elements
  }

  lemma NewStatementPlaced(prev: seq<ImportStatement>, init: seq<string>, name: string, table: map<string, string>)
    requires WellPlaced(prev, init, table) && Complete(prev, init, table)
    requires name !in init && name in table && table[name] != ""
    requires forall i :: 0 <= i < |prev| ==> prev[i].source != table[name]
    ensures var r := prev + [ImportStatement(table[name], [name])];
            WellPlaced(r, init + [name], table) && Complete(r, init + [name], table)
  {
    var r := prev + [ImportStatement(table[name], [name])];
    assert forall i :: 0 <= i < |prev| ==> r[i] == prev[i];
    forall x | x in init + [name] && x in table && table[x] != ""
      ensures exists i :: 0 <= i < |r| && x in r[i].elements
    {
      if x == name {
        assert x in r[|prev|].elements;
      } else {
        var i :| 0 <= i < |prev| && x in prev[i].elements;
        assert x in r[i].elements;
      }
    }
  }

  lemma ExtendStatementPlaced(prev: seq<ImportStatement>, init: seq<string>, name: string, table: map<string, string>, k: nat)
    requires WellPlaced(prev, init, table) && Complete(prev, init, table)
    requires name !in init && name in table && k < |prev| && prev[k].source == table[name]
    ensures var r := prev[k := prev[k].(elements := prev[k].elements + [name])];
            WellPlaced(r, init + [name], table) && Complete(r, init + [name], table)
  {
    var r := prev[k := prev[k].(elements := prev[k].elements + [name])];
    assert name !in prev[k].elements;
    assert r[k].elements == Insert(prev[k].elements, name);
    forall i, x | 0 <= i < |r| && x in r[i].elements
      ensures x in init + [name] && x in table && table[x] == r[i].source
    {
      if i != k || x != name {
        assert x in prev[i].elements;
      }
    }
    forall x | x in init + [name] && x in table && table[x] != ""
      ensures exists i :: 0 <= i < |r| && x in r[i].elements
    {
      if x == name {
        assert x in r[k].elements;
      } else {
        var i :| 0 <= i < |prev| && x in prev[i].elements;
        assert x in r[i].elements;
      }
    }
  }

  lemma {:induction false} GroupWellPlaced(names: seq<string>, table: map<string, string>)
    requires NoDuplicates(names)
    ensures WellPlaced(Group(names, table), names, table) && Complete(Group(names, table), names, table)
    decreases |names|
  {
    if names != [] {
      var init := names[..|names| - 1];
      var name := names[|names| - 1];
      assert names == init + [name];
      GroupWellPlaced(init, table);
      GroupStep(Group(init, table), init, name, table);
    }
  }

  /** Adding a name not seen before keeps the statements well placed and complete. */
  lemma GroupStep(prev: seq<ImportStatement>, init: seq<string>, name: string, table: map<string, string>)
    requires WellPlaced(prev, init, table) && Complete(prev, init, table) && name !in init
    ensures WellPlaced(GroupAdd(prev, name, table), init + [name], table)
    ensures Complete(GroupAdd(prev, name, table), init + [name], table)
  {
    if name in table && table[name] != "" {
      var k := FindSource(prev, table[name]);
      if k.Some? {
        ExtendStatementPlaced(prev, init, name, table, k.value);
      } else {
        NewStatementPlaced(prev, init, name, table);
      }
    } else {
      SkippedNamePlaced(prev, init, name, table);
    }
  }

  lemma SkippedNamePlaced(prev: seq<ImportStatement>, init: seq<string>, name: string, table: map<string, string>)
    requires WellPlaced(prev, init, table) && Complete(prev, init, table)
    requires name !in table || table[name] == ""
    ensures WellPlaced(prev, init + [name], table) && Complete(prev, init + [name], table)
  {
    assert forall x :: x in init + [name] && x in table && table[x] != "" ==> x in init;
  }

  /**
   * The grouping of `getImportStatements`: one statement per distinct source; every name
   * appears in at most one statement, at most once, and in the one whose source is its own;
   * exactly the names with a known source appear.
   */
  lemma GroupProperties(names: seq<string>, table: map<string, string>)
    requires NoDuplicates(names)
    ensures var r := Group(names, table);
            (forall i, j :: 0 <= i < j < |r| ==> r[i].source != r[j].source) &&
            (forall i :: 0 <= i < |r| ==> NoDuplicates(r[i].elements)) &&
            (forall i, j, x :: 0 <= i < |r| && 0 <= j < |r| && x in r[i].elements && x in r[j].elements ==> i == j) &&
            (forall i, x :: 0 <= i < |r| && x in r[i].elements ==> x in table && table[x] == r[i].source) &&
            (forall x :: (exists i :: 0 <= i < |r| && x in r[i].elements) <==> x in names && x in table && table[x] != "")
  {
    GroupWellPlaced(names, table);
    var r := Group(names, table);
    PlacedOnce(r, names, table);
    PlacedExactly(r, names, table);
  }

  lemma PlacedOnce(r: seq<ImportStatement>, names: seq<string>, table: map<string, string>)
    requires WellPlaced(r, names, table)
    ensures forall i, j, x :: 0 <= i < |r| && 0 <= j < |r| && x in r[i].elements && x in r[j].elements ==> i == j
  {
    forall i, j, x | 0 <= i < |r| && 0 <= j < |r| && x in r[i].elements && x in r[j].elements
      ensures i == j
    {
      assert table[x] == r[i].source && table[x] == r[j].source;
    }
  }

  lemma PlacedExactly(r: seq<ImportStatement>, names: seq<string>, table: map<string, string>)
    requires WellPlaced(r, names, table) && Complete(r, names, table)
    ensures forall x :: (exists i :: 0 <= i < |r| && x in r[i].elements) <==> x in names && x in table && table[x] != ""
  {
  }

  // ---------------------------------------------------------------------------------------
  // The operation

  /** The component's own types, then the generics' bounds and defaults. */
  function SeedNames(componentName: string, generics: seq<Generic>, additional: seq<string>): seq<string>
  {
    [componentName, componentName + "ConfigInterface"] + additional + GenericExtends(generics) + GenericDefaults(generics)
  }

  /** The names to import: the seeds, then the referenced types that are not generic parameters. */
  function Candidates(componentName: string, members: seq<PropertyDecl>, generics: seq<Generic>, additional: seq<string>): seq<string>
  {
    Dedupe(SeedNames(componentName, generics, additional)
           + Without(Dedupe(RefsOpts(MemberTypes(members))), GenericNames(generics)))
  }

  function SourceTable(componentName: string, statements: seq<Statement>, generics: seq<Generic>, additional: seq<string>): map<string, string>
  {
    BindImports(SeedSources(SeedNames(componentName, generics, additional)), statements)
  }

  method GetImportStatements(componentName: string, statements: seq<Statement>, members: seq<PropertyDecl>,
                             generics: seq<Generic>, additional: seq<string>)
    returns (importStatements: seq<ImportStatement>)
    ensures importStatements == Group(Candidates(componentName, members, generics, additional),
                                      SourceTable(componentName, statements, generics, additional))
  {
    var seeds := SeedNames(componentName, generics, additional);
    var importSources := SeedImportSources(seeds);
    ghost var seeded := importSources;
    for i := 0 to |statements|
      invariant importSources == BindImports(seeded, statements[..i])
    {
      assert statements[..i + 1][..i] == statements[..i];
      var st := statements[i];
      if st.ImportDeclaration? {
        importSources := BindImport(importSources, st.moduleSpecifier, st.namedBindings);
      }
    }
    assert statements[..|statements|] == statements;

    var collected := new OrderedSet();
    var gathered := GatherTypeReferences(MemberTypes(members), collected);
    var typeList := Without(gathered, GenericNames(generics));
    var names := Dedupe(seeds + typeList);
    importStatements := GroupNames(names, importSources);
  }

  /** The component's own types and the generics' names all map to the published package. */
  method SeedImportSources(seeds: seq<string>) returns (importSources: map<string, string>)
    ensures importSources == SeedSources(seeds)
  {
    importSources := map[];
    for i := 0 to |seeds|
      invariant importSources == SeedSources(seeds[..i])
    {
      assert seeds[..i + 1][..i] == seeds[..i];
      importSources := importSources[seeds[i] := UnovisTs];
    }
    assert seeds[..|seeds|] == seeds;
  }

  /** The names one import statement binds all take its resolved module specifier. */
  method BindImport(table: map<string, string>, moduleSpecifier: string, bindings: seq<string>)
    returns (importSources: map<string, string>)
    ensures importSources == BindNames(table, bindings, ResolveSource(moduleSpecifier))
  {
    importSources := table;
    for j := 0 to |bindings|
      invariant importSources == BindNames(table, bindings[..j], ResolveSource(moduleSpecifier))
    {
      assert bindings[..j + 1][..j] == bindings[..j];
      var importSource := moduleSpecifier;
      if importSource == "" || IsLocalSpecifier(importSource) {
        importSource := UnovisTs;
      }
      importSources := importSources[bindings[j] := importSource];
    }
    assert bindings[..|bindings|] == bindings;
  }

  /** Pushes each name onto the statement of its source, opening a statement per new source. */
  method GroupNames(names: seq<string>, importSources: map<string, string>) returns (importStatements: seq<ImportStatement>)
    ensures importStatements == Group(names, importSources)
  {
    importStatements := [];
    for i := 0 to |names|
      invariant importStatements == Group(names[..i], importSources)
    {
      assert names[..i + 1][..i] == names[..i];
      var name := names[i];
      if name in importSources && importSources[name] != "" {
        var importSource := importSources[name];
        var statement := FindSource(importStatements, importSource);
        if statement.None? {
          importStatements := importStatements + [ImportStatement(importSource, [name])];
        } else {
          var k := statement.value;
          importStatements := importStatements[k := importStatements[k].(elements := importStatements[k].elements + [name])];
        }
      }
    }
    assert names[..|names|] == names;
  }

  /** A generic parameter's name is not a candidate unless a seed names it too. */
  lemma GenericParameterNotCandidate(componentName: string, members: seq<PropertyDecl>,
                                     generics: seq<Generic>, additional: seq<string>, x: string)
    requires x in GenericNames(generics) && x !in SeedNames(componentName, generics, additional)
    ensures x !in Candidates(componentName, members, generics, additional)
    ensures NoDuplicates(Candidates(componentName, members, generics, additional))
  {
    var seeds := SeedNames(componentName, generics, additional);
    var typeList := Without(Dedupe(RefsOpts(MemberTypes(members))), GenericNames(generics));
    assert x !in seeds + typeList;
    AddAllProperties([], seeds + typeList);
  }

  /**
   * A generic parameter's name is never imported unless the component's own types, a bound
   * or a default name it too.
   */
  lemma GenericParameterNotImported(componentName: string, statements: seq<Statement>, members: seq<PropertyDecl>,
                                    generics: seq<Generic>, additional: seq<string>, x: string)
    requires x in GenericNames(generics) && x !in SeedNames(componentName, generics, additional)
    ensures var r := Group(Candidates(componentName, members, generics, additional),
                           SourceTable(componentName, statements, generics, additional));
            forall i :: 0 <= i < |r| ==> x !in r[i].elements
  {
    var names := Candidates(componentName, members, generics, additional);
    var table := SourceTable(componentName, statements, generics, additional);
    GenericParameterNotCandidate(componentName, members, generics, additional, x);
    GroupWellPlaced(names, table);
  }

  lemma {:induction false} CandidatesNoDuplicates(componentName: string, members: seq<PropertyDecl>,
                                                  generics: seq<Generic>, additional: seq<string>)
    ensures NoDuplicates(Candidates(componentName, members, generics, additional))
  {
    var seeds := SeedNames(componentName, generics, additional);
    var typeList := Without(Dedupe(RefsOpts(MemberTypes(members))), GenericNames(generics));
    AddAllProperties([], seeds + typeList);
  }

  lemma GroupSourcesResolved(names: seq<string>, table: map<string, string>)
    requires NoDuplicates(names) && AllResolved(table)
    ensures forall i :: 0 <= i < |Group(names, table)| ==>
              Group(names, table)[i].source != "" && !IsLocalSpecifier(Group(names, table)[i].source)
  {
    GroupWellPlaced(names, table);
  }

  /** Every statement imports from the published package or a non-local module, never from a local path. */
  lemma ImportSourcesAreResolved(componentName: string, statements: seq<Statement>, members: seq<PropertyDecl>,
                                 generics: seq<Generic>, additional: seq<string>)
    ensures var r := Group(Candidates(componentName, members, generics, additional),
                           SourceTable(componentName, statements, generics, additional));
            forall i :: 0 <= i < |r| ==> r[i].source != "" && !IsLocalSpecifier(r[i].source)
  {
    var seeds := SeedNames(componentName, generics, additional);
    var package := ResolveSource("");
    assert AllResolved(SeedSources(seeds));
    SourcesAreResolved(SeedSources(seeds), statements);
    CandidatesNoDuplicates(componentName, members, generics, additional);
    GroupSourcesResolved(Candidates(componentName, members, generics, additional),
                         SourceTable(componentName, statements, generics, additional));
  }
}
