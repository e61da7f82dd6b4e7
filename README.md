# Unovis Angular wrapper generator and Plotline component, in Dafny

This project models two parts of Unovis, a charting library.

**The Angular wrapper generator** (`packages/angular/.autogen.cjs`). For each chart component, the generator reads the TypeScript config files the component is built from. It then writes an Angular component that wraps it. The model covers the generator's analysis steps:

- `getTypeName` prints a type syntax tree back as TypeScript text (`TypeName.GetTypeName`, over the syntax tree in `TypeSyntax`).
- `gatherTypeReferences` collects the type names a set of types refers to (`TypeReferences`).
- `getConfigProperties` and `getConfigSummary` merge the config interfaces of a component's source files into one list of properties. They drop skipped and optional properties and apply the `Partial` and `WithOptional` utility types (`ConfigSummary`).
- `getImportStatements` decides which module each referenced name is imported from, and groups the names into import statements (`ImportStatements`).
- `kebabCase` and the element selector `vis-…` are in `TextTransforms`, together with:
  - `getJSDocComments`, which writes a property's documentation as comment blocks;
  - `checkGeneric`, which replaces a `Datum` type argument with the component's own type parameter.

**The Plotline component** (`packages/ts/src/components/plotline`). This is a line drawn across an XY chart at one value of one axis. The model covers (`PlotlineComponent`):

- the component's default options;
- the constructor;
- `_render`, which computes the line's stroke attributes and its end points. The dash pattern comes from a table of eleven named presets, or from an array of dash lengths.

Shared modules:

- `Wrappers` defines `Option` and `Result`.
- `JsStrings` models the JavaScript string operations the source relies on: `join`, `split`, integer printing and parsing, `startsWith`, substring search.
- `Collections` models insertion-ordered JavaScript `Set` and `Map`.

Where the generator would throw a `TypeError`, the model returns a `Failure`. Examples are `types[0].typeName` of a `Partial` without arguments and `generics[0].name` without generics. Each such case is stated as an if-and-only-if lemma.

## Model

| member | source | states |
|---|---|---|
| TypeName.GetTypeName | packages/angular/.autogen.cjs:43-120 | the type printer itself; the TypeName lemmas below state what it prints kind by kind, and TypeReferences.CollectedNamesArePrinted that every collected name appears in its output |
| TypeName.Names | packages/angular/.autogen.cjs:46-47 | the printed names of a list of types, one per type and in order |
| TypeName.RestParameterIgnoresNameAndType | packages/angular/.autogen.cjs:58-60 | a rest parameter always prints as `...rest`, whatever its name, type and question token |
| TypeName.ParameterQuestionToken | packages/angular/.autogen.cjs:61-66 | a parameter prints its name first, and a `?` follows the name exactly when the parameter has a question token |
| TypeName.UnionAndIntersectionSeparators | packages/angular/.autogen.cjs:46-47 | union members are joined with ` \| ` and intersection members with ` & `, first member first |
| TypeName.ArrayTypeSuffix | packages/angular/.autogen.cjs:113 | an array type prints as its element type followed by `[]` |
| TypeName.TypeReferenceArguments | packages/angular/.autogen.cjs:108-112 | a type reference prints as its bare name exactly when its joined arguments are empty; otherwise the arguments follow in angle brackets |
| TypeName.UnhandledKindIsAny | packages/angular/.autogen.cjs:115-118 | every syntax kind the printer does not handle prints as `any` |
| TypeReferences.OrderedSet.constructor | packages/angular/.autogen.cjs:133 | a new collection set is empty and has no duplicates |
| TypeReferences.OrderedSet.Add | packages/angular/.autogen.cjs:139 | `Set.add` appends a name not yet present and otherwise leaves the set as it was; the set stays free of duplicates |
| TypeReferences.GatherTypeReferences | packages/angular/.autogen.cjs:133-202 | the set afterwards holds its old names followed by the new names each type refers to, skipping absent entries; the result is the set's contents in insertion order |
| TypeReferences.GatherNode | packages/angular/.autogen.cjs:137-199 | visiting one node adds exactly the names that node refers to, as defined kind by kind |
| TypeReferences.GatherCompound | packages/angular/.autogen.cjs:146-198 | a node with several children adds each child's names in the source's order |
| TypeReferences.GatherTypeReference | packages/angular/.autogen.cjs:146-152 | a type reference adds its name's names, then its type arguments' names |
| TypeReferences.GatherFunctionType | packages/angular/.autogen.cjs:157-161 | a function type adds the names of its parameters' types, then of its return type |
| TypeReferences.GatherIndexSignature | packages/angular/.autogen.cjs:182-189 | an index signature adds the names of its parameters' types, then of its value type |
| TypeReferences.GatherMappedType | packages/angular/.autogen.cjs:194-198 | a mapped type adds the names of its type parameter, then of its value type |
| TypeReferences.GatherNodes | packages/angular/.autogen.cjs:165-177 | a list of types adds each element's names in order |
| TypeReferences.GatherParams | packages/angular/.autogen.cjs:157-158 | a parameter list adds each parameter's type's names in order |
| TypeReferences.GatherParam | packages/angular/.autogen.cjs:157-158 | one parameter adds the names of its type, and nothing when it has none |
| TypeReferences.GatherIndexParams | packages/angular/.autogen.cjs:182-186 | the parameters of an index signature add their types' names in order |
| TypeReferences.GatherIndexParam | packages/angular/.autogen.cjs:182-186 | one index parameter adds the names of its type |
| TypeReferences.QualifiedNameContributesLeftmost | packages/angular/.autogen.cjs:138-145 | an identifier or qualified name contributes exactly one name, its leftmost identifier |
| TypeReferences.AbsentEntriesSkipped | packages/angular/.autogen.cjs:135-136 | an absent type in the list changes nothing about what is collected |
| TypeReferences.CollectedOutsideTuples | packages/angular/.autogen.cjs:137-199 | every collected name is an identifier that occurs in the type outside any tuple type |
| TypeReferences.TupleElementNotCollected | packages/angular/.autogen.cjs:162-164 | the names inside a tuple type are not collected: `[Foo][]` refers to nothing |
| TypeReferences.TupleElementPrinted | packages/angular/.autogen.cjs:113-114 | while the printed type `[Foo][]` does mention `Foo` |
| TypeReferences.CollectedNamesArePrinted | packages/angular/.autogen.cjs:43-202 | for a type without rest parameters, every collected name occurs in the type's printed text |
| ImportStatements.ResolveSource | packages/angular/.autogen.cjs:215-219 | an empty or local module specifier becomes `@unovis/ts`; any other is kept; the result is never empty or local |
| ImportStatements.ResolveSourceIdempotent | packages/angular/.autogen.cjs:215-219 | resolving a resolved source changes nothing |
| ImportStatements.Truthy | packages/angular/.autogen.cjs:206-207 | `.filter(g => g)` keeps exactly the present, non-empty strings |
| ImportStatements.Without | packages/angular/.autogen.cjs:223-225 | the names kept are exactly those not among the generic parameters, and no duplicates are introduced |
| ImportStatements.SeedSources | packages/angular/.autogen.cjs:208-211 | the component's own types and the generics' bounds and defaults, and nothing else, map to `@unovis/ts` |
| ImportStatements.SeedImportSources | packages/angular/.autogen.cjs:208-211 | the loop that seeds the table builds exactly that table |
| ImportStatements.BindImport | packages/angular/.autogen.cjs:213-220 | each named binding of an import declaration is mapped to the declaration's resolved module, later bindings overriding earlier ones |
| ImportStatements.SourcesAreResolved | packages/angular/.autogen.cjs:212-222 | after all import declarations are read, every entry of the table is a resolved, non-local module |
| ImportStatements.FindSource | packages/angular/.autogen.cjs:233 | `find` returns the first statement with that source, or nothing exactly when no statement has it |
| ImportStatements.Group | packages/angular/.autogen.cjs:226-238 | the grouping function; GroupWellPlaced and GroupProperties state what the statements hold |
| ImportStatements.GroupNames | packages/angular/.autogen.cjs:226-238 | the grouping loop builds the statements that the grouping function specifies |
| ImportStatements.GroupWellPlaced | packages/angular/.autogen.cjs:226-238 | every statement is non-empty and has a distinct source, and holds only names whose source it is |
| ImportStatements.GroupProperties | packages/angular/.autogen.cjs:226-238 | sources are distinct; each name sits in at most one statement; a name is imported exactly when it is a candidate with a known source, from that source |
| ImportStatements.GetImportStatements | packages/angular/.autogen.cjs:203-240 | the statements are the candidates, namely the seeds and then the referenced names other than generic parameters without duplicates, grouped by the source table |
| ImportStatements.GenericParameterNotCandidate | packages/angular/.autogen.cjs:223-227 | a generic parameter that is not also a seed is not a candidate, and candidates have no duplicates |
| ImportStatements.GenericParameterNotImported | packages/angular/.autogen.cjs:223-238 | such a generic parameter appears in no import statement |
| ImportStatements.CandidatesNoDuplicates | packages/angular/.autogen.cjs:227 | the `Array.from(new Set(...))` of the candidates holds each name once |
| ImportStatements.GroupSourcesResolved | packages/angular/.autogen.cjs:226-238 | grouping over a resolved table yields only resolved sources |
| ImportStatements.ImportSourcesAreResolved | packages/angular/.autogen.cjs:203-240 | no generated import statement has an empty or local source |
| ConfigSummary.GetConfigProperty | packages/angular/.autogen.cjs:122-130 | a property keeps its member's name and documentation, prints its type, and is required exactly when the member has no question token |
| ConfigSummary.GetConfigProperties | packages/angular/.autogen.cjs:121-132 | one property per interface member, in order, with the same names |
| ConfigSummary.FindInterface | packages/angular/.autogen.cjs:262-266 | the first interface declaration of the file, or nothing exactly when the file declares no interface |
| ConfigSummary.FindMember | packages/angular/.autogen.cjs:277 | the first member of the given name, or nothing exactly when no member has that name |
| ConfigSummary.WithoutMember | packages/angular/.autogen.cjs:300 | the members kept are exactly the members of other names, each as many times as before, and every other name survives |
| ConfigSummary.GenericsOf | packages/angular/.autogen.cjs:305-314 | no generics exactly when the interface has no type parameters; otherwise one generic per parameter, in order, with its name, its constraint's identifier as `extends` and its default's identifier as `default` |
| ConfigSummary.ReferencedIdentifier | packages/angular/.autogen.cjs:309-311 | `constraint?.typeName?.escapedText` is present exactly when the type is a reference to a plain identifier, and is that identifier |
| ConfigSummary.UtilityTypes | packages/angular/.autogen.cjs:282-283 | the heritage types kept are exactly those with type arguments |
| ConfigSummary.AddInterfaceProperties | packages/angular/.autogen.cjs:269-280 | the property loop computes the merge that AddPropsOrder and AddPropsDefinitions characterise, touching neither statements nor generics |
| ConfigSummary.AddInterfaceProperty | packages/angular/.autogen.cjs:271-279 | one step of that loop, as specified: skipped and, when asked, optional properties are left out; otherwise the property is recorded and its member kept |
| ConfigSummary.KeptNames | packages/angular/.autogen.cjs:270-276 | the names recorded for an interface are exactly the names of its properties that are neither skipped nor, when asked, optional |
| ConfigSummary.AddPropMerge | packages/angular/.autogen.cjs:270-276 | one property: when kept, a new name goes last in the map and a known one keeps its place and takes the new definition; the interface's record gains its name |
| ConfigSummary.AddPropsOrder | packages/angular/.autogen.cjs:270-280 | for all inputs, the names already in the map keep their places and the new kept names follow in first-occurrence order; the interface's record lists the kept names in order |
| ConfigSummary.AddPropsDefinitions | packages/angular/.autogen.cjs:270-280 | the map holds exactly the old and the kept names; a kept property that no later kept property overrides is the definition stored; every untouched name keeps its definition |
| ConfigSummary.RedefinedPropertyKeepsPlace | packages/angular/.autogen.cjs:275 | a name set again keeps the position it first took and takes the last kept definition |
| ConfigSummary.InterfaceRecord | packages/angular/.autogen.cjs:268-276 | after its properties are read, an interface's record is exactly its kept names |
| ConfigSummary.ApplyUtilitiesEffect | packages/angular/.autogen.cjs:284-301 | when no utility type fails, exactly the names they list are deleted, the remaining names keep their order and definitions, and the records are unchanged |
| ConfigSummary.InterfaceMergeOrder | packages/angular/.autogen.cjs:268-301 | one interface: the map's order is the old order extended by the new kept names, less the names its utility types delete |
| ConfigSummary.InterfaceMergeDefinitions | packages/angular/.autogen.cjs:268-301 | one interface: the map holds the old and kept names less the deleted ones; a surviving last kept property is the definition stored; an old name neither set nor deleted keeps its definition |
| ConfigSummary.StepFileMerge | packages/angular/.autogen.cjs:259-314 | the same order and definitions for one iteration of the loop over the component's files |
| ConfigSummary.ApplyUtilityTypes | packages/angular/.autogen.cjs:284-301 | the utility-type loop applies each type in turn, stops at the first failure, and changes only the properties and members |
| ConfigSummary.RemoveOptionalProps | packages/angular/.autogen.cjs:298-301 | the deletion loop removes the listed properties and changes only the properties and members |
| ConfigSummary.RemovePropsEffect | packages/angular/.autogen.cjs:298-301 | after deletion exactly the unlisted properties remain, unchanged and in their order, and the members of listed names are gone |
| ConfigSummary.RemovePropEffect | packages/angular/.autogen.cjs:299-300 | deleting one name removes it from the map's order and its entries, and its members from the kept members, leaving every other entry as it was |
| ConfigSummary.PartialMakesRecordedPropertiesOptional | packages/angular/.autogen.cjs:288-292 | a successful `Partial<I>` removes every property recorded for `I` and keeps every other property as it was |
| ConfigSummary.WithOptionalRemovesOneProperty | packages/angular/.autogen.cjs:293-297 | `WithOptional<I, K>` always succeeds when it has two arguments, and removes the property `K` and nothing else |
| ConfigSummary.UtilityTypeFailures | packages/angular/.autogen.cjs:288-297 | a utility type fails exactly when it is a `Partial` without a type reference argument or of an unseen interface, or a `WithOptional` with fewer than two arguments |
| ConfigSummary.OtherUtilityTypesKeepSummary | packages/angular/.autogen.cjs:284-301 | any other utility type leaves the summary unchanged |
| ConfigSummary.GetConfigSummary | packages/angular/.autogen.cjs:252-323 | the loop over the source files computes the summary that the summary function specifies |
| ConfigSummary.Summarize | packages/angular/.autogen.cjs:252-323 | the summary function itself; GetConfigSummaryListsProperties, GetConfigSummaryMergeOrder and GetConfigSummaryMergeDefinitions state what it lists |
| ConfigSummary.GetConfigSummaryMergeOrder | packages/angular/.autogen.cjs:252-323 | when the last file declares an interface, the listed names are the earlier files' names in place, then its new kept names in order, less the names its utility types delete |
| ConfigSummary.GetConfigSummaryMergeDefinitions | packages/angular/.autogen.cjs:252-323 | each kept property of the last interface that no later one overrides and no utility type deletes is listed as defined there; an earlier property it neither redefines nor deletes is listed unchanged |
| ConfigSummary.GetConfigSummaryListsProperties | packages/angular/.autogen.cjs:252-323 | no listed property is skipped; with `keepOnlyRequiredProperties` all are required; names are unique; the members kept are exactly those of the listed properties |
| ConfigSummary.PartialRemovesOwnPropertyOfSameName | packages/angular/.autogen.cjs:270-301 | deletion runs after an interface's own properties are added, so a `Partial` of a base that had `color` also removes the interface's own `color` |
| TextTransforms.KebabCase | packages/angular/.autogen.cjs:248-251 | the kebab case itself; KebabCaseShape, KebabCaseIdempotent and the three examples below state its shape |
| TextTransforms.KebabCaseShape | packages/angular/.autogen.cjs:248-251 | the kebab case uses only lower-case letters, digits and dashes; split at dashes it gives back the non-empty, lower-cased words; without dashes it is the input's letters and digits, lower-cased |
| TextTransforms.KebabCaseIdempotent | packages/angular/.autogen.cjs:248-251 | a kebab-case name is its own kebab case |
| TextTransforms.GroupedBarKebab | packages/angular/.autogen.cjs:248-251 | `GroupedBar` becomes `grouped-bar` |
| TextTransforms.XYLabelsKebab | packages/angular/.autogen.cjs:248-251 | `XYLabels` becomes `xy-labels`: a capital run followed by a capitalised word splits before the word |
| TextTransforms.TopoJSONMapKebab | packages/angular/.autogen.cjs:248-251 | `TopoJSONMap` becomes `topo-json-map`, which is why the component list spells that one out |
| TextTransforms.Selector | packages/angular/.autogen.cjs:364 | the element selector always starts with `vis-` |
| TextTransforms.SelectorFromName | packages/angular/.autogen.cjs:364 | without an override, the selector is `vis-` followed by the kebab case of the component name |
| TextTransforms.SelectorOverride | packages/angular/.autogen.cjs:364 | an override is used as it is |
| TextTransforms.PlotlineSelector | packages/angular/src/components/plotline/plotline.component.ts:17 | the Plotline wrapper's selector is `vis-plotline` |
| TextTransforms.JSDocComments | packages/angular/.autogen.cjs:325-336 | the comment blocks joined by line breaks; UnindentIndent, CommentBlockRoundTrip, CommentBlockKeepsText, JSDocCommentsWithoutNbsp and JSDocCommentsHoldBlocks state what they hold |
| TextTransforms.GetJSDocComments | packages/angular/.autogen.cjs:325-336 | the loop that indents continuation lines builds the comment blocks, one per comment, joined by line breaks |
| TextTransforms.UnindentIndent | packages/angular/.autogen.cjs:330-332 | removing the `   * ` indent from the lines gives back the original lines |
| TextTransforms.CommentBlockRoundTrip | packages/angular/.autogen.cjs:325-336 | reading a block back gives the comment, with its no-break spaces turned into backslashes |
| TextTransforms.CommentBlockKeepsText | packages/angular/.autogen.cjs:325-336 | a comment without no-break spaces comes back exactly |
| TextTransforms.JSDocCommentsWithoutNbsp | packages/angular/.autogen.cjs:328-329 | the output holds no no-break space |
| TextTransforms.JSDocCommentsHoldBlocks | packages/angular/.autogen.cjs:325-336 | every comment's block appears in the output |
| TextTransforms.SearchDatum | packages/angular/.autogen.cjs:339 | `search(/[<\|\s](Datum)>/)` finds the first `Datum` argument, or reports none exactly when there is none |
| TextTransforms.CheckGeneric | packages/angular/.autogen.cjs:337-345 | the `Datum` substitution itself; CheckGenericKeeps, CheckGenericFails and CheckGenericSubstitutes state its three outcomes |
| TextTransforms.CheckGenericKeeps | packages/angular/.autogen.cjs:337-345 | the type is kept exactly when it has no `Datum` argument or the component declares `Datum` |
| TextTransforms.CheckGenericFails | packages/angular/.autogen.cjs:341-342 | it fails exactly when a `Datum` argument occurs and there is no type parameter at all |
| TextTransforms.CheckGenericSubstitutes | packages/angular/.autogen.cjs:341-343 | otherwise only the first `Datum` is replaced by the first type parameter's name, and the text around it is kept |
| TextTransforms.CheckGenericExample | packages/angular/.autogen.cjs:337-345 | `NumericAccessor<Datum>` with type parameter `N` becomes `NumericAccessor<N>` |
| PlotlineComponent.DefaultConfig | packages/ts/src/components/plotline/config.ts:32-43 | the defaults: no color, width 2, axis `y`, value 0, line style `solid`, label top right at offsets 14 and 14, horizontal |
| PlotlineComponent.Plotline.constructor | packages/ts/src/components/plotline/index.ts:21-27 | applies a config only when one is given, otherwise keeps the defaults it is taken to start from; the value is undefined until the first render |
| PlotlineComponent.Plotline.SetConfig | packages/ts/src/components/plotline/index.ts:23 | the config is replaced and the recorded value kept |
| PlotlineComponent.Plotline.Render | packages/ts/src/components/plotline/index.ts:29-89 | records the config's value and returns the line's attributes as specified, leaving the config unchanged |
| PlotlineComponent.RenderDefault | packages/ts/src/components/plotline/index.ts:21-89 | a component given the default config draws a solid, fully opaque, horizontal line of width 2 across the width at the scaled 0 |
| PlotlineComponent.StrokeDashArray | packages/ts/src/components/plotline/index.ts:48-56 | the dash pattern: a preset name looks up the table, an array is joined with commas, anything else is `none`; PresetTable, PresetNames, OnlySolidIsUndashed and DashArrayRoundTrip state what it yields |
| PlotlineComponent.Attributes | packages/ts/src/components/plotline/index.ts:58-78 | the line's attributes; LineDirection states them |
| PlotlineComponent.PresetTable | packages/ts/src/components/plotline/index.ts:34-46 | every preset has a table entry: `none` for `solid` and its dash lengths joined by commas otherwise |
| PlotlineComponent.PresetNames | packages/ts/src/components/plotline/index.ts:50-51 | a string finds a table entry exactly when it is the name of one of the eleven presets of the `PlotlineLineStylePresets` union |
| PlotlineComponent.OnlySolidIsUndashed | packages/ts/src/components/plotline/index.ts:34-46 | only `solid` draws without dashes |
| PlotlineComponent.DashArrayRoundTrip | packages/ts/src/components/plotline/index.ts:52-53 | the dash lengths of an array can be read back from the attribute, one length per comma-separated piece |
| PlotlineComponent.LineDirection | packages/ts/src/components/plotline/index.ts:60-78 | on axis `y` the line is horizontal across the width at the scaled value; on any other axis it is vertical across the height; stroke attributes come from the config |
| JsStrings.JoinSplit | packages/angular/.autogen.cjs:328-333 | splitting a string and joining it with the same separator gives the string back |
| JsStrings.SplitJoin | packages/ts/src/components/plotline/index.ts:53 | joining pieces free of the separator and splitting gives the pieces back |
| JsStrings.ParseIntToString | packages/ts/src/components/plotline/index.ts:53 | an integer printed in decimal parses back to itself |
| Collections.Insert | packages/angular/.autogen.cjs:139 | `Set.add` puts the element in the set and keeps the set free of duplicates |
| Collections.Remove | packages/angular/.autogen.cjs:300 | filtering out a name keeps exactly the other elements and introduces no duplicates |
| Collections.RemoveAll | packages/angular/.autogen.cjs:298-299 | deleting each listed name in turn keeps exactly the elements not listed |
| Collections.RemoveAllAppend | packages/angular/.autogen.cjs:298-299 | deleting one list and then another is deleting both |
| Collections.OrderedMap.Set | packages/angular/.autogen.cjs:275 | `Map.set` of a key already present replaces its value and keeps its position; a new key goes last |
| Collections.OrderedMap.Delete | packages/angular/.autogen.cjs:299 | `Map.delete` removes the key from the map and its order, and leaves every other entry as it was |
| Collections.OrderedMap.Values | packages/angular/.autogen.cjs:316 | `Array.from(map.values())` lists the values in key order |
| Collections.AddAllAppend | packages/angular/.autogen.cjs:270-276 | adding one list of names and then another is adding both |
| Collections.EntryListed | packages/angular/.autogen.cjs:316 | every entry of a map is among `Array.from(map.values())` |
| Collections.AddAllProperties | packages/angular/.autogen.cjs:227 | adding names to an insertion-ordered set keeps the old names first, holds exactly the old and new names, and has no duplicates |

## Left out

- Reading and parsing the TypeScript config files (`getTSStatements`) is not modelled, and neither is the TypeScript syntax tree's own API. The model's `TypeSyntax` datatype stands for the parsed nodes, and each file is given as its list of statements.
- The generation loop over the component list is left out, along with the code templates other than the selector, `getComponentList` and the file writes. These only assemble strings and perform I/O.
- `console.error` calls are left out. A missing config interface skips the file, and a name without an import source is skipped; the model does both without a message.
- The `kind` field of a config property is left out. It only feeds the templates.
- Import declarations without named bindings (default or namespace imports) are not modelled. The generator dereferences `namedBindings.elements` and would throw on them.
- Interface members that are not property signatures (methods, call signatures) are not modelled, and members are treated as always having a name.
- A node the printer dereferences (for example the type of a type reference) is a required field of the syntax datatype. The crash the generator shows when it is missing is therefore not modelled.
- Heritage clauses are flattened into one list of heritage types. Their `extends`/`implements` split plays no part in the generator.
- The d3 selection, the DOM, `smartTransition` and `super._render` are left out. The line's attributes are returned as a value rather than set on an SVG element, and the exit transition is not modelled.
- The scales are functions passed to `Render`. The width and height are integer parameters.
- PlotlineComponent.Plotline.SetConfig: replaces the whole config. The merge of the base XY component's defaults and the partial config that `setConfig` does in the base class is not modelled, because that class is not part of this model.
- PlotlineComponent.DefaultConfig: does not include the spread of the XY component's own defaults, which live in a file that is not part of this model.
- PlotlineComponent.StrokeDashArray: dash lengths are integers. JavaScript's printing of fractional or non-finite numbers is not modelled.
- Inherited object keys are not modelled for the two plain-object lookups: the preset table (`packages/ts/src/components/plotline/index.ts:34-51`) and `importSources` (`packages/angular/.autogen.cjs:204`, read at 228). In JavaScript a name such as `toString` or `constructor` finds an inherited value in either. In the model a preset name outside the eleven finds nothing, and an import name finds a source only when the table was given one.
- PlotlineComponent.Plotline.constructor: without a config the component is taken to start from the Plotline defaults. The base class that sets up the config in `super()` is not part of this model, and the `_defaultConfig` field initializer at index.ts:17 runs only after `super()` returns, so what the base class reads as defaults is not shown by these files. PlotlineComponent.RenderDefault therefore passes the defaults explicitly.
