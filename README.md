# ZenPackLib class specs and zenpack command, in Dafny

The project models two parts of ZenPackLib, the library that builds Zenoss
ZenPacks from a `zenpack.yaml` description.

**Class specs** (`ClassSpec.py`). A ZenPack declares classes by name. Each
class has bases, which are other classes of the ZenPack or platform types. It
also has properties and relationships. The model covers:

- the constructor's defaulting of labels, widths and list-or-string
  parameters, and the regular-expression "pattern streams" built from
  `extra_paths`;
- the ancestor walk `get_base_specs` and the nearest-ancestor lookups;
- descendants, `base_class_specs` and `subclass_specs`;
- the merged `inherited_properties` and `inherited_relationships`;
- the in-place copying of inherited properties (`check_ancestor_properties`)
  and the push of a relationship down the class tree
  (`update_child_relations`);
- the catalog-index tables of `create_model_schema_class`, `filterable_by`,
  and the column rule of `containing_js_columns`.

The class table `zenpack.classes` is a `map<string, ClassRec>`.
Relationship specs are shared objects. A class that inherits one holds the
base's very object, and a schema given through one holder is seen by all
of them. So they live in a store (`RelStore`), and classes hold references
into it. The walks only terminate on an acyclic base graph. The model
expresses acyclicity as a ghost ranking (`ClassModel.Ranked`): every class
ranks above each of its in-ZenPack bases.

**The zenpack command** (`ZPLCommand.py`). The model covers:

- the ZenPack name rule and its suggested replacement;
- the package chain, namespace packages and module directory of a new
  source tree;
- the facet-path report of `list_paths`;
- the yUML class diagram;
- the argument rules of `parseOptions` and the action dispatch of `run`.

The zenpack.yaml contents, the device's components and their facets are
given as data.

Modules:
- `Wrappers`: Option and Result.
- `Strings`: split and join, a strict string order, sorting.
- `ClassDefaults`, `ClassModel`, `ClassBases`, `ClassInherit` and
  `ClassCatalog`: the class specs.
- `ZenPackNames`, `FacetPaths`, `ClassDiagram` and `ZplCommand`: the command.

## Model

| member | source | states |
|---|---|---|
| ClassDefaults.OrElse | ZenPacks/zenoss/ZenPackLib/lib/spec/ClassSpec.py:233-234 | `x or d` on a string: the default, or the given value when it is not empty |
| ClassDefaults.OrElseInt | ZenPacks/zenoss/ZenPackLib/lib/spec/ClassSpec.py:248-249 | `x or d` on an int: the default, or the given value when it is not 0 |
| ClassDefaults.ClassLabels | ZenPacks/zenoss/ZenPackLib/lib/spec/ClassSpec.py:233-249 | meta_type falls back on the name and label on meta_type; a given short label brings its own plural, otherwise both copy the long forms; plural_label_width falls back on label_width + 7 and content_width on label_width; monitoring_templates falls back on the label without spaces, dynamicview_views on ['service_view'], a single string becoming a one-element list; dynamicview_group falls back on the plural short label |
| ClassDefaults.BareClassLabels | ZenPacks/zenoss/ZenPackLib/lib/spec/ClassSpec.py:233-303 | a class given only its name is labelled by its name everywhere, with widths 80/87/80, template = name without spaces, view 'service_view' |
| ClassDefaults.EmptyLabelsFallBack | ZenPacks/zenoss/ZenPackLib/lib/spec/ClassSpec.py:233-241 | empty meta_type, label and short_label are falsy, so all fall back to the name |
| ClassDefaults.DefaultTemplateHasNoSpace | ZenPacks/zenoss/ZenPackLib/lib/spec/ClassSpec.py:282-283 | the default template list is one name without spaces, equal to the label when that has none |
| ClassDefaults.PathPatternStreams | ZenPacks/zenoss/ZenPackLib/lib/spec/ClassSpec.py:317-360 | extra_paths defaults to []; one stream per entry, in order. For n > 0 parts a stream has n + 1 patterns: pattern i is '^' and the first i parts joined by '/', and the last is '/?$'. An empty entry gives an empty stream |
| ClassDefaults.PatternsExtend | ZenPacks/zenoss/ZenPackLib/lib/spec/ClassSpec.py:350-353 | each pattern of a stream extends the previous one by '/' and the next part |
| ClassDefaults.LastPatternIsWholeEntry | ZenPacks/zenoss/ZenPackLib/lib/spec/ClassSpec.py:350-356 | the last regular pattern anchors the whole entry joined by '/', the first its first part |
| ClassModel.NewClassSpec | ZenPacks/zenoss/ZenPackLib/lib/spec/ClassSpec.py:225-360 | bases normalised to a sequence, labels defaulted, DEFAULTS saved (or {}), filter settings kept and pattern streams built as above |
| ClassModel.BasesOf | ZenPacks/zenoss/ZenPackLib/lib/spec/ClassSpec.py:457-458 | the base graph has the table's classes and each class's bases |
| ClassModel.AncestorsOfStep | ZenPacks/zenoss/ZenPackLib/lib/spec/ClassSpec.py:457-463 | an ancestor is an in-ZenPack direct base or an ancestor of one |
| ClassModel.NotOwnAncestor | ZenPacks/zenoss/ZenPackLib/lib/spec/ClassSpec.py:453-464 | on a ranked (acyclic) table no class is its own ancestor |
| ClassModel.AncestorsTransitive | ZenPacks/zenoss/ZenPackLib/lib/spec/ClassSpec.py:453-464 | an ancestor of an ancestor is an ancestor |
| ClassModel.ChildDescendants | ZenPacks/zenoss/ZenPackLib/lib/spec/ClassSpec.py:420-422 | a child and everything below it is below its parent |
| ClassBases.GetBaseSpecs | ZenPacks/zenoss/ZenPackLib/lib/spec/ClassSpec.py:453-464 | the accumulator is a prefix of the result, a duplicate-free accumulator stays duplicate-free, and the result holds exactly the accumulator and the ancestors; the walk recurses into a base even when it was already listed |
| ClassBases.BaseSpecsProperties | ZenPacks/zenoss/ZenPackLib/lib/spec/ClassSpec.py:453-464 | from an empty list: no duplicates, only classes of the ZenPack, equal as a set to the ancestors, never the class itself, led by the first in-ZenPack direct base (empty when there is none) |
| ClassBases.NearestProperty | ZenPacks/zenoss/ZenPackLib/lib/spec/ClassSpec.py:435-442 | a property is found exactly when some ancestor defines it, and the result is that ancestor's entry |
| ClassBases.FindPropertyInBaseSpecs | ZenPacks/zenoss/ZenPackLib/lib/spec/ClassSpec.py:435-442 | the loop returns the entry of the first class in get_base_specs order that defines the name, None when none does |
| ClassBases.NearestRelation | ZenPacks/zenoss/ZenPackLib/lib/spec/ClassSpec.py:444-451 | a relationship is found exactly when some ancestor defines it, and the result is that ancestor's reference |
| ClassBases.FindRelationInBaseSpecs | ZenPacks/zenoss/ZenPackLib/lib/spec/ClassSpec.py:444-451 | the loop returns the first class in get_base_specs order that defines the relationship, None when none does |
| ClassBases.GetDescendantSpecs | ZenPacks/zenoss/ZenPackLib/lib/spec/ClassSpec.py:466-472 | the names of the classes that list the class among their bases, without duplicates when names match keys |
| ClassBases.DescendantSpecsAreChildren | ZenPacks/zenoss/ZenPackLib/lib/spec/ClassSpec.py:466-472 | those are exactly the classes having the class as a direct base |
| ClassBases.BaseClassSpecs | ZenPacks/zenoss/ZenPackLib/lib/spec/ClassSpec.py:495-515 | the loop equals the as-written walk (types skipped, a missing name is a KeyError); without recursion it lists exactly the named bases; with recursion, on a closed table, it succeeds and lists exactly the named bases and the bases they name directly |
| ClassBases.DirectBaseClassSpecList | ZenPacks/zenoss/ZenPackLib/lib/spec/ClassSpec.py:495-515 | without recursion, a walk over bases that are all in the table succeeds and lists exactly the named bases |
| ClassBases.RecursiveBaseClassSpecList | ZenPacks/zenoss/ZenPackLib/lib/spec/ClassSpec.py:495-515 | the as-written recursive walk, for every closed table: it succeeds, and x is listed iff x is a named base or is named directly by one, so nothing above the grandparents is reached |
| ClassBases.SubclassSpecs | ZenPacks/zenoss/ZenPackLib/lib/spec/ClassSpec.py:517-523 | the classes whose recursive base_class_specs contain the class; a KeyError of any class propagates |
| ClassBases.AllBaseClassSpecsAreAncestors | ZenPacks/zenoss/ZenPackLib/lib/spec/ClassSpec.py:495-515 | the corrected recursive walk succeeds on a closed table and lists exactly the ancestors |
| ClassBases.BaseClassSpecsStopsAtGrandparents | ZenPacks/zenoss/ZenPackLib/lib/spec/ClassSpec.py:512-513 | on D -> C -> B -> A, base_class_specs(True) of D is [C, B] though A is an ancestor; the corrected walk gives [C, B, A] |
| ClassBases.InheritedLookup | ZenPacks/zenoss/ZenPackLib/lib/spec/ClassSpec.py:539-559 | keys are the local keys plus those the named bases inherit; local entries win; among bases the last one offering a key wins; types contribute nothing |
| ClassBases.InheritedNeedsNamedBases | ZenPacks/zenoss/ZenPackLib/lib/spec/ClassSpec.py:541-543 | the merge fails (KeyError) unless every named base is a class of the ZenPack |
| ClassBases.InheritedProperties | ZenPacks/zenoss/ZenPackLib/lib/spec/ClassSpec.py:539-548 | the loop computes the merge, and every local property is kept as is |
| ClassBases.InheritedRelationships | ZenPacks/zenoss/ZenPackLib/lib/spec/ClassSpec.py:550-559 | the loop computes the merge, and every local relationship is kept as is |
| ClassInherit.Adopt | ZenPacks/zenoss/ZenPackLib/lib/spec/ClassSpec.py:372-381 | the copy is owned by the class, and DEFAULTS entries are written over it only for keys among its init params; other attributes are unchanged |
| ClassInherit.AdoptMissingKeeps | ZenPacks/zenoss/ZenPackLib/lib/spec/ClassSpec.py:369-374 | only missing names are added; existing entries are unchanged |
| ClassInherit.AdoptMissingIdempotent | ZenPacks/zenoss/ZenPackLib/lib/spec/ClassSpec.py:369-374 | applying check_ancestor_properties twice for the same base changes nothing more |
| ClassInherit.AdoptAllLookup | ZenPacks/zenoss/ZenPackLib/lib/spec/ClassSpec.py:383-387 | after visiting the classes in order, a missing property is the adopted copy from the first class that defines it |
| ClassInherit.ZenPack.CheckAncestorProperties | ZenPacks/zenoss/ZenPackLib/lib/spec/ClassSpec.py:366-381 | only the class's property map changes, by adding adopted copies of the missing properties |
| ClassInherit.ZenPack.InheritMissingProperties | ZenPacks/zenoss/ZenPackLib/lib/spec/ClassSpec.py:383-387 | visits the bases in get_base_specs order, changing only this class's properties |
| ClassInherit.RelationInheritedFacts | ZenPacks/zenoss/ZenPackLib/lib/spec/ClassSpec.py:424-433 | afterwards the class holds the relationship exactly when it or an ancestor held it; only this class and only this name change; a held relationship only gets a schema when it had none |
| ClassInherit.ZenPack.InheritRelation | ZenPacks/zenoss/ZenPackLib/lib/spec/ClassSpec.py:424-433 | inserts the nearest ancestor's shared object when absent, fills in a missing schema when present, and leaves a present relationship with a schema untouched |
| ClassInherit.ZenPack.UpdateChildRelations | ZenPacks/zenoss/ZenPackLib/lib/spec/ClassSpec.py:416-433 | descendants first, then the class. Every class at or below it that held the relationship, or had an ancestor holding it, now holds it. No class holds it without such a reason. Classes elsewhere are untouched. Entries are only added, and schemas only given to relationships without one |
| ClassCatalog.FiledLookup | ZenPacks/zenoss/ZenPackLib/lib/spec/ClassSpec.py:735-749 | other classes' entries are unchanged; this class's entry gains each index whose scope selects the map, typed by its type |
| ClassCatalog.ScopeRules | ZenPacks/zenoss/ZenPackLib/lib/spec/ClassSpec.py:736-749 | scope defaults to 'device' and type to 'field'; 'both' files the index in both maps; an unknown scope in neither |
| ClassCatalog.AddCatalogIndexes | ZenPacks/zenoss/ZenPackLib/lib/spec/ClassSpec.py:699-749 | the loop files every property's indexes, in the dict's order, into the device and global maps |
| ClassCatalog.FiledAllIndexes | ZenPacks/zenoss/ZenPackLib/lib/spec/ClassSpec.py:735-749 | over all properties, an index is under this class exactly when it was before or some property offers it for the map |
| ClassCatalog.FiledAllOthers | ZenPacks/zenoss/ZenPackLib/lib/spec/ClassSpec.py:735-749 | over all properties, other classes' entries are unchanged |
| ClassCatalog.HiddenSpecsMeaning | ZenPacks/zenoss/ZenPackLib/lib/spec/ClassSpec.py:531-537 | the specs of the named classes in order, or an error naming the first unknown class |
| ClassCatalog.FilterHideFromClassSpecs | ZenPacks/zenoss/ZenPackLib/lib/spec/ClassSpec.py:526-537 | None gives []; otherwise the loop gives the named specs or the ValueError for the first unknown name |
| ClassCatalog.FilterableBy | ZenPacks/zenoss/ZenPackLib/lib/spec/ClassSpec.py:1106-1115 | empty when filter_display is false; otherwise containing ∪ (faceting − hidden), so hidden names stay in containing; without filter_hide_from it always succeeds; an unknown hidden class is an error |
| ClassCatalog.GetRelname | ZenPacks/zenoss/ZenPackLib/lib/spec/ClassSpec.py:1374-1378 | the relationship's name when there is one, otherwise the name derived from the class name |
| ClassCatalog.ColumnWidth | ZenPacks/zenoss/ZenPackLib/lib/spec/ClassSpec.py:1176 | the larger of content_width + 14 and label_width + 20 |
| ClassCatalog.ColumnFor | ZenPacks/zenoss/ZenPackLib/lib/spec/ClassSpec.py:1172-1186 | the column is named after the spec; its dataIndex is `get_relname`; its header is the relationship's short label, or the class's when that is empty or there is no relationship; its width is the larger of content_width + 14 and label_width + 20 |
| ClassCatalog.GridHidden | ZenPacks/zenoss/ZenPackLib/lib/spec/ClassSpec.py:1163-1166 | the remote classes of the relationships whose grid_display is False |
| ClassCatalog.ColumnsForMeaning | ZenPacks/zenoss/ZenPackLib/lib/spec/ClassSpec.py:1168-1189 | the columns are exactly those of the containing specs that are not hidden, and none of a hidden one; ClassCatalog.ColumnsInOrder gives their number and order |
| ClassCatalog.ColumnsInOrder | ZenPacks/zenoss/ZenPackLib/lib/spec/ClassSpec.py:1168-1189 | column j is the column of the j-th containing pair that is not hidden, and there are as many columns as such pairs |
| ClassCatalog.ContainingJsColumns | ZenPacks/zenoss/ZenPackLib/lib/spec/ClassSpec.py:1156-1191 | no columns for a device class; otherwise the columns of the containing specs not filtered out by grid_display |
| ZenPackNames.ValidateZenPackName | ZenPacks/zenoss/ZenPackLib/lib/libexec/ZPLCommand.py:229-240 | accepted exactly when there are at least 3 dot-separated segments and the first is 'ZenPacks'; fewer segments and a wrong first segment are the two exits |
| ZenPackNames.SuggestionAccepted | ZenPacks/zenoss/ZenPackLib/lib/libexec/ZPLCommand.py:237-238 | the suggestion is 'ZenPacks' followed by segments 2..n, and is itself accepted |
| ZenPackNames.PackagesChain | ZenPacks/zenoss/ZenPackLib/lib/libexec/ZPLCommand.py:253-258 | one package per segment; the first is 'ZenPacks'; package k is package k-1, '.', segment k |
| ZenPackNames.PackagesArePrefixes | ZenPacks/zenoss/ZenPackLib/lib/libexec/ZPLCommand.py:253-258 | package k is the first k+1 segments joined; for a name starting with 'ZenPacks' the last is the name |
| ZenPackNames.NamespacePackages | ZenPacks/zenoss/ZenPackLib/lib/libexec/ZPLCommand.py:260 | all packages but the last, one fewer than the segments |
| ZenPackNames.PathJoin | ZenPacks/zenoss/ZenPackLib/lib/libexec/ZPLCommand.py:263 | os.path.join: an absolute part replaces the path; otherwise the parts are concatenated when the path is empty or ends in a slash, and one slash separates them when it does not |
| ZenPackNames.ModuleDirectoryShape | ZenPacks/zenoss/ZenPackLib/lib/libexec/ZPLCommand.py:262-263 | for a name without slashes or empty segments: the name, '/', and the segments joined by '/' |
| ZenPackNames.CreateZenPackSrcdir | ZenPacks/zenoss/ZenPackLib/lib/libexec/ZPLCommand.py:242-263 | a rejected name gives its check result and an existing directory AlreadyExists; it proceeds exactly when the name is accepted and no such directory exists, with the packages, namespace packages and module directory of the name: package k joins the first k + 1 segments, the last is the name, the namespace packages are the others, and for a name without slashes or empty segments the module directory is the name, a slash and the segments joined by slashes |
| FacetPaths.RelIdsMeaning | ZenPacks/zenoss/ZenPackLib/lib/libexec/ZPLCommand.py:409-413 | the ids collected are those of the relationship objects of the chain before the component is reached |
| FacetPaths.RelationshipPath | ZenPacks/zenoss/ZenPackLib/lib/libexec/ZPLCommand.py:408-413 | the insert(0) loop gives those ids reversed, root first |
| FacetPaths.PathKeySplit | ZenPacks/zenoss/ZenPackLib/lib/libexec/ZPLCommand.py:414 | when no meta type or id holds ':', a key splits at ':' back into component meta_type, the '/'-joined ids and facet meta_type |
| FacetPaths.PathKeySlash | ZenPacks/zenoss/ZenPackLib/lib/libexec/ZPLCommand.py:414 | when no meta type or id holds '/', a key holds '/' exactly when the path has two or more ids |
| FacetPaths.AllPathsMeaning | ZenPacks/zenoss/ZenPackLib/lib/libexec/ZPLCommand.py:406-423 | all_paths is the keys of every component with every facet of both facet lists |
| FacetPaths.ClassSummaryMeaning | ZenPacks/zenoss/ZenPackLib/lib/libexec/ZPLCommand.py:416-425 | the summary maps each component's meta_type that has direct facets to exactly those facets' meta_types |
| FacetPaths.PathLine | ZenPacks/zenoss/ZenPackLib/lib/libexec/ZPLCommand.py:428-438 | DIRECT for an included path without '/', EXTRA for an included one with '/', EXCLUDE otherwise |
| FacetPaths.DirectMeansOneHop | ZenPacks/zenoss/ZenPackLib/lib/libexec/ZPLCommand.py:429-436 | when no meta type or id holds '/', an included path is DIRECT exactly when its relationship path has at most one id (the source tests the whole key, so a '/' in a meta type makes a one-hop path EXTRA) |
| FacetPaths.ComponentPaths | ZenPacks/zenoss/ZenPackLib/lib/libexec/ZPLCommand.py:406-425 | one component adds the keys of both facet lists to all_paths, the direct ones to included_paths and their types to the summary |
| FacetPaths.ListPaths | ZenPacks/zenoss/ZenPackLib/lib/libexec/ZPLCommand.py:391-438 | a missing device is logged as an error; otherwise included ⊆ all, the paths are reported sorted, each with its label, and the class summary lines list the summarised meta types sorted, each with its facet meta types sorted |
| ClassDiagram.CardinalityShapes | ZenPacks/zenoss/ZenPackLib/lib/libexec/ZPLCommand.py:368-387 | '1:MC' draws `[L]++lr-rr[R]` in the containing section; '1:1', '1:M' and 'M:M' draw `[L]lr-.-rr[R]`, `[L]lr-.-rr++[R]` and `[L]++lr-.-rr++[R]` in the other; any other cardinality draws nothing |
| ClassDiagram.ContainingLinesMeaning | ZenPacks/zenoss/ZenPackLib/lib/libexec/ZPLCommand.py:367-372 | a containing line is exactly the line of some '1:MC' relationship |
| ClassDiagram.NonContainingLinesMeaning | ZenPacks/zenoss/ZenPackLib/lib/libexec/ZPLCommand.py:374-387 | a non-containing line is exactly the line of some '1:1', '1:M' or 'M:M' relationship |
| ClassDiagram.InheritanceLinesMeaning | ZenPacks/zenoss/ZenPackLib/lib/libexec/ZPLCommand.py:359-365 | an inheritance line is exactly `[base]^-[class]` for a base of a class, with types shown by their name |
| ClassDiagram.ClassLines | ZenPacks/zenoss/ZenPackLib/lib/libexec/ZPLCommand.py:355-357 | the class names sorted, one bracketed line each |
| ClassDiagram.ClassDiagram | ZenPacks/zenoss/ZenPackLib/lib/libexec/ZPLCommand.py:354-389 | for 'yuml' the four sections in order; any other type only logs "Diagram type '…' is not supported." |
| ZplCommand.CommandOptions.ParseOptions | ZenPacks/zenoss/ZenPackLib/lib/libexec/ZPLCommand.py:132-177 | all three values start as None. Anything but one argument prints the help and exits. Lint, diagram and optimize take the argument as the file name, and an invalid file stops with its warning. Dump, create and the two class dumps take it as the ZenPack name. Paths takes it as the device. The last role sets the usage line |
| ZplCommand.Run | ZenPacks/zenoss/ZenPackLib/lib/libexec/ZPLCommand.py:179-183 | dumping a ZenPack that is not installed stops with '… was not found' |
| ZplCommand.RunIsMostUrgent | ZenPacks/zenoss/ZenPackLib/lib/libexec/ZPLCommand.py:179-207 | otherwise exactly the first requested action in the order create, dump, lint, optimize, diagram, paths, dump_event_classes, dump_process_classes runs, or none |
| ZplCommand.ParsedActionGetsArgument | ZenPacks/zenoss/ZenPackLib/lib/libexec/ZPLCommand.py:148-207 | after a successful parse every action but paths receives the single argument |

## Left out

- Dynamic class synthesis (`create_*_class` and its relatives, memoisation), adapter registration and the JavaScript snippet text: these build Python types and framework objects at run time. Only the column rule of `containing_js_columns` is kept.
- `datapoint_method`, `get_icon_url`, `scaled_order`: metric reads, clocks, floating point and file-system checks.
- `plumb_class_relations`, `update_inherited_relation_parameters` and the per-property `update_inherited_params` (ClassSpec.py:389-391): they call into relationship and property spec code that is not part of this model.
- `containing_component_specs` and `faceting_component_specs`: they test platform relationship types (`ToManyCont`, `ToMany`). `FilterableBy` and `ContainingJsColumns` take their results as parameters.
- ClassCatalog.AddCatalogIndexes: the catalog maps inherited from `resolved_bases` (ClassSpec.py:688-696) are taken as its starting maps, not computed.
- `specs_from_param` and `pluralize`: they are defined outside ClassSpec.py. Property and relationship specs arrive already built, and `pluralize` and `relname_from_classname` are function parameters.
- Python dict iteration order is not modelled. The loops over dicts pick their keys in an unspecified order and return it as a ghost value. The results are stated for that order.
- ClassCatalog.FilterableBy: returns a set. The source returns `list(...)` of it, in an order the model does not fix.
- Attribute values of property specs are strings.
- Regular expressions are kept as their pattern text, never compiled or matched.
- I/O and the platform: connecting to the platform, `findDevice`, `aq_chain`, `get_facets`, YAML loading and dumping, `optimize_yaml`, `lint`, logging, printing (including the "Paths" and "Class Summary" headers of `list_paths`, which the model does not return among its lines), the help text, `dump_templates`, `dump_event_classes` and `dump_process_classes`. The object chain of a facet is given as a sequence of objects, each flagged as a relationship or not. `is_valid_file` and `is_valid_zenpack` are given as their answers.
- `create_zenpack_srcdir` after its computations: making directories (including its EEXIST race), writing files and the setup.py template.
- Option parsing itself (optparse) and `noopts`: the flags and positional arguments are given.
- ClassInherit.ZenPack.UpdateChildRelations: does not state which ancestor's object a class receives. That step is stated by ClassInherit.RelationInheritedFacts for one class.

## Findings

| source | as written | input that shows it | evidently intended | confidence | as-written member | corrected member |
|---|---|---|---|---|---|---|
| ZenPacks/zenoss/ZenPackLib/lib/spec/ClassSpec.py:512-513 | `base_class_specs(recursive=True)` calls `base_class_specs()` on each base without passing the flag on, so it reaches only the bases and their direct bases; `subclass_specs` (ClassSpec.py:517-523), and through it `faceting_component_specs`, then miss classes three or more levels below | classes D -> C -> B -> A: `base_class_specs(True)` of D is [C, B], without A | every ancestor, i.e. `class_spec.base_class_specs(recursive=True)` | not executed | ClassBases.BaseClassSpecsStopsAtGrandparents | ClassBases.AllBaseClassSpecsAreAncestors |
