/** The parts of ClassSpec (ZenPacks/zenoss/ZenPackLib/lib/spec/ClassSpec.py)
    that decide how a class is catalogued and filtered in the UI: the
    catalog-index tables built for the schema class, the classes named in
    `filter_hide_from`, the meta types a grid may be filtered by, and the
    columns listing a component's containers. */
module ClassCatalog {
  import opened Wrappers
  import opened ClassDefaults
  import opened ClassModel

  /** The dict describing one catalog index: optional 'scope' and 'type'. */
  type IndexSpec = map<string, string>

  /** `device_catalogs` or `global_catalogs`: class name to index name to
      index type. */
  type Catalogs = map<string, map<string, string>>

  function ScopeOf(spec: IndexSpec): string
  {
    if "scope" in spec then spec["scope"] else "device"
  }

  function TypeOf(spec: IndexSpec): string
  {
    if "type" in spec then spec["type"] else "field"
  }

  /** Whether an index of the given scope belongs in the global table
      (`global`) or in the device table (`!global`). */
  predicate Wants(global: bool, scope: string)
  {
    if global then scope == "both" || scope == "global" else scope == "both" || scope == "device"
  }

  /** The indexes of one property that go into one table, with their types. */
  function Wanted(indexes: map<string, IndexSpec>, global: bool): map<string, string>
  {
    map n | n in indexes && Wants(global, ScopeOf(indexes[n])) :: TypeOf(indexes[n])
  }

  /** One table after the indexes of one property of class `className` have
      been filed into it: the class gets an entry only when some index
      belongs in this table. */
  function Filed(cat: Catalogs, className: string, indexes: map<string, IndexSpec>, global: bool): Catalogs
  {
    var w := Wanted(indexes, global);
    if w == map[] then cat
    else cat[className := (if className in cat then cat[className] else map[]) + w]
  }

  /** Filing leaves other classes' entries alone; the class's entry gains
      exactly the indexes whose scope selects this table, typed by their
      'type' (default 'field'), and keeps the others it had. */
  lemma FiledLookup(cat: Catalogs, className: string, indexes: map<string, IndexSpec>, global: bool)
    ensures var r := Filed(cat, className, indexes, global);
      && (forall k :: k != className ==> (k in r <==> k in cat) && (k in r ==> r[k] == cat[k]))
      && (className in r <==> className in cat || exists n :: n in indexes && Wants(global, ScopeOf(indexes[n])))
      && (className in r ==> forall n ::
            (n in r[className] <==>
               (className in cat && n in cat[className]) || (n in indexes && Wants(global, ScopeOf(indexes[n]))))
            && (n in indexes && Wants(global, ScopeOf(indexes[n])) ==> r[className][n] == TypeOf(indexes[n]))
            && (n in r[className] && !(n in indexes && Wants(global, ScopeOf(indexes[n]))) ==>
                  r[className][n] == cat[className][n]))
  {
    var w := Wanted(indexes, global);
    if w == map[] {
      forall n | n in indexes ensures !Wants(global, ScopeOf(indexes[n])) {
        assert n !in w;
      }
    } else {
      var n :| n in w;
    }
  }

  /** An index without 'scope' or 'type' is a device index of type 'field';
      one of scope 'both' is filed in both tables; one of any scope other
      than 'both', 'device' and 'global' is filed in neither. */
  lemma ScopeRules(className: string, n: string, spec: IndexSpec, device: Catalogs, global: Catalogs)
    ensures "scope" !in spec && "type" !in spec ==>
      && (var d := Filed(device, className, map[n := spec], false); className in d && n in d[className] && d[className][n] == "field")
      && Filed(global, className, map[n := spec], true) == global
    ensures ScopeOf(spec) == "both" ==>
      && (var d := Filed(device, className, map[n := spec], false); className in d && n in d[className])
      && (var g := Filed(global, className, map[n := spec], true); className in g && n in g[className])
    ensures ScopeOf(spec) !in {"both", "device", "global"} ==>
      && Filed(device, className, map[n := spec], false) == device
      && Filed(global, className, map[n := spec], true) == global
  {
    var m := map[n := spec];
    if "scope" !in spec {
      assert Wanted(m, true) == map[];
      assert n in Wanted(m, false);
    }
    if ScopeOf(spec) == "both" {
      assert n in Wanted(m, false) && n in Wanted(m, true);
    }
    if ScopeOf(spec) !in {"both", "device", "global"} {
      assert Wanted(m, true) == map[];
      assert Wanted(m, false) == map[];
    }
  }

  /** Filing the catalog indexes of the properties named in `order`, one
      property after another. */
  function FiledAll(cat: Catalogs, className: string, properties: map<string, PropertySpec>,
                    order: seq<string>, global: bool): Catalogs
    requires forall i :: 0 <= i < |order| ==> order[i] in properties
  {
    if order == [] then cat
    else
      var last := order[|order| - 1];
      Filed(FiledAll(cat, className, properties, order[..|order| - 1], global), className,
            properties[last].catalogIndexes, global)
  }

  /** Some property among the first ones of `order` has index `n` in the
      table selected by `global`. */
  ghost predicate Offers(properties: map<string, PropertySpec>, order: seq<string>, n: string, global: bool)
    requires forall i :: 0 <= i < |order| ==> order[i] in properties
  {
    exists i :: 0 <= i < |order| && n in properties[order[i]].catalogIndexes
      && Wants(global, ScopeOf(properties[order[i]].catalogIndexes[n]))
  }

  lemma OffersSnoc(properties: map<string, PropertySpec>, order: seq<string>, n: string, global: bool)
    requires order != [] && forall i :: 0 <= i < |order| ==> order[i] in properties
    ensures var last := properties[order[|order| - 1]].catalogIndexes;
      Offers(properties, order, n, global) <==>
        Offers(properties, order[..|order| - 1], n, global) || (n in last && Wants(global, ScopeOf(last[n])))
  {
    var front := order[..|order| - 1];
    if Offers(properties, order, n, global) {
      var i :| 0 <= i < |order| && n in properties[order[i]].catalogIndexes
        && Wants(global, ScopeOf(properties[order[i]].catalogIndexes[n]));
      if i < |front| {
        assert front[i] == order[i];
      }
    }
    if Offers(properties, front, n, global) {
      var i :| 0 <= i < |front| && n in properties[front[i]].catalogIndexes
        && Wants(global, ScopeOf(properties[front[i]].catalogIndexes[n]));
      assert order[i] == front[i];
    }
  }

  /** Whatever the properties' order, other classes' entries are unchanged. */
  lemma {:induction false} FiledAllOthers(cat: Catalogs, className: string, properties: map<string, PropertySpec>,
                                          order: seq<string>, global: bool)
    requires forall i :: 0 <= i < |order| ==> order[i] in properties
    ensures var r := FiledAll(cat, className, properties, order, global);
      forall k :: k != className ==> (k in r <==> k in cat) && (k in r ==> r[k] == cat[k])
  {
    if order != [] {
      var front := order[..|order| - 1];
      FiledAllOthers(cat, className, properties, front, global);
      FiledLookup(FiledAll(cat, className, properties, front, global), className,
                  properties[order[|order| - 1]].catalogIndexes, global);
    }
  }

  /** Whatever the properties' order, the class's entry holds exactly its
      earlier indexes and those of the properties whose scope selects this
      table. */
  lemma {:induction false} FiledAllIndexes(cat: Catalogs, className: string, properties: map<string, PropertySpec>,
                                           order: seq<string>, global: bool)
    requires forall i :: 0 <= i < |order| ==> order[i] in properties
    ensures var r := FiledAll(cat, className, properties, order, global);
      forall n :: (className in r && n in r[className]) <==>
        (className in cat && n in cat[className]) || Offers(properties, order, n, global)
  {
    if order != [] {
      var front := order[..|order| - 1];
      FiledAllIndexes(cat, className, properties, front, global);
      FiledLookup(FiledAll(cat, className, properties, front, global), className,
                  properties[order[|order| - 1]].catalogIndexes, global);
      forall n {
        OffersSnoc(properties, order, n, global);
      }
    }
  }

  /** The inner loop of the catalog-index update: the indexes of one
      property, in the dict's own order. */
  method FileIndexes(className: string, indexes: map<string, IndexSpec>, deviceIn: Catalogs, globalIn: Catalogs)
    returns (device: Catalogs, global: Catalogs)
    ensures device == Filed(deviceIn, className, indexes, false)
    ensures global == Filed(globalIn, className, indexes, true)
  {
    device, global := deviceIn, globalIn;
    var todo := indexes.Keys;
    ghost var done: map<string, IndexSpec> := map[];
    while todo != {}
      invariant todo <= indexes.Keys
      invariant done.Keys == indexes.Keys - todo
      invariant forall k :: k in done ==> done[k] == indexes[k]
      invariant device == Filed(deviceIn, className, done, false)
      invariant global == Filed(globalIn, className, done, true)
      decreases todo
    {
      var n :| n in todo;
      var spec := indexes[n];
      var scope := if "scope" in spec then spec["scope"] else "device";
      var kind := if "type" in spec then spec["type"] else "field";
      FiledStep(deviceIn, className, done, n, spec, false);
      FiledStep(globalIn, className, done, n, spec, true);
      if scope == "both" || scope == "device" {
        if className in device {
          device := device[className := device[className][n := kind]];
        } else {
          device := device[className := map[n := kind]];
        }
      }
      if scope == "both" || scope == "global" {
        if className in global {
          global := global[className := global[className][n := kind]];
        } else {
          global := global[className := map[n := kind]];
        }
      }
      done := done[n := spec];
      todo := todo - {n};
    }
    assert done == indexes;
  }

  /** One more index selects itself, with its type, or nothing. */
  lemma WantedStep(before: map<string, IndexSpec>, n: string, spec: IndexSpec, global: bool)
    requires n !in before
    ensures Wanted(before[n := spec], global) ==
      if Wants(global, ScopeOf(spec)) then Wanted(before, global)[n := TypeOf(spec)] else Wanted(before, global)
  {
  }

  /** Filing one more index of a property updates the class's entry at that
      index alone, when the index belongs in the table. */
  lemma FiledStep(cat: Catalogs, className: string, before: map<string, IndexSpec>, n: string, spec: IndexSpec,
                  global: bool)
    requires n !in before
    ensures var prev := Filed(cat, className, before, global);
      Filed(cat, className, before[n := spec], global) ==
        if Wants(global, ScopeOf(spec)) then
          prev[className := (if className in prev then prev[className] else map[])[n := TypeOf(spec)]]
        else prev
  {
    WantedStep(before, n, spec, global);
    if Wants(global, ScopeOf(spec)) {
      var base: map<string, string> := if className in cat then cat[className] else map[];
      FiledStepWanted(cat, className, base, Wanted(before, global), Wanted(before[n := spec], global), n,
                      TypeOf(spec));
    }
  }

  /** The map arithmetic behind FiledStep, for an index that is filed. */
  lemma FiledStepWanted(cat: Catalogs, className: string, base: map<string, string>, wb: map<string, string>,
                        wa: map<string, string>, n: string, t: string)
    requires base == if className in cat then cat[className] else map[]
    requires wa == wb[n := t]
    ensures var prev := if wb == map[] then cat else cat[className := base + wb];
      (if wa == map[] then cat else cat[className := base + wa]) ==
        prev[className := (if className in prev then prev[className] else map[])[n := t]]
  {
    assert n in wa;
    if wb == map[] {
      assert base + wa == base[n := t];
    } else {
      assert base + wa == (base + wb)[n := t];
    }
  }

  /** The catalog-index loop of `create_model_schema_class`: every property
      of class `className`, in the dict's iteration order, files its
      indexes into the device and global tables. The order taken is
      returned so that the result can be stated. */
  method AddCatalogIndexes(className: string, properties: map<string, PropertySpec>,
                           deviceIn: Catalogs, globalIn: Catalogs)
    returns (device: Catalogs, global: Catalogs, ghost order: seq<string>)
    ensures |order| == |properties| && forall i :: 0 <= i < |order| ==> order[i] in properties
    ensures forall k :: k in properties ==> k in order
    ensures device == FiledAll(deviceIn, className, properties, order, false)
    ensures global == FiledAll(globalIn, className, properties, order, true)
  {
    device, global := deviceIn, globalIn;
    order := [];
    var todo := properties.Keys;
    while todo != {}
      invariant todo <= properties.Keys
      invariant forall i :: 0 <= i < |order| ==> order[i] in properties && order[i] !in todo
      invariant forall k :: k in properties ==> k in todo || k in order
      invariant |order| + |todo| == |properties|
      invariant device == FiledAll(deviceIn, className, properties, order, false)
      invariant global == FiledAll(globalIn, className, properties, order, true)
      decreases todo
    {
      var p :| p in todo;
      device, global := FileIndexes(className, properties[p].catalogIndexes, device, global);
      ghost var front := order;
      order := order + [p];
      assert order[..|order| - 1] == front;
      todo := todo - {p};
    }
  }

  /** `filter_hide_from_class_specs` as a function: the specs of the named
      classes, or the first name that is not a class of the zenpack. */
  function HiddenSpecs(classes: ClassTable, names: seq<string>): Result<seq<ClassRec>, string>
  {
    if names == [] then Ok([])
    else if names[0] !in classes then Err(names[0])
    else
      match HiddenSpecs(classes, names[1..])
      case Ok(rest) => Ok([classes[names[0]]] + rest)
      case Err(e) => Err(e)
  }

  /** The specs come back in the order of the names, one per name, when
      every name is a class; otherwise the error names the first name that
      is not. */
  lemma {:induction false} HiddenSpecsMeaning(classes: ClassTable, names: seq<string>)
    ensures HiddenSpecs(classes, names).Ok? <==> forall i :: 0 <= i < |names| ==> names[i] in classes
    ensures HiddenSpecs(classes, names).Ok? ==>
      var s := HiddenSpecs(classes, names).value;
      |s| == |names| && forall i :: 0 <= i < |names| ==> s[i] == classes[names[i]]
    ensures HiddenSpecs(classes, names).Err? ==>
      exists i :: 0 <= i < |names| && names[i] == HiddenSpecs(classes, names).error && names[i] !in classes
        && forall j :: 0 <= j < i ==> names[j] in classes
  {
    if names != [] && names[0] in classes {
      HiddenSpecsMeaning(classes, names[1..]);
      var r := HiddenSpecs(classes, names[1..]);
      if r.Ok? {
        var s := HiddenSpecs(classes, names).value;
        forall i | 0 <= i < |names| ensures s[i] == classes[names[i]] {
          if i > 0 {
            assert s[i] == r.value[i - 1];
          }
        }
      } else {
        var i :| 0 <= i < |names[1..]| && names[1..][i] == r.error && names[1..][i] !in classes
          && forall j :: 0 <= j < i ==> names[1..][j] in classes;
        assert names[i + 1] == r.error;
        forall j | 0 <= j < i + 1 ensures names[j] in classes {
          if j > 0 {
            assert names[j] == names[1..][j - 1];
          }
        }
      }
    } else if names != [] {
      assert names[0] !in classes;
    }
  }

  /** `filter_hide_from_class_specs` (the loop raising ValueError on an
      unknown class name, reported here as `Err(name)`). */
  method FilterHideFromClassSpecs(classes: ClassTable, filterHideFrom: Option<seq<string>>)
    returns (r: Result<seq<ClassRec>, string>)
    ensures filterHideFrom.None? ==> r == Ok([])
    ensures filterHideFrom.Some? ==> r == HiddenSpecs(classes, filterHideFrom.value)
  {
    if filterHideFrom.None? {
      return Ok([]);
    }
    var names := filterHideFrom.value;
    HiddenSpecsMeaning(classes, names);
    var specs: seq<ClassRec> := [];
    var i := 0;
    while i < |names|
      invariant 0 <= i <= |names| && |specs| == i
      invariant forall j :: 0 <= j < i ==> names[j] in classes && specs[j] == classes[names[j]]
    {
      if names[i] !in classes {
        return Err(names[i]);
      }
      specs := specs + [classes[names[i]]];
      i := i + 1;
    }
    assert specs == HiddenSpecs(classes, names).value;
    return Ok(specs);
  }

  /** The meta types of a list of class specs. */
  function MetaTypes(specs: seq<ClassRec>): (r: set<string>)
    ensures forall x :: x in r <==> exists i :: 0 <= i < |specs| && specs[i].labels.metaType == x
  {
    set i | 0 <= i < |specs| :: specs[i].labels.metaType
  }

  /** `filterable_by`: nothing when filtering is off; otherwise the meta
      types of the containing components, with those of the faceting
      components that are not hidden. Because `-` binds tighter than `|`,
      a hidden meta type is still offered when it belongs to a containing
      component. The meta types of the containing and faceting components
      are parameters (their computation depends on the platform's
      relationship types); the hidden specs come from `filter_hide_from`,
      and an unknown name there is the ValueError. */
  function FilterableBy(classes: ClassTable, rec: ClassRec, containing: set<string>, faceting: set<string>)
    : (r: Result<set<string>, string>)
    ensures !rec.filterDisplay ==> r == Ok({})
    ensures rec.filterDisplay && rec.filterHideFrom.None? ==> r.Ok?
    ensures rec.filterDisplay && rec.filterHideFrom.Some? ==>
      (r.Err? <==> exists i :: 0 <= i < |rec.filterHideFrom.value| && rec.filterHideFrom.value[i] !in classes)
    ensures r.Ok? && rec.filterDisplay ==> forall x ::
      x in r.value <==>
        || x in containing
        || (x in faceting && !exists k :: k in Hidden(rec) && k in classes && classes[k].labels.metaType == x)
  {
    if !rec.filterDisplay then Ok({})
    else
      var hidden := if rec.filterHideFrom.None? then Ok([]) else HiddenSpecs(classes, rec.filterHideFrom.value);
      assert rec.filterHideFrom.Some? ==> (HiddenSpecsMeaning(classes, rec.filterHideFrom.value); true);
      if hidden.Err? then Err(hidden.error)
      else Ok(containing + (faceting - MetaTypes(hidden.value)))
  }

  /** The class names in `filter_hide_from`. */
  function Hidden(rec: ClassRec): set<string>
  {
    if rec.filterHideFrom.None? then {} else set i | 0 <= i < |rec.filterHideFrom.value| :: rec.filterHideFrom.value[i]
  }

  /** `get_relname`: the relationship's name when there is one, otherwise
      the name derived from the class name by the library's helper (a
      parameter here). */
  function GetRelname(spec: ClassRec, relspec: Option<RelationshipSpec>, fromClassname: string -> string): (r: string)
    ensures relspec.Some? ==> r == relspec.value.name
    ensures relspec.None? ==> r == fromClassname(spec.name)
  {
    if relspec.Some? then relspec.value.name else fromClassname(spec.name)
  }

  /** A column of the component grid listing a containing component. */
  datatype Column = Column(id: string, dataIndex: string, header: string, width: int)

  /** The width of a containing-component column. */
  function ColumnWidth(contentWidth: int, labelWidth: int): (w: int)
    ensures w >= contentWidth + 14 && w >= labelWidth + 20
    ensures w == contentWidth + 14 || w == labelWidth + 20
  {
    if contentWidth + 14 >= labelWidth + 20 then contentWidth + 14 else labelWidth + 20
  }

  /** The column for containing class `spec`, reached through `relspec`. */
  function ColumnFor(spec: ClassRec, relspec: Option<RelationshipSpec>, fromClassname: string -> string): (col: Column)
    ensures col.id == spec.name
    ensures relspec.None? ==> col.header == spec.labels.shortLabel
    ensures relspec.Some? ==> col.header == (if relspec.value.shortLabel != "" then relspec.value.shortLabel
                                             else spec.labels.shortLabel)
    ensures col.dataIndex == GetRelname(spec, relspec, fromClassname)
    ensures col.width == ColumnWidth(spec.labels.contentWidth, spec.labels.labelWidth)
    ensures col.width >= spec.labels.contentWidth + 14 && col.width >= spec.labels.labelWidth + 20
  {
    var header := if relspec.Some? then OrElse(Some(relspec.value.shortLabel), spec.labels.shortLabel) else spec.labels.shortLabel;
    Column(spec.name, GetRelname(spec, relspec, fromClassname), header,
           ColumnWidth(spec.labels.contentWidth, spec.labels.labelWidth))
  }

  /** The remote class names of the relationships of `rec` whose
      `grid_display` is False (None does not count). */
  function GridHidden(rec: ClassRec, rels: RelStore): (r: set<string>)
    ensures forall x :: x in r <==> exists n :: (n in rec.relationships && rec.relationships[n] in rels
      && rels[rec.relationships[n]].gridDisplay == Some(false) && rels[rec.relationships[n]].remoteClassname == x)
  {
    set n | n in rec.relationships && rec.relationships[n] in rels && rels[rec.relationships[n]].gridDisplay == Some(false)
      :: rels[rec.relationships[n]].remoteClassname
  }

  /** The columns for the containing (class, relationship) pairs, in order,
      skipping the classes named in `hidden`. */
  function ColumnsFor(containing: seq<(ClassRec, Option<RelationshipSpec>)>, hidden: set<string>,
                      fromClassname: string -> string): seq<Column>
  {
    if containing == [] then []
    else
      var rest := ColumnsFor(containing[1..], hidden, fromClassname);
      if containing[0].0.name in hidden then rest
      else [ColumnFor(containing[0].0, containing[0].1, fromClassname)] + rest
  }

  /** The containing pairs whose class is not hidden, in order. */
  function Visible(containing: seq<(ClassRec, Option<RelationshipSpec>)>, hidden: set<string>)
    : (r: seq<(ClassRec, Option<RelationshipSpec>)>)
    ensures forall x :: x in r <==> x in containing && x.0.name !in hidden
  {
    if containing == [] then []
    else
      var rest := Visible(containing[1..], hidden);
      if containing[0].0.name in hidden then rest else [containing[0]] + rest
  }

  /** Column j is the column of the j-th visible pair. */
  lemma {:induction false} ColumnsInOrder(containing: seq<(ClassRec, Option<RelationshipSpec>)>, hidden: set<string>,
                                          fromClassname: string -> string)
    ensures var cols := ColumnsFor(containing, hidden, fromClassname);
      var vis := Visible(containing, hidden);
      && |cols| == |vis|
      && forall j :: 0 <= j < |vis| ==> cols[j] == ColumnFor(vis[j].0, vis[j].1, fromClassname)
  {
    if containing != [] {
      var tail := containing[1..];
      ColumnsInOrder(tail, hidden, fromClassname);
      var rest := ColumnsFor(tail, hidden, fromClassname);
      var vrest := Visible(tail, hidden);
      if containing[0].0.name !in hidden {
        var col := ColumnFor(containing[0].0, containing[0].1, fromClassname);
        var cols := ColumnsFor(containing, hidden, fromClassname);
        var vis := Visible(containing, hidden);
        assert cols == [col] + rest;
        assert vis == [containing[0]] + vrest;
        forall j | 0 < j < |vis| ensures cols[j] == ColumnFor(vis[j].0, vis[j].1, fromClassname) {
          assert cols[j] == rest[j - 1] && vis[j] == vrest[j - 1];
        }
      }
    }
  }

  /** Every column is that of a containing pair whose class is not hidden,
      and every such pair has its column. */
  lemma {:induction false} ColumnsForMeaning(containing: seq<(ClassRec, Option<RelationshipSpec>)>, hidden: set<string>,
                                             fromClassname: string -> string)
    ensures var cols := ColumnsFor(containing, hidden, fromClassname);
      && |cols| <= |containing|
      && (forall j :: 0 <= j < |cols| ==> exists i :: (0 <= i < |containing| && containing[i].0.name !in hidden
            && cols[j] == ColumnFor(containing[i].0, containing[i].1, fromClassname)))
      && (forall i :: 0 <= i < |containing| && containing[i].0.name !in hidden ==>
            ColumnFor(containing[i].0, containing[i].1, fromClassname) in cols)
      && (forall j :: 0 <= j < |cols| ==> cols[j].id !in hidden)
  {
    if containing != [] {
      var tail := containing[1..];
      ColumnsForMeaning(tail, hidden, fromClassname);
      var rest := ColumnsFor(tail, hidden, fromClassname);
      var cols := ColumnsFor(containing, hidden, fromClassname);
      forall j | 0 <= j < |cols| ensures exists i :: (0 <= i < |containing| && containing[i].0.name !in hidden
            && cols[j] == ColumnFor(containing[i].0, containing[i].1, fromClassname))
      {
        if containing[0].0.name !in hidden && j == 0 {
        } else {
          var k := if containing[0].0.name in hidden then j else j - 1;
          assert cols[j] == rest[k];
          var i :| 0 <= i < |tail| && tail[i].0.name !in hidden
            && rest[k] == ColumnFor(tail[i].0, tail[i].1, fromClassname);
          assert containing[i + 1] == tail[i];
        }
      }
      forall i | 0 <= i < |containing| && containing[i].0.name !in hidden
        ensures ColumnFor(containing[i].0, containing[i].1, fromClassname) in cols
      {
        if i > 0 {
          assert containing[i] == tail[i - 1];
        }
      }
    }
  }

  /** The body of the loop of `containing_js_columns` for one containing
      class `spec`: the header is the relationship's short label, or the
      class's when that is empty or there is no relationship, and the width
      is the larger of the two bounds. */
  method MakeColumn(spec: ClassRec, relspec: Option<RelationshipSpec>, fromClassname: string -> string)
    returns (column: Column)
    ensures column == ColumnFor(spec, relspec, fromClassname)
  {
    var header := spec.labels.shortLabel;
    if relspec.Some? {
      header := if relspec.value.shortLabel != "" then relspec.value.shortLabel else spec.labels.shortLabel;
    }
    var width := spec.labels.contentWidth + 14;
    if spec.labels.labelWidth + 20 > width {
      width := spec.labels.labelWidth + 20;
    }
    column := Column(spec.name, GetRelname(spec, relspec, fromClassname), header, width);
  }

  /** `containing_js_columns`: no columns for a device class; otherwise one
      per containing (class, relationship) pair, skipping classes that one
      of this class's relationships hides from the grid. */
  method ContainingJsColumns(rec: ClassRec, isDevice: bool, rels: RelStore,
                             containing: seq<(ClassRec, Option<RelationshipSpec>)>, fromClassname: string -> string)
    returns (columns: seq<Column>)
    ensures isDevice ==> columns == []
    ensures !isDevice ==> columns == ColumnsFor(containing, GridHidden(rec, rels), fromClassname)
  {
    if isDevice {
      return [];
    }
    var hidden := FilteredRelationships(rec, rels);
    columns := ColumnsLoop(containing, hidden, fromClassname);
  }

  /** The first loop of `containing_js_columns`: the remote class names of
      the relationships whose `grid_display` is False. */
  method FilteredRelationships(rec: ClassRec, rels: RelStore) returns (hidden: set<string>)
    ensures hidden == GridHidden(rec, rels)
  {
    hidden := {};
    var todo := rec.relationships.Keys;
    while todo != {}
      invariant todo <= rec.relationships.Keys
      invariant forall x :: x in hidden <==> exists n :: (n in rec.relationships && n !in todo
        && rec.relationships[n] in rels && rels[rec.relationships[n]].gridDisplay == Some(false)
        && rels[rec.relationships[n]].remoteClassname == x)
      decreases todo
    {
      var n :| n in todo;
      var ref := rec.relationships[n];
      if ref in rels && rels[ref].gridDisplay == Some(false) {
        hidden := hidden + {rels[ref].remoteClassname};
      }
      todo := todo - {n};
    }
  }

  /** The second loop of `containing_js_columns`: one column per containing
      pair whose class is not in `hidden`, in order. */
  method ColumnsLoop(containing: seq<(ClassRec, Option<RelationshipSpec>)>, hidden: set<string>,
                     fromClassname: string -> string) returns (columns: seq<Column>)
    ensures columns == ColumnsFor(containing, hidden, fromClassname)
  {
    columns := [];
    var i := 0;
    while i < |containing|
      invariant 0 <= i <= |containing|
      invariant ColumnsFor(containing, hidden, fromClassname) == columns + ColumnsFor(containing[i..], hidden, fromClassname)
    {
      assert containing[i..][1..] == containing[i + 1..];
      var spec := containing[i].0;
      if spec.name !in hidden {
        var column := MakeColumn(spec, containing[i].1, fromClassname);
        columns := columns + [column];
      }
      i := i + 1;
    }
    assert containing[i..] == [];
    assert columns + [] == columns;
  }
}
