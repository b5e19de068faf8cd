/** The data of a ClassSpec (ZenPacks/zenoss/ZenPackLib/lib/spec/ClassSpec.py)
    and of the zenpack's class table `zenpack.classes`, with the base-class
    graph that the inheritance walks traverse. */
module ClassModel {
  import opened Wrappers
  import opened ClassDefaults

  /** A base of a class spec: the name of another class of the zenpack, or a
      Python type from outside the zenpack (such as Component), named here
      by its `__name__`. */
  datatype Base = Named(name: string) | External(typeName: string)

  /** The `base` parameter: one base, or a tuple or list of them. */
  datatype BaseParam = Single(base: Base) | Several(bases: seq<Base>)

  /** Attribute values of property specs and of the DEFAULTS entry. */
  type Value = string

  /** A ClassPropertySpec: its owning class, its attributes, the names of its
      constructor parameters (`init_params`) and its catalog indexes
      (index name to a dict with optional 'scope' and 'type'). */
  datatype PropertySpec = PropertySpec(
    owner: string,
    attrs: map<string, Value>,
    initParams: set<string>,
    catalogIndexes: map<string, map<string, string>>)

  /** Relationship specs are shared objects: a class that inherits one holds
      the very object its base holds. The model keeps them in a store and
      classes hold references into it. */
  type RelRef = nat

  /** A ClassRelationshipSpec: `schema` stays None until a relationship
      schema is attached to it. */
  datatype RelationshipSpec = RelationshipSpec(
    name: string,
    schema: Option<string>,
    shortLabel: string,
    remoteClassname: string,
    gridDisplay: Option<bool>)

  type RelStore = map<RelRef, RelationshipSpec>

  datatype ClassRec = ClassRec(
    name: string,
    bases: seq<Base>,
    labels: Labels,
    properties: map<string, PropertySpec>,
    relationships: map<string, RelRef>,
    propertyDefaults: map<string, Value>,
    filterDisplay: bool,
    filterHideFrom: Option<seq<string>>,
    extraPaths: seq<seq<string>>,
    pathPatternStreams: seq<seq<string>>)

  /** `zenpack.classes` */
  type ClassTable = map<string, ClassRec>

  /** Each entry is filed under its own name. */
  predicate NamesMatch(classes: ClassTable)
  {
    forall k :: k in classes ==> classes[k].name == k
  }

  /** Every relationship a class holds is in the store. */
  predicate RefsValid(classes: ClassTable, rels: RelStore)
  {
    forall k, n :: k in classes && n in classes[k].relationships ==> classes[k].relationships[n] in rels
  }

  /** The base-class graph: each class name with its bases. */
  type Graph = map<string, seq<Base>>

  function BasesOf(classes: ClassTable): (g: Graph)
    ensures g.Keys == classes.Keys
    ensures forall k :: k in classes ==> g[k] == classes[k].bases
  {
    map k | k in classes :: classes[k].bases
  }

  /** Changing a class's record but not its bases leaves the graph as it is. */
  lemma BasesOfUpdate(classes: ClassTable, c: string, rec: ClassRec)
    requires c in classes && rec.bases == classes[c].bases
    ensures BasesOf(classes[c := rec]) == BasesOf(classes)
  {
  }

  /** `b` is a base of `c` and both are classes of the zenpack. */
  predicate DirectBase(g: Graph, c: string, b: string)
  {
    c in g && b in g && Named(b) in g[c]
  }

  /** The graph is acyclic, witnessed by a numbering in which every class
      is numbered above each of its bases. */
  ghost predicate Ranked(g: Graph, rank: map<string, nat>)
  {
    && (forall c :: c in g ==> c in rank)
    && (forall c, b :: DirectBase(g, c, b) ==> rank[b] < rank[c])
  }

  /** All ranks are at most this. */
  ghost function Top(rank: map<string, nat>): (t: nat)
    ensures forall k :: k in rank ==> rank[k] <= t
    decreases |rank|
  {
    if rank == map[] then 0
    else
      var k :| k in rank;
      var rest := rank - {k};
      var t := Top(rest);
      assert forall j :: j in rank && j != k ==> j in rest;
      if rank[k] > t then rank[k] else t
  }

  /** The ancestors of `c` inside the zenpack: its bases that are classes
      of the zenpack and, recursively, theirs. */
  ghost function AncestorsOf(g: Graph, rank: map<string, nat>, c: string): set<string>
    requires Ranked(g, rank) && c in g
    decreases rank[c], 1
  {
    AncestorsFrom(g, rank, c, 0)
  }

  /** The ancestors contributed by the bases at positions i.. of `c`. */
  ghost function AncestorsFrom(g: Graph, rank: map<string, nat>, c: string, i: nat): set<string>
    requires Ranked(g, rank) && c in g
    decreases rank[c], 0, |g[c]| - i
  {
    if i >= |g[c]| then {}
    else
      var rest := AncestorsFrom(g, rank, c, i + 1);
      match g[c][i]
      case External(_) => rest
      case Named(b) =>
        if b in g then
          assert DirectBase(g, c, b) by { assert g[c][i] in g[c]; }
          {b} + AncestorsOf(g, rank, b) + rest
        else rest
  }

  lemma {:induction false} AncestorsFromStep(g: Graph, rank: map<string, nat>, c: string, i: nat, a: string)
    requires Ranked(g, rank) && c in g
    ensures a in AncestorsFrom(g, rank, c, i) <==>
      exists j :: i <= j < |g[c]| && g[c][j].Named? && g[c][j].name in g &&
        (a == g[c][j].name || a in AncestorsOf(g, rank, g[c][j].name))
    decreases |g[c]| - i
  {
    if i < |g[c]| {
      AncestorsFromStep(g, rank, c, i + 1, a);
      if g[c][i].Named? && g[c][i].name in g {
        assert DirectBase(g, c, g[c][i].name) by { assert g[c][i] in g[c]; }
      }
    }
  }

  /** `a` is an ancestor of `c` exactly when it is a direct base of `c` or an
      ancestor of one. */
  lemma AncestorsOfStep(g: Graph, rank: map<string, nat>, c: string, a: string)
    requires Ranked(g, rank) && c in g
    ensures a in AncestorsOf(g, rank, c) <==>
      exists b :: DirectBase(g, c, b) && (a == b || a in AncestorsOf(g, rank, b))
  {
    AncestorsFromStep(g, rank, c, 0, a);
    if exists b :: DirectBase(g, c, b) && (a == b || a in AncestorsOf(g, rank, b)) {
      var b :| DirectBase(g, c, b) && (a == b || a in AncestorsOf(g, rank, b));
      var j :| 0 <= j < |g[c]| && g[c][j] == Named(b);
      assert g[c][j].Named? && g[c][j].name == b;
    }
    if a in AncestorsOf(g, rank, c) {
      var j :| 0 <= j < |g[c]| && g[c][j].Named? && g[c][j].name in g &&
        (a == g[c][j].name || a in AncestorsOf(g, rank, g[c][j].name));
      assert g[c][j] in g[c];
      assert DirectBase(g, c, g[c][j].name);
    }
  }

  /** Every ancestor is a class of the zenpack ranked below the class. */
  lemma {:induction false} AncestorsRanked(g: Graph, rank: map<string, nat>, c: string)
    requires Ranked(g, rank) && c in g
    ensures forall a :: a in AncestorsOf(g, rank, c) ==> a in g && rank[a] < rank[c]
    decreases rank[c]
  {
    forall a | a in AncestorsOf(g, rank, c) ensures a in g && rank[a] < rank[c] {
      AncestorsOfStep(g, rank, c, a);
      var b :| DirectBase(g, c, b) && (a == b || a in AncestorsOf(g, rank, b));
      if a != b { AncestorsRanked(g, rank, b); }
    }
  }

  /** No class is its own ancestor. */
  lemma NotOwnAncestor(g: Graph, rank: map<string, nat>, c: string)
    requires Ranked(g, rank) && c in g
    ensures c !in AncestorsOf(g, rank, c)
  {
    AncestorsRanked(g, rank, c);
  }

  /** An ancestor of an ancestor is an ancestor. */
  lemma {:induction false} AncestorsTransitive(g: Graph, rank: map<string, nat>, c: string, a: string, x: string)
    requires Ranked(g, rank) && c in g
    requires a in AncestorsOf(g, rank, c)
    requires (AncestorsRanked(g, rank, c); x in AncestorsOf(g, rank, a))
    ensures x in AncestorsOf(g, rank, c)
    decreases rank[c]
  {
    AncestorsOfStep(g, rank, c, a);
    var b :| DirectBase(g, c, b) && (a == b || a in AncestorsOf(g, rank, b));
    if a != b {
      AncestorsRanked(g, rank, b);
      AncestorsTransitive(g, rank, b, a, x);
    }
    AncestorsOfStep(g, rank, c, x);
  }

  /** The classes that have `c` among their ancestors. */
  ghost function DescendantsOf(g: Graph, rank: map<string, nat>, c: string): set<string>
    requires Ranked(g, rank)
  {
    set k | k in g && c in AncestorsOf(g, rank, k)
  }

  /** Every descendant of `c` is a class that names `c` as a base, or a
      descendant of one. */
  lemma {:induction false} DescendantsStep(g: Graph, rank: map<string, nat>, c: string, k: string)
    requires Ranked(g, rank) && k in DescendantsOf(g, rank, c)
    ensures exists d :: DirectBase(g, d, c) && (k == d || k in DescendantsOf(g, rank, d))
    decreases rank[k]
  {
    AncestorsOfStep(g, rank, k, c);
    var b :| DirectBase(g, k, b) && (c == b || c in AncestorsOf(g, rank, b));
    if c != b {
      AncestorsRanked(g, rank, k);
      DescendantsStep(g, rank, c, b);
      var d :| DirectBase(g, d, c) && (b == d || b in DescendantsOf(g, rank, d));
      AncestorsOfStep(g, rank, k, d);
      if b != d {
        AncestorsOfStep(g, rank, k, b);
        AncestorsRanked(g, rank, b);
        AncestorsTransitive(g, rank, k, b, d);
      }
      assert k in DescendantsOf(g, rank, d);
    }
  }

  /** A class that names `c` as a base, and each of its descendants, is a
      descendant of `c`. */
  lemma ChildDescendants(g: Graph, rank: map<string, nat>, c: string, d: string)
    requires Ranked(g, rank) && DirectBase(g, d, c)
    ensures d in DescendantsOf(g, rank, c)
    ensures forall k :: k in DescendantsOf(g, rank, d) ==> k in DescendantsOf(g, rank, c)
  {
    AncestorsOfStep(g, rank, d, c);
    forall k | k in DescendantsOf(g, rank, d) ensures k in DescendantsOf(g, rank, c) {
      AncestorsRanked(g, rank, k);
      AncestorsTransitive(g, rank, k, d, c);
    }
  }

  /** Ancestors depend on the graph only, so a table update that keeps the
      bases keeps them. */
  lemma SameGraphSameAncestors(classes: ClassTable, classes': ClassTable, rank: map<string, nat>, c: string)
    requires BasesOf(classes) == BasesOf(classes')
    requires Ranked(BasesOf(classes), rank) && c in classes
    ensures AncestorsOf(BasesOf(classes'), rank, c) == AncestorsOf(BasesOf(classes), rank, c)
  {
  }

  /** The constructor of ClassSpec: bases normalised to a tuple, display
      attributes defaulted, the DEFAULTS entry of `properties` saved, and one
      pattern stream per extra path. The property and relationship specs
      built from the parameters arrive already built (their builder is not
      part of this model). */
  method NewClassSpec(
    name: string,
    base: BaseParam,
    labelParams: LabelParams,
    propertyParams: map<string, map<string, Value>>,
    properties: map<string, PropertySpec>,
    relationships: map<string, RelRef>,
    filterDisplay: bool,
    filterHideFrom: Option<seq<string>>,
    extraPaths: Option<seq<seq<string>>>,
    pluralize: string -> string)
    returns (r: ClassRec)
    ensures r.name == name
    ensures r.bases == (if base.Single? then [base.base] else base.bases)
    ensures r.labels == ClassLabels(name, labelParams, pluralize)
    ensures r.propertyDefaults == (if "DEFAULTS" in propertyParams then propertyParams["DEFAULTS"] else map[])
    ensures r.properties == properties && r.relationships == relationships
    ensures r.filterDisplay == filterDisplay && r.filterHideFrom == filterHideFrom
    ensures r.extraPaths == (if extraPaths.Some? then extraPaths.value else [])
    ensures |r.pathPatternStreams| == |r.extraPaths|
    ensures forall j :: 0 <= j < |r.extraPaths| ==> IsPatternStream(r.extraPaths[j], r.pathPatternStreams[j])
  {
    var bases := if base.Single? then [base.base] else base.bases;
    var defaults := if "DEFAULTS" in propertyParams then propertyParams["DEFAULTS"] else map[];
    var streams, stored := PathPatternStreams(extraPaths);
    r := ClassRec(
      name, bases, ClassLabels(name, labelParams, pluralize), properties, relationships,
      defaults, filterDisplay, filterHideFrom, stored, streams);
  }
}
