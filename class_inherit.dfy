/** The steps of ClassSpec (ZenPacks/zenoss/ZenPackLib/lib/spec/ClassSpec.py)
    that change the zenpack's class specs in place: copying missing
    properties down from ancestors, and pushing a relationship down to the
    classes below a class. */
module ClassInherit {
  import opened Wrappers
  import opened ClassModel
  import opened ClassBases

  /** The copy of an inherited property spec a class keeps: owned by the
      class, with each DEFAULTS entry the spec takes as a constructor
      parameter written over it. */
  function Adopt(p: PropertySpec, owner: string, defaults: map<string, Value>): (q: PropertySpec)
    ensures q.owner == owner && q.initParams == p.initParams && q.catalogIndexes == p.catalogIndexes
    ensures q.attrs.Keys == p.attrs.Keys + (defaults.Keys * p.initParams)
    ensures forall k :: k in defaults && k in p.initParams ==> q.attrs[k] == defaults[k]
    ensures forall k :: k in p.attrs && (k !in defaults || k !in p.initParams) ==> q.attrs[k] == p.attrs[k]
  {
    p.(owner := owner, attrs := p.attrs + map k | k in defaults && k in p.initParams :: defaults[k])
  }

  /** The properties of a class after it has taken, from the map `from`,
      the properties it does not define yet. */
  function AdoptMissing(own: map<string, PropertySpec>, from: map<string, PropertySpec>,
                        owner: string, defaults: map<string, Value>): map<string, PropertySpec>
  {
    own + map k | k in from && k !in own :: Adopt(from[k], owner, defaults)
  }

  /** A class keeps its own properties and gains exactly the missing ones. */
  lemma AdoptMissingKeeps(own: map<string, PropertySpec>, from: map<string, PropertySpec>,
                          owner: string, defaults: map<string, Value>)
    ensures var r := AdoptMissing(own, from, owner, defaults);
      && r.Keys == own.Keys + from.Keys
      && (forall k :: k in own ==> r[k] == own[k])
      && (forall k :: k in from && k !in own ==> r[k] == Adopt(from[k], owner, defaults))
  {
  }

  /** Taking the missing properties twice changes nothing more. */
  lemma AdoptMissingIdempotent(own: map<string, PropertySpec>, from: map<string, PropertySpec>,
                               owner: string, defaults: map<string, Value>)
    ensures var once := AdoptMissing(own, from, owner, defaults);
      AdoptMissing(once, from, owner, defaults) == once
  {
    var once := AdoptMissing(own, from, owner, defaults);
    var twice := AdoptMissing(once, from, owner, defaults);
    assert once.Keys == own.Keys + from.Keys by { AdoptMissingKeeps(own, from, owner, defaults); }
    assert twice.Keys == once.Keys && forall k :: k in twice ==> twice[k] == once[k] by {
      AdoptMissingKeeps(once, from, owner, defaults);
    }
  }

  /** A spec that agrees with the adopted copy field by field is it. */
  lemma AdoptIs(p: PropertySpec, owner: string, defaults: map<string, Value>, q: PropertySpec)
    requires q.owner == owner && q.initParams == p.initParams && q.catalogIndexes == p.catalogIndexes
    requires q.attrs.Keys == p.attrs.Keys + (defaults.Keys * p.initParams)
    requires forall k :: k in q.attrs ==> q.attrs[k] == if k in defaults && k in p.initParams then defaults[k] else p.attrs[k]
    ensures q == Adopt(p, owner, defaults)
  {
    var expected := Adopt(p, owner, defaults);
    assert q.attrs == expected.attrs;
  }

  /** A map that agrees with AdoptMissing key by key is it. */
  lemma AdoptMissingIs(own: map<string, PropertySpec>, from: map<string, PropertySpec>,
                       owner: string, defaults: map<string, Value>, r: map<string, PropertySpec>)
    requires r.Keys == own.Keys + from.Keys
    requires forall k :: k in r ==> r[k] == if k in own then own[k] else Adopt(from[k], owner, defaults)
    ensures r == AdoptMissing(own, from, owner, defaults)
  {
    AdoptMissingKeeps(own, from, owner, defaults);
  }

  /** The properties of a class after taking the missing ones from each
      class of `order` in turn. */
  function AdoptAll(classes: ClassTable, order: seq<string>, acc: map<string, PropertySpec>,
                    owner: string, defaults: map<string, Value>): map<string, PropertySpec>
  {
    if |order| == 0 then acc
    else if order[0] !in classes then AdoptAll(classes, order[1..], acc, owner, defaults)
    else AdoptAll(classes, order[1..], AdoptMissing(acc, classes[order[0]].properties, owner, defaults), owner, defaults)
  }

  lemma AdoptAllStep(classes: ClassTable, order: seq<string>, i: nat, acc: map<string, PropertySpec>,
                     owner: string, defaults: map<string, Value>)
    requires i < |order| && order[i] in classes
    ensures AdoptAll(classes, order[i..], acc, owner, defaults) ==
      AdoptAll(classes, order[i + 1..], AdoptMissing(acc, classes[order[i]].properties, owner, defaults), owner, defaults)
  {
    assert order[i..][1..] == order[i + 1..];
  }

  /** After taking from each class of `order`, a property the class lacked
      is present exactly when some class of `order` defines it, and it is
      the adopted copy of the FIRST such class's spec. */
  lemma {:induction false} AdoptAllLookup(classes: ClassTable, order: seq<string>, acc: map<string, PropertySpec>,
                                          owner: string, defaults: map<string, Value>, k: string)
    requires forall i :: 0 <= i < |order| ==> order[i] in classes
    ensures var r := AdoptAll(classes, order, acc, owner, defaults);
      var i := FirstIn(order, DefiningProperty(classes, k));
      && (k in r <==> k in acc || i < |order|)
      && (k in acc ==> r[k] == acc[k])
      && (k !in acc && i < |order| ==> r[k] == Adopt(classes[order[i]].properties[k], owner, defaults))
  {
    if |order| > 0 {
      var next := AdoptMissing(acc, classes[order[0]].properties, owner, defaults);
      AdoptMissingKeeps(acc, classes[order[0]].properties, owner, defaults);
      AdoptAllLookup(classes, order[1..], next, owner, defaults, k);
      if order[0] !in DefiningProperty(classes, k) {
        FirstInIs(order, DefiningProperty(classes, k), 1 + FirstIn(order[1..], DefiningProperty(classes, k)));
      } else {
        FirstInIs(order, DefiningProperty(classes, k), 0);
      }
    }
  }

  /** Two tables that differ at most in the relationships of their classes,
      and there only by added `relname` entries. */
  ghost predicate Grown(c0: ClassTable, c1: ClassTable, relname: string)
  {
    && c0.Keys == c1.Keys
    && forall k :: k in c0 ==>
         && c1[k] == c0[k].(relationships := c1[k].relationships)
         && (forall n :: n in c0[k].relationships ==> n in c1[k].relationships && c1[k].relationships[n] == c0[k].relationships[n])
         && (forall n :: n in c1[k].relationships ==> n in c0[k].relationships || n == relname)
  }

  /** Two stores with the same references that differ at most by schemas
      given to relationships that had none. */
  ghost predicate StoreGrown(r0: RelStore, r1: RelStore)
  {
    && r0.Keys == r1.Keys
    && forall x :: x in r0 ==> r1[x] == r0[x] || (r0[x].schema.None? && r1[x] == r0[x].(schema := r1[x].schema))
  }

  /** Class `k` holds `relname`, or one of its ancestors in graph `g`
      does. */
  ghost predicate HasOrInherits(classes: ClassTable, g: Graph, rank: map<string, nat>, k: string, relname: string)
    requires Ranked(g, rank) && k in g
  {
    || (k in classes && relname in classes[k].relationships)
    || exists a :: a in AncestorsOf(g, rank, k) && a in classes && relname in classes[a].relationships
  }

  /** Every class that holds `relname` in c1 held it, or had an ancestor
      holding it, in c0. */
  ghost predicate Justified(c0: ClassTable, c1: ClassTable, g: Graph, rank: map<string, nat>, relname: string)
    requires Ranked(g, rank)
  {
    forall k :: k in g && k in c1 && relname in c1[k].relationships ==> HasOrInherits(c0, g, rank, k, relname)
  }

  /** `c` and the classes below it. */
  ghost function Cone(g: Graph, rank: map<string, nat>, c: string): set<string>
    requires Ranked(g, rank)
  {
    {c} + DescendantsOf(g, rank, c)
  }

  /** Every class of `cone` that held `relname`, or had an ancestor holding
      it, in c0 holds it in c1. */
  ghost predicate Complete(c0: ClassTable, c1: ClassTable, g: Graph, rank: map<string, nat>, relname: string, cone: set<string>)
    requires Ranked(g, rank)
  {
    forall k :: k in cone && k in g && k in c1 && HasOrInherits(c0, g, rank, k, relname) ==> relname in c1[k].relationships
  }

  /** Classes outside `cone` are as they were. */
  ghost predicate Untouched(c0: ClassTable, c1: ClassTable, cone: set<string>)
  {
    forall k :: k in c0 && k !in cone ==> k in c1 && c1[k] == c0[k]
  }

  lemma GrownKeepsGraph(c0: ClassTable, c1: ClassTable, relname: string)
    requires Grown(c0, c1, relname)
    ensures BasesOf(c0) == BasesOf(c1)
    ensures NamesMatch(c0) ==> NamesMatch(c1)
  {
    forall k | k in c0 ensures c1[k].bases == c0[k].bases && c1[k].name == c0[k].name {
      assert c1[k] == c0[k].(relationships := c1[k].relationships);
    }
  }

  lemma GrownTransitive(c0: ClassTable, c1: ClassTable, c2: ClassTable, relname: string)
    requires Grown(c0, c1, relname) && Grown(c1, c2, relname)
    ensures Grown(c0, c2, relname)
  {
    forall k | k in c0 ensures c2[k] == c0[k].(relationships := c2[k].relationships) {
      assert c1[k] == c0[k].(relationships := c1[k].relationships);
      assert c2[k] == c1[k].(relationships := c2[k].relationships);
    }
  }

  lemma StoreGrownTransitive(r0: RelStore, r1: RelStore, r2: RelStore)
    requires StoreGrown(r0, r1) && StoreGrown(r1, r2)
    ensures StoreGrown(r0, r2)
  {
  }

  lemma UntouchedStep(c0: ClassTable, c1: ClassTable, c2: ClassTable, outer: set<string>, inner: set<string>)
    requires inner <= outer
    requires Untouched(c0, c1, outer) && Untouched(c1, c2, inner)
    ensures Untouched(c0, c2, outer)
  {
  }

  /** What held or was inherited still is after growing. */
  lemma HasOrInheritsGrows(c0: ClassTable, c1: ClassTable, g: Graph, rank: map<string, nat>, k: string, relname: string)
    requires Grown(c0, c1, relname) && Ranked(g, rank) && k in g
    requires HasOrInherits(c0, g, rank, k, relname)
    ensures HasOrInherits(c1, g, rank, k, relname)
  {
    if !(k in c0 && relname in c0[k].relationships) {
      var a :| a in AncestorsOf(g, rank, k) && a in c0 && relname in c0[a].relationships;
      assert relname in c1[a].relationships;
    }
  }

  /** What an ancestor held or inherited, the class inherits. */
  lemma HasOrInheritsUp(classes: ClassTable, g: Graph, rank: map<string, nat>, k: string, a: string, relname: string)
    requires Ranked(g, rank) && k in g
    requires a in AncestorsOf(g, rank, k)
    requires (AncestorsRanked(g, rank, k); HasOrInherits(classes, g, rank, a, relname))
    ensures HasOrInherits(classes, g, rank, k, relname)
  {
    AncestorsRanked(g, rank, k);
    if !(a in classes && relname in classes[a].relationships) {
      var x :| x in AncestorsOf(g, rank, a) && x in classes && relname in classes[x].relationships;
      AncestorsTransitive(g, rank, k, a, x);
    }
  }

  lemma JustifiedTransitive(c0: ClassTable, c1: ClassTable, c2: ClassTable, g: Graph, rank: map<string, nat>, relname: string)
    requires Ranked(g, rank)
    requires Justified(c0, c1, g, rank, relname) && Justified(c1, c2, g, rank, relname)
    ensures Justified(c0, c2, g, rank, relname)
  {
    forall k | k in g && k in c2 && relname in c2[k].relationships
      ensures HasOrInherits(c0, g, rank, k, relname)
    {
      assert HasOrInherits(c1, g, rank, k, relname);
      if !(k in c1 && relname in c1[k].relationships) {
        var a :| a in AncestorsOf(g, rank, k) && a in c1 && relname in c1[a].relationships;
        AncestorsRanked(g, rank, k);
        assert HasOrInherits(c0, g, rank, a, relname);
        HasOrInheritsUp(c0, g, rank, k, a, relname);
      }
    }
  }

  /** The effect of lines 424-433 of `update_child_relations` on class `c`:
      with `found` the nearest ancestor's `relname` relationship, nothing
      changes when there is none; a class lacking `relname` takes `found`
      itself (the same shared object); a class that has one whose schema
      is None gives it the schema of `found`. */
  ghost predicate RelationInherited(c0: ClassTable, r0: RelStore, c1: ClassTable, r1: RelStore,
                                    rank: map<string, nat>, c: string, relname: string)
    requires Ranked(BasesOf(c0), rank) && c in c0
  {
    var found := NearestRelation(c0, rank, c, relname);
    if found.None? then c1 == c0 && r1 == r0
    else if relname !in c0[c].relationships then
      && c1 == c0[c := c0[c].(relationships := c0[c].relationships[relname := found.value])]
      && r1 == r0
    else
      var mine := c0[c].relationships[relname];
      && c1 == c0
      && mine in r0 && found.value in r0
      && r1 == if r0[mine].schema.None? then r0[mine := r0[mine].(schema := r0[found.value].schema)] else r0
  }

  /** After lines 424-433, `c` holds `relname` exactly when it held it or
      an ancestor did; only `c` and only `relname` changed, and the store
      changed at most by a schema given to a relationship without one. */
  lemma RelationInheritedFacts(c0: ClassTable, r0: RelStore, c1: ClassTable, r1: RelStore,
                               rank: map<string, nat>, c: string, relname: string)
    requires Ranked(BasesOf(c0), rank) && c in c0
    requires RelationInherited(c0, r0, c1, r1, rank, c, relname)
    ensures Grown(c0, c1, relname) && StoreGrown(r0, r1)
    ensures Untouched(c0, c1, {c})
    ensures c in c1 && (relname in c1[c].relationships <==> HasOrInherits(c0, BasesOf(c0), rank, c, relname))
  {
    var found := NearestRelation(c0, rank, c, relname);
    if found.None? {
      assert c1 == c0 && r1 == r0;
    } else if relname !in c0[c].relationships {
      var rec := c0[c].(relationships := c0[c].relationships[relname := found.value]);
      assert c1 == c0[c := rec] && r1 == r0;
      AddedRelationGrown(c0, c, relname, found.value);
    } else {
      var mine := c0[c].relationships[relname];
      assert c1 == c0;
      assert StoreGrown(r0, r1) by {
        if r0[mine].schema.None? {
          assert r1 == r0[mine := r0[mine].(schema := r0[found.value].schema)];
        } else {
          assert r1 == r0;
        }
      }
    }
  }

  /** Adding one relationship to one class grows the table. */
  lemma AddedRelationGrown(c0: ClassTable, c: string, relname: string, ref: RelRef)
    requires c in c0 && relname !in c0[c].relationships
    ensures var c1 := c0[c := c0[c].(relationships := c0[c].relationships[relname := ref])];
      Grown(c0, c1, relname) && Untouched(c0, c1, {c})
  {
    var rec := c0[c].(relationships := c0[c].relationships[relname := ref]);
    var c1 := c0[c := rec];
    forall k | k in c0 ensures c1[k] == c0[k].(relationships := c1[k].relationships) {
      if k == c { assert c1[k] == rec; }
    }
  }

  /** The nearest ancestor's relationship is in the store. */
  lemma NearestRelationStored(classes: ClassTable, rels: RelStore, rank: map<string, nat>, c: string, relname: string)
    requires Ranked(BasesOf(classes), rank) && c in classes && RefsValid(classes, rels)
    ensures NearestRelation(classes, rank, c, relname).Some? ==> NearestRelation(classes, rank, c, relname).value in rels
  {
  }

  /** Adding a stored relationship to a class keeps the table well formed. */
  lemma AddedRelationValid(classes: ClassTable, rels: RelStore, rank: map<string, nat>, c: string, relname: string, ref: RelRef)
    requires Ranked(BasesOf(classes), rank) && NamesMatch(classes) && RefsValid(classes, rels)
    requires c in classes && ref in rels
    ensures var c1 := classes[c := classes[c].(relationships := classes[c].relationships[relname := ref])];
      Ranked(BasesOf(c1), rank) && NamesMatch(c1) && RefsValid(c1, rels)
  {
    BasesOfUpdate(classes, c, classes[c].(relationships := classes[c].relationships[relname := ref]));
  }

  /** The zenpack's class specs, `zenpack.classes`, with the relationship
      objects they share. `rank` witnesses that no class is its own
      ancestor. */
  class ZenPack {
    var classes: ClassTable
    var rels: RelStore
    ghost var rank: map<string, nat>

    ghost predicate Valid()
      reads this
    {
      Ranked(BasesOf(classes), rank) && NamesMatch(classes) && RefsValid(classes, rels)
    }

    constructor (classes: ClassTable, rels: RelStore, ghost rank: map<string, nat>)
      requires Ranked(BasesOf(classes), rank) && NamesMatch(classes) && RefsValid(classes, rels)
      ensures Valid()
      ensures this.classes == classes && this.rels == rels && this.rank == rank
    {
      this.classes := classes;
      this.rels := rels;
      this.rank := rank;
    }

    /** The copy with DEFAULTS applied that `check_ancestor_properties`
        makes of one inherited property spec. */
    static method AdoptCopy(p: PropertySpec, owner: string, defaults: map<string, Value>) returns (q: PropertySpec)
      ensures q == Adopt(p, owner, defaults)
    {
      q := p.(owner := owner);
      var todo := defaults.Keys;
      while todo != {}
        invariant todo <= defaults.Keys
        invariant q.owner == owner && q.initParams == p.initParams && q.catalogIndexes == p.catalogIndexes
        invariant q.attrs.Keys == p.attrs.Keys + (defaults.Keys - todo) * p.initParams
        invariant forall k :: k in q.attrs ==>
          q.attrs[k] == if k in defaults && k in p.initParams && k !in todo then defaults[k] else p.attrs[k]
        decreases todo
      {
        var k :| k in todo;
        if k in q.initParams {
          q := q.(attrs := q.attrs[k := defaults[k]]);
        }
        todo := todo - {k};
      }
      AdoptIs(p, owner, defaults, q);
    }

    /** The loop of `check_ancestor_properties` over the properties of the
        ancestor: a copy of each one the class does not define yet. */
    static method AdoptMissingCopies(own: map<string, PropertySpec>, from: map<string, PropertySpec>,
                                     owner: string, defaults: map<string, Value>)
      returns (properties: map<string, PropertySpec>)
      ensures properties == AdoptMissing(own, from, owner, defaults)
    {
      properties := own;
      var todo := from.Keys;
      while todo != {}
        invariant todo <= from.Keys
        invariant properties.Keys == own.Keys + (from.Keys - todo)
        invariant forall k :: k in properties ==>
          properties[k] == if k in own then own[k] else Adopt(from[k], owner, defaults)
        decreases todo
      {
        var name :| name in todo;
        if name !in properties {
          var copy := AdoptCopy(from[name], owner, defaults);
          properties := properties[name := copy];
        }
        todo := todo - {name};
      }
      AdoptMissingIs(own, from, owner, defaults, properties);
    }

    /** `check_ancestor_properties`: class `c` takes a copy of every
        property of class `specName` that it does not define yet. */
    method CheckAncestorProperties(c: string, specName: string)
      requires Valid() && c in classes && specName in classes
      modifies this
      ensures rels == old(rels) && rank == old(rank)
      ensures classes == old(classes)[c := old(classes)[c].(properties := AdoptMissing(
        old(classes)[c].properties, old(classes)[specName].properties, old(classes)[c].name, old(classes)[c].propertyDefaults))]
      ensures Valid()
    {
      var rec := classes[c];
      var properties := AdoptMissingCopies(rec.properties, classes[specName].properties, rec.name, rec.propertyDefaults);
      BasesOfUpdate(classes, c, rec.(properties := properties));
      classes := classes[c := rec.(properties := properties)];
    }

    /** Class `c` takes the missing properties from each class of `order`
        in turn. */
    method CheckAncestorsProperties(c: string, order: seq<string>)
      requires Valid() && c in classes
      requires forall j :: 0 <= j < |order| ==> order[j] in classes && order[j] != c
      modifies this
      ensures rels == old(rels) && rank == old(rank)
      ensures classes == old(classes)[c := old(classes)[c].(properties := AdoptAll(
        old(classes), order, old(classes)[c].properties, old(classes)[c].name, old(classes)[c].propertyDefaults))]
      ensures Valid()
    {
      ghost var start := classes;
      var i := 0;
      while i < |order|
        invariant 0 <= i <= |order|
        invariant Valid() && rels == old(rels) && rank == old(rank)
        invariant c in classes && classes == start[c := classes[c]]
        invariant classes[c] == start[c].(properties := classes[c].properties)
        invariant AdoptAll(start, order[i..], classes[c].properties, start[c].name, start[c].propertyDefaults) ==
                  AdoptAll(start, order, start[c].properties, start[c].name, start[c].propertyDefaults)
      {
        var base := order[i];
        assert classes[base] == start[base];
        ghost var mine := classes[c].properties;
        AdoptAllStep(start, order, i, mine, start[c].name, start[c].propertyDefaults);
        CheckAncestorProperties(c, base);
        i := i + 1;
      }
      assert start[c].(properties := classes[c].properties) == start[c].(properties := AdoptAll(
        start, order, start[c].properties, start[c].name, start[c].propertyDefaults));
    }

    /** The loop of `update_inherited_property_parameters`: class `c` takes
        the missing properties from each of its ancestors, nearest first. */
    method InheritMissingProperties(c: string)
      requires Valid() && c in classes
      modifies this
      ensures rels == old(rels) && rank == old(rank)
      ensures classes == old(classes)[c := old(classes)[c].(properties := AdoptAll(
        old(classes), BaseSpecs(BasesOf(old(classes)), rank, c, []),
        old(classes)[c].properties, old(classes)[c].name, old(classes)[c].propertyDefaults))]
      ensures Valid()
    {
      var g := BasesOf(classes);
      var order := GetBaseSpecs(g, rank, c, []);
      BaseSpecsProperties(g, rank, c);
      forall j | 0 <= j < |order| ensures order[j] in classes && order[j] != c {
        assert order[j] in Elems(order);
      }
      CheckAncestorsProperties(c, order);
    }

    /** Lines 424-433 of `update_child_relations`: class `c` takes the
        nearest ancestor's `relname` relationship when it lacks one, or
        gives its own the schema of that one when its own has none. */
    method InheritRelation(c: string, relname: string)
      requires Valid() && c in classes
      modifies this
      ensures rank == old(rank) && Valid()
      ensures RelationInherited(old(classes), old(rels), classes, rels, rank, c, relname)
    {
      var found := FindRelationInBaseSpecs(classes, rank, c, relname);
      if found.Some? {
        NearestRelationStored(classes, rels, rank, c, relname);
        if relname !in classes[c].relationships {
          var rec := classes[c].(relationships := classes[c].relationships[relname := found.value]);
          AddedRelationValid(classes, rels, rank, c, relname, found.value);
          classes := classes[c := rec];
        } else {
          var mine := classes[c].relationships[relname];
          if rels[mine].schema.None? {
            rels := rels[mine := rels[mine].(schema := rels[found.value].schema)];
          }
        }
      }
    }

    /** `update_child_relations`: the classes below `c` are brought up to
        date first, then `c` itself. Afterwards `c` and every class below
        it hold `relname` exactly when they held it, or had an ancestor
        holding it, before. */
    method UpdateChildRelations(c: string, relname: string)
      requires Valid() && c in classes
      modifies this
      ensures rank == old(rank) && Valid()
      ensures ChildRelationsUpdated(old(classes), old(rels), classes, rels, BasesOf(old(classes)), rank, relname, c)
      decreases Top(rank) - rank[c], 1
    {
      ghost var g := BasesOf(classes);
      var children := GetDescendantSpecs(classes, c);
      DescendantSpecsAreChildren(classes, c, children);
      ghost var start := classes;
      ghost var startRels := rels;
      UpdateEachChild(c, children, relname);
      ghost var mid := classes;
      ghost var midRels := rels;
      InheritRelation(c, relname);
      RelationInheritedFacts(mid, midRels, classes, rels, rank, c, relname);
      SelfLast(start, startRels, mid, midRels, classes, rels, g, rank, relname, c, children);
    }

    /** The loop of `update_child_relations` over the classes that name `c`
        as a base. */
    method UpdateEachChild(c: string, children: seq<string>, relname: string)
      requires Valid() && c in classes
      requires forall x :: x in children ==> DirectBase(BasesOf(classes), x, c)
      modifies this
      ensures rank == old(rank) && Valid() && BasesOf(classes) == BasesOf(old(classes))
      ensures ChildrenDone(old(classes), old(rels), classes, rels, BasesOf(old(classes)), rank, relname, c, children, |children|)
      decreases Top(rank) - rank[c], 0
    {
      ghost var g := BasesOf(classes);
      ghost var start := classes;
      ghost var startRels := rels;
      NoChildYet(start, startRels, g, rank, relname, c);
      var i := 0;
      while i < |children|
        invariant 0 <= i <= |children|
        invariant Valid() && rank == old(rank) && BasesOf(classes) == g
        invariant ChildrenDone(start, startRels, classes, rels, g, rank, relname, c, children, i)
      {
        var d := children[i];
        assert d in children;
        assert DirectBase(g, d, c);
        assert rank[c] < rank[d];
        ghost var before := classes;
        ghost var beforeRels := rels;
        UpdateChildRelations(d, relname);
        GrownKeepsGraph(before, classes, relname);
        OneMoreChild(start, startRels, before, beforeRels, classes, rels, g, rank, relname, c, children, i);
        i := i + 1;
      }
    }
  }

  /** What `update_child_relations(c, relname)` leaves behind: `relname`
      added, or given a schema, and nothing else changed; classes outside
      the cone of `c` untouched; every class holding `relname` held it or
      had an ancestor holding it before; and every class of the cone that
      held it or had an ancestor holding it before holds it now. */
  ghost predicate ChildRelationsUpdated(c0: ClassTable, r0: RelStore, c1: ClassTable, r1: RelStore,
                                        g: Graph, rank: map<string, nat>, relname: string, c: string)
    requires Ranked(g, rank)
  {
    && Grown(c0, c1, relname) && StoreGrown(r0, r1)
    && Untouched(c0, c1, Cone(g, rank, c))
    && Justified(c0, c1, g, rank, relname)
    && Complete(c0, c1, g, rank, relname, Cone(g, rank, c))
  }

  /** The state of `update_child_relations(c, relname)` once the children
      before position n of `children` have been brought up to date. */
  ghost predicate ChildrenDone(c0: ClassTable, r0: RelStore, c1: ClassTable, r1: RelStore, g: Graph,
                               rank: map<string, nat>, relname: string, c: string, children: seq<string>, n: nat)
    requires Ranked(g, rank) && n <= |children|
  {
    && Grown(c0, c1, relname) && StoreGrown(r0, r1)
    && Untouched(c0, c1, DescendantsOf(g, rank, c))
    && Justified(c0, c1, g, rank, relname)
    && forall j :: 0 <= j < n ==> Complete(c0, c1, g, rank, relname, Cone(g, rank, children[j]))
  }

  lemma NoChildYet(c0: ClassTable, r0: RelStore, g: Graph, rank: map<string, nat>, relname: string, c: string)
    requires Ranked(g, rank)
    ensures forall children: seq<string> :: ChildrenDone(c0, r0, c0, r0, g, rank, relname, c, children, 0)
  {
  }

  /** Bringing child `children[i]` of `c` up to date keeps the state of the
      walk. */
  lemma OneMoreChild(start: ClassTable, startRels: RelStore, before: ClassTable, beforeRels: RelStore,
                     after: ClassTable, afterRels: RelStore, g: Graph, rank: map<string, nat>, relname: string,
                     c: string, children: seq<string>, i: nat)
    requires Ranked(g, rank) && i < |children|
    requires DirectBase(g, children[i], c)
    requires ChildrenDone(start, startRels, before, beforeRels, g, rank, relname, c, children, i)
    requires ChildRelationsUpdated(before, beforeRels, after, afterRels, g, rank, relname, children[i])
    ensures ChildrenDone(start, startRels, after, afterRels, g, rank, relname, c, children, i + 1)
  {
    var d := children[i];
    assert Grown(start, after, relname) by { GrownTransitive(start, before, after, relname); }
    assert StoreGrown(startRels, afterRels) by { StoreGrownTransitive(startRels, beforeRels, afterRels); }
    assert Untouched(start, after, DescendantsOf(g, rank, c)) by {
      ChildDescendants(g, rank, c, d);
      UntouchedStep(start, before, after, DescendantsOf(g, rank, c), Cone(g, rank, d));
    }
    assert Justified(start, after, g, rank, relname) by {
      JustifiedTransitive(start, before, after, g, rank, relname);
    }
    assert forall j :: 0 <= j < i + 1 ==> Complete(start, after, g, rank, relname, Cone(g, rank, children[j])) by {
      CompleteAfterChild(start, before, after, g, rank, relname, children, i);
    }
  }

  /** Bringing `c` itself up to date after all its children completes the
      walk. */
  lemma SelfLast(start: ClassTable, startRels: RelStore, mid: ClassTable, midRels: RelStore,
                 after: ClassTable, afterRels: RelStore, g: Graph, rank: map<string, nat>, relname: string,
                 c: string, children: seq<string>)
    requires Ranked(g, rank) && c in g
    requires forall x :: x in children <==> DirectBase(g, x, c)
    requires ChildrenDone(start, startRels, mid, midRels, g, rank, relname, c, children, |children|)
    requires Grown(mid, after, relname) && StoreGrown(midRels, afterRels) && Untouched(mid, after, {c})
    requires c in after && (relname in after[c].relationships <==> HasOrInherits(mid, g, rank, c, relname))
    ensures ChildRelationsUpdated(start, startRels, after, afterRels, g, rank, relname, c)
  {
    assert Grown(start, after, relname) by { GrownTransitive(start, mid, after, relname); }
    assert StoreGrown(startRels, afterRels) by { StoreGrownTransitive(startRels, midRels, afterRels); }
    assert Untouched(start, after, Cone(g, rank, c)) by {
      UntouchedStep(start, mid, after, Cone(g, rank, c), {c});
    }
    assert Justified(start, after, g, rank, relname) by {
      SelfJustified(mid, after, g, rank, relname, c);
      JustifiedTransitive(start, mid, after, g, rank, relname);
    }
    assert Complete(start, after, g, rank, relname, Cone(g, rank, c)) by {
      CompleteAtEnd(start, mid, after, g, rank, relname, c, children);
    }
  }

  /** Adding `relname` to `c` alone, where `c` held or inherited it, is
      justified. */
  lemma SelfJustified(mid: ClassTable, after: ClassTable, g: Graph, rank: map<string, nat>, relname: string, c: string)
    requires Ranked(g, rank) && c in g
    requires Untouched(mid, after, {c}) && mid.Keys == after.Keys
    requires c in after && (relname in after[c].relationships ==> HasOrInherits(mid, g, rank, c, relname))
    ensures Justified(mid, after, g, rank, relname)
  {
    forall k | k in g && k in after && relname in after[k].relationships
      ensures HasOrInherits(mid, g, rank, k, relname)
    {
      if k != c {
        assert mid[k] == after[k];
      }
    }
  }

  /** Bringing one more child up to date keeps the earlier children
      complete and makes this one complete. */
  lemma CompleteAfterChild(start: ClassTable, before: ClassTable, after: ClassTable, g: Graph, rank: map<string, nat>,
                           relname: string, children: seq<string>, i: nat)
    requires Ranked(g, rank) && Grown(start, before, relname) && Grown(before, after, relname)
    requires i < |children|
    requires forall j :: 0 <= j < i ==> Complete(start, before, g, rank, relname, Cone(g, rank, children[j]))
    requires Complete(before, after, g, rank, relname, Cone(g, rank, children[i]))
    ensures forall j :: 0 <= j < i + 1 ==> Complete(start, after, g, rank, relname, Cone(g, rank, children[j]))
  {
    forall j | 0 <= j < i + 1 ensures Complete(start, after, g, rank, relname, Cone(g, rank, children[j])) {
      if j < i {
        CompleteGrows(start, before, after, g, rank, relname, Cone(g, rank, children[j]));
      } else {
        CompleteRebased(start, before, after, g, rank, relname, Cone(g, rank, children[j]));
      }
    }
  }

  /** Completeness survives further growth. */
  lemma CompleteGrows(start: ClassTable, before: ClassTable, after: ClassTable, g: Graph, rank: map<string, nat>,
                      relname: string, cone: set<string>)
    requires Ranked(g, rank) && Grown(before, after, relname)
    requires Complete(start, before, g, rank, relname, cone)
    ensures Complete(start, after, g, rank, relname, cone)
  {
  }

  /** Completeness from a later state carries back to an earlier one. */
  lemma CompleteRebased(start: ClassTable, before: ClassTable, after: ClassTable, g: Graph, rank: map<string, nat>,
                        relname: string, cone: set<string>)
    requires Ranked(g, rank) && Grown(start, before, relname)
    requires Complete(before, after, g, rank, relname, cone)
    ensures Complete(start, after, g, rank, relname, cone)
  {
    forall k | k in cone && k in g && k in after && HasOrInherits(start, g, rank, k, relname)
      ensures relname in after[k].relationships
    {
      HasOrInheritsGrows(start, before, g, rank, k, relname);
    }
  }

  /** With every child complete and `c` brought up to date, all of the cone
      of `c` is complete. */
  lemma CompleteAtEnd(start: ClassTable, mid: ClassTable, after: ClassTable, g: Graph, rank: map<string, nat>,
                      relname: string, c: string, children: seq<string>)
    requires Ranked(g, rank) && Grown(start, mid, relname) && Grown(mid, after, relname) && c in g
    requires forall x :: x in children <==> DirectBase(g, x, c)
    requires forall j :: 0 <= j < |children| ==> Complete(start, mid, g, rank, relname, Cone(g, rank, children[j]))
    requires c in after && (relname in after[c].relationships <==> HasOrInherits(mid, g, rank, c, relname))
    ensures Complete(start, after, g, rank, relname, Cone(g, rank, c))
  {
    forall k | k in Cone(g, rank, c) && k in g && k in after && HasOrInherits(start, g, rank, k, relname)
      ensures relname in after[k].relationships
    {
      if k == c {
        HasOrInheritsGrows(start, mid, g, rank, k, relname);
      } else {
        DescendantsStep(g, rank, c, k);
        var d :| DirectBase(g, d, c) && (k == d || k in DescendantsOf(g, rank, d));
        var j :| 0 <= j < |children| && children[j] == d;
        assert k in Cone(g, rank, children[j]);
        assert relname in mid[k].relationships;
      }
    }
  }
}
