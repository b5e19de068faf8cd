/** The inheritance walks of ClassSpec
    (ZenPacks/zenoss/ZenPackLib/lib/spec/ClassSpec.py): the ancestor list of
    `get_base_specs`, the nearest-ancestor lookups, descendants,
    `base_class_specs` and the inherited property and relationship maps. */
module ClassBases {
  import opened Wrappers
  import opened ClassModel

  function Elems(s: seq<string>): set<string>
  {
    set x | x in s
  }

  predicate NoDup(s: seq<string>)
  {
    forall i, j :: 0 <= i < j < |s| ==> s[i] != s[j]
  }

  /** What `get_base_specs(bases=acc)` returns for class `c`: each base of
      `c` that is a class of the zenpack is appended unless already listed,
      and then the walk goes on into that base with the list so far, even
      when the base was listed before. Bases that are not classes of the
      zenpack are skipped. */
  function BaseSpecs(g: Graph, ghost rank: map<string, nat>, c: string, acc: seq<string>): seq<string>
    requires Ranked(g, rank) && c in g
    decreases rank[c], 1
  {
    BaseSpecsFrom(g, rank, c, 0, acc)
  }

  /** The same walk, from the base at position i of `c` on. */
  function BaseSpecsFrom(g: Graph, ghost rank: map<string, nat>, c: string, i: nat, acc: seq<string>): seq<string>
    requires Ranked(g, rank) && c in g
    decreases rank[c], 0, |g[c]| - i
  {
    if i >= |g[c]| then acc
    else
      match g[c][i]
      case External(_) => BaseSpecsFrom(g, rank, c, i + 1, acc)
      case Named(b) =>
        if b !in g then BaseSpecsFrom(g, rank, c, i + 1, acc)
        else
          assert DirectBase(g, c, b) by { assert g[c][i] in g[c]; }
          var listed := if b in acc then acc else acc + [b];
          BaseSpecsFrom(g, rank, c, i + 1, BaseSpecs(g, rank, b, listed))
  }

  /** `get_base_specs`: the accumulator list is threaded through the loop
      over the bases and through the recursive calls. */
  method GetBaseSpecs(g: Graph, ghost rank: map<string, nat>, c: string, acc: seq<string>) returns (r: seq<string>)
    requires Ranked(g, rank) && c in g
    ensures r == BaseSpecs(g, rank, c, acc)
    ensures |acc| <= |r| && r[..|acc|] == acc
    ensures NoDup(acc) ==> NoDup(r)
    ensures Elems(r) == Elems(acc) + AncestorsOf(g, rank, c)
    decreases rank[c]
  {
    r := acc;
    var i := 0;
    while i < |g[c]|
      invariant 0 <= i <= |g[c]|
      invariant BaseSpecsFrom(g, rank, c, i, r) == BaseSpecs(g, rank, c, acc)
      decreases |g[c]| - i
    {
      match g[c][i] {
        case External(_) =>
        case Named(b) =>
          if b in g {
            assert DirectBase(g, c, b) by { assert g[c][i] in g[c]; }
            if b !in r {
              r := r + [b];
            }
            r := GetBaseSpecs(g, rank, b, r);
          }
      }
      i := i + 1;
    }
    BaseSpecsFacts(g, rank, c, acc);
  }

  /** The walk only appends: the starting list is a prefix of the result. */
  lemma {:induction false} BaseSpecsPrefix(g: Graph, rank: map<string, nat>, c: string, acc: seq<string>)
    requires Ranked(g, rank) && c in g
    ensures |acc| <= |BaseSpecs(g, rank, c, acc)| && BaseSpecs(g, rank, c, acc)[..|acc|] == acc
    decreases rank[c], 1
  {
    BaseSpecsFromPrefix(g, rank, c, 0, acc);
  }

  lemma {:induction false} BaseSpecsFromPrefix(g: Graph, rank: map<string, nat>, c: string, i: nat, acc: seq<string>)
    requires Ranked(g, rank) && c in g
    ensures |acc| <= |BaseSpecsFrom(g, rank, c, i, acc)| && BaseSpecsFrom(g, rank, c, i, acc)[..|acc|] == acc
    decreases rank[c], 0, |g[c]| - i
  {
    if i < |g[c]| {
      if g[c][i].Named? && g[c][i].name in g {
        var b := g[c][i].name;
        assert DirectBase(g, c, b) by { assert g[c][i] in g[c]; }
        var listed := if b in acc then acc else acc + [b];
        BaseSpecsPrefix(g, rank, b, listed);
        var mid := BaseSpecs(g, rank, b, listed);
        BaseSpecsFromPrefix(g, rank, c, i + 1, mid);
        var r := BaseSpecsFrom(g, rank, c, i + 1, mid);
        assert r == BaseSpecsFrom(g, rank, c, i, acc);
        PrefixOfPrefix(acc, listed, mid, r);
      } else {
        BaseSpecsFromPrefix(g, rank, c, i + 1, acc);
      }
    }
  }

  lemma PrefixOfPrefix(a: seq<string>, b: seq<string>, c: seq<string>, d: seq<string>)
    requires |a| <= |b| && b[..|a|] == a
    requires |b| <= |c| && c[..|b|] == b
    requires |c| <= |d| && d[..|c|] == c
    ensures |a| <= |d| && d[..|a|] == a
  {
    assert d[..|a|] == d[..|c|][..|b|][..|a|];
  }

  /** A duplicate-free starting list gives a duplicate-free result. */
  lemma {:induction false} BaseSpecsNoDup(g: Graph, rank: map<string, nat>, c: string, acc: seq<string>)
    requires Ranked(g, rank) && c in g && NoDup(acc)
    ensures NoDup(BaseSpecs(g, rank, c, acc))
    decreases rank[c], 1
  {
    BaseSpecsFromNoDup(g, rank, c, 0, acc);
  }

  lemma {:induction false} BaseSpecsFromNoDup(g: Graph, rank: map<string, nat>, c: string, i: nat, acc: seq<string>)
    requires Ranked(g, rank) && c in g && NoDup(acc)
    ensures NoDup(BaseSpecsFrom(g, rank, c, i, acc))
    decreases rank[c], 0, |g[c]| - i
  {
    if i < |g[c]| {
      if g[c][i].Named? && g[c][i].name in g {
        var b := g[c][i].name;
        assert DirectBase(g, c, b) by { assert g[c][i] in g[c]; }
        var listed := if b in acc then acc else acc + [b];
        assert NoDup(listed);
        BaseSpecsNoDup(g, rank, b, listed);
        BaseSpecsFromNoDup(g, rank, c, i + 1, BaseSpecs(g, rank, b, listed));
      } else {
        BaseSpecsFromNoDup(g, rank, c, i + 1, acc);
      }
    }
  }

  /** The result holds the starting list and the ancestors, nothing else. */
  lemma {:induction false} BaseSpecsElems(g: Graph, rank: map<string, nat>, c: string, acc: seq<string>)
    requires Ranked(g, rank) && c in g
    ensures Elems(BaseSpecs(g, rank, c, acc)) == Elems(acc) + AncestorsOf(g, rank, c)
    decreases rank[c], 1
  {
    BaseSpecsFromElems(g, rank, c, 0, acc);
  }

  lemma {:induction false} BaseSpecsFromElems(g: Graph, rank: map<string, nat>, c: string, i: nat, acc: seq<string>)
    requires Ranked(g, rank) && c in g
    ensures Elems(BaseSpecsFrom(g, rank, c, i, acc)) == Elems(acc) + AncestorsFrom(g, rank, c, i)
    decreases rank[c], 0, |g[c]| - i
  {
    if i < |g[c]| {
      if g[c][i].Named? && g[c][i].name in g {
        var b := g[c][i].name;
        assert DirectBase(g, c, b) by { assert g[c][i] in g[c]; }
        var listed := if b in acc then acc else acc + [b];
        assert Elems(listed) == Elems(acc) + {b};
        BaseSpecsElems(g, rank, b, listed);
        BaseSpecsFromElems(g, rank, c, i + 1, BaseSpecs(g, rank, b, listed));
      } else {
        BaseSpecsFromElems(g, rank, c, i + 1, acc);
      }
    }
  }

  /** The three facts together. */
  lemma BaseSpecsFacts(g: Graph, rank: map<string, nat>, c: string, acc: seq<string>)
    requires Ranked(g, rank) && c in g
    ensures var r := BaseSpecs(g, rank, c, acc);
      && |acc| <= |r| && r[..|acc|] == acc
      && (NoDup(acc) ==> NoDup(r))
      && Elems(r) == Elems(acc) + AncestorsOf(g, rank, c)
  {
    BaseSpecsPrefix(g, rank, c, acc);
    if NoDup(acc) { BaseSpecsNoDup(g, rank, c, acc); }
    BaseSpecsElems(g, rank, c, acc);
  }

  /** The first in-zenpack base among the bases at positions i.. of `c`. */
  function FirstInZenpackBase(g: Graph, c: string, i: nat): Option<string>
    requires c in g
    decreases |g[c]| - i
  {
    if i >= |g[c]| then None
    else if g[c][i].Named? && g[c][i].name in g then Some(g[c][i].name)
    else FirstInZenpackBase(g, c, i + 1)
  }

  /** The nearest ancestor comes first: the walk from an empty list starts
      with the first base of `c` that is a class of the zenpack, and is
      empty when there is none. */
  lemma {:induction false} BaseSpecsFirst(g: Graph, rank: map<string, nat>, c: string, i: nat)
    requires Ranked(g, rank) && c in g
    ensures var r := BaseSpecsFrom(g, rank, c, i, []);
      match FirstInZenpackBase(g, c, i)
      case None => r == []
      case Some(b) => |r| > 0 && r[0] == b
    decreases |g[c]| - i
  {
    if i < |g[c]| {
      match g[c][i]
      case External(_) =>
        BaseSpecsFirst(g, rank, c, i + 1);
      case Named(b) =>
        if b !in g {
          BaseSpecsFirst(g, rank, c, i + 1);
        } else {
          assert DirectBase(g, c, b) by { assert g[c][i] in g[c]; }
          var empty: seq<string> := [];
          assert empty + [b] == [b] && b !in empty;
          BaseSpecsPrefix(g, rank, b, [b]);
          var mid := BaseSpecs(g, rank, b, [b]);
          assert mid[0] == mid[..1][0] == b;
          BaseSpecsFromPrefix(g, rank, c, i + 1, mid);
          var r := BaseSpecsFrom(g, rank, c, i + 1, mid);
          assert r == BaseSpecsFrom(g, rank, c, i, []);
          assert r[0] == r[..|mid|][0] == mid[0];
        }
    }
  }

  /** `get_base_specs()` as called without a list: duplicate-free, made of
      classes of the zenpack only, equal as a set to the ancestors, and led
      by the first in-zenpack base. */
  lemma BaseSpecsProperties(g: Graph, rank: map<string, nat>, c: string)
    requires Ranked(g, rank) && c in g
    ensures var r := BaseSpecs(g, rank, c, []);
      && NoDup(r)
      && Elems(r) == AncestorsOf(g, rank, c)
      && (forall x :: x in r ==> x in g)
      && c !in r
      && (FirstInZenpackBase(g, c, 0).Some? ==> |r| > 0 && r[0] == FirstInZenpackBase(g, c, 0).value)
      && (FirstInZenpackBase(g, c, 0).None? ==> r == [])
  {
    BaseSpecsFacts(g, rank, c, []);
    AncestorsRanked(g, rank, c);
    BaseSpecsFirst(g, rank, c, 0);
    var r := BaseSpecs(g, rank, c, []);
    assert forall x :: x in r ==> x in Elems(r);
  }

  /** The position of the first name of `names` that is in `defining`;
      |names| when there is none. */
  function FirstIn(names: seq<string>, defining: set<string>): (i: nat)
    ensures i <= |names|
    ensures forall j :: 0 <= j < i ==> names[j] !in defining
    ensures i < |names| ==> names[i] in defining
  {
    if |names| == 0 then 0
    else if names[0] in defining then 0
    else 1 + FirstIn(names[1..], defining)
  }

  /** The classes that define property `key` themselves. */
  function DefiningProperty(classes: ClassTable, key: string): set<string>
  {
    set n | n in classes && key in classes[n].properties
  }

  /** The classes that define relationship `key` themselves. */
  function DefiningRelation(classes: ClassTable, key: string): set<string>
  {
    set n | n in classes && key in classes[n].relationships
  }

  /** The property `key` of the nearest class, in `get_base_specs` order,
      that defines it; None when no ancestor does. */
  function NearestProperty(classes: ClassTable, ghost rank: map<string, nat>, c: string, key: string): (r: Option<PropertySpec>)
    requires Ranked(BasesOf(classes), rank) && c in classes
    ensures r.Some? <==>
      exists a :: a in AncestorsOf(BasesOf(classes), rank, c) && a in classes && key in classes[a].properties
    ensures r.Some? ==>
      exists a :: a in AncestorsOf(BasesOf(classes), rank, c) && a in classes && key in classes[a].properties &&
        r.value == classes[a].properties[key]
  {
    var order := BaseSpecs(BasesOf(classes), rank, c, []);
    BaseSpecsProperties(BasesOf(classes), rank, c);
    var i := FirstIn(order, DefiningProperty(classes, key));
    assert forall a :: a in AncestorsOf(BasesOf(classes), rank, c) ==> a in order by {
      forall a | a in AncestorsOf(BasesOf(classes), rank, c) ensures a in order { assert a in Elems(order); }
    }
    if i < |order| then
      assert order[i] in Elems(order);
      Some(classes[order[i]].properties[key])
    else
      None
  }

  /** `find_property_in_base_specs`: the property spec of the first class,
      in `get_base_specs` order, that defines `propname`; None when no
      ancestor does. */
  method FindPropertyInBaseSpecs(classes: ClassTable, ghost rank: map<string, nat>, c: string, propname: string)
    returns (r: Option<PropertySpec>)
    requires Ranked(BasesOf(classes), rank) && c in classes
    ensures r == NearestProperty(classes, rank, c, propname)
  {
    var g := BasesOf(classes);
    var order := GetBaseSpecs(g, rank, c, []);
    BaseSpecsProperties(g, rank, c);
    var defining := DefiningProperty(classes, propname);
    var i := 0;
    while i < |order|
      invariant 0 <= i <= |order|
      invariant forall j :: 0 <= j < i ==> order[j] !in defining
    {
      assert order[i] in classes;
      if propname in classes[order[i]].properties {
        assert FirstIn(order, defining) == i by { FirstInIs(order, defining, i); }
        return Some(classes[order[i]].properties[propname]);
      }
      i := i + 1;
    }
    assert FirstIn(order, defining) == |order| by { FirstInIs(order, defining, |order|); }
    assert forall a :: a in AncestorsOf(g, rank, c) ==> a in order by {
      forall a | a in AncestorsOf(g, rank, c) ensures a in order { assert a in Elems(order); }
    }
    r := None;
  }

  /** The relationship `key` of the nearest class, in `get_base_specs` order,
      that defines it; None when no ancestor does. */
  function NearestRelation(classes: ClassTable, ghost rank: map<string, nat>, c: string, key: string): (r: Option<RelRef>)
    requires Ranked(BasesOf(classes), rank) && c in classes
    ensures r.Some? <==>
      exists a :: a in AncestorsOf(BasesOf(classes), rank, c) && a in classes && key in classes[a].relationships
    ensures r.Some? ==>
      exists a :: a in AncestorsOf(BasesOf(classes), rank, c) && a in classes && key in classes[a].relationships &&
        r.value == classes[a].relationships[key]
  {
    var order := BaseSpecs(BasesOf(classes), rank, c, []);
    BaseSpecsProperties(BasesOf(classes), rank, c);
    var i := FirstIn(order, DefiningRelation(classes, key));
    assert forall a :: a in AncestorsOf(BasesOf(classes), rank, c) ==> a in order by {
      forall a | a in AncestorsOf(BasesOf(classes), rank, c) ensures a in order { assert a in Elems(order); }
    }
    if i < |order| then
      assert order[i] in Elems(order);
      Some(classes[order[i]].relationships[key])
    else
      None
  }

  /** `find_relation_in_base_specs`: the relationship of the first class, in
      `get_base_specs` order, that defines `relname`; None when no ancestor
      does. */
  method FindRelationInBaseSpecs(classes: ClassTable, ghost rank: map<string, nat>, c: string, relname: string)
    returns (r: Option<RelRef>)
    requires Ranked(BasesOf(classes), rank) && c in classes
    ensures r == NearestRelation(classes, rank, c, relname)
  {
    var g := BasesOf(classes);
    var order := GetBaseSpecs(g, rank, c, []);
    BaseSpecsProperties(g, rank, c);
    var defining := DefiningRelation(classes, relname);
    var i := 0;
    while i < |order|
      invariant 0 <= i <= |order|
      invariant forall j :: 0 <= j < i ==> order[j] !in defining
    {
      assert order[i] in classes;
      if relname in classes[order[i]].relationships {
        assert FirstIn(order, defining) == i by { FirstInIs(order, defining, i); }
        return Some(classes[order[i]].relationships[relname]);
      }
      i := i + 1;
    }
    assert FirstIn(order, defining) == |order| by { FirstInIs(order, defining, |order|); }
    assert forall a :: a in AncestorsOf(g, rank, c) ==> a in order by {
      forall a | a in AncestorsOf(g, rank, c) ensures a in order { assert a in Elems(order); }
    }
    r := None;
  }

  /** The first position is the one no earlier name beats. */
  lemma {:induction false} FirstInIs(names: seq<string>, defining: set<string>, i: nat)
    requires i <= |names|
    requires forall j :: 0 <= j < i ==> names[j] !in defining
    requires i < |names| ==> names[i] in defining
    ensures FirstIn(names, defining) == i
  {
    if i > 0 {
      FirstInIs(names[1..], defining, i - 1);
    }
  }

  /** `get_descendant_specs`: the names of the classes that list `name`
      among their bases, in the table's iteration order (unspecified here). */
  method GetDescendantSpecs(classes: ClassTable, name: string) returns (r: seq<string>)
    ensures forall x :: x in r <==> exists k :: k in classes && classes[k].name == x && Named(name) in classes[k].bases
    ensures NamesMatch(classes) ==> NoDup(r)
  {
    r := [];
    var todo := classes.Keys;
    while todo != {}
      invariant todo <= classes.Keys
      invariant forall x :: x in r <==>
        exists k :: k in classes && k !in todo && classes[k].name == x && Named(name) in classes[k].bases
      invariant NamesMatch(classes) ==> NoDup(r) && forall x :: x in r ==> x !in todo
      decreases todo
    {
      var k :| k in todo;
      if Named(name) in classes[k].bases {
        r := r + [classes[k].name];
      }
      todo := todo - {k};
    }
  }

  /** With entries filed under their names, the descendants listed are
      exactly the classes that name `c` as a base. */
  lemma DescendantSpecsAreChildren(classes: ClassTable, c: string, r: seq<string>)
    requires NamesMatch(classes) && c in classes
    requires forall x :: x in r <==> exists k :: k in classes && classes[k].name == x && Named(c) in classes[k].bases
    ensures forall x :: x in r <==> DirectBase(BasesOf(classes), x, c)
  {
    forall x ensures x in r <==> DirectBase(BasesOf(classes), x, c) {
      if DirectBase(BasesOf(classes), x, c) {
        assert classes[x].name == x;
      }
    }
  }

  /** What `base_class_specs(recursive)` returns for bases `bases`: each
      in-zenpack base and, when `recursive`, the bases that base lists
      directly (the inner call does not pass the flag on). A base name the
      table lacks raises KeyError, here Err with that name. */
  function BaseClassSpecList(classes: ClassTable, bases: seq<Base>, recursive: bool): Result<seq<string>, string>
    decreases if recursive then 1 else 0, |bases|
  {
    if |bases| == 0 then Ok([])
    else
      var head: Result<seq<string>, string> :=
        match bases[0]
        case External(_) => Ok([])
        case Named(b) =>
          if b !in classes then Err(b)
          else if !recursive then Ok([b])
          else
            match BaseClassSpecList(classes, classes[b].bases, false)
            case Err(e) => Err(e)
            case Ok(xs) => Ok([b] + xs);
      match head
      case Err(e) => Err(e)
      case Ok(h) =>
        match BaseClassSpecList(classes, bases[1..], recursive)
        case Err(e) => Err(e)
        case Ok(t) => Ok(h + t)
  }

  function Prepend(acc: seq<string>, r: Result<seq<string>, string>): Result<seq<string>, string>
  {
    match r
    case Err(e) => Err(e)
    case Ok(t) => Ok(acc + t)
  }

  /** What one entry of `bases` contributes to `base_class_specs`. */
  function BaseEntryList(classes: ClassTable, base: Base, recursive: bool): Result<seq<string>, string>
  {
    match base
    case External(_) => Ok([])
    case Named(b) =>
      if b !in classes then Err(b)
      else if !recursive then Ok([b])
      else Prepend([b], BaseClassSpecList(classes, classes[b].bases, false))
  }

  /** The walk over `bases` is its first entry's contribution followed by
      the walk over the rest. */
  lemma BaseClassSpecListUnfold(classes: ClassTable, bases: seq<Base>, recursive: bool)
    requires |bases| > 0
    ensures BaseClassSpecList(classes, bases, recursive) ==
      match BaseEntryList(classes, bases[0], recursive)
      case Err(e) => Err(e)
      case Ok(h) => Prepend(h, BaseClassSpecList(classes, bases[1..], recursive))
  {
  }

  lemma PrependTwice(a: seq<string>, b: seq<string>, r: Result<seq<string>, string>)
    ensures Prepend(a, Prepend(b, r)) == Prepend(a + b, r)
  {
    if r.Ok? {
      assert a + (b + r.value) == a + b + r.value;
    }
  }

  /** One entry of the loop of `base_class_specs`. */
  method BaseEntry(classes: ClassTable, base: Base, recursive: bool) returns (r: Result<seq<string>, string>)
    ensures r == BaseEntryList(classes, base, recursive)
    decreases if recursive then 1 else 0, 0
  {
    match base {
      case External(_) =>
        return Ok([]);
      case Named(b) =>
        if b !in classes {
          return Err(b);
        }
        var specs := [b];
        if recursive {
          var inner := BaseClassSpecs(classes, b, false);
          if inner.Err? {
            return Err(inner.error);
          }
          specs := specs + inner.value;
        }
        return Ok(specs);
    }
  }

  /** `base_class_specs`, with its loop and its one nested call. */
  method BaseClassSpecs(classes: ClassTable, c: string, recursive: bool) returns (r: Result<seq<string>, string>)
    requires c in classes
    ensures r == BaseClassSpecList(classes, classes[c].bases, recursive)
    ensures !recursive && r.Ok? ==> forall x :: x in r.value <==> Named(x) in classes[c].bases
    // on a closed table the recursive walk lists the bases and their direct bases
    ensures recursive && Closed(classes) ==> r.Ok? && forall x :: x in r.value <==>
      exists b :: Named(b) in classes[c].bases && (x == b || Named(x) in classes[b].bases)
    decreases if recursive then 1 else 0, 1
  {
    if recursive && Closed(classes) {
      RecursiveBaseClassSpecList(classes, classes[c].bases);
    }
    var bases := classes[c].bases;
    var specs: seq<string> := [];
    var i := 0;
    assert bases[0..] == bases;
    assert BaseClassSpecList(classes, bases, recursive).Ok? ==>
      [] + BaseClassSpecList(classes, bases, recursive).value == BaseClassSpecList(classes, bases, recursive).value;
    while i < |bases|
      invariant 0 <= i <= |bases|
      invariant Prepend(specs, BaseClassSpecList(classes, bases[i..], recursive)) == BaseClassSpecList(classes, bases, recursive)
      invariant !recursive ==> forall x :: x in specs <==> Named(x) in bases[..i]
    {
      BaseClassSpecListUnfold(classes, bases[i..], recursive);
      assert bases[i..][0] == bases[i] && bases[i..][1..] == bases[i + 1..];
      assert bases[..i + 1] == bases[..i] + [bases[i]];
      var head := BaseEntry(classes, bases[i], recursive);
      if head.Err? {
        return Err(head.error);
      }
      PrependTwice(specs, head.value, BaseClassSpecList(classes, bases[i + 1..], recursive));
      specs := specs + head.value;
      i := i + 1;
    }
    assert bases[..i] == bases;
    assert specs + [] == specs;
    r := Ok(specs);
  }

  /** `subclass_specs`: the classes whose `base_class_specs(recursive=True)`
      holds `c`. A KeyError raised for any class propagates. */
  method SubclassSpecs(classes: ClassTable, c: string) returns (r: Result<seq<string>, string>)
    ensures r.Ok? <==> forall x :: x in classes ==> BaseClassSpecList(classes, classes[x].bases, true).Ok?
    ensures r.Ok? ==> forall x :: x in r.value <==>
      x in classes && c in BaseClassSpecList(classes, classes[x].bases, true).value
    ensures r.Err? ==> exists x :: x in classes && BaseClassSpecList(classes, classes[x].bases, true) == Err(r.error)
  {
    var found: seq<string> := [];
    var todo := classes.Keys;
    while todo != {}
      invariant todo <= classes.Keys
      invariant forall x :: x in classes && x !in todo ==> BaseClassSpecList(classes, classes[x].bases, true).Ok?
      invariant forall x :: x in found <==>
        x in classes && x !in todo && c in BaseClassSpecList(classes, classes[x].bases, true).value
      decreases todo
    {
      var x :| x in todo;
      var specs := BaseClassSpecs(classes, x, true);
      if specs.Err? {
        return Err(specs.error);
      }
      if c in specs.value {
        found := found + [x];
      }
      todo := todo - {x};
    }
    r := Ok(found);
  }

  /** Every named base is a class of the zenpack. */
  ghost predicate Closed(classes: ClassTable)
  {
    forall k, b :: k in classes && Named(b) in classes[k].bases ==> b in classes
  }

  /** Without `recursive`, a walk over bases that are all in the table
      succeeds and lists exactly the named bases. */
  lemma {:induction false} DirectBaseClassSpecList(classes: ClassTable, bases: seq<Base>)
    requires forall b :: Named(b) in bases ==> b in classes
    ensures BaseClassSpecList(classes, bases, false).Ok?
    ensures forall x :: x in BaseClassSpecList(classes, bases, false).value <==> Named(x) in bases
    decreases |bases|
  {
    if |bases| > 0 {
      assert forall b :: Named(b) in bases[1..] ==> Named(b) in bases;
      DirectBaseClassSpecList(classes, bases[1..]);
      assert bases == [bases[0]] + bases[1..];
    }
  }

  /** The walk as written, for all inputs: on a closed table it succeeds
      and lists each named base together with the bases that one names
      directly, and nothing further up. */
  lemma {:induction false} RecursiveBaseClassSpecList(classes: ClassTable, bases: seq<Base>)
    requires Closed(classes)
    requires forall b :: Named(b) in bases ==> b in classes
    ensures BaseClassSpecList(classes, bases, true).Ok?
    ensures forall x :: x in BaseClassSpecList(classes, bases, true).value <==>
      exists b :: Named(b) in bases && (x == b || Named(x) in classes[b].bases)
    decreases |bases|
  {
    if |bases| > 0 {
      assert forall b :: Named(b) in bases[1..] ==> Named(b) in bases;
      RecursiveBaseClassSpecList(classes, bases[1..]);
      assert bases == [bases[0]] + bases[1..];
      var rest := BaseClassSpecList(classes, bases[1..], true).value;
      match bases[0]
      case External(_) =>
        assert BaseClassSpecList(classes, bases, true).value == [] + rest;
      case Named(b0) =>
        DirectBaseClassSpecList(classes, classes[b0].bases);
        var inner := BaseClassSpecList(classes, classes[b0].bases, false).value;
        assert BaseClassSpecList(classes, bases, true).value == [b0] + inner + rest;
    }
  }

  /** `base_class_specs(recursive=True)` as its docstring describes it:
      the flag passed on, so that all ancestors are reached. */
  function AllBaseClassSpecList(classes: ClassTable, ghost rank: map<string, nat>, c: string, i: nat): Result<seq<string>, string>
    requires Ranked(BasesOf(classes), rank) && c in classes
    decreases rank[c], |classes[c].bases| - i
  {
    if i >= |classes[c].bases| then Ok([])
    else
      var head: Result<seq<string>, string> :=
        match classes[c].bases[i]
        case External(_) => Ok([])
        case Named(b) =>
          if b !in classes then Err(b)
          else
            assert DirectBase(BasesOf(classes), c, b) by { assert classes[c].bases[i] in classes[c].bases; }
            match AllBaseClassSpecList(classes, rank, b, 0)
            case Err(e) => Err(e)
            case Ok(xs) => Ok([b] + xs);
      match head
      case Err(e) => Err(e)
      case Ok(h) =>
        match AllBaseClassSpecList(classes, rank, c, i + 1)
        case Err(e) => Err(e)
        case Ok(t) => Ok(h + t)
  }

  /** The corrected walk lists exactly the ancestors, and fails only when a
      base name is missing from the table. */
  lemma {:induction false} AllBaseClassSpecsAreAncestors(classes: ClassTable, rank: map<string, nat>, c: string, i: nat)
    requires Ranked(BasesOf(classes), rank) && c in classes
    ensures Closed(classes) ==> AllBaseClassSpecList(classes, rank, c, i).Ok?
    ensures AllBaseClassSpecList(classes, rank, c, i).Ok? ==>
      Elems(AllBaseClassSpecList(classes, rank, c, i).value) == AncestorsFrom(BasesOf(classes), rank, c, i)
    decreases rank[c], |classes[c].bases| - i
  {
    var g := BasesOf(classes);
    if i < |classes[c].bases| {
      AllBaseClassSpecsAreAncestors(classes, rank, c, i + 1);
      assert classes[c].bases[i] in classes[c].bases;
      match classes[c].bases[i]
      case External(_) =>
      case Named(b) =>
        if b in classes {
          assert DirectBase(g, c, b);
          AllBaseClassSpecsAreAncestors(classes, rank, b, 0);
          var inner := AllBaseClassSpecList(classes, rank, b, 0);
          var rest := AllBaseClassSpecList(classes, rank, c, i + 1);
          if inner.Ok? && rest.Ok? {
            assert Elems([b] + inner.value + rest.value) == {b} + Elems(inner.value) + Elems(rest.value);
          }
        }
    }
  }

  /** A record with no labels, properties or relationships of interest. */
  function PlainClass(name: string, bases: seq<Base>): ClassRec
  {
    var labels := ClassDefaults.Labels(name, name, name, name, name, 80, 87, 80, [name], ["service_view"], name);
    ClassRec(name, bases, labels, map[], map[], map[], true, None, [], [])
  }

  /** The chain D -> C -> B -> A -> Component, with its ranks. */
  function ChainTable(): ClassTable
  {
    map[
      "A" := PlainClass("A", [External("Component")]),
      "B" := PlainClass("B", [Named("A")]),
      "C" := PlainClass("C", [Named("B")]),
      "D" := PlainClass("D", [Named("C")])]
  }

  function ChainRank(): map<string, nat>
  {
    map["A" := 0, "B" := 1, "C" := 2, "D" := 3]
  }

  lemma ChainRanked()
    ensures BasesOf(ChainTable()) == map["A" := [External("Component")], "B" := [Named("A")], "C" := [Named("B")], "D" := [Named("C")]]
    ensures Ranked(BasesOf(ChainTable()), ChainRank())
  {
    var g := BasesOf(ChainTable());
    assert g == map["A" := [External("Component")], "B" := [Named("A")], "C" := [Named("B")], "D" := [Named("C")]];
    forall c, b | DirectBase(g, c, b) ensures b in ChainRank() && c in ChainRank() && ChainRank()[b] < ChainRank()[c] {
      assert Named(b) in g[c];
    }
  }

  /** As written: the recursive call lists C and C's own bases only. */
  lemma ChainAsWritten()
    ensures BaseClassSpecList(ChainTable(), ChainTable()["D"].bases, true) == Ok(["C", "B"])
  {
    var classes := ChainTable();
    var none: seq<string> := [];
    var cBases: seq<Base> := [Named("B")];
    var dBases: seq<Base> := [Named("C")];
    assert classes["C"].bases == cBases && classes["D"].bases == dBases;
    assert cBases[1..] == [] && dBases[1..] == [];
    assert ["B"] + none == ["B"] && ["C"] + ["B"] == ["C", "B"] && ["C", "B"] + none == ["C", "B"];
    assert BaseClassSpecList(classes, cBases, false) == Ok(["B"]);
  }

  /** A is an ancestor of D. */
  lemma ChainAncestor()
    requires Ranked(BasesOf(ChainTable()), ChainRank())
    ensures "A" in AncestorsOf(BasesOf(ChainTable()), ChainRank(), "D")
  {
    var g := BasesOf(ChainTable());
    ChainRanked();
    AncestorsOfStep(g, ChainRank(), "D", "A");
    AncestorsOfStep(g, ChainRank(), "C", "A");
    AncestorsOfStep(g, ChainRank(), "B", "A");
    assert DirectBase(g, "B", "A") && DirectBase(g, "C", "B") && DirectBase(g, "D", "C");
  }

  /** The corrected walk reaches A. */
  lemma ChainCorrected()
    requires Ranked(BasesOf(ChainTable()), ChainRank())
    ensures AllBaseClassSpecList(ChainTable(), ChainRank(), "D", 0) == Ok(["C", "B", "A"])
  {
    var classes, rank := ChainTable(), ChainRank();
    assert classes["A"].bases == [External("Component")];
    assert classes["B"].bases == [Named("A")];
    assert classes["C"].bases == [Named("B")];
    assert classes["D"].bases == [Named("C")];
    var none: seq<string> := [];
    assert none + none == none;
    assert ["A"] + none == ["A"] && ["B"] + ["A"] == ["B", "A"] && ["C"] + ["B", "A"] == ["C", "B", "A"];
    assert ["A"] + none + none == ["A"] && ["B", "A"] + none == ["B", "A"] && ["C", "B", "A"] + none == ["C", "B", "A"];
    assert AllBaseClassSpecList(classes, rank, "A", 1) == Ok([]);
    assert AllBaseClassSpecList(classes, rank, "A", 0) == Ok([]);
    assert AllBaseClassSpecList(classes, rank, "B", 1) == Ok([]);
    assert AllBaseClassSpecList(classes, rank, "B", 0) == Ok(["A"]);
    assert AllBaseClassSpecList(classes, rank, "C", 1) == Ok([]);
    assert AllBaseClassSpecList(classes, rank, "C", 0) == Ok(["B", "A"]);
    assert AllBaseClassSpecList(classes, rank, "D", 1) == Ok([]);
  }

  /** On the chain D -> C -> B -> A -> Component, `base_class_specs(True)`
      of D stops at B although A is an ancestor of D; the corrected walk
      lists all three. */
  lemma BaseClassSpecsStopsAtGrandparents()
    ensures Ranked(BasesOf(ChainTable()), ChainRank())
    ensures BaseClassSpecList(ChainTable(), ChainTable()["D"].bases, true) == Ok(["C", "B"])
    ensures "A" in AncestorsOf(BasesOf(ChainTable()), ChainRank(), "D")
    ensures AllBaseClassSpecList(ChainTable(), ChainRank(), "D", 0) == Ok(["C", "B", "A"])
  {
    ChainRanked();
    ChainAsWritten();
    ChainAncestor();
    ChainCorrected();
  }

  function PropertiesOf(x: ClassRec): map<string, PropertySpec> { x.properties }

  function RelationshipsOf(x: ClassRec): map<string, RelRef> { x.relationships }

  /** What `inherited_properties` / `inherited_relationships` return, for the
      map `field` picks out of a class: the inherited maps of the named
      bases merged in order, then the class's own map over them. A named
      base missing from the table raises KeyError, here Err. */
  function Inherited<V>(classes: ClassTable, ghost rank: map<string, nat>, c: string, field: ClassRec -> map<string, V>)
    : Result<map<string, V>, string>
    requires Ranked(BasesOf(classes), rank) && c in classes
    decreases rank[c], 1
  {
    InheritedFrom(classes, rank, c, field, 0, map[])
  }

  function InheritedFrom<V>(classes: ClassTable, ghost rank: map<string, nat>, c: string,
                            field: ClassRec -> map<string, V>, i: nat, acc: map<string, V>)
    : Result<map<string, V>, string>
    requires Ranked(BasesOf(classes), rank) && c in classes
    decreases rank[c], 0, |classes[c].bases| - i
  {
    if i >= |classes[c].bases| then Ok(acc + field(classes[c]))
    else
      match classes[c].bases[i]
      case External(_) => InheritedFrom(classes, rank, c, field, i + 1, acc)
      case Named(b) =>
        if b !in classes then Err(b)
        else
          assert DirectBase(BasesOf(classes), c, b) by { assert classes[c].bases[i] in classes[c].bases; }
          match Inherited(classes, rank, b, field)
          case Err(e) => Err(e)
          case Ok(m) => InheritedFrom(classes, rank, c, field, i + 1, acc + m)
  }

  /** What base j of `c` offers for key `k`: its inherited entry, when it is
      a class of the zenpack whose inherited map has `k`. */
  ghost function BaseOffer<V>(classes: ClassTable, rank: map<string, nat>, c: string,
                              field: ClassRec -> map<string, V>, j: nat, k: string): Option<V>
    requires Ranked(BasesOf(classes), rank) && c in classes && j < |classes[c].bases|
  {
    match classes[c].bases[j]
    case External(_) => None
    case Named(b) =>
      if b in classes && Inherited(classes, rank, b, field).Ok? && k in Inherited(classes, rank, b, field).value
      then Some(Inherited(classes, rank, b, field).value[k])
      else None
  }

  /** The offer of the last base in positions lo..hi-1 that offers `k`. */
  ghost function LastOffer<V>(classes: ClassTable, rank: map<string, nat>, c: string,
                              field: ClassRec -> map<string, V>, lo: nat, hi: nat, k: string): Option<V>
    requires Ranked(BasesOf(classes), rank) && c in classes && hi <= |classes[c].bases|
    decreases hi
  {
    if hi <= lo then None
    else if BaseOffer(classes, rank, c, field, hi - 1, k).Some? then BaseOffer(classes, rank, c, field, hi - 1, k)
    else LastOffer(classes, rank, c, field, lo, hi - 1, k)
  }

  lemma {:induction false} LastOfferSplit<V>(classes: ClassTable, rank: map<string, nat>, c: string,
                                              field: ClassRec -> map<string, V>, lo: nat, hi: nat, k: string)
    requires Ranked(BasesOf(classes), rank) && c in classes && lo < hi <= |classes[c].bases|
    ensures LastOffer(classes, rank, c, field, lo, hi, k) ==
      if LastOffer(classes, rank, c, field, lo + 1, hi, k).Some? then LastOffer(classes, rank, c, field, lo + 1, hi, k)
      else BaseOffer(classes, rank, c, field, lo, k)
    decreases hi
  {
    if hi - 1 > lo {
      LastOfferSplit(classes, rank, c, field, lo, hi - 1, k);
    }
  }

  lemma {:induction false} InheritedFromLookup<V>(classes: ClassTable, rank: map<string, nat>, c: string,
                                                  field: ClassRec -> map<string, V>, i: nat, acc: map<string, V>)
    requires Ranked(BasesOf(classes), rank) && c in classes && i <= |classes[c].bases|
    requires InheritedFrom(classes, rank, c, field, i, acc).Ok?
    ensures var r := InheritedFrom(classes, rank, c, field, i, acc).value;
      var n := |classes[c].bases|;
      forall k :: (k in r <==> k in field(classes[c]) || LastOffer(classes, rank, c, field, i, n, k).Some? || k in acc)
        && (k in r ==>
              r[k] == if k in field(classes[c]) then field(classes[c])[k]
                      else if LastOffer(classes, rank, c, field, i, n, k).Some? then LastOffer(classes, rank, c, field, i, n, k).value
                      else acc[k])
    decreases |classes[c].bases| - i
  {
    var n := |classes[c].bases|;
    if i < n {
      forall k { LastOfferSplit(classes, rank, c, field, i, n, k); }
      match classes[c].bases[i]
      case External(_) =>
        InheritedFromLookup(classes, rank, c, field, i + 1, acc);
      case Named(b) =>
        assert DirectBase(BasesOf(classes), c, b) by { assert classes[c].bases[i] in classes[c].bases; }
        var m := Inherited(classes, rank, b, field).value;
        InheritedFromLookup(classes, rank, c, field, i + 1, acc + m);
    }
  }

  /** An inherited map that was computed has, for each key: the class's own
      entry if it has one; otherwise the entry of the LAST base whose
      inherited map has the key; nothing else. External bases offer
      nothing, and every named base had to be a class of the zenpack. */
  lemma InheritedLookup<V>(classes: ClassTable, rank: map<string, nat>, c: string, field: ClassRec -> map<string, V>, k: string)
    requires Ranked(BasesOf(classes), rank) && c in classes
    requires Inherited(classes, rank, c, field).Ok?
    ensures var r := Inherited(classes, rank, c, field).value;
      var last := LastOffer(classes, rank, c, field, 0, |classes[c].bases|, k);
      && (k in r <==> k in field(classes[c]) || last.Some?)
      && (k in field(classes[c]) ==> r[k] == field(classes[c])[k])
      && (k !in field(classes[c]) && last.Some? ==> r[k] == last.value)
  {
    InheritedFromLookup(classes, rank, c, field, 0, map[]);
  }

  /** A computed inherited map means every named base was found. */
  lemma {:induction false} InheritedNeedsNamedBases<V>(classes: ClassTable, rank: map<string, nat>, c: string,
                                                       field: ClassRec -> map<string, V>, i: nat, acc: map<string, V>)
    requires Ranked(BasesOf(classes), rank) && c in classes
    requires InheritedFrom(classes, rank, c, field, i, acc).Ok?
    ensures forall j :: i <= j < |classes[c].bases| && classes[c].bases[j].Named? ==> classes[c].bases[j].name in classes
    decreases |classes[c].bases| - i
  {
    if i < |classes[c].bases| {
      match classes[c].bases[i]
      case External(_) =>
        InheritedNeedsNamedBases(classes, rank, c, field, i + 1, acc);
      case Named(b) =>
        assert DirectBase(BasesOf(classes), c, b) by { assert classes[c].bases[i] in classes[c].bases; }
        InheritedNeedsNamedBases(classes, rank, c, field, i + 1, acc + Inherited(classes, rank, b, field).value);
    }
  }

  /** `inherited_properties` */
  method InheritedProperties(classes: ClassTable, ghost rank: map<string, nat>, c: string)
    returns (r: Result<map<string, PropertySpec>, string>)
    requires Ranked(BasesOf(classes), rank) && c in classes
    ensures r == Inherited(classes, rank, c, PropertiesOf)
    ensures r.Ok? ==> forall k :: k in classes[c].properties ==> k in r.value && r.value[k] == classes[c].properties[k]
    decreases rank[c]
  {
    var bases := classes[c].bases;
    var properties: map<string, PropertySpec> := map[];
    var i := 0;
    while i < |bases|
      invariant 0 <= i <= |bases|
      invariant InheritedFrom(classes, rank, c, PropertiesOf, i, properties) == Inherited(classes, rank, c, PropertiesOf)
    {
      match bases[i] {
        case External(_) =>
        case Named(b) =>
          if b !in classes {
            return Err(b);
          }
          assert DirectBase(BasesOf(classes), c, b) by { assert bases[i] in bases; }
          var inherited := InheritedProperties(classes, rank, b);
          if inherited.Err? {
            return Err(inherited.error);
          }
          properties := properties + inherited.value;
      }
      i := i + 1;
    }
    r := Ok(properties + classes[c].properties);
  }

  /** `inherited_relationships` */
  method InheritedRelationships(classes: ClassTable, ghost rank: map<string, nat>, c: string)
    returns (r: Result<map<string, RelRef>, string>)
    requires Ranked(BasesOf(classes), rank) && c in classes
    ensures r == Inherited(classes, rank, c, RelationshipsOf)
    ensures r.Ok? ==> forall k :: k in classes[c].relationships ==> k in r.value && r.value[k] == classes[c].relationships[k]
    decreases rank[c]
  {
    var bases := classes[c].bases;
    var relationships: map<string, RelRef> := map[];
    var i := 0;
    while i < |bases|
      invariant 0 <= i <= |bases|
      invariant InheritedFrom(classes, rank, c, RelationshipsOf, i, relationships) == Inherited(classes, rank, c, RelationshipsOf)
    {
      match bases[i] {
        case External(_) =>
        case Named(b) =>
          if b !in classes {
            return Err(b);
          }
          assert DirectBase(BasesOf(classes), c, b) by { assert bases[i] in bases; }
          var inherited := InheritedRelationships(classes, rank, b);
          if inherited.Err? {
            return Err(inherited.error);
          }
          relationships := relationships + inherited.value;
      }
      i := i + 1;
    }
    r := Ok(relationships + classes[c].relationships);
  }
}
