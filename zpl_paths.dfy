/** The facet-path listing of the zenpack command (`list_paths` in
    ZenPacks/zenoss/ZenPackLib/lib/libexec/ZPLCommand.py): for every
    component of a device, the keys of the paths to its facets, which of
    them are included by default, and the report that labels each path
    DIRECT, EXTRA or EXCLUDE. The device's object graph is given as data:
    each facet comes with its acquisition chain. */
module FacetPaths {
  import opened Wrappers
  import opened Strings

  /** An object of an acquisition chain: its identity, its id, and whether
      it is a relationship (an instance of RelationshipBase). */
  datatype AqObject = AqObject(oid: nat, id: string, isRelationship: bool)

  /** A facet of a component: its meta type and its acquisition chain,
      starting at the facet itself. */
  datatype Facet = Facet(metaType: string, chain: seq<AqObject>)

  /** A component of the device: the object itself, its meta type, its
      facets when all paths are followed (`get_facets(recurse_all=True)`)
      and the facets included by default (`get_facets()`). */
  datatype Component = Component(self: AqObject, metaType: string, allFacets: seq<Facet>, directFacets: seq<Facet>)

  function Reverse(s: seq<string>): (r: seq<string>)
    ensures |r| == |s|
  {
    if s == [] then [] else Reverse(s[1..]) + [s[0]]
  }

  /** Element i of the reversal is element |s| - 1 - i of the original. */
  lemma {:induction false} ReverseIndex(s: seq<string>)
    ensures forall i :: 0 <= i < |s| ==> Reverse(s)[i] == s[|s| - 1 - i]
  {
    if s != [] {
      ReverseIndex(s[1..]);
      var r := Reverse(s);
      forall i | 0 <= i < |s| ensures r[i] == s[|s| - 1 - i] {
        if i < |s| - 1 {
          assert r[i] == Reverse(s[1..])[i];
          assert s[1..][|s[1..]| - 1 - i] == s[|s| - 1 - i];
        }
      }
    }
  }

  lemma {:induction false} ReverseAppend(a: seq<string>, b: seq<string>)
    ensures Reverse(a + b) == Reverse(b) + Reverse(a)
  {
    if a != [] {
      assert (a + b)[1..] == a[1..] + b;
      ReverseAppend(a[1..], b);
    } else {
      assert a + b == b;
    }
  }

  /** The ids of the relationships met walking the chain from the facet up
      to the component, nearest the facet first. */
  function RelIds(chain: seq<AqObject>, component: AqObject): (r: seq<string>)
    ensures |r| <= |chain|
  {
    if chain == [] || chain[0] == component then []
    else (if chain[0].isRelationship then [chain[0].id] else []) + RelIds(chain[1..], component)
  }

  /** No object of the chain up to position i is the component. */
  predicate BeforeComponent(chain: seq<AqObject>, component: AqObject, i: nat)
    requires i < |chain|
  {
    forall j :: 0 <= j <= i ==> chain[j] != component
  }

  /** Each id is that of a relationship of the chain met before the
      component, and every such relationship contributes its id. */
  lemma {:induction false} RelIdsMeaning(chain: seq<AqObject>, component: AqObject)
    ensures forall x :: x in RelIds(chain, component) <==>
      exists i :: 0 <= i < |chain| && chain[i].isRelationship && chain[i].id == x && BeforeComponent(chain, component, i)
  {
    if chain != [] && chain[0] != component {
      var tail := chain[1..];
      RelIdsMeaning(tail, component);
      forall x ensures x in RelIds(chain, component) <==>
        exists i :: 0 <= i < |chain| && chain[i].isRelationship && chain[i].id == x && BeforeComponent(chain, component, i)
      {
        if x in RelIds(tail, component) {
          var i :| 0 <= i < |tail| && tail[i].isRelationship && tail[i].id == x && BeforeComponent(tail, component, i);
          assert chain[i + 1] == tail[i];
          assert forall j :: 1 <= j <= i + 1 ==> chain[j] == tail[j - 1];
          assert BeforeComponent(chain, component, i + 1);
        }
        if exists i :: 0 <= i < |chain| && chain[i].isRelationship && chain[i].id == x && BeforeComponent(chain, component, i) {
          var i :| 0 <= i < |chain| && chain[i].isRelationship && chain[i].id == x && BeforeComponent(chain, component, i);
          if i > 0 {
            assert tail[i - 1] == chain[i];
            assert forall j :: 0 <= j <= i - 1 ==> tail[j] == chain[j + 1];
            assert BeforeComponent(tail, component, i - 1);
          }
        }
      }
    } else if chain != [] {
      forall i | 0 <= i < |chain| ensures !BeforeComponent(chain, component, i) {
        assert chain[0] == component;
      }
    }
  }

  /** The walk up the acquisition chain building `path` with `insert(0)`:
      the relationship ids from the component down to the facet. */
  method RelationshipPath(chain: seq<AqObject>, component: AqObject) returns (path: seq<string>)
    ensures path == Reverse(RelIds(chain, component))
  {
    path := [];
    var i := 0;
    while i < |chain|
      invariant 0 <= i <= |chain|
      invariant Reverse(RelIds(chain, component)) == Reverse(RelIds(chain[i..], component)) + path
    {
      var obj := chain[i];
      if obj == component {
        RelIdsStop(chain, component, i, path);
        return;
      }
      RelIdsStep(chain, component, i, path);
      if obj.isRelationship {
        path := [obj.id] + path;
      }
      i := i + 1;
    }
    RelIdsEnd(chain, component, path);
  }

  lemma RelIdsStop(chain: seq<AqObject>, component: AqObject, i: nat, path: seq<string>)
    requires i < |chain| && chain[i] == component
    ensures Reverse(RelIds(chain[i..], component)) + path == path
  {
    assert chain[i..][0] == component;
    assert RelIds(chain[i..], component) == [];
    assert [] + path == path;
  }

  lemma RelIdsEnd(chain: seq<AqObject>, component: AqObject, path: seq<string>)
    ensures Reverse(RelIds(chain[|chain|..], component)) + path == path
  {
    assert chain[|chain|..] == [];
    assert [] + path == path;
  }

  /** One more object of the chain, before the component, puts its id (when
      it is a relationship) in front of the path built so far. */
  lemma RelIdsStep(chain: seq<AqObject>, component: AqObject, i: nat, path: seq<string>)
    requires i < |chain| && chain[i] != component
    ensures chain[i].isRelationship ==> (Reverse(RelIds(chain[i..], component)) + path ==
      Reverse(RelIds(chain[i + 1..], component)) + ([chain[i].id] + path))
    ensures !chain[i].isRelationship ==> (Reverse(RelIds(chain[i..], component)) + path ==
      Reverse(RelIds(chain[i + 1..], component)) + path)
  {
    assert chain[i..][1..] == chain[i + 1..];
    var head := if chain[i].isRelationship then [chain[i].id] else [];
    var rest := RelIds(chain[i + 1..], component);
    assert RelIds(chain[i..], component) == head + rest;
    ReverseAppend(head, rest);
    if chain[i].isRelationship {
      assert Reverse(head) == Reverse([]) + [chain[i].id];
      assert Reverse(rest) + [chain[i].id] + path == Reverse(rest) + ([chain[i].id] + path);
    } else {
      assert head + rest == rest;
    }
  }

  /** `component.meta_type + ":" + "/".join(path) + ":" + facet.meta_type` */
  function PathKey(componentType: string, path: seq<string>, facetType: string): string
  {
    componentType + ":" + Join(path, "/") + ":" + facetType
  }

  /** The key of the path from component `c` to facet `f`. */
  function KeyOf(c: Component, f: Facet): string
  {
    PathKey(c.metaType, Reverse(RelIds(f.chain, c.self)), f.metaType)
  }

  /** Joined ids hold a slash exactly when there are two or more of them,
      provided no id holds one. */
  lemma JoinHasSlash(path: seq<string>)
    requires forall i :: 0 <= i < |path| ==> '/' !in path[i]
    ensures '/' in Join(path, "/") <==> |path| >= 2
  {
    if |path| >= 2 {
      assert Join(path, "/") == path[0] + "/" + Join(path[1..], "/");
      assert Join(path, "/")[|path[0]|] == '/';
    } else if '/' in Join(path, "/") {
      JoinChars(path, "/", '/');
      assert false;
    }
  }

  /** When no meta type or id holds a slash, a key holds one exactly when
      the path crosses two or more relationships. */
  lemma PathKeySlash(componentType: string, path: seq<string>, facetType: string)
    requires '/' !in componentType && '/' !in facetType
    requires forall i :: 0 <= i < |path| ==> '/' !in path[i]
    ensures '/' in PathKey(componentType, path, facetType) <==> |path| >= 2
  {
    JoinHasSlash(path);
    var j := Join(path, "/");
    assert PathKey(componentType, path, facetType) == componentType + (":" + j + ":" + facetType);
    assert '/' in componentType + (":" + j + ":" + facetType) <==> '/' in componentType || '/' in ":" + j + ":" + facetType;
    assert ":" + j + ":" + facetType == ":" + (j + (":" + facetType));
  }

  /** A key splits back at its colons into the component's meta type, the
      joined ids and the facet's meta type, provided none holds a colon. */
  lemma PathKeySplit(componentType: string, path: seq<string>, facetType: string)
    requires ':' !in componentType && ':' !in facetType
    requires forall i :: 0 <= i < |path| ==> ':' !in path[i]
    ensures Split(PathKey(componentType, path, facetType), ':') == [componentType, Join(path, "/"), facetType]
  {
    var j := Join(path, "/");
    if ':' in j {
      JoinChars(path, "/", ':');
      assert false;
    }
    SplitThree(componentType, j, facetType, ':');
  }

  lemma SplitThree(a: string, b: string, c: string, sep: char)
    requires sep !in a && sep !in b && sep !in c
    ensures Split(a + [sep] + b + [sep] + c, sep) == [a, b, c]
  {
    var parts := [a, b, c];
    assert Join([c], [sep]) == c;
    assert parts[1..] == [b, c] && [b, c][1..] == [c];
    assert Join([b, c], [sep]) == b + [sep] + c;
    assert Join(parts, [sep]) == a + [sep] + (b + [sep] + c);
    assert a + [sep] + (b + [sep] + c) == a + [sep] + b + [sep] + c;
    SplitJoin(parts, sep);
  }

  /** The keys of the paths from `c` to each of `facets`. */
  function KeysOf(c: Component, facets: seq<Facet>): (r: set<string>)
    ensures forall x :: x in r <==> exists f :: f in facets && x == KeyOf(c, f)
  {
    set f | f in facets :: KeyOf(c, f)
  }

  /** `all_paths` after the components `cs`. */
  function AllPaths(cs: seq<Component>): (r: set<string>)
  {
    if cs == [] then {}
    else
      var c := cs[|cs| - 1];
      AllPaths(cs[..|cs| - 1]) + KeysOf(c, c.allFacets) + KeysOf(c, c.directFacets)
  }

  /** `included_paths` after the components `cs`. */
  function IncludedPaths(cs: seq<Component>): (r: set<string>)
    ensures r <= AllPaths(cs)
  {
    if cs == [] then {}
    else
      var c := cs[|cs| - 1];
      IncludedPaths(cs[..|cs| - 1]) + KeysOf(c, c.directFacets)
  }

  /** The meta types of some facets. */
  function FacetTypes(facets: seq<Facet>): (r: set<string>)
    ensures forall x :: x in r <==> exists f :: f in facets && f.metaType == x
  {
    set f | f in facets :: f.metaType
  }

  /** `class_summary[meta_type]` receives each default facet's meta type;
      being a defaultdict, it gains the key only when there is one. */
  function Summarize(summary: map<string, set<string>>, metaType: string, facets: seq<Facet>): map<string, set<string>>
  {
    if facets == [] then summary
    else summary[metaType := (if metaType in summary then summary[metaType] else {}) + FacetTypes(facets)]
  }

  /** `class_summary` after the components `cs`. */
  function ClassSummary(cs: seq<Component>): map<string, set<string>>
  {
    if cs == [] then map[]
    else
      var c := cs[|cs| - 1];
      Summarize(ClassSummary(cs[..|cs| - 1]), c.metaType, c.directFacets)
  }

  /** A path is listed exactly when it leads from some component to one of
      its facets, followed either way. */
  lemma {:induction false} AllPathsMeaning(cs: seq<Component>, x: string)
    ensures x in AllPaths(cs) <==> exists i, f :: (0 <= i < |cs|
      && (f in cs[i].allFacets || f in cs[i].directFacets) && x == KeyOf(cs[i], f))
  {
    if cs != [] {
      var front := cs[..|cs| - 1];
      AllPathsMeaning(front, x);
      if exists i, f :: 0 <= i < |cs| && (f in cs[i].allFacets || f in cs[i].directFacets) && x == KeyOf(cs[i], f) {
        var i, f :| 0 <= i < |cs| && (f in cs[i].allFacets || f in cs[i].directFacets) && x == KeyOf(cs[i], f);
        if i < |front| {
          assert front[i] == cs[i];
        }
      }
      if exists i, f :: (0 <= i < |front| && (f in front[i].allFacets || f in front[i].directFacets)
        && x == KeyOf(front[i], f))
      {
        var i, f :| 0 <= i < |front| && (f in front[i].allFacets || f in front[i].directFacets)
          && x == KeyOf(front[i], f);
        assert cs[i] == front[i];
      }
    }
  }

  /** The summary names a meta type exactly when a component of that type
      has a default facet, and lists exactly the meta types of the default
      facets of the components of that type. */
  lemma {:induction false} ClassSummaryMeaning(cs: seq<Component>, k: string, m: string)
    ensures k in ClassSummary(cs) <==> exists i :: 0 <= i < |cs| && cs[i].metaType == k && cs[i].directFacets != []
    ensures k in ClassSummary(cs) ==> (m in ClassSummary(cs)[k] <==>
      exists i, f :: 0 <= i < |cs| && cs[i].metaType == k && f in cs[i].directFacets && f.metaType == m)
  {
    if cs != [] {
      var front := cs[..|cs| - 1];
      var c := cs[|cs| - 1];
      ClassSummaryMeaning(front, k, m);
      assert forall i :: 0 <= i < |front| ==> front[i] == cs[i];
      if c.directFacets != [] && c.metaType == k {
        assert c.directFacets[0] in c.directFacets;
      }
      if exists i, f :: 0 <= i < |cs| && cs[i].metaType == k && f in cs[i].directFacets && f.metaType == m {
        var i, f :| 0 <= i < |cs| && cs[i].metaType == k && f in cs[i].directFacets && f.metaType == m;
        if i < |front| {
          assert front[i] == cs[i];
        }
      }
    }
  }

  /** The label `list_paths` puts in front of a path. */
  function PathLine(path: string, included: set<string>): (line: string)
    ensures path in included && '/' !in path ==> line == "DIRECT  " + path
    ensures path in included && '/' in path ==> line == "EXTRA   " + path
    ensures path !in included ==> line == "EXCLUDE " + path
  {
    if path in included then
      if '/' !in path then "DIRECT  " + path else "EXTRA   " + path
    else "EXCLUDE " + path
  }

  /** A default path whose meta types and ids hold no slash is DIRECT
      exactly when it crosses at most one relationship, and EXTRA when it
      crosses more. */
  lemma DirectMeansOneHop(c: Component, f: Facet, included: set<string>)
    requires KeyOf(c, f) in included
    requires '/' !in c.metaType && '/' !in f.metaType
    requires forall o :: o in f.chain ==> '/' !in o.id
    ensures var path := Reverse(RelIds(f.chain, c.self));
      PathLine(KeyOf(c, f), included) == (if |path| <= 1 then "DIRECT  " else "EXTRA   ") + KeyOf(c, f)
  {
    var path := Reverse(RelIds(f.chain, c.self));
    var ids := RelIds(f.chain, c.self);
    RelIdsMeaning(f.chain, c.self);
    ReverseIndex(ids);
    forall i | 0 <= i < |path| ensures '/' !in path[i] {
      assert path[i] == ids[|ids| - 1 - i];
      assert ids[|ids| - 1 - i] in ids;
    }
    PathKeySlash(c.metaType, path, f.metaType);
  }

  /** One line of the class summary. */
  function SummaryLine(sourceClass: string, facetTypes: seq<string>): string
  {
    sourceClass + " is reachable from " + Join(facetTypes, ", ")
  }

  /** What `list_paths` reports. */
  datatype PathReport = PathReport(
    allPaths: set<string>,
    includedPaths: set<string>,
    classSummary: map<string, set<string>>,
    sortedPaths: seq<string>,
    pathLines: seq<string>,
    summaryLines: seq<string>)

  /** The two facet loops of `list_paths` for one component. */
  method ComponentPaths(c: Component, allIn: set<string>, includedIn: set<string>, summaryIn: map<string, set<string>>)
    returns (all: set<string>, included: set<string>, summary: map<string, set<string>>)
    ensures all == allIn + KeysOf(c, c.allFacets) + KeysOf(c, c.directFacets)
    ensures included == includedIn + KeysOf(c, c.directFacets)
    ensures summary == Summarize(summaryIn, c.metaType, c.directFacets)
  {
    all := AllFacetPaths(c, allIn);
    all, included, summary := DirectFacetPaths(c, all, includedIn, summaryIn);
  }

  /** The facet key for `f`, computed as `list_paths` does. */
  method FacetKey(c: Component, f: Facet) returns (key: string)
    ensures key == KeyOf(c, f)
  {
    var path := RelationshipPath(f.chain, c.self);
    key := c.metaType + ":" + Join(path, "/") + ":" + f.metaType;
  }

  lemma KeysOfSnoc(c: Component, facets: seq<Facet>, f: Facet)
    ensures KeysOf(c, facets + [f]) == KeysOf(c, facets) + {KeyOf(c, f)}
  {
  }

  /** The loop over `get_facets(recurse_all=True)`. */
  method AllFacetPaths(c: Component, allIn: set<string>) returns (all: set<string>)
    ensures all == allIn + KeysOf(c, c.allFacets)
  {
    all := allIn;
    for i := 0 to |c.allFacets|
      invariant all == allIn + KeysOf(c, c.allFacets[..i])
    {
      var f := c.allFacets[i];
      var key := FacetKey(c, f);
      all := all + {key};
      assert c.allFacets[..i + 1] == c.allFacets[..i] + [f];
      KeysOfSnoc(c, c.allFacets[..i], f);
    }
    assert c.allFacets[..|c.allFacets|] == c.allFacets;
  }

  /** The loop over `get_facets()`. */
  method DirectFacetPaths(c: Component, allIn: set<string>, includedIn: set<string>, summaryIn: map<string, set<string>>)
    returns (all: set<string>, included: set<string>, summary: map<string, set<string>>)
    ensures all == allIn + KeysOf(c, c.directFacets)
    ensures included == includedIn + KeysOf(c, c.directFacets)
    ensures summary == Summarize(summaryIn, c.metaType, c.directFacets)
  {
    all, included, summary := allIn, includedIn, summaryIn;
    for i := 0 to |c.directFacets|
      invariant all == allIn + KeysOf(c, c.directFacets[..i])
      invariant included == includedIn + KeysOf(c, c.directFacets[..i])
      invariant summary == Summarize(summaryIn, c.metaType, c.directFacets[..i])
    {
      var f := c.directFacets[i];
      var key := FacetKey(c, f);
      all := all + {key};
      included := included + {key};
      summary := AddFacetType(summary, c.metaType, f.metaType);
      DirectStep(c, i, allIn, includedIn, summaryIn);
    }
    assert c.directFacets[..|c.directFacets|] == c.directFacets;
  }

  /** What one more default facet adds. */
  lemma DirectStep(c: Component, i: nat, allIn: set<string>, includedIn: set<string>, summaryIn: map<string, set<string>>)
    requires i < |c.directFacets|
    ensures var f := c.directFacets[i];
      && allIn + KeysOf(c, c.directFacets[..i + 1]) == allIn + KeysOf(c, c.directFacets[..i]) + {KeyOf(c, f)}
      && includedIn + KeysOf(c, c.directFacets[..i + 1]) == includedIn + KeysOf(c, c.directFacets[..i]) + {KeyOf(c, f)}
      && var before := Summarize(summaryIn, c.metaType, c.directFacets[..i]);
         Summarize(summaryIn, c.metaType, c.directFacets[..i + 1]) ==
           before[c.metaType := (if c.metaType in before then before[c.metaType] else {}) + {f.metaType}]
  {
    var f := c.directFacets[i];
    assert c.directFacets[..i + 1] == c.directFacets[..i] + [f];
    KeysOfSnoc(c, c.directFacets[..i], f);
    SummarizeStep(summaryIn, c.metaType, c.directFacets[..i], f);
  }

  /** `class_summary[metaType].add(facetType)` on the defaultdict. */
  method AddFacetType(summaryIn: map<string, set<string>>, metaType: string, facetType: string)
    returns (summary: map<string, set<string>>)
    ensures summary == summaryIn[metaType := (if metaType in summaryIn then summaryIn[metaType] else {}) + {facetType}]
  {
    var known := if metaType in summaryIn then summaryIn[metaType] else {};
    summary := summaryIn[metaType := known + {facetType}];
  }

  lemma SummarizeStep(summary: map<string, set<string>>, metaType: string, facets: seq<Facet>, f: Facet)
    ensures var before := Summarize(summary, metaType, facets);
      Summarize(summary, metaType, facets + [f]) ==
        before[metaType := (if metaType in before then before[metaType] else {}) + {f.metaType}]
  {
    assert FacetTypes(facets + [f]) == FacetTypes(facets) + {f.metaType};
    var known: set<string> := if metaType in summary then summary[metaType] else {};
    if facets == [] {
      assert facets + [f] == [f];
      assert FacetTypes([f]) == {f.metaType};
      assert Summarize(summary, metaType, facets) == summary;
    } else {
      var before := summary[metaType := known + FacetTypes(facets)];
      assert before[metaType := known + FacetTypes(facets) + {f.metaType}]
          == summary[metaType := known + FacetTypes(facets) + {f.metaType}];
      assert known + FacetTypes(facets + [f]) == known + FacetTypes(facets) + {f.metaType};
    }
  }

  /** The labelled lines for the sorted paths. */
  method PathLines(sorted: seq<string>, included: set<string>) returns (lines: seq<string>)
    ensures |lines| == |sorted|
    ensures forall i :: 0 <= i < |sorted| ==> lines[i] == PathLine(sorted[i], included)
  {
    lines := [];
    for i := 0 to |sorted|
      invariant |lines| == i
      invariant forall j :: 0 <= j < i ==> lines[j] == PathLine(sorted[j], included)
    {
      var path := sorted[i];
      if path in included {
        if '/' !in path {
          lines := lines + ["DIRECT  " + path];
        } else {
          lines := lines + ["EXTRA   " + path];
        }
      } else {
        lines := lines + ["EXCLUDE " + path];
      }
    }
  }

  /** `lines` lists `summary` one meta type per line, the meta types
      (`keys`) in sorted order and each one's facet meta types sorted. */
  ghost predicate SummaryListing(summary: map<string, set<string>>, keys: seq<string>, lines: seq<string>)
  {
    && StrictlySorted(keys) && (forall k :: k in keys <==> k in summary)
    && |lines| == |keys|
    && forall i :: 0 <= i < |keys| ==> exists facetTypes :: (StrictlySorted(facetTypes)
      && (forall y :: y in facetTypes <==> y in summary[keys[i]])
      && lines[i] == SummaryLine(keys[i], facetTypes))
  }

  /** The class summary lines. */
  method SummaryLines(summary: map<string, set<string>>) returns (keys: seq<string>, lines: seq<string>)
    ensures SummaryListing(summary, keys, lines)
  {
    keys := SortedList(summary.Keys);
    lines := [];
    for i := 0 to |keys|
      invariant |lines| == i
      invariant forall j :: 0 <= j < i ==> exists facetTypes :: (StrictlySorted(facetTypes)
        && (forall y :: y in facetTypes <==> y in summary[keys[j]])
        && lines[j] == SummaryLine(keys[j], facetTypes))
    {
      var facetTypes := SortedList(summary[keys[i]]);
      lines := lines + [SummaryLine(keys[i], facetTypes)];
    }
  }

  /** `list_paths`: the device named `deviceName` is looked up first and,
      when not found, only an error is logged (`Err`). */
  method ListPaths(deviceName: string, device: Option<seq<Component>>) returns (r: Result<PathReport, string>)
    ensures device.None? <==> r.Err?
    ensures r.Err? ==> r.error == "Device '" + deviceName + "' not found."
    ensures r.Ok? ==>
      var cs := device.value;
      var p := r.value;
      && p.allPaths == AllPaths(cs)
      && p.includedPaths == IncludedPaths(cs)
      && p.includedPaths <= p.allPaths
      && p.classSummary == ClassSummary(cs)
      && StrictlySorted(p.sortedPaths) && (forall x :: x in p.sortedPaths <==> x in p.allPaths)
      && |p.pathLines| == |p.sortedPaths|
      && (forall i :: 0 <= i < |p.sortedPaths| ==> p.pathLines[i] == PathLine(p.sortedPaths[i], p.includedPaths))
      && exists keys :: SummaryListing(ClassSummary(cs), keys, p.summaryLines)
  {
    if device.None? {
      return Err("Device '" + deviceName + "' not found.");
    }
    var cs := device.value;
    var all: set<string> := {};
    var included: set<string> := {};
    var summary: map<string, set<string>> := map[];
    for i := 0 to |cs|
      invariant all == AllPaths(cs[..i])
      invariant included == IncludedPaths(cs[..i])
      invariant summary == ClassSummary(cs[..i])
    {
      all, included, summary := ComponentPaths(cs[i], all, included, summary);
      assert cs[..i + 1][..i] == cs[..i];
    }
    assert cs[..|cs|] == cs;
    var sorted := SortedList(all);
    var lines := PathLines(sorted, included);
    var keys, summaryLines := SummaryLines(summary);
    return Ok(PathReport(all, included, summary, sorted, lines, summaryLines));
  }
}
