/** The yUML class diagram printed by the zenpack command (`class_diagram`
    in ZenPacks/zenoss/ZenPackLib/lib/libexec/ZPLCommand.py): the classes,
    their inheritance, and the class relationships drawn according to their
    cardinality. The loaded zenpack.yaml is given as data; the printed
    lines are returned. */
module ClassDiagram {
  import opened Wrappers
  import opened Strings
  import opened ClassModel

  /** A class relationship of the zenpack.yaml. */
  datatype ClassRelationship = ClassRelationship(
    leftClass: string, leftRelname: string, rightRelname: string, rightClass: string, cardinality: string)

  /** A base as printed: a class name, or the `__name__` of a type. */
  function BaseName(b: Base): string
  {
    match b
    case Named(n) => n
    case External(t) => t
  }

  /** The line of a containing ('1:MC') relationship. */
  function ContainingLine(r: ClassRelationship): (line: Option<string>)
  {
    if r.cardinality == "1:MC" then
      Some("[" + r.leftClass + "]++" + r.leftRelname + "-" + r.rightRelname + "[" + r.rightClass + "]")
    else None
  }

  /** The line of a non-containing relationship: '1:1' is a dashed line,
      '1:M' has a diamond at the right end, 'M:M' at both ends. */
  function NonContainingLine(r: ClassRelationship): (line: Option<string>)
  {
    var middle := r.leftRelname + "-.-" + r.rightRelname;
    if r.cardinality == "1:1" then Some("[" + r.leftClass + "]" + middle + "[" + r.rightClass + "]")
    else if r.cardinality == "1:M" then Some("[" + r.leftClass + "]" + middle + "++[" + r.rightClass + "]")
    else if r.cardinality == "M:M" then Some("[" + r.leftClass + "]++" + middle + "++[" + r.rightClass + "]")
    else None
  }

  /** The four cardinalities each draw one line, in their own section and
      shape; any other cardinality draws nothing. */
  lemma CardinalityShapes(r: ClassRelationship)
    ensures var L, lr, rr, R := r.leftClass, r.leftRelname, r.rightRelname, r.rightClass;
      && (r.cardinality == "1:MC" ==>
            ContainingLine(r) == Some("[" + L + "]++" + lr + "-" + rr + "[" + R + "]") && NonContainingLine(r) == None)
      && (r.cardinality == "1:1" ==>
            NonContainingLine(r) == Some("[" + L + "]" + lr + "-.-" + rr + "[" + R + "]") && ContainingLine(r) == None)
      && (r.cardinality == "1:M" ==>
            NonContainingLine(r) == Some("[" + L + "]" + lr + "-.-" + rr + "++[" + R + "]") && ContainingLine(r) == None)
      && (r.cardinality == "M:M" ==>
            NonContainingLine(r) == Some("[" + L + "]++" + lr + "-.-" + rr + "++[" + R + "]") && ContainingLine(r) == None)
      && (r.cardinality !in {"1:MC", "1:1", "1:M", "M:M"} ==> ContainingLine(r) == None && NonContainingLine(r) == None)
  {
    var L, lr, rr, R := r.leftClass, r.leftRelname, r.rightRelname, r.rightClass;
    assert "[" + L + "]" + (lr + "-.-" + rr) + "[" + R + "]" == "[" + L + "]" + lr + "-.-" + rr + "[" + R + "]";
    assert "[" + L + "]" + (lr + "-.-" + rr) + "++[" + R + "]" == "[" + L + "]" + lr + "-.-" + rr + "++[" + R + "]";
    assert "[" + L + "]++" + (lr + "-.-" + rr) + "++[" + R + "]" == "[" + L + "]++" + lr + "-.-" + rr + "++[" + R + "]";
    assert "1:MC" != "1:1" && "1:MC" != "1:M" && "1:MC" != "M:M";
  }

  /** The lines drawn by `line` for the relationships, in order. */
  function ContainingLines(rels: seq<ClassRelationship>): (lines: seq<string>)
    ensures |lines| <= |rels|
  {
    if rels == [] then []
    else
      var front := ContainingLines(rels[..|rels| - 1]);
      var l := ContainingLine(rels[|rels| - 1]);
      if l.Some? then front + [l.value] else front
  }

  function NonContainingLines(rels: seq<ClassRelationship>): (lines: seq<string>)
    ensures |lines| <= |rels|
  {
    if rels == [] then []
    else
      var front := NonContainingLines(rels[..|rels| - 1]);
      var l := NonContainingLine(rels[|rels| - 1]);
      if l.Some? then front + [l.value] else front
  }

  /** A line is in the containing section exactly when it is the line of
      some '1:MC' relationship. */
  lemma {:induction false} ContainingLinesMeaning(rels: seq<ClassRelationship>, x: string)
    ensures x in ContainingLines(rels) <==>
      exists i :: 0 <= i < |rels| && rels[i].cardinality == "1:MC" && ContainingLine(rels[i]) == Some(x)
  {
    if rels != [] {
      var front := rels[..|rels| - 1];
      ContainingLinesMeaning(front, x);
      assert forall i :: 0 <= i < |front| ==> front[i] == rels[i];
    }
  }

  /** A line is in the non-containing section exactly when it is the line
      of some '1:1', '1:M' or 'M:M' relationship. */
  lemma {:induction false} NonContainingLinesMeaning(rels: seq<ClassRelationship>, x: string)
    ensures x in NonContainingLines(rels) <==>
      exists i :: 0 <= i < |rels| && rels[i].cardinality in {"1:1", "1:M", "M:M"} && NonContainingLine(rels[i]) == Some(x)
  {
    if rels != [] {
      var front := rels[..|rels| - 1];
      NonContainingLinesMeaning(front, x);
      assert forall i :: 0 <= i < |front| ==> front[i] == rels[i];
      forall i | 0 <= i < |rels| ensures NonContainingLine(rels[i]).Some? ==> rels[i].cardinality in {"1:1", "1:M", "M:M"} {
        CardinalityShapes(rels[i]);
      }
    }
  }

  /** The inheritance lines of one class: one per base, in order. */
  function BaseLines(spec: ClassRec): (lines: seq<string>)
    ensures |lines| == |spec.bases|
    ensures forall j :: 0 <= j < |spec.bases| ==> lines[j] == "[" + BaseName(spec.bases[j]) + "]^-[" + spec.name + "]"
  {
    seq(|spec.bases|, j requires 0 <= j < |spec.bases| => "[" + BaseName(spec.bases[j]) + "]^-[" + spec.name + "]")
  }

  /** The inheritance section for the classes taken in `order`. */
  function InheritanceLines(classes: ClassTable, order: seq<string>): seq<string>
    requires forall i :: 0 <= i < |order| ==> order[i] in classes
  {
    if order == [] then []
    else InheritanceLines(classes, order[..|order| - 1]) + BaseLines(classes[order[|order| - 1]])
  }

  /** Every inheritance line names a base of some class and the class,
      and every base of every class in the order has its line. */
  lemma {:induction false} InheritanceLinesMeaning(classes: ClassTable, order: seq<string>, x: string)
    requires forall i :: 0 <= i < |order| ==> order[i] in classes
    ensures x in InheritanceLines(classes, order) <==>
      exists i, j :: 0 <= i < |order| && 0 <= j < |classes[order[i]].bases|
        && x == "[" + BaseName(classes[order[i]].bases[j]) + "]^-[" + classes[order[i]].name + "]"
  {
    if order != [] {
      var front := order[..|order| - 1];
      InheritanceLinesMeaning(classes, front, x);
      var last := classes[order[|order| - 1]];
      assert forall i :: 0 <= i < |front| ==> front[i] == order[i];
      if x in BaseLines(last) {
        var j :| 0 <= j < |last.bases| && BaseLines(last)[j] == x;
      }
    }
  }

  /** The lines printed for the classes: their names sorted, in brackets. */
  method ClassLines(classes: ClassTable) returns (names: seq<string>, lines: seq<string>)
    ensures StrictlySorted(names) && (forall k :: k in names <==> k in classes)
    ensures |lines| == |names| && forall i :: 0 <= i < |names| ==> lines[i] == "[" + names[i] + "]"
  {
    names := SortedList(classes.Keys);
    lines := [];
    for i := 0 to |names|
      invariant |lines| == i && forall j :: 0 <= j < i ==> lines[j] == "[" + names[j] + "]"
    {
      lines := lines + ["[" + names[i] + "]"];
    }
  }

  /** The inheritance loop, over the classes in the dict's order (returned
      so that the result can be stated). */
  method InheritanceSection(classes: ClassTable) returns (lines: seq<string>, ghost order: seq<string>)
    ensures |order| == |classes| && (forall i :: 0 <= i < |order| ==> order[i] in classes)
    ensures forall k :: k in classes ==> k in order
    ensures lines == InheritanceLines(classes, order)
  {
    lines := [];
    order := [];
    var todo := classes.Keys;
    while todo != {}
      invariant todo <= classes.Keys
      invariant forall i :: 0 <= i < |order| ==> order[i] in classes && order[i] !in todo
      invariant forall k :: k in classes ==> k in todo || k in order
      invariant |order| + |todo| == |classes|
      invariant lines == InheritanceLines(classes, order)
      decreases todo
    {
      var cname :| cname in todo;
      var cspec := classes[cname];
      ghost var before := lines;
      for j := 0 to |cspec.bases|
        invariant lines == before + BaseLines(cspec)[..j]
      {
        lines := lines + ["[" + BaseName(cspec.bases[j]) + "]^-[" + cspec.name + "]"];
        assert BaseLines(cspec)[..j + 1] == BaseLines(cspec)[..j] + [BaseLines(cspec)[j]];
      }
      assert BaseLines(cspec)[..|cspec.bases|] == BaseLines(cspec);
      ghost var front := order;
      order := order + [cname];
      assert order[..|order| - 1] == front;
      todo := todo - {cname};
    }
  }

  /** The containing-relationships loop. */
  method ContainingSection(rels: seq<ClassRelationship>) returns (lines: seq<string>)
    ensures lines == ContainingLines(rels)
  {
    lines := [];
    for i := 0 to |rels|
      invariant lines == ContainingLines(rels[..i])
    {
      var r := rels[i];
      if r.cardinality == "1:MC" {
        lines := lines + ["[" + r.leftClass + "]++" + r.leftRelname + "-" + r.rightRelname + "[" + r.rightClass + "]"];
      }
      assert rels[..i + 1][..i] == rels[..i];
    }
    assert rels[..|rels|] == rels;
  }

  /** The non-containing-relationships loop. */
  method NonContainingSection(rels: seq<ClassRelationship>) returns (lines: seq<string>)
    ensures lines == NonContainingLines(rels)
  {
    lines := [];
    for i := 0 to |rels|
      invariant lines == NonContainingLines(rels[..i])
    {
      var r := rels[i];
      CardinalityShapes(r);
      if r.cardinality == "1:1" {
        lines := lines + ["[" + r.leftClass + "]" + r.leftRelname + "-.-" + r.rightRelname + "[" + r.rightClass + "]"];
      }
      if r.cardinality == "1:M" {
        lines := lines + ["[" + r.leftClass + "]" + r.leftRelname + "-.-" + r.rightRelname + "++[" + r.rightClass + "]"];
      }
      if r.cardinality == "M:M" {
        lines := lines + ["[" + r.leftClass + "]++" + r.leftRelname + "-.-" + r.rightRelname + "++[" + r.rightClass + "]"];
      }
      assert rels[..i + 1][..i] == rels[..i];
    }
    assert rels[..|rels|] == rels;
  }

  /** `class_diagram`: for 'yuml', the printed lines section by section
      (each section header after the first is printed with a blank line in
      front); for any other type only an error is logged (`Err`). */
  method ClassDiagram(diagramType: string, classes: ClassTable, rels: seq<ClassRelationship>)
    returns (r: Result<seq<string>, string>, ghost order: seq<string>)
    ensures diagramType != "yuml" <==> r.Err?
    ensures r.Err? ==> r.error == "Diagram type '" + diagramType + "' is not supported."
    ensures r.Ok? ==> |order| == |classes| && (forall i :: 0 <= i < |order| ==> order[i] in classes)
    ensures r.Ok? ==> forall k :: k in classes ==> k in order
    ensures r.Ok? ==> exists names, classLines :: (
      && StrictlySorted(names) && (forall k :: k in names <==> k in classes)
      && |classLines| == |names| && (forall i :: 0 <= i < |names| ==> classLines[i] == "[" + names[i] + "]")
      && r.value == ["# Classes"] + classLines
                  + ["\n# Inheritence"] + InheritanceLines(classes, order)
                  + ["\n# Containing Relationships"] + ContainingLines(rels)
                  + ["\n# Non-Containing Relationships"] + NonContainingLines(rels))
  {
    order := [];
    if diagramType != "yuml" {
      return Err("Diagram type '" + diagramType + "' is not supported."), order;
    }
    var names, classLines := ClassLines(classes);
    var inheritance;
    inheritance, order := InheritanceSection(classes);
    var containing := ContainingSection(rels);
    var nonContaining := NonContainingSection(rels);
    r := Ok(["# Classes"] + classLines
            + ["\n# Inheritence"] + inheritance
            + ["\n# Containing Relationships"] + containing
            + ["\n# Non-Containing Relationships"] + nonContaining);
  }
}
