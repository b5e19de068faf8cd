/** The defaulting done by ClassSpec's constructor
    (ZenPacks/zenoss/ZenPackLib/lib/spec/ClassSpec.py): labels and widths
    that fall back on one another, parameters that may be one string or a
    list, and the "pattern streams" built from `extra_paths`. */
module ClassDefaults {
  import opened Wrappers
  import opened Strings

  /** Python's `x or d` on an optional string: None and '' are both falsy. */
  function OrElse(x: Option<string>, d: string): (r: string)
    ensures x.Some? && x.value != "" ==> r == x.value
    ensures x.None? || x.value == "" ==> r == d
  {
    if x.Some? && x.value != "" then x.value else d
  }

  /** Python's `x or d` on an optional int: None and 0 are both falsy. */
  function OrElseInt(x: Option<int>, d: int): (r: int)
    ensures x.Some? && x.value != 0 ==> r == x.value
    ensures x.None? || x.value == 0 ==> r == d
  {
    if x.Some? && x.value != 0 then x.value else d
  }

  /** A parameter that the caller may give as None, one string or a list. */
  datatype StringOrList = Absent | One(item: string) | Many(items: seq<string>)

  /** `[v]` for a string, `list(v)` for a list and the default for None. */
  function AsList(v: StringOrList, default: seq<string>): seq<string>
  {
    match v
    case Absent => default
    case One(s) => [s]
    case Many(xs) => xs
  }

  /** The constructor parameters that feed the display attributes. */
  datatype LabelParams = LabelParams(
    metaType: Option<string>,
    classLabel: Option<string>,
    pluralLabel: Option<string>,
    shortLabel: Option<string>,
    pluralShortLabel: Option<string>,
    labelWidth: int,
    pluralLabelWidth: Option<int>,
    contentWidth: Option<int>,
    monitoringTemplates: StringOrList,
    dynamicviewViews: StringOrList,
    dynamicviewGroup: Option<string>)

  /** The parameters a class spec written with nothing but its name gets. */
  const NoLabelParams := LabelParams(None, None, None, None, None, 80, None, None, Absent, Absent, None)

  /** The display attributes after defaulting. */
  datatype Labels = Labels(
    metaType: string,
    classLabel: string,
    pluralLabel: string,
    shortLabel: string,
    pluralShortLabel: string,
    labelWidth: int,
    pluralLabelWidth: int,
    contentWidth: int,
    monitoringTemplates: seq<string>,
    dynamicviewViews: seq<string>,
    dynamicviewGroup: string)

  /** The constructor's defaulting of the display attributes of class `name`.
      `pluralize` is the library's pluralisation helper, which is not part of
      this model. */
  function ClassLabels(name: string, p: LabelParams, pluralize: string -> string): (r: Labels)
    // meta_type falls back on the name, label on meta_type
    ensures r.metaType == OrElse(p.metaType, name)
    ensures r.classLabel == OrElse(p.classLabel, r.metaType)
    ensures r.pluralLabel == OrElse(p.pluralLabel, pluralize(r.classLabel))
    // a short label, when given, brings its own plural; otherwise both copy the long forms
    ensures r.shortLabel == OrElse(p.shortLabel, r.classLabel)
    ensures r.pluralShortLabel ==
      OrElse(p.pluralShortLabel, if OrElse(p.shortLabel, "") != "" then pluralize(r.shortLabel) else r.pluralLabel)
    ensures r.labelWidth == p.labelWidth
    ensures r.pluralLabelWidth == OrElseInt(p.pluralLabelWidth, p.labelWidth + 7)
    ensures r.contentWidth == OrElseInt(p.contentWidth, p.labelWidth)
    ensures r.monitoringTemplates == AsList(p.monitoringTemplates, [Without(r.classLabel, ' ')])
    ensures r.dynamicviewViews == AsList(p.dynamicviewViews, ["service_view"])
    ensures r.dynamicviewGroup == (if p.dynamicviewGroup.Some? then p.dynamicviewGroup.value else r.pluralShortLabel)
  {
    var metaType := OrElse(p.metaType, name);
    var classLabel := OrElse(p.classLabel, metaType);
    var pluralLabel := OrElse(p.pluralLabel, pluralize(classLabel));
    var hasShort := p.shortLabel.Some? && p.shortLabel.value != "";
    var shortLabel := if hasShort then p.shortLabel.value else classLabel;
    var pluralShortLabel :=
      if hasShort then OrElse(p.pluralShortLabel, pluralize(shortLabel))
      else OrElse(p.pluralShortLabel, pluralLabel);
    Labels(
      metaType, classLabel, pluralLabel, shortLabel, pluralShortLabel,
      p.labelWidth,
      OrElseInt(p.pluralLabelWidth, p.labelWidth + 7),
      OrElseInt(p.contentWidth, p.labelWidth),
      AsList(p.monitoringTemplates, [Without(classLabel, ' ')]),
      AsList(p.dynamicviewViews, ["service_view"]),
      if p.dynamicviewGroup.Some? then p.dynamicviewGroup.value else pluralShortLabel)
  }

  /** With nothing but a name, every label is the name, the widths are 80,
      87 and 80, the one monitoring template is the name without spaces and
      the class shows in the service view. */
  lemma BareClassLabels(name: string, pluralize: string -> string)
    requires name != ""
    ensures var r := ClassLabels(name, NoLabelParams, pluralize);
      && r.metaType == name && r.classLabel == name && r.shortLabel == name
      && r.pluralLabel == pluralize(name) && r.pluralShortLabel == pluralize(name)
      && r.labelWidth == 80 && r.pluralLabelWidth == 87 && r.contentWidth == 80
      && r.monitoringTemplates == [Without(name, ' ')]
      && r.dynamicviewViews == ["service_view"]
      && r.dynamicviewGroup == pluralize(name)
  {
  }

  /** An empty string counts as "not given": a class whose meta_type and label
      are '' still shows its name. */
  lemma EmptyLabelsFallBack(name: string, p: LabelParams, pluralize: string -> string)
    requires p.metaType == Some("") && p.classLabel == Some("") && p.shortLabel == Some("")
    ensures ClassLabels(name, p, pluralize).classLabel == name
    ensures ClassLabels(name, p, pluralize).shortLabel == name
  {
  }

  /** The default monitoring template is a single name without spaces, and a
      class without spaces in its label gets a template named after it. */
  lemma {:induction false} DefaultTemplateHasNoSpace(name: string, p: LabelParams, pluralize: string -> string)
    requires p.monitoringTemplates.Absent?
    ensures var r := ClassLabels(name, p, pluralize);
      |r.monitoringTemplates| == 1 && ' ' !in r.monitoringTemplates[0]
      && (' ' !in r.classLabel ==> r.monitoringTemplates[0] == r.classLabel)
  {
    var r := ClassLabels(name, p, pluralize);
    if ' ' !in r.classLabel { WithoutAbsent(r.classLabel, ' '); }
  }

  /** One stream of patterns for one `extra_paths` entry: each prefix of the
      entry, joined with '/' and anchored with '^', then the end marker
      '/?$'; nothing at all for an empty entry. */
  predicate IsPatternStream(parts: seq<string>, stream: seq<string>)
  {
    if |parts| == 0 then stream == []
    else
      && |stream| == |parts| + 1
      && (forall i :: 1 <= i <= |parts| ==> stream[i - 1] == "^" + Join(parts[..i], "/"))
      && stream[|parts|] == "/?$"
  }

  /** The `path_pattern_streams` loop of the constructor: one stream per
      `extra_paths` entry, in order; `extra_paths` itself defaults to []. */
  method PathPatternStreams(extraPaths: Option<seq<seq<string>>>)
    returns (streams: seq<seq<string>>, stored: seq<seq<string>>)
    ensures stored == (if extraPaths.Some? then extraPaths.value else [])
    ensures |streams| == |stored|
    ensures forall j :: 0 <= j < |stored| ==> IsPatternStream(stored[j], streams[j])
  {
    streams := [];
    if extraPaths.None? {
      stored := [];
      return;
    }
    stored := extraPaths.value;
    var j := 0;
    while j < |stored|
      invariant 0 <= j <= |stored|
      invariant |streams| == j
      invariant forall k :: 0 <= k < j ==> IsPatternStream(stored[k], streams[k])
    {
      var parts := stored[j];
      var stream: seq<string> := [];
      var i := 1;
      while i <= |parts|
        invariant 1 <= i <= |parts| + 1
        invariant |stream| == i - 1
        invariant forall m :: 1 <= m < i ==> stream[m - 1] == "^" + Join(parts[..m], "/")
      {
        stream := stream + ["^" + Join(parts[0..i], "/")];
        i := i + 1;
      }
      if |stream| > 0 {
        stream := stream + ["/?$"];
      }
      streams := streams + [stream];
      j := j + 1;
    }
  }

  /** Matching proceeds part by part: each pattern of a stream but the
      first is the previous one followed by '/' and the next part. */
  lemma PatternsExtend(parts: seq<string>, stream: seq<string>, i: nat)
    requires IsPatternStream(parts, stream)
    requires 1 <= i < |parts|
    ensures stream[i] == stream[i - 1] + "/" + parts[i]
  {
    assert parts[..i + 1] == parts[..i] + [parts[i]];
    JoinSnoc(parts[..i], parts[i], "/");
  }

  /** The last anchored pattern of a stream covers the whole entry. */
  lemma LastPatternIsWholeEntry(parts: seq<string>, stream: seq<string>)
    requires IsPatternStream(parts, stream) && |parts| > 0
    ensures stream[|parts| - 1] == "^" + Join(parts, "/")
    ensures stream[0] == "^" + parts[0]
  {
    assert parts[..|parts|] == parts;
    assert parts[..1] == [parts[0]];
  }
}
