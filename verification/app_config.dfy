/**
  The accessors of the global settings class (backend/app/utils/config.py)
  that filter the JSON configuration by type, and the parsing of the
  `PIPELINE_STEPS` setting. The environment is a parameter: `None` for an
  unset variable.
 */
module AppConfig {
  import opened Results
  import opened Text
  import opened Json

  /** `[str(v) for v in values]`. */
  function StrItems(values: seq<Json>): (r: seq<Json>)
    ensures |r| == |values|
    ensures forall k :: 0 <= k < |r| ==> r[k] == JStr(Str(values[k]))
  {
    seq(|values|, k requires 0 <= k < |values| => JStr(Str(values[k])))
  }

  /**
    The loop shared by `keywords_tech` and `semantic_field_templates`: every
    entry whose value is a list is copied with its items stringified; the
    other entries are dropped.
   */
  function ListFields(fields: seq<(string, Json)>): seq<(string, Json)> {
    if fields == [] then []
    else
      var init := ListFields(fields[..|fields| - 1]);
      var (key, value) := fields[|fields| - 1];
      if value.JList? then Put(init, key, JList(StrItems(value.items))) else init
  }

  /** The entries a dict has under a key with a list value. */
  function ListFieldValue(fields: seq<(string, Json)>, key: string): Option<Json> {
    match Lookup(fields, key)
    case Some(JList(items)) => Some(JList(StrItems(items)))
    case _ => None
  }

  /**
    In a dict (whose keys are distinct), the filter keeps exactly the
    list-valued keys, with their items stringified.
   */
  lemma {:induction false} ListFieldsLookup(fields: seq<(string, Json)>, key: string)
    requires DistinctKeys(fields)
    ensures Lookup(ListFields(fields), key) == ListFieldValue(fields, key)
    decreases |fields|
  {
    if fields != [] {
      var init := fields[..|fields| - 1];
      var last := fields[|fields| - 1];
      assert init + [last] == fields;
      assert DistinctKeys(init);
      ListFieldsLookup(init, key);
      LookupSnoc(init, last, key);
      if last.1.JList? {
        PutLookups(ListFields(init), last.0, JList(StrItems(last.1.items)));
      }
      if last.0 == key {
        assert Lookup(init, key).None?;
      }
    }
  }

  /** The keys with list values, in dict order. */
  function ListKeys(fields: seq<(string, Json)>): seq<string> {
    if fields == [] then []
    else ListKeys(fields[..|fields| - 1]) + (if fields[|fields| - 1].1.JList? then [fields[|fields| - 1].0] else [])
  }

  /** The filtered dict keeps the source dict's key order. */
  lemma {:induction false} ListFieldsKeys(fields: seq<(string, Json)>)
    requires DistinctKeys(fields)
    ensures Keys(ListFields(fields)) == ListKeys(fields)
    decreases |fields|
  {
    if fields != [] {
      var init := fields[..|fields| - 1];
      var (key, value) := fields[|fields| - 1];
      assert DistinctKeys(init);
      ListFieldsKeys(init);
      if value.JList? {
        ListFieldsLookup(init, key);
        assert Lookup(init, key).None?;
        PutKeys(ListFields(init), key, JList(StrItems(value.items)));
      }
    }
  }

  /** `Config.keywords_tech`: a value that is not a dict yields `{}`. */
  function KeywordsTech(tech: Json): (r: seq<(string, Json)>)
    ensures !tech.JObj? ==> r == []
    ensures tech.JObj? && DistinctKeys(tech.fields) ==>
      forall key :: Lookup(r, key) == ListFieldValue(tech.fields, key)
  {
    if tech.JObj? then
      var r := ListFields(tech.fields);
      assert DistinctKeys(tech.fields) ==> forall key :: Lookup(r, key) == ListFieldValue(tech.fields, key) by {
        if DistinctKeys(tech.fields) {
          forall key ensures Lookup(r, key) == ListFieldValue(tech.fields, key) {
            ListFieldsLookup(tech.fields, key);
          }
        }
      }
      r
    else []
  }

  /**
    `Config.semantic_field_templates`: the list-valued entries of the
    `fields` dict, or `{}` when `fields` is not a dict. The templates value
    itself must be a dict, or `.get` raises.
   */
  function SemanticFieldTemplates(templates: Json): (r: Result<seq<(string, Json)>>)
    ensures r.Err? <==> !templates.JObj?
    ensures r.Ok? ==> r.value == KeywordsTech(Get(templates, "fields", JObj([])).value)
  {
    match Get(templates, "fields", JObj([]))
    case Ok(fields) => Ok(KeywordsTech(fields))
    case Err(e) => Err(e)
  }

  /**
    `Config.semantic_global_templates`: a copy of the `global` list (items
    not stringified), or `[]` when it is not a list.
   */
  function SemanticGlobalTemplates(templates: Json): (r: Result<seq<Json>>)
    ensures r.Err? <==> !templates.JObj?
    ensures r.Ok? && Lookup(templates.fields, "global").Some? && Lookup(templates.fields, "global").value.JList? ==>
      r.value == Lookup(templates.fields, "global").value.items
    ensures r.Ok? && !(Lookup(templates.fields, "global").Some? && Lookup(templates.fields, "global").value.JList?) ==>
      r.value == []
  {
    match Get(templates, "global", JList([]))
    case Ok(JList(items)) => Ok(items)
    case Ok(_) => Ok([])
    case Err(e) => Err(e)
  }

  /**
    The value `PIPELINE_STEPS` takes when the variable is unset,
    `"cleaner,line_filter,semantic,splitter,extractor,classifier,aggregator"`,
    written out piece by piece.
   */
  const DefaultStepsSetting: string :=
    "cleaner" + "," + ("line_filter" + "," + ("semantic" + "," + ("splitter" + "," +
    ("extractor" + "," + ("classifier" + "," + "aggregator")))))

  const DefaultSteps: seq<string> :=
    ["cleaner", "line_filter", "semantic", "splitter", "extractor", "classifier", "aggregator"]

  /** `os.getenv("PIPELINE_STEPS", default).strip().split(",")`. */
  function PipelineSteps(env: Option<string>): (r: seq<string>)
    ensures |r| >= 1
    ensures forall k :: 0 <= k < |r| ==> ',' !in r[k]
  {
    SplitOn(Strip(if env.Some? then env.value else DefaultStepsSetting), ',')
  }

  /** Joining the parts with commas gives back the stripped setting: nothing else is trimmed or dropped. */
  lemma PipelineStepsJoin(env: Option<string>)
    ensures Join(PipelineSteps(env), ',') == Strip(if env.Some? then env.value else DefaultStepsSetting)
  {
    JoinSplitOn(Strip(if env.Some? then env.value else DefaultStepsSetting), ',');
  }

  lemma Join7(a: string, b: string, c: string, d: string, e: string, f: string, g: string, sep: char)
    ensures Join([a, b, c, d, e, f, g], sep) ==
      a + [sep] + (b + [sep] + (c + [sep] + (d + [sep] + (e + [sep] + (f + [sep] + g)))))
  {
    assert [f, g][1..] == [g];
    assert Join([f, g], sep) == f + [sep] + Join([g], sep);
    assert [e, f, g][1..] == [f, g];
    assert Join([e, f, g], sep) == e + [sep] + Join([f, g], sep);
    assert [d, e, f, g][1..] == [e, f, g];
    assert Join([d, e, f, g], sep) == d + [sep] + Join([e, f, g], sep);
    assert [c, d, e, f, g][1..] == [d, e, f, g];
    assert Join([c, d, e, f, g], sep) == c + [sep] + Join([d, e, f, g], sep);
    assert [b, c, d, e, f, g][1..] == [c, d, e, f, g];
    assert Join([b, c, d, e, f, g], sep) == b + [sep] + Join([c, d, e, f, g], sep);
    assert [a, b, c, d, e, f, g][1..] == [b, c, d, e, f, g];
    assert Join([a, b, c, d, e, f, g], sep) == a + [sep] + Join([b, c, d, e, f, g], sep);
  }

  /** Seven comma-free names joined by commas split back into those names. */
  lemma Split7(a: string, b: string, c: string, d: string, e: string, f: string, g: string)
    requires ',' !in a && ',' !in b && ',' !in c && ',' !in d && ',' !in e && ',' !in f && ',' !in g
    requires a != [] && !IsSpace(a[0]) && g != [] && !IsSpace(g[|g| - 1])
    ensures var s := a + "," + (b + "," + (c + "," + (d + "," + (e + "," + (f + "," + g)))));
      SplitOn(Strip(s), ',') == [a, b, c, d, e, f, g]
  {
    var parts := [a, b, c, d, e, f, g];
    Join7(a, b, c, d, e, f, g, ',');
    forall k | 0 <= k < |parts| ensures ',' !in parts[k] {
    }
    SplitOnJoin(parts, ',');
    StripOfStripped(Join(parts, ','));
  }

  /** Unset, the setting lists the seven stages in pipeline order. */
  lemma DefaultPipelineSteps()
    ensures PipelineSteps(None) == DefaultSteps
  {
    Split7("cleaner", "line_filter", "semantic", "splitter", "extractor", "classifier", "aggregator");
  }

  /** Two comma-free names, joined by a comma and padded with spaces, split back into those names. */
  lemma SplitPadded(a: string, b: string)
    requires ',' !in a && ',' !in b
    requires a != [] && !IsSpace(a[0]) && b != [] && !IsSpace(b[|b| - 1])
    ensures SplitOn(Strip([' '] + (a + "," + b) + [' ']), ',') == [a, b]
  {
    var t := a + "," + b;
    StripPadded(t);
    JoinPair(a, b, ',');
    SplitOnJoin([a, b], ',');
  }

  /** Only the ends of the whole setting are stripped: spaces after a comma stay in the step name. */
  lemma InnerSpacesKept()
    ensures PipelineSteps(Some(" cleaner, splitter ")) == ["cleaner", " splitter"]
  {
    assert " cleaner, splitter " == [' '] + ("cleaner" + "," + " splitter") + [' '];
    SplitPadded("cleaner", " splitter");
  }

  lemma JoinPair(a: string, b: string, sep: char)
    ensures Join([a, b], sep) == a + [sep] + b
  {
    assert [a, b][1..] == [b];
  }

  lemma StripPadded(t: string)
    requires t != [] && Stripped(t)
    ensures Strip([' '] + t + [' ']) == t
  {
    var s := [' '] + t + [' '];
    assert s[1..] == t + [' '];
    assert TrimStart(s) == t + [' '];
    assert (t + [' '])[..|t|] == t;
    assert TrimEnd(t + [' ']) == t;
  }
}
