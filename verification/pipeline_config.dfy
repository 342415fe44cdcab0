/**
  The pipeline configuration record and its provenance
  (backend/app/services/pipeline_config.py).

  A configuration is a step list plus five JSON sections. It comes either
  from the database row `active` (tagged `"db"`) or, when there is none or
  reading it fails, from the step setting and the JSON files (tagged
  `"file"`). The database, the files and `apply_to_runtime`'s numeric
  coercions are outside the model: their outcomes are parameters.
 */
module PipelineConfig {
  import opened Results
  import opened Text
  import opened Json
  import opened Steps

  datatype PipelineConfigData = PipelineConfigData(
    steps: seq<string>,
    lineFilter: Json,
    semanticTemplates: Json,
    keywordsTech: Json,
    indexRules: Json,
    classifierForeigner: Json)

  /** The keys `to_dict` emits, in order. */
  const DictKeys: seq<string> :=
    ["steps", "line_filter", "semantic_templates", "keywords_tech", "index_rules", "classifier_foreigner"]

  /** A section as `from_dict` leaves it: truthy, or the empty dict. */
  predicate NormalSection(j: Json) {
    Truthy(j) || j == JObj([])
  }

  /** What `from_dict` produces: clean step names and normal sections. */
  predicate WellFormed(c: PipelineConfigData) {
    && (forall k :: 0 <= k < |c.steps| ==> c.steps[k] != [] && Stripped(c.steps[k]))
    && NormalSection(c.lineFilter)
    && NormalSection(c.semanticTemplates)
    && NormalSection(c.keywordsTech)
    && NormalSection(c.indexRules)
    && NormalSection(c.classifierForeigner)
  }

  /** `data.get(key, {}) or {}` on a dict's fields. */
  function Section(fields: seq<(string, Json)>, key: string): (r: Json)
    ensures NormalSection(r)
    ensures Lookup(fields, key).None? ==> r == JObj([])
    ensures Lookup(fields, key).Some? && Truthy(Lookup(fields, key).value) ==> r == Lookup(fields, key).value
  {
    match Lookup(fields, key)
    case Some(v) => OrEmptyDict(v)
    case None => JObj([])
  }

  /** `[str(step).strip() for step in items if str(step).strip()]`. */
  function StepNames(items: seq<Json>): (r: seq<string>)
    ensures forall k :: 0 <= k < |r| ==> r[k] != [] && Stripped(r[k])
  {
    StrippedNonBlank(seq(|items|, k requires 0 <= k < |items| => Str(items[k])))
  }

  /**
    `PipelineConfigData.from_dict`. It fails like Python when `data` is not
    a dict (no `get`) or its `steps` value cannot be iterated.
   */
  function FromDict(data: Json): (r: Result<PipelineConfigData>)
    ensures r.Ok? <==> data.JObj? && Iterate(Get(data, "steps", JList([])).value).Ok?
    ensures r.Ok? ==> WellFormed(r.value)
    ensures r.Ok? ==>
      && r.value.lineFilter == Section(data.fields, "line_filter")
      && r.value.semanticTemplates == Section(data.fields, "semantic_templates")
      && r.value.keywordsTech == Section(data.fields, "keywords_tech")
      && r.value.indexRules == Section(data.fields, "index_rules")
      && r.value.classifierForeigner == Section(data.fields, "classifier_foreigner")
  {
    match data
    case JObj(fields) =>
      var steps := Get(data, "steps", JList([])).value;
      (match Iterate(steps)
       case Ok(items) =>
         Ok(PipelineConfigData(
           StepNames(items),
           Section(fields, "line_filter"),
           Section(fields, "semantic_templates"),
           Section(fields, "keywords_tech"),
           Section(fields, "index_rules"),
           Section(fields, "classifier_foreigner")))
       case Err(e) => Err(e))
    case _ => Err(AttributeError("'get' on a configuration that is not a dict"))
  }

  function StepValues(steps: seq<string>): (r: seq<Json>)
    ensures |r| == |steps|
    ensures forall k :: 0 <= k < |r| ==> r[k] == JStr(steps[k])
  {
    seq(|steps|, k requires 0 <= k < |steps| => JStr(steps[k]))
  }

  /** `to_dict`: exactly the six keys, in their declared order. */
  function ToDict(c: PipelineConfigData): (r: Json)
    ensures r.JObj? && Keys(r.fields) == DictKeys
  {
    JObj([
      ("steps", JList(StepValues(c.steps))),
      ("line_filter", c.lineFilter),
      ("semantic_templates", c.semanticTemplates),
      ("keywords_tech", c.keywordsTech),
      ("index_rules", c.indexRules),
      ("classifier_foreigner", c.classifierForeigner)])
  }

  lemma SectionOfNormal(fields: seq<(string, Json)>, key: string, v: Json)
    requires Lookup(fields, key) == Some(v) && NormalSection(v)
    ensures Section(fields, key) == v
  {
  }

  lemma ToDictLookups(c: PipelineConfigData)
    ensures var f := ToDict(c).fields;
      && Lookup(f, "steps") == Some(JList(StepValues(c.steps)))
      && Lookup(f, "line_filter") == Some(c.lineFilter)
      && Lookup(f, "semantic_templates") == Some(c.semanticTemplates)
      && Lookup(f, "keywords_tech") == Some(c.keywordsTech)
      && Lookup(f, "index_rules") == Some(c.indexRules)
      && Lookup(f, "classifier_foreigner") == Some(c.classifierForeigner)
  {
    var f := ToDict(c).fields;
    assert DistinctKeys(f);
    LookupDistinct(f, 0);
    LookupDistinct(f, 1);
    LookupDistinct(f, 2);
    LookupDistinct(f, 3);
    LookupDistinct(f, 4);
    LookupDistinct(f, 5);
  }

  /** Step names survive a trip through `to_dict` unchanged when they are clean. */
  lemma StepNamesOfClean(steps: seq<string>)
    requires forall k :: 0 <= k < |steps| ==> steps[k] != [] && Stripped(steps[k])
    ensures StepNames(StepValues(steps)) == steps
  {
    var items := StepValues(steps);
    assert seq(|items|, k requires 0 <= k < |items| => Str(items[k])) == steps;
    StrippedNonBlankOfClean(steps);
  }

  /** `from_dict(to_dict(c)) == c` for every configuration `from_dict` can produce. */
  lemma FromDictToDict(c: PipelineConfigData)
    requires WellFormed(c)
    ensures FromDict(ToDict(c)) == Ok(c)
  {
    var f := ToDict(c).fields;
    ToDictLookups(c);
    var items := StepValues(c.steps);
    assert Get(ToDict(c), "steps", JList([])) == Ok(JList(items));
    assert Iterate(JList(items)) == Ok(items);
    StepNamesOfClean(c.steps);
    SectionOfNormal(f, "line_filter", c.lineFilter);
    SectionOfNormal(f, "semantic_templates", c.semanticTemplates);
    SectionOfNormal(f, "keywords_tech", c.keywordsTech);
    SectionOfNormal(f, "index_rules", c.indexRules);
    SectionOfNormal(f, "classifier_foreigner", c.classifierForeigner);
  }

  /** So normalising twice is normalising once. */
  lemma FromDictIdempotent(data: Json)
    requires FromDict(data).Ok?
    ensures FromDict(ToDict(FromDict(data).value)) == FromDict(data)
  {
    FromDictToDict(FromDict(data).value);
  }

  /** The two settings `apply_to_runtime` installs that the rest of the model reads. */
  datatype Runtime = Runtime(configSource: Option<string>, pipelineSteps: seq<string>)

  /** `apply_to_runtime`: the tag and the steps; the section settings are not modelled. */
  function Apply(payload: PipelineConfigData, source: string): (r: Runtime)
    ensures r.configSource == Some(source) && r.pipelineSteps == payload.steps
  {
    Runtime(Some(source), payload.steps)
  }

  /**
    `_default_payload`: the step setting normalised like `from_dict` does,
    and the five files' parsed contents as they are.
   */
  function DefaultPayload(configSteps: seq<string>, files: PipelineConfigData): (r: PipelineConfigData)
    ensures r.steps == StrippedNonBlank(configSteps)
    ensures r == files.(steps := r.steps)
  {
    files.(steps := StrippedNonBlank(configSteps))
  }

  /** A loaded configuration with its provenance tag. */
  datatype Loaded = Loaded(config: PipelineConfigData, source: string)

  /**
    `load_config`. `row` is what the database read produced: the stored
    content, no row, or an error. `coerces` says whether `apply_to_runtime`'s
    numeric conversions succeed on a payload. Any failure on the database
    path falls back to the defaults; a failure on the fallback path
    propagates. The runtime settings are returned in both cases.
   */
  function LoadConfig(row: Result<Option<Json>>, defaults: PipelineConfigData,
                      coerces: PipelineConfigData -> bool, rt: Runtime): (r: (Result<Loaded>, Runtime))
    ensures r.0.Ok? ==> r.0.value.source == "db" || r.0.value.source == "file"
    ensures r.0.Ok? && r.0.value.source == "db" <==>
      row.Ok? && row.value.Some? && FromDict(row.value.value).Ok? && coerces(FromDict(row.value.value).value)
    ensures r.0.Ok? && r.0.value.source == "db" ==> r.0.value.config == FromDict(row.value.value).value
    ensures r.0.Ok? && r.0.value.source == "file" ==> r.0.value.config == defaults
    ensures r.0.Ok? ==> r.1 == Apply(r.0.value.config, r.0.value.source)
    ensures r.0.Err? ==> r.1 == Apply(defaults, "file") && !coerces(defaults)
  {
    var fromDb :=
      if row.Ok? && row.value.Some? && FromDict(row.value.value).Ok? then Some(FromDict(row.value.value).value) else None;
    if fromDb.Some? && coerces(fromDb.value) then
      (Ok(Loaded(fromDb.value, "db")), Apply(fromDb.value, "db"))
    else if coerces(defaults) then
      (Ok(Loaded(defaults, "file")), Apply(defaults, "file"))
    else
      (Err(ValueError("setting conversion failed")), Apply(defaults, "file"))
  }

  /**
    `save_config`: the payload comes back tagged `"db"` once the database
    write succeeds; a failed write or conversion propagates.
   */
  function SaveConfig(payload: PipelineConfigData, stored: bool, coerces: PipelineConfigData -> bool, rt: Runtime)
    : (r: (Result<Loaded>, Runtime))
    ensures r.0.Ok? <==> stored && coerces(payload)
    ensures r.0.Ok? ==> r.0.value == Loaded(payload, "db")
    ensures !stored ==> r.1 == rt
    ensures stored ==> r.1 == Apply(payload, "db")
  {
    if !stored then (Err(ExternalError), rt)
    else if coerces(payload) then (Ok(Loaded(payload, "db")), Apply(payload, "db"))
    else (Err(ValueError("setting conversion failed")), Apply(payload, "db"))
  }

  /**
    `build_summary`: the general settings summary with `config_source`
    (`"file"` when never set) and `pipeline_steps` assigned.
   */
  function BuildSummary(general: seq<(string, Json)>, rt: Runtime): (r: seq<(string, Json)>)
    ensures Lookup(r, "config_source") == Some(JStr(if rt.configSource.Some? then rt.configSource.value else "file"))
    ensures Lookup(r, "pipeline_steps") == Some(JList(StepValues(rt.pipelineSteps)))
    ensures forall key :: key != "config_source" && key != "pipeline_steps" ==> Lookup(r, key) == Lookup(general, key)
  {
    var source := if rt.configSource.Some? then rt.configSource.value else "file";
    var withSource := Put(general, "config_source", JStr(source));
    PutLookups(general, "config_source", JStr(source));
    PutLookups(withSource, "pipeline_steps", JList(StepValues(rt.pipelineSteps)));
    Put(withSource, "pipeline_steps", JList(StepValues(rt.pipelineSteps)))
  }

  /** After a successful save, the summary reports the database and the saved steps. */
  lemma SaveThenSummary(general: seq<(string, Json)>, payload: PipelineConfigData, coerces: PipelineConfigData -> bool, rt: Runtime)
    requires coerces(payload)
    ensures var (saved, rt') := SaveConfig(payload, true, coerces, rt);
      && saved == Ok(Loaded(payload, "db"))
      && Lookup(BuildSummary(general, rt'), "config_source") == Some(JStr("db"))
      && Lookup(BuildSummary(general, rt'), "pipeline_steps") == Some(JList(StepValues(payload.steps)))
  {
  }

  /** After a load, the summary's source is `"db"` exactly when the database row was used. */
  lemma LoadThenSummary(general: seq<(string, Json)>, row: Result<Option<Json>>, defaults: PipelineConfigData,
                        coerces: PipelineConfigData -> bool, rt: Runtime)
    requires coerces(defaults)
    ensures var (loaded, rt') := LoadConfig(row, defaults, coerces, rt);
      && loaded.Ok?
      && (Lookup(BuildSummary(general, rt'), "config_source") == Some(JStr("db")) <==> loaded.value.source == "db")
      && Lookup(BuildSummary(general, rt'), "pipeline_steps") == Some(JList(StepValues(loaded.value.config.steps)))
  {
    var (loaded, rt') := LoadConfig(row, defaults, coerces, rt);
    assert JStr("file") != JStr("db");
  }

  /**
    A configuration the update route saves (always the output of
    `from_dict`) comes back unchanged, tagged `"db"`, from the next load of
    the stored `to_dict` content.
   */
  lemma SaveThenLoad(payload: PipelineConfigData, defaults: PipelineConfigData,
                     coerces: PipelineConfigData -> bool, rt: Runtime)
    requires WellFormed(payload) && coerces(payload)
    ensures var (saved, rt') := SaveConfig(payload, true, coerces, rt);
      LoadConfig(Ok(Some(ToDict(payload))), defaults, coerces, rt').0 == Ok(Loaded(payload, "db"))
  {
    FromDictToDict(payload);
  }
}
