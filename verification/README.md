# EREX block analytics, modelled in Dafny

EREX reads job-offer e-mails and turns each message body into statistics:

- the **cleaner** unifies line breaks and collapses whitespace;
- the **line filter** drops greetings, signatures, footers and decorative lines, but keeps lines that carry a job keyword;
- the **semantic extractor** picks the span of lines that resemble a job description;
- the **splitter** cuts the body into blocks at `案件名` / `案件` marker lines;
- the **keyword extractor** finds technical keywords, longest first, without overlaps, and counts each keyword at most once per block;
- the **classifier** tags blocks with classes such as `ok` / `ng` for foreigner eligibility.

The **aggregator** combines the per-block hits into keyword and class summaries. The dashboard then draws the top-ten keyword bar chart and the class pie.

The **pipeline** runs the stages named in its step setting. That setting comes from the environment, or from a configuration stored in the database and read back through `pipeline_config`. Index rules come from a JSON file or a database table.

This project models that core as pure Dafny functions over immutable values and proves what each stage promises. Examples:

- the cleaner is idempotent, and its output has a fixed line shape;
- the filter keeps an order-preserving selection of the input lines;
- splitter blocks are ordered, disjoint and hold their own lines;
- a longer keyword shadows a shorter one it overlaps;
- counts are additive over block lists;
- summaries rank keywords by count, breaking ties by first appearance;
- `from_dict(to_dict(c)) == c`;
- the batch path of the pipeline agrees with the single-message path.

Several things the code does not compute itself arrive as parameters:

- regex engines and character classes;
- embedding scores;
- `str.lower` / `str.upper`;
- the HTML substitutions;
- database rows and files.

One file per source module:

- `text.dfy`: Python string operations;
- `json.dfy`: parsed JSON and dict behaviour;
- `counters.dfy`: `Counter`;
- `sorting.dfy`: stable sorts;
- `stats.dfy`: ratios;
- `results.dfy`: the error type;
- `steps.dfy`: step-name normalisation;
- `database.dfy`: connection strings;
- one file each for the stages named above.

## Model

| member | source | states |
|---|---|---|
| Text.Strip | backend/app/services/splitter.py:35 | `str.strip()` yields a string that neither starts nor ends with whitespace |
| Text.StripSlice | backend/app/services/splitter.py:35 | the stripped string is a slice of the input with only whitespace outside it |
| Text.StripOfStripped | backend/app/services/splitter.py:44 | stripping an already stripped string changes nothing |
| Text.StripEmptyIffAllSpace | backend/app/services/splitter.py:36 | a stripped text is empty exactly when the input is all whitespace, which is when `split` yields no block |
| Text.SplitLines | backend/app/services/splitter.py:31 | `splitlines()` yields lines without line boundaries, none at all exactly for the empty string, never more lines than characters |
| Text.SingleLine | backend/app/services/classifier.py:48 | a non-empty string without line boundaries is one line |
| Text.SplitOn | backend/app/utils/config.py:118-125 | `split(",")` always yields at least one part, and no part holds the separator |
| Text.JoinSplitOn | backend/app/services/cleaner.py:41-45 | joining the parts of a split with the same separator gives back the original string |
| Text.SplitOnJoin | backend/app/services/cleaner.py:45 | separator-free parts joined and split again come back unchanged |
| Text.JoinEmptyIffNoParts | backend/app/services/cleaner.py:45 | non-empty parts join to the empty string only when there are none |
| Text.StripJoinKeepsPart | backend/app/services/semantic.py:89 | the stripped join of some lines contains the stripped content of each line |
| Text.StripKeepsSlice | backend/app/services/semantic.py:89 | stripping keeps the stripped content of every slice of the string |
| Text.NatToString | backend/app/services/pipeline_config.py:67-68 | `str(n)` of a natural number is a non-empty string of decimal digits |
| Sorting.StableSortDesc | backend/app/services/extractor.py:19 | `sorted(..., key=len, reverse=True)` yields a permutation of its input ordered by non-increasing key |
| Sorting.StableSortKeepsTies | backend/app/services/extractor.py:19 | the elements with one key value appear in the same relative order before and after sorting |
| Counters.Dedup | backend/app/services/extractor.py:12-18 | the `seen` set loop keeps the first occurrence of every element: no repeats, and the same elements as the input |
| Counters.DedupOfDistinct | backend/app/services/extractor.py:12-18 | a list without repeats passes the `seen` loop unchanged |
| Counters.Inc | backend/app/services/extractor.py:86 | `counter[k] += 1` raises the count of `k` by one and leaves every other count alone |
| Counters.IncAll | backend/app/services/extractor.py:76 | `counter.update(unique)` with distinct keys adds one to each listed key and nothing to the others |
| Counters.Update | backend/app/services/classifier.py:66 | `counter.update(classes)` adds to each key its number of occurrences in the list |
| Stats.Ratio | backend/app/services/extractor.py:99 | `count / total` times `total` is `count`; it lies in [0, 1] when `count <= total` and is positive exactly when `count` is |
| Json.OrEmptyDict | backend/app/services/pipeline_config.py:35-39 | `value or {}` keeps a truthy value and replaces a falsy one with the empty dict |
| Json.Lookup | backend/app/services/pipeline_config.py:34-39 | a dict lookup finds nothing exactly when no entry has the key, and otherwise returns an entry's value |
| Json.LookupDistinct | backend/app/services/pipeline_config.py:34-39 | in a dict with distinct keys each key finds its own value |
| Json.PutLookups | backend/app/services/pipeline_config.py:187-188 | after `d[key] = v` the key holds `v` and every other key keeps its value |
| Json.PutKeys | backend/app/services/pipeline_config.py:187-188 | assignment keeps the key order; an absent key is appended at the end |
| Json.Get | backend/app/services/pipeline_config.py:34 | `value.get(key, default)` fails exactly when the value is not a dict |
| Json.Iterate | backend/app/services/pipeline_config.py:34 | a `for` loop runs over a list's items, a string's characters or a dict's keys, and fails on anything else |
| Json.Str | backend/app/services/pipeline_config.py:34 | `str(value)` of a string is the string itself |
| Json.StrEmptyIff | backend/app/services/pipeline_config.py:34 | only the empty string stringifies to the empty string, so `if str(step).strip()` drops no other value on that account |
| Database.Dsn | backend/app/services/pipeline_config.py:60-68 | the connection string starts with `postgresql://` |
| Database.DsnUserInfo | backend/app/services/index_rules.py:153-161 | the user information is `user:password` with a password and `user` without one, followed by `@host:port/db` |
| Database.PasswordIffColon | backend/app/services/index_rules.py:159-161 | for a user name without a colon, the user information holds a colon exactly when a password is set |
| Steps.StrippedNonBlank | backend/app/services/pipeline.py:31 | the step comprehension yields at most one name per item, each non-empty and stripped |
| Steps.StrippedNonBlankAppend | backend/app/services/pipeline.py:31 | the comprehension works item by item: it distributes over concatenation |
| Steps.StrippedNonBlankOne | backend/app/services/pipeline.py:31 | one item becomes its stripped self, or nothing when that is blank |
| Steps.StrippedNonBlankOfClean | backend/app/services/pipeline_config.py:130 | names that are already stripped and non-blank pass unchanged |
| AppConfig.StrItems | backend/app/utils/config.py:196 | `[str(v) for v in values]` has one string per value, each the value's `str` |
| AppConfig.ListFieldsLookup | backend/app/utils/config.py:190-196 | the filtered dict holds a key exactly when the source dict has a list under it, with that list stringified |
| AppConfig.ListFieldsKeys | backend/app/utils/config.py:190-196 | the filtered dict keeps the source dict's key order |
| AppConfig.KeywordsTech | backend/app/utils/config.py:190-196 | `keywords_tech` is `{}` for a non-dict value, and otherwise keeps exactly the list-valued entries |
| AppConfig.SemanticFieldTemplates | backend/app/utils/config.py:180-187 | `semantic_field_templates` fails when the templates are not a dict, and otherwise filters `fields` like `keywords_tech` |
| AppConfig.SemanticGlobalTemplates | backend/app/utils/config.py:175-177 | `semantic_global_templates` is the `global` list when there is one and `[]` otherwise; a non-dict fails |
| AppConfig.PipelineSteps | backend/app/utils/config.py:118-125 | the step setting yields at least one comma-free name |
| AppConfig.PipelineStepsJoin | backend/app/utils/config.py:118-125 | the names joined with commas give back the stripped setting, so nothing else is trimmed or dropped |
| AppConfig.DefaultPipelineSteps | backend/app/utils/config.py:118-125 | unset, the setting lists the seven stages from `cleaner` to `aggregator` in pipeline order |
| AppConfig.InnerSpacesKept | backend/app/utils/config.py:118-125 | only the ends of the whole setting are stripped: `" cleaner, splitter "` gives `"cleaner"` and `" splitter"` |
| AppConfig.SplitPadded | backend/app/utils/config.py:118-125 | two names joined by a comma and padded with spaces split back into those names |
| PipelineConfig.Section | backend/app/services/pipeline_config.py:35-39 | `data.get(key, {}) or {}` is truthy or the empty dict; a missing key gives `{}` and a truthy value is kept |
| PipelineConfig.StepNames | backend/app/services/pipeline_config.py:34 | every step name `from_dict` keeps is non-empty and stripped |
| PipelineConfig.FromDict | backend/app/services/pipeline_config.py:32-40 | `from_dict` succeeds exactly on a dict whose `steps` is iterable; the result is well formed and its sections are the normalised values |
| PipelineConfig.ToDict | backend/app/services/pipeline_config.py:42-50 | `to_dict` emits exactly the six keys, in declaration order |
| PipelineConfig.FromDictToDict | backend/app/services/pipeline_config.py:32-50 | `from_dict(to_dict(c)) == c` for every configuration `from_dict` can produce |
| PipelineConfig.FromDictIdempotent | backend/app/services/pipeline_config.py:32-50 | normalising a stored configuration twice is normalising it once |
| PipelineConfig.Apply | backend/app/services/pipeline_config.py:156-160 | `apply_to_runtime` installs the source tag and the payload's steps |
| PipelineConfig.DefaultPayload | backend/app/services/pipeline_config.py:128-136 | the fallback payload carries the normalised step setting and the files' contents unchanged |
| PipelineConfig.LoadConfig | backend/app/services/pipeline_config.py:138-149 | the result is tagged `"db"` exactly when a row was read, parsed and applied, and `"file"` with the defaults otherwise; a failing fallback propagates; the runtime always reflects the returned configuration |
| PipelineConfig.SaveConfig | backend/app/services/pipeline_config.py:151-154 | a save succeeds exactly when the write and the conversions succeed, and returns the payload tagged `"db"`; a failed write leaves the runtime alone |
| PipelineConfig.BuildSummary | backend/app/services/pipeline_config.py:185-189 | the summary reports the runtime's source (`"file"` when never set) and its steps, and every other setting as the general summary has it |
| PipelineConfig.SaveThenSummary | backend/app/services/pipeline_config.py:151-189 | after a successful save the summary reports `"db"` and the saved steps |
| PipelineConfig.LoadThenSummary | backend/app/services/pipeline_config.py:138-189 | after a load the summary's source is `"db"` exactly when the database row was used |
| PipelineConfig.SaveThenLoad | backend/app/services/pipeline_config.py:81-111 | a saved well-formed configuration is loaded back unchanged and tagged `"db"` |
| IndexRules.ParseRules | backend/app/services/index_rules.py:56-70 | the file loop keeps only dict items with a name and a pattern, never more rules than items, and none from a list without dicts |
| IndexRules.LoadSync | backend/app/services/index_rules.py:45-70 | a missing or unreadable file gives `[]`; a parsed file fails exactly when it is not a dict or its `rules` is not iterable; every loaded rule is valid |
| IndexRules.ToDictKeys | backend/app/services/index_rules.py:22-28 | `to_dict` writes the four keys `name`, `pattern`, `description`, `enabled` in that order |
| IndexRules.RuleOfToDict | backend/app/services/index_rules.py:22-28 | a rule reads back from its own dict |
| IndexRules.ParseRuleDicts | backend/app/services/index_rules.py:56-70 | valid rules written with `to_dict` parse back to the same list |
| IndexRules.LoadSyncRoundTrip | backend/app/services/index_rules.py:45-70 | a rules file holding the dicts of valid rules loads back exactly those rules |
| IndexRules.LoadSyncExample | backend/tests/test_index_rules.py:15-36 | the test's file loads one rule `rule-a` / `foo` / `test rule`, disabled |
| IndexRules.LoadSyncSkipsInvalid | backend/app/services/index_rules.py:58-68 | an entry without a pattern and an entry that is not a dict are dropped; the valid rule is kept |
| IndexRules.SanitizeAsWritten | backend/app/services/index_rules.py:83-86 | the table-name check as written accepts exactly the names its pattern matches, returning them unchanged |
| IndexRules.PatternMatchesIff | backend/app/services/index_rules.py:84 | that pattern matches an identifier, or an identifier followed by one trailing newline |
| IndexRules.TrailingNewlineAccepted | backend/app/services/index_rules.py:84 | `"t\n"` passes the check as written although it is not an identifier |
| IndexRules.Sanitize | backend/app/services/index_rules.py:83-86 | the intended check accepts exactly the identifiers and otherwise raises `Unsafe index rule table name` |
| IndexRules.SanitizeRefinesAsWritten | backend/tests/test_index_rules.py:73-76 | the intended check agrees with the written one on every name it accepts, and rejects `"t\n"` and `"invalid-name"` |
| IndexRules.CreateStore | backend/app/services/index_rules.py:136-151 | an override wins; the `db` source builds a database store exactly when the table name passes the check as written, always for identifiers; any other source builds the file store |
| IndexRules.NewlineTableAccepted | backend/app/services/index_rules.py:140-148 | the `db` source accepts the table name `"t\n"` |
| IndexRules.DbRules | backend/app/services/index_rules.py:102-123 | the database store returns only enabled rules, at most one per row, and the rule of every row whose `enabled` is not false, with a NULL description read as `""` |
| IndexRules.DbRulesSelect | backend/app/services/index_rules.py:105-123 | the returned rules are exactly the rules of the enabled rows, in row order: each comes from an enabled row at an increasing position, and every enabled row contributes one, so a disabled row contributes nothing |
| IndexRules.LoadRules | backend/app/services/index_rules.py:36-124 | an override returns its rules, the file store its file's rules, and the database store succeeds exactly when the query does, with enabled rules only |
| IndexRules.ListRules | backend/app/services/index_rules.py:163-166 | `list_rules` creates the store on first use only and then reads from it |
| IndexRules.StoreIsKept | backend/app/services/index_rules.py:163-166 | once a store is chosen, later calls use it whatever the settings say |
| IndexRules.OverridePreferred | backend/tests/test_index_rules.py:40-48 | a service with an override store returns the override's rules |
| IndexRules.FileSourceExample | backend/tests/test_index_rules.py:52-70 | the file source returns the rule `file_rule` of its file |
| LineFilter.Compact | backend/app/services/preprocess/line_filter.py:68 | removing `\s+` leaves no whitespace and never lengthens the line |
| LineFilter.KeptLines | backend/app/services/preprocess/line_filter.py:34-44 | an enabled filter keeps at most as many lines as it is given |
| LineFilter.FilterLines | backend/app/services/preprocess/line_filter.py:29-44 | a disabled filter returns the lines unchanged; an enabled one keeps exactly the lines the per-line decision accepts, in order |
| LineFilter.KeptIsSubsequence | backend/app/services/preprocess/line_filter.py:34-44 | the kept lines are an order-preserving selection of the input, none rewritten |
| LineFilter.KeptMembership | backend/app/services/preprocess/line_filter.py:34-44 | a line survives exactly when it is in the input and the decision keeps it |
| LineFilter.ForceDeleteWins | backend/app/services/preprocess/line_filter.py:36-37 | a force-deleted line never survives, even with a job keyword |
| LineFilter.JobKeywordKeeps | backend/tests/test_line_filter.py:25-29 | a line with a job keyword that is not force-deleted survives, even if it looks like a signature |
| LineFilter.BlankLineDropped | backend/app/services/preprocess/line_filter.py:50-52 | a blank line without a job keyword is dropped |
| LineFilter.GarbageDropped | backend/app/services/preprocess/line_filter.py:41-42 | any garbage line without a job keyword is dropped |
| LineFilter.RepeatedSymbolIsDecorative | backend/app/services/preprocess/line_filter.py:71-72 | three repeats of one non-alphanumeric character are decorative whatever the decoration set |
| Cleaner.ReplaceCrLf | backend/app/services/cleaner.py:39 | replacing `\r\n` changes nothing in text without `\r` and brings in no character other than `\n` |
| Cleaner.ReplaceCr | backend/app/services/cleaner.py:39 | after replacing `\r` no `\r` remains |
| Cleaner.CollapseNoDouble | backend/app/services/cleaner.py:42 | collapsing inline space leaves no two spaces in a row |
| Cleaner.CollapseNoTab | backend/app/services/cleaner.py:42 | collapsing inline space leaves no tab, form feed or vertical tab |
| Cleaner.CollapseChars | backend/app/services/cleaner.py:42 | collapsing brings in no character other than the space |
| Cleaner.NormalizeLineShape | backend/app/services/cleaner.py:42 | a line without breaks normalises to nothing or to a clean line: stripped, no control space, no double space |
| Cleaner.Images | backend/app/services/cleaner.py:41-42 | every line, blank or not, has its normalised image at the same position |
| Cleaner.NonBlankSelect | backend/app/services/cleaner.py:43-44 | the non-empty filter keeps exactly the non-empty entries, in increasing positions, covering all of them |
| Cleaner.NormalizeWhitespace | backend/app/services/cleaner.py:38-45 | a normalised text is empty or its lines are all clean |
| Cleaner.UnifiedLines | backend/app/services/cleaner.py:39-41 | after unifying line breaks no line holds `\n` or `\r` |
| Cleaner.NormalizedLines | backend/app/services/cleaner.py:38-45 | the normalised text's lines are exactly the non-empty normalised input lines, in order |
| Cleaner.NormalizedTextShape | backend/app/services/cleaner.py:38-45 | a non-empty normalised text neither starts nor ends with a line break, and has no blank line, no control space and no double space |
| Cleaner.NormalizedHasNoCr | backend/app/services/cleaner.py:39 | a normalised text holds no `\r` |
| Cleaner.NormalizeFixed | backend/app/services/cleaner.py:38-45 | a text without `\r` whose lines are all clean is left as it is |
| Cleaner.NormalizeIdempotent | backend/app/services/cleaner.py:38-45 | normalising twice is normalising once |
| Cleaner.NormalizeEmpty | backend/app/services/cleaner.py:38-45 | the empty text normalises to itself |
| Cleaner.NormalizeOfJoin | backend/app/services/cleaner.py:38-45 | normalising lines joined by `\n` normalises each line and drops the empty ones |
| Cleaner.IndentedWords | backend/app/services/cleaner.py:42 | an indent is stripped and a run of inline space between two words becomes one space |
| Cleaner.IndentedLineExample | backend/tests/test_cleaner.py:20-22 | `"  another\tline"` normalises to `"another line"` |
| Cleaner.NormalizeExample | backend/tests/test_cleaner.py:20-22 | `"a line\n  another\tline\n\nlast"` normalises to `"a line\nanother line\nlast"` |
| Cleaner.CleanBodyExample | backend/tests/test_cleaner.py:20-22 | plain text, given as a message or as raw text, keeps its line breaks and loses its blank line and indentation |
| Cleaner.CleanBody | backend/app/services/cleaner.py:30-35 | `clean_body` normalises a message's body, else the text, else the empty string, after the markup substitutions; the output is already normalised |
| Splitter.MarkersFrom | backend/app/services/splitter.py:33 | the markers from a line on are exactly the marker lines from there, in increasing order |
| Splitter.Markers | backend/app/services/splitter.py:33-38 | the marker list holds exactly the marker lines of the body, strictly increasing |
| Splitter.NoMarkersInHead | backend/app/services/splitter.py:25-27 | a body no longer than the skipped head has no marker |
| Splitter.BlockText | backend/app/services/splitter.py:44 | a block's text is stripped |
| Splitter.BlocksFrom | backend/app/services/splitter.py:39-47 | blocks with blank text are dropped, so at most one block per marker and none empty |
| Splitter.BlockOrigin | backend/app/services/splitter.py:40-46 | every block is the unchanged block of one of the markers |
| Splitter.BlocksOrdered | backend/app/services/splitter.py:40-46 | blocks lie inside the body, start at or after their marker, and come in line order without overlap |
| Splitter.MarkerOpensBlock | backend/app/services/splitter.py:45-46 | every marker whose text is not blank opens a block |
| Splitter.Split | backend/app/services/splitter.py:30-47 | no block of `split` has empty text |
| Splitter.NoMarkerWholeBody | backend/app/services/splitter.py:34-36 | without a marker the stripped body is the only block, spanning lines 0 to `total - 1`, unless it is blank |
| Splitter.BlocksFromMarkers | backend/app/services/splitter.py:38-47 | with markers every block starts at a marker, ends on the line before the next marker or on the last line, and holds the stripped text of its own lines, in order |
| Splitter.MarkerBlocks | backend/app/services/splitter.py:40-46 | the marker blocks hold their own lines, start at a marker and end where that marker's range ends |
| Splitter.BlockHasOwnText | backend/app/services/splitter.py:41-44 | the block of a marker starts at it and holds the stripped text of its own lines |
| Splitter.MarkerHasBlock | backend/app/services/splitter.py:45-46 | conversely every marker whose lines are not blank opens a block of `split` |
| Splitter.BracketedTitleIsMarker | backend/app/utils/config.py:112-115 | `【案件名】` matches the marker patterns |
| Splitter.SentenceIsNotMarker | backend/tests/test_splitter.py:45-50 | running text mentioning `案件` is not a marker |
| Extractor.AllKeywords | backend/app/services/extractor.py:14-15 | every keyword of every category, and nothing else |
| Extractor.SortedKeywords | backend/app/services/extractor.py:11-19 | `_sorted_keywords` holds exactly the configured keywords, once each, longest first |
| Extractor.SortedKeywordsDistinctAndStable | backend/app/services/extractor.py:11-19 | the sorted keywords are distinct, and keywords of equal length keep their first-seen order |
| Extractor.OverlapsIffSharedPosition | backend/app/services/extractor.py:68-69 | for non-empty spans `_overlaps` means exactly "some position lies in both", and it is symmetric |
| Extractor.AssignAll | backend/app/services/extractor.py:46-47 | assigning one category's keywords maps each lowered keyword to that category and leaves other keys alone |
| Extractor.CategoryMapIsLast | backend/app/services/extractor.py:43-48 | the category map holds a lowered keyword exactly when a group lists it, mapped to the last such group |
| Extractor.NewExtractor | backend/app/services/extractor.py:36-41 | the constructor derives the sorted keywords and the category map from the configuration |
| Extractor.CategoryIsLast | backend/app/services/extractor.py:62 | a keyword's category is that of the last group listing it up to case, and `"unknown"` when none does |
| Extractor.ConfiguredKeywordHasCategory | backend/app/services/extractor.py:62 | a configured keyword never falls back to `"unknown"` |
| Extractor.FirstFree | backend/app/services/extractor.py:57-61 | the first match that overlaps no accepted span, or none exactly when every match overlaps one |
| Extractor.ExtractFromInvariant | backend/app/services/extractor.py:55-65 | the accepted spans stay pairwise disjoint, each hit's span is a match of its keyword, and no keyword is hit twice |
| Extractor.ExtractKeywords | backend/app/services/extractor.py:50-65 | every hit names a configured keyword with its category |
| Extractor.FreeMatchIsHit | backend/app/services/extractor.py:55-64 | a keyword with a match overlapping none of the spans accepted before it is hit: its hit follows the earlier hits, carries the category map's category, and its accepted span is its first such match |
| Extractor.NoFreeMatchIsMissed | backend/app/services/extractor.py:57-60 | a keyword all of whose matches overlap a span accepted before it is not hit |
| Extractor.HitIffFreeMatch | backend/app/services/extractor.py:55-64 | a sorted keyword is hit exactly when one of its matches overlaps none of the spans accepted before it |
| Extractor.ClearMatchIsHit | backend/app/services/extractor.py:55-64 | a match that overlaps no match of any keyword tried earlier makes its keyword a hit |
| Extractor.ClearOfLonger | backend/app/services/extractor.py:55 | the keywords tried before a keyword are other keywords at least as long, so a span clear of their matches is clear of every earlier match |
| Extractor.ContainedMatchShadowed | backend/app/services/extractor.py:57-60 | once a longer keyword is hit, a shorter one whose only match lies inside the longer one's only match is not |
| Extractor.LongerKeywordsExample | backend/tests/test_extractor.py:4-13 | in the test's text, under an assumed configuration of the four keywords and the matches their patterns are taken to yield, `C++` and `Tailwind CSS` are hit and `C` and `CSS` are not; the hits are derived, not assumed |
| Extractor.ExtractKeywordsSpans | backend/app/services/extractor.py:55-65 | the spans of one block's hits are disjoint matches of their keywords, and the keywords are distinct |
| Extractor.ShadowedKeywordMissed | backend/app/services/extractor.py:57-60 | a keyword all of whose matches overlap accepted spans is never hit |
| Extractor.LongerKeywordWins | backend/tests/test_extractor.py:4-13 | a shorter keyword whose every match lies inside a hit of a longer one is not reported |
| Extractor.HitKeywords | backend/app/services/extractor.py:75 | the keyword set of a block holds each hit keyword once |
| Extractor.HitKeywordsAreHits | backend/app/services/extractor.py:75 | the hits already have distinct keywords, so the set is the hits' keywords in hit order |
| Extractor.CountLists | backend/app/services/extractor.py:71-77 | after updating with each block's set, a keyword's count is the number of sets holding it |
| Extractor.CountByKeyword | backend/app/services/extractor.py:71-77 | `count_by_keyword` counts each keyword once for each block that hits it |
| Extractor.CountOncePerBlockExample | backend/tests/test_extractor.py:16-22 | `Python` counts 2 over the three test blocks, though the first block holds it twice |
| Extractor.CountsBounded | backend/app/services/extractor.py:71-77 | every present count lies between 1 and the number of blocks |
| Extractor.CountByKeywordAdditive | backend/app/services/extractor.py:71-77 | counting two block lists separately and adding gives the count of both |
| Extractor.CountedKeywordIsConfigured | backend/app/services/extractor.py:71-77 | only configured keywords are ever counted |
| Extractor.IncCategory | backend/app/services/extractor.py:86 | `setdefault(category, Counter())[keyword] += 1` raises exactly that keyword's count in its category |
| Extractor.CategoryLists | backend/app/services/extractor.py:79-87 | a keyword's count under a category is the number of sets holding it when the category is its own, and 0 otherwise |
| Extractor.CountByCategory | backend/app/services/extractor.py:79-87 | `count_by_category` files each keyword's block count under its category and nowhere else |
| Extractor.MostCommon | backend/app/services/extractor.py:98 | `most_common()` lists exactly the counted keywords, by descending count |
| Extractor.MostCommonTies | backend/app/services/extractor.py:98 | keywords with equal counts keep their insertion order |
| Extractor.MostCommonOfTie | backend/app/services/extractor.py:98 | two keywords with the same count come out in insertion order |
| Extractor.FirstSeen | backend/app/services/extractor.py:81-86 | the counter's insertion order lists each counted keyword once: those hit in some block |
| Extractor.CategoryItems | backend/app/services/extractor.py:96-101 | a category's items have the keyword's count and share of all blocks, by descending count, and name exactly its counted keywords |
| Extractor.Summarize | backend/app/services/extractor.py:89-102 | no blocks give `{}`; otherwise the categories are those counted, and each list is ranked by count |
| Extractor.SummarizeCategories | backend/app/services/extractor.py:89-102 | a category is summarized exactly when one of its keywords is hit in some block |
| Extractor.SummarizeItem | backend/app/services/extractor.py:96-101 | every item carries its keyword's category, block count and `count / total` |
| Extractor.SummarizeComplete | backend/app/services/extractor.py:89-102 | every keyword of a category that some block hits has an item |
| Extractor.SummarizeTies | backend/app/services/extractor.py:89-102 | two keywords hit once each, in separate blocks, are listed in block order with ratio 1/2 |
| Extractor.SummarizeTieExample | backend/app/services/extractor.py:89-102 | blocks `Go` and `Python` are summarized as `Go` then `Python`, each with count 1 and ratio 0.5 |
| Semantic.HitIndices | backend/app/services/semantic.py:73 | the hit indices are exactly the lines scoring at least the threshold, in increasing order |
| Semantic.Span | backend/app/services/semantic.py:84-85 | the first and last hit bound every hit; none exactly when no line is a hit |
| Semantic.Select | backend/app/services/semantic.py:73-97 | matched exactly when some line hits; unmatched gives empty text, score 0 and no lines; matched spans from the first hit to the last with the span's text |
| Semantic.Extract | backend/app/services/semantic.py:59-97 | `extract` returns nothing exactly for a body without lines, and the selected span otherwise |
| Semantic.SpanKeepsGaps | backend/app/services/semantic.py:89 | the span text holds every line from the first hit to the last, including lines below the threshold |
| Semantic.SelectScore | backend/app/services/semantic.py:86-87 | a matched score is the mean of the hit scores only |
| Semantic.ScoreBounds | backend/app/services/semantic.py:86-87 | a matched score lies between the threshold and the highest score |
| Semantic.MiddleSpanExample | backend/tests/test_semantic.py:26-34 | the test body selects lines 1 to 2 with text `"match line 1\nmatch line 2"` |
| Semantic.NoHitIsUnmatched | backend/app/services/semantic.py:74-82 | a body with lines but no hit gives an unmatched result, not nothing |
| Classifier.MatchLine | backend/app/services/classifier.py:53-57 | the pattern loop finds a match exactly when some escaped pattern occurs in the line |
| Classifier.MatchClass | backend/app/services/classifier.py:51-59 | the line loop of one class yields that class's entries |
| Classifier.ClassifyBlock | backend/app/services/classifier.py:47-60 | `classify_block` yields each class's entries, classes in configuration order |
| Classifier.MatchingLinesPositive | backend/app/services/classifier.py:52-57 | a class has matching lines exactly when one of its lines matches |
| Classifier.ClassHitsIff | backend/app/services/classifier.py:51-59 | one class's entries name it exactly when one of its lines matches, in both modes |
| Classifier.ClassifiedIff | backend/app/services/classifier.py:47-60 | a class is listed for a block exactly when one of the block's lines matches it |
| Classifier.DedupeListsOnceInOrder | backend/app/services/classifier.py:58-59 | with `dedupe` each class is listed at most once, in configuration order |
| Classifier.NoDedupeOncePerLine | backend/app/services/classifier.py:52-59 | without `dedupe` a class is listed once for each line that matches it |
| Classifier.ClassifyBlocks | backend/app/services/classifier.py:62-67 | `classify_blocks` gives every class the sum over blocks of 1 if listed (with `dedupe`) or its number of entries |
| Classifier.DedupeCountBounded | backend/app/services/classifier.py:66 | with `dedupe` no count exceeds the number of blocks |
| Classifier.ClassCountAppend | backend/app/services/classifier.py:62-67 | class counts are additive over concatenated block lists |
| Classifier.Summarize | backend/app/services/classifier.py:69-78 | no blocks give `{}`; otherwise the classes are those counted |
| Classifier.SummarizeStat | backend/app/services/classifier.py:69-78 | a class is summarized exactly when counted, with its count and `count / total` |
| Classifier.SummarizeRatioBounded | backend/app/services/classifier.py:76 | with `dedupe` every ratio lies in (0, 1] |
| Classifier.ExampleBlockHits | backend/tests/test_classifier.py:6-20 | under an assumed ok/ng configuration (one class per pattern), the test's blocks are classified `ok`, `ng` and nothing |
| Classifier.SummarizedOnce | backend/tests/test_classifier.py:16-20 | a class listed by one of three blocks has count 1 and ratio 1/3 |
| Classifier.RatiosNeedNotSumToOne | backend/app/services/classifier.py:69-78 | under an assumed ok/ng configuration, the test's ratios are shares of all blocks, so they sum to 2/3, not 1 |
| Aggregator.Texts | backend/app/services/aggregator.py:33 | one text per block, in order |
| Aggregator.Aggregate | backend/app/services/aggregator.py:31-63 | one aggregated block per input block with its own text, lines and hits; a missing extractor or classifier gives empty hits and an empty summary |
| Aggregator.AggregatedKeywords | backend/app/services/aggregator.py:37-51 | block `i` carries the keyword hits of its own text: distinct, configured keywords |
| Aggregator.AggregatedClasses | backend/app/services/aggregator.py:41-52 | block `i` lists a class exactly when one of its lines matches it |
| Aggregator.Run | backend/app/routes/pipeline.py:151-175 | an empty run gives the empty-run summary; otherwise the aggregation of all blocks together and the number of messages |
| Aggregator.RunCountsAreSums | backend/app/routes/pipeline.py:161-174 | the overall keyword and class counts are the sums of the per-message counts |
| Charts.Ranking | frontend/components/Charts.tsx:34 | at most ten entries, sorted by descending count, all taken from the input |
| Charts.RankingFromInput | frontend/components/Charts.tsx:34 | every ranked entry comes from the input |
| Charts.RankingIsTop | frontend/components/Charts.tsx:34 | an entry left out of the ranking counts no more than any ranked entry |
| Charts.RankingKeepsTies | frontend/components/Charts.tsx:34 | entries with equal counts keep their input order |
| Charts.PieData | frontend/components/Charts.tsx:91-95 | one slice per entry, with the upper-cased name, the count and the ratio |
| Charts.PieCoversSummary | frontend/components/Charts.tsx:91-95 | the pie has one slice per class of the summary, with its count and ratio |
| Charts.PieTotal | frontend/components/Charts.tsx:91-95 | the slices add up to the classified total |
| Pipeline.ImportNames | backend/app/services/pipeline.py:10 | `from m import ...` succeeds exactly when every name is bound, and otherwise raises `ImportError` for a missing name |
| Pipeline.SemanticImportFails | backend/app/services/pipeline.py:10 | importing the pipeline module fails on `prepare_semantic_input`, and the extractor has no `extract_batch` |
| Pipeline.New | backend/app/services/pipeline.py:29-43 | the steps are normalised, and each component is built exactly when its step is listed |
| Pipeline.CleanStepsKept | backend/app/services/pipeline.py:31 | clean step names reach the pipeline unchanged |
| Pipeline.DefaultEnablesAll | backend/app/services/pipeline.py:29-43 | the default steps enable every component |
| Pipeline.SpacedStepEnabled | backend/app/services/pipeline.py:31-34 | a step written after `", "` in the setting is still enabled |
| Pipeline.ApplyLineFilter | backend/app/services/pipeline.py:45-48 | without the filter the body passes unchanged |
| Pipeline.Fallback | backend/app/services/pipeline.py:51-53 | without the splitter, a blank body gives no block and any other body one block of its stripped text |
| Pipeline.SplitBody | backend/app/services/pipeline.py:50-54 | `_split` uses the splitter when enabled and the fallback otherwise; no block is empty |
| Pipeline.FallbackIsMarkerless | backend/app/services/pipeline.py:50-54 | on a stripped body without marker lines, the fallback gives exactly what the splitter gives |
| Pipeline.FallbackCountsStrippedLines | backend/app/services/pipeline.py:53 | the fallback counts the stripped text's lines, so a leading blank line gives end line 0 where the splitter gives 1 |
| Pipeline.FilteredBody | backend/app/services/pipeline.py:68-69 | the body is cleaned only when `cleaner` is a step |
| Pipeline.AggregationOf | backend/app/services/pipeline.py:73-75 | the aggregation is skipped exactly when `aggregator` is not a step |
| Pipeline.ResultFor | backend/app/services/pipeline.py:77-83 | the result carries the message's path and subject, the blocks of the filtered body and their aggregation |
| Pipeline.ProcessMessage | backend/app/services/pipeline.py:65-83 | the semantic stage runs on the filtered body only when enabled |
| Pipeline.ProcessMessages | backend/app/services/pipeline.py:85-121 | the messages are zipped with the batch's results, so the shorter of the two decides the count |
| Pipeline.OneResultPerMessage | backend/app/services/pipeline.py:85-121 | with a batch of the right length there is one result per message, in order, with its path and subject |
| Pipeline.BatchAgreesWithSingle | backend/app/services/pipeline.py:85-121 | when the batch answers body by body like `extract`, each batch result equals the single-message result |
| Pipeline.NoAggregatorStep | backend/app/services/pipeline.py:109-111 | without the `aggregator` step every aggregation is the empty placeholder |

## Left out

- I/O is not modelled: files, the database, the network and the e-mail parsers (`pst_extractor.py`, `email_parser.py`). Their outcomes arrive as parameters: parsed files, rows or a failure, and message values.
- Regular-expression engines are parameters: the line filter's patterns, the splitter's `\s` / `\W` classes and the keyword finder. Only the escaped, literal patterns of the classifier are modelled as substring search.
- The HTML substitutions of `strip_html` are a parameter (`markup`). Only the `_normalize_whitespace` step that ends it is modelled.
- `html.unescape` is left out for the same reason.
- Semantic.Select: scores are exact reals supplied per line. Embeddings, cosine similarity and the sentence-transformer model are left out, and `np.mean` is exact, so floating-point rounding is not modelled.
- Stats.Ratio: `count / total` is an exact real. Python's float division rounds, so the source's ratios may differ in the last bit.
- `get_semantic_extractor`, `default_model` and `_embed` are not modelled because they only build or call the model.
- Cleaner.CleanBody: the logging call of `clean_body` (`cleaner.py:34`) is left out, because it has no effect on the result.
- Pipeline.ProcessMessage: the logging of `process_message` (`pipeline.py:66`) and of `extract` is left out. So is the `try/except` around `extract`; the extractor's result is a parameter that already includes its error handling.
- `str.lower` and `str.upper` are parameters because Unicode case mapping is not modelled.
- Dict key order of results is not modelled: summaries, class counts and category maps are Dafny maps. The order of Python dict insertion, and JavaScript's `Object.entries` order for the pie, are therefore lost.
- Extractor.HitKeywords: lists a block's keyword set in hit order. Python iterates a `set`, whose order depends on string hashes, so the source's tie order inside one block is not determined and the model fixes one.
- PipelineConfig.Apply: only the source tag and the steps are modelled. The sections and the `int` / `float` coercions of `apply_to_runtime` (`pipeline_config.py:162-183`) are left out; whether they succeed is the parameter `coerces`.
- `Config.summary` (`config.py:146-172`) is the `general` parameter of `BuildSummary`. It lists process settings only.
- `_default_index_rules_path`, `_load_json` and the other path helpers of `config.py` are left out because they only read the file system.
- IndexRules.DbRules: ignores `ORDER BY name`. String collation belongs to the database, so the model keeps the rows in the order they arrive.
- PipelineConfig.LoadConfig: the fallback's defaults are a parameter. In the source, `_default_payload` (pipeline_config.py:128-136) reads `PIPELINE_STEPS` when the fallback runs. A database row whose numeric settings fail to convert has already set `PIPELINE_STEPS` to its own steps (line 160, before the conversions at 164-168), so after such a failure the fallback takes that row's steps. The model does not track this partial update of the runtime settings.
- The `asyncpg` import error, connection failures and the `_ensure_table` DDL are one `Err` in the model.
- Json.Repr: ignores escapes and Python's choice of quote character. It is only used for `str()` of non-string values.
- Json: has no floating-point variant. Numbers in configuration sections are carried as integers, so a float such as `1.5` in a keyword list cannot be represented.
- Cleaner.CleanBody: `str(source or "")` is narrowed to three cases: a message body, a text, or nothing. Other objects' `__str__` is not modelled, and neither is a message whose `body` is `None`.
- Pipeline.Parts: `prepare_semantic_input` and `extract_batch` are parameters because the semantic module defines neither (see Findings).
- Pipeline.OneResultPerMessage: assumes the batch returns one result per body. The source's `zip` drops the rest otherwise, and `ProcessMessages` states that case.
- Aggregator.Run: `block_count` appears in the empty-run summary (`routes/pipeline.py:154`) but not in a non-empty run's summary. The frontend's `Aggregation` type declares it anyway, and the model keeps the two shapes apart.
- `test_semantic.py:37-42` expects `None` when no line reaches the threshold. The code returns an unmatched result instead, and the model follows the code (`Semantic.NoHitIsUnmatched`).
- The classifier's `strategy` setting is read but never used by the code, so it is not modelled.
- Reading `foreigner.json` and the keyword files is left out; the classes and keyword groups arrive as values.
- `KeywordChart`'s tooltip, colours and layout are left out, as are the other React components, because they are presentation only.
- The route handlers other than the run summary are left out, because they pass values through.

## Findings

| source | as written | input that shows it | evidently intended | confidence | as-written member | corrected member |
|---|---|---|---|---|---|---|
| backend/app/services/index_rules.py:84 | `re.match(r"^[A-Za-z_][A-Za-z0-9_]*$", name)`: `$` also matches before a final newline | table name `"t\n"` passes the check and is put into the SQL text | accept identifiers only (`re.fullmatch` or `\Z`) | not executed | IndexRules.TrailingNewlineAccepted | IndexRules.SanitizeRefinesAsWritten |
| backend/app/services/pipeline.py:10 | imports `prepare_semantic_input` from the semantic module, which defines no such name; `process_messages` (line 100) calls `extract_batch`, which `SemanticExtractor` lacks | importing `app.services.pipeline` at all | a line-filter preparation step and a batch extractor that answers body by body like `extract` | not executed | Pipeline.SemanticImportFails | Pipeline.BatchAgreesWithSingle |
