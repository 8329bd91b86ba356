# simdata-merger in Dafny

`simdata_merger.py` watches a directory for changes to `simmods.json`. A
change is let through only if its modification time differs from the last one
seen. The candidate file is then parsed as JSON and validated against a fixed
schema: an object with exactly the keys `visuals` and `animdata`, both arrays.
After that it is merged with the base file `simdata.json`, if the base exists.
Each of the two arrays is merged by set union on the records' `json.dumps`
serialisation, and the result `{"visuals": ..., "animdata": ...}` is written to
`simdata.simjson`.

This project models that core:

- `wrappers.dfy`: the `Option` type.
- `json_values.dfy`: JSON values. An object is a sequence of members. The model
  has Python's `dict` operations that the code uses: `d[k]`, `d[k] = v` and
  `setdefault`.
- `serialisation.dfy`: `json.dumps` as a token-level serialisation and
  `json.loads` as a parser over those tokens. A parsed object follows Python's
  rule for duplicate keys: the first position with the last value. The module
  proves the round trip `loads(dumps(v)) == v` and that `dumps` is injective.
- `schema.dfy`: `SIMDATA_SCHEMA` as the set of schema violations a document
  has. The document passes the schema exactly when that set is empty.
- `merge.dfy`: the unique merge of one array. It is a method that iterates
  over the set of serialisations in an arbitrary order, as Python's set does,
  and loads each one back. The merge's set-level properties are proved here.
- `simdata_merger.dfy`: the class `JsonFileHandler`, with the debounce field
  and `on_modified` / `process_file` as methods. `ProcessSpec` states the
  decision chain. Lemmas state what a run writes and when it writes.

Records are compared by their `json.dumps` text. The code calls it without
`sort_keys` (`simdata_merger.py:74-75`), so `{"a":1,"b":2}` and
`{"b":2,"a":1}` stay two distinct records; `Merge.KeyOrderIsKept` proves this.

The base file is never validated. A base that parses but is not an object, or
whose `visuals` or `animdata` is present but not an array, makes `setdefault`
or the concatenation at `simdata_merger.py:74-75` raise an error that nothing
catches. The model records that run as the outcome `Raised`, with nothing
written.

## Model

| member | source | states |
|---|---|---|
| JsonValues.Get | simdata_merger.py:74-75 | `d[name]` finds a value exactly when `name` is one of the object's keys, and the value found belongs to the member with that name |
| JsonValues.Assign | simdata_merger.py:49 | `d[name] = v` (used by `json.load` for repeated keys): the keys become the old keys plus `name`; an existing key keeps the position of its first occurrence and takes `v`, with every other member unchanged; a new key is appended at the end |
| JsonValues.AssignGet | simdata_merger.py:49 | after `d[name] = v`, `d[name]` is `v` and every other key looks up as before |
| JsonValues.AssignWellFormed | simdata_merger.py:49 | assigning into an object with distinct keys keeps its keys distinct |
| JsonValues.GetMember | simdata_merger.py:74-75 | in an object with distinct keys, looking up a member's name gives that member's value |
| JsonValues.SetDefault | simdata_merger.py:70-71 | `setdefault(name, d0)` adds `name` with value `d0` only when it is missing; an object that has the key is unchanged, and every other key is untouched |
| Serialisation.Loads | simdata_merger.py:47-49 | `json.load`: a document that parses is well formed, with distinct keys in every object at every depth |
| Serialisation.ParseValueWellFormed | simdata_merger.py:66-67 | every value the parser returns is well formed: no object at any depth repeats a key |
| Serialisation.ParseDumps | simdata_merger.py:78-79 | parsing `dumps(v)` followed by any tokens gives back `v` and exactly those tokens |
| Serialisation.LoadsDumps | simdata_merger.py:74-79 | `json.loads(json.dumps(v)) == v` for every well-formed `v`: a merged record comes back as the record that went in |
| Serialisation.DumpsInjective | simdata_merger.py:74-75 | two values have the same serialisation exactly when they are equal, so the set of serialisations identifies records by structural equality with key order |
| Schema.ValidIffSimdata | simdata_merger.py:14-22 | the schema reports no violation exactly when the document is an object whose keys are exactly `visuals` and `animdata` and both values are arrays |
| Schema.Field | simdata_merger.py:74-75 | a validated document holds an array under each of `visuals` and `animdata` |
| Schema.ExtraKeyRejected | simdata_merger.py:21 | any key outside `visuals` and `animdata` is reported as an additional property, whatever else is true of the document |
| Schema.ExtraPropertyExample | simdata_merger.py:14-22 | `{"visuals":[],"animdata":[],"extra":1}` fails with exactly one violation, an additional property `extra` |
| Merge.MergeArray | simdata_merger.py:74-79 | the merged list holds one record for each distinct serialisation of base + candidate, and no two of its records have the same serialisation |
| Merge.SerialisedSize | simdata_merger.py:74 | a list never has more distinct serialisations than records |
| Merge.UniqueSize | simdata_merger.py:78-79 | a list without repeated serialisations has as many records as serialisations |
| Merge.MergeSize | simdata_merger.py:74-79 | the merged length is the number of distinct serialisations, at most the two inputs' lengths together |
| Merge.MergeKeepsEveryRecord | simdata_merger.py:74-79 | a record is in the merged list exactly when it is in the base or the candidate list |
| Merge.MergeCommutes | simdata_merger.py:74-75 | merging `a` with `b` and `b` with `a` give the same records and the same length |
| Merge.MergeWithSelf | simdata_merger.py:74-75 | merging a list with itself gives back its records, each once |
| Merge.MergeKnownRecords | simdata_merger.py:74-75 | candidate records that the base already has add nothing |
| Merge.RemergeIsStable | simdata_merger.py:74-79 | merging a merged list again with an empty list changes neither its records nor its length |
| Merge.DuplicateCollapses | simdata_merger.py:74 | a record given once in each list comes out exactly once |
| Merge.KeyOrderIsKept | simdata_merger.py:74-75 | `{"a":1,"b":2}` merged with `{"b":2,"a":1}` gives two records, because the serialisation does not sort keys |
| Merge.MergeTwoRecords | simdata_merger.py:74-79 | merging `[a]` with `[a, b]`, where `a` and `b` differ, gives exactly `a` and `b`, each once |
| Merge.MergeIntoEmpty | simdata_merger.py:74-79 | merging an empty list with `[r]` gives `[r]` |
| SimdataMerger.JsonFileHandler.constructor | simdata_merger.py:25 | the last modification time starts at 0 |
| SimdataMerger.JsonFileHandler.OnModified | simdata_merger.py:30-43 | an event for another file, or one whose modification time equals the last one recorded, is dropped and changes nothing; any other event records its time and runs the chain, with the outcome `ProcessSpec` prescribes; no event is refused |
| SimdataMerger.JsonFileHandler.ProcessFile | simdata_merger.py:45-93 | one run ends with invalid JSON, a schema mismatch, a missing base, an uncaught error from a base that cannot be merged, or the written merged document, as the decision chain prescribes |
| SimdataMerger.JsonFileHandler.MergeWithBase | simdata_merger.py:69-85 | the output has exactly the members `visuals` then `animdata`, and each is the merge of the base's array (empty when missing) with the candidate's |
| SimdataMerger.OutputOnlyWhenEveryCheckPasses | simdata_merger.py:47-67 | output is written exactly when the candidate parses, passes the schema, and the base exists, parses and can be merged; otherwise the first check that fails decides the outcome, and a parsed base that cannot be merged raises |
| SimdataMerger.OutputMatchesSchema | simdata_merger.py:82-85 | the written document has exactly the keys `visuals` and `animdata` and passes the schema itself |
| SimdataMerger.OutputShapeIsValid | simdata_merger.py:82-85 | `{"visuals": v, "animdata": a}` passes the schema for any two arrays |
| SimdataMerger.WrittenRecords | simdata_merger.py:70-85 | each written array holds exactly the records of the base's and the candidate's arrays, and is no longer than the two together |
| SimdataMerger.RunsAgree | simdata_merger.py:45-93 | two runs on the same files end the same way; when they write, each array has the same records and length, and only the order may differ |
| SimdataMerger.WorkedExample | simdata_merger.py:45-90 | base `{"visuals":[{"id":1}],"animdata":[]}` and candidate `{"visuals":[{"id":1},{"id":2}],"animdata":[{"x":1}]}` write `visuals` with exactly the two records `{"id":1}` and `{"id":2}`, and `animdata` equal to `[{"x":1}]` |
| SimdataMerger.ExampleFilesParse | simdata_merger.py:49 | both example files parse back to the documents they hold |
| SimdataMerger.NonArrayBaseRaises | simdata_merger.py:70-75 | with the base `{"visuals":1}`, `setdefault` keeps the `1`, the concatenation raises, and nothing is written |
| SimdataMerger.ExampleFields | simdata_merger.py:70-75 | the example candidate passes the schema, and the arrays both files hold are as written |

## Left out

- The watchdog `Observer`, `main`, the one-second sleep loop and `KeyboardInterrupt` handling (`simdata_merger.py:95-113`) are left out. They are process and thread plumbing around the handler.
- File I/O is left out. The candidate's and the base's contents are parameters (token sequences), a missing base is `None`, and the written file is the `Written` outcome. `open`, `os.path.exists` and `json.dump` to disk are not modelled.
- `os.path.getmtime` is left out. The modification time is a parameter and an integer, not a float.
- Character-level JSON text is left out: string escapes, number formatting, whitespace, and the separators `(',', ':')` the output uses. Serialisation works on tokens.
- JSON floating-point numbers are left out. Numbers are integers, so the distinction Python makes between `1` and `1.0` in `json.dumps` is not modelled.
- The text of the schema error message is left out. The model reports the whole set of violations, where `jsonschema` picks one message to print.
- All `print` logging is left out.
- A missing or unreadable candidate file is left out. The handler reads it right after it changed, and the error the code would raise there is uncaught.
- What happens after an uncaught error is left out. A run that raises ends in the outcome `Raised`. How the watchdog thread reports the exception, and whether it goes on delivering events, belongs to the library and is not modelled.
- Merge.MergeArray: the order of the merged records is whatever order a set iteration yields. The model does not fix Python's hash order, and its contract speaks only of which records appear, not their order.
- SimdataMerger.JsonFileHandler: `last_modified_time` is a module-level global in the code. Here it is a field of the handler, which is equivalent for the single handler that `main` creates.
