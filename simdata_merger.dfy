/**
 * The watcher's event handler: the debounce on the candidate file's modification
 * time, and the validate-then-merge chain run for each change it lets through.
 * The candidate is `simmods.json`, the base is `simdata.json` and the output is
 * `simdata.simjson`; file contents are given as token sequences, a missing base as
 * `None`, and the output as the `Written` outcome.
 */
module SimdataMerger {
  import opened Wrappers
  import opened JsonValues
  import opened Serialisation
  import opened Schema
  import opened Merge

  /** The file name whose modification events are handled (`SIMMODS_FILE`). */
  const SimmodsFile: string := "simmods.json"

  /** How one run of the chain ends; only `Written` produces the output file. */
  datatype Outcome =
    | InvalidJson                                  // a JSON decode error in either file
    | SchemaMismatch(violations: set<Violation>)   // the candidate fails the schema
    | BaseMissing                                  // no base file: wait for the next change
    | Raised                                       // an uncaught error while merging with the base
    | Written(output: Json)                        // the merged document that is written

  /** `s.endswith(suffix)`. */
  predicate EndsWith(s: string, suffix: string)
  {
    |suffix| <= |s| && s[|s| - |suffix|..] == suffix
  }

  /**
   * The array the merge takes from the base under `p`: the array stored there, or
   * the `[]` that `setdefault(p, [])` adds when `p` is missing. It is only used on
   * a `Mergeable` base, where a value under `p` is always an array.
   */
  function BaseField(ms: seq<Member>, p: string): seq<Json>
  {
    match Get(ms, p)
    case Some(JArray(es)) => es
    case _ => []
  }

  /**
   * A base the code can merge without raising: an object whose `visuals` and
   * `animdata`, where present, are arrays. The base is never validated, so any
   * other parsed base makes `setdefault` (not an object) or the concatenation
   * (a non-array under a property) raise.
   */
  predicate Mergeable(b: Json)
  {
    b.JObject? && forall p | p in Properties :: p in Names(b.members) ==> Get(b.members, p).value.JArray?
  }

  /**
   * `doc` is the output for base members `base` and validated candidate `cand`: an
   * object with exactly the members `visuals` and `animdata`, in that order, each
   * the merge of the base's array (empty when absent) with the candidate's.
   */
  ghost predicate MergedDocument(doc: Json, base: seq<Member>, cand: Json)
    requires IsSimdata(cand)
  {
    && doc.JObject? && |doc.members| == 2
    && doc.members[0].name == Visuals && doc.members[0].value.JArray?
    && doc.members[1].name == Animdata && doc.members[1].value.JArray?
    && IsMergeOf(doc.members[0].value.elems, BaseField(base, Visuals), Field(cand, Visuals))
    && IsMergeOf(doc.members[1].value.elems, BaseField(base, Animdata), Field(cand, Animdata))
  }

  /**
   * The decision chain of one run: parse the candidate, validate it, look for the
   * base, parse the base, merge. The first step that fails decides the outcome and
   * nothing is written; a base that parses but cannot be merged raises.
   */
  ghost predicate ProcessSpec(candidate: seq<Token>, base: Option<seq<Token>>, o: Outcome)
  {
    match Loads(candidate)
    case None => o == InvalidJson
    case Some(c) =>
      if Violations(c) != {} then o == SchemaMismatch(Violations(c))
      else if base.None? then o == BaseMissing
      else (
        match Loads(base.value)
        case None => o == InvalidJson
        case Some(b) =>
          if !Mergeable(b) then o == Raised
          else
            ValidIffSimdata(c);
            o.Written? && MergedDocument(o.output, b.members, c))
  }

  class JsonFileHandler {
    /** `last_modified_time`: the modification time of the last change let through. */
    var lastModifiedTime: int

    constructor()
      ensures lastModifiedTime == 0
    {
      lastModifiedTime := 0;
    }

    /**
     * `on_modified`: an event for another file, or one whose modification time
     * equals the last one seen, is dropped and changes nothing; any other event
     * records its time and runs the chain.
     */
    method OnModified(srcPath: string, mtime: int, candidate: seq<Token>, base: Option<seq<Token>>)
      returns (outcome: Option<Outcome>)
      modifies this
      ensures !EndsWith(srcPath, SimmodsFile) || mtime == old(lastModifiedTime) ==>
                outcome == None && lastModifiedTime == old(lastModifiedTime)
      ensures EndsWith(srcPath, SimmodsFile) && mtime != old(lastModifiedTime) ==>
                lastModifiedTime == mtime && outcome.Some? && ProcessSpec(candidate, base, outcome.value)
    {
      if !EndsWith(srcPath, SimmodsFile) {
        return None;
      }
      if mtime == lastModifiedTime {
        return None;
      }
      lastModifiedTime := mtime;
      var o := ProcessFile(candidate, base);
      outcome := Some(o);
    }

    /** `process_file`: one run of the validate-then-merge chain. */
    method ProcessFile(candidate: seq<Token>, base: Option<seq<Token>>) returns (outcome: Outcome)
      ensures ProcessSpec(candidate, base, outcome)
    {
      var parsed := Loads(candidate);
      if parsed.None? {
        return InvalidJson;
      }
      var simmods := parsed.value;
      var violations := Violations(simmods);
      if violations != {} {
        return SchemaMismatch(violations);
      }
      ValidIffSimdata(simmods);
      if base.None? {
        return BaseMissing;
      }
      var loaded := Loads(base.value);
      if loaded.None? {
        return InvalidJson;
      }
      if !Mergeable(loaded.value) {
        return Raised;
      }
      var merged := MergeWithBase(loaded.value.members, simmods);
      outcome := Written(merged);
    }

    /**
     * The merge step of `process_file`: default the base's missing arrays to `[]`,
     * merge each array with the candidate's, and build the output object.
     */
    method MergeWithBase(base: seq<Member>, simmods: Json) returns (merged: Json)
      requires WellFormed(JObject(base)) && Mergeable(JObject(base))
      requires WellFormed(simmods) && IsSimdata(simmods)
      ensures MergedDocument(merged, base, simmods)
    {
      var simdata := base;
      simdata := SetDefault(simdata, Visuals, JArray([]));
      simdata := SetDefault(simdata, Animdata, JArray([]));
      var baseVisuals := Get(simdata, Visuals).value.elems;
      var baseAnimdata := Get(simdata, Animdata).value.elems;
      assert baseVisuals == BaseField(base, Visuals);
      assert baseAnimdata == BaseField(base, Animdata);
      FieldsWellFormed(base, simmods);
      var mergedVisuals := MergeArray(baseVisuals, Field(simmods, Visuals));
      var mergedAnimdata := MergeArray(baseAnimdata, Field(simmods, Animdata));
      merged := JObject([Member(Visuals, JArray(mergedVisuals)), Member(Animdata, JArray(mergedAnimdata))]);
    }
  }

  /** The arrays of a parsed object hold parsed records. */
  lemma ArrayWellFormed(ms: seq<Member>, p: string)
    requires WellFormed(JObject(ms))
    ensures AllWellFormed(BaseField(ms, p))
  {
    if Get(ms, p).Some? && Get(ms, p).value.JArray? {
      var m := Member(p, Get(ms, p).value);
      var i :| 0 <= i < |ms| && ms[i] == m;
      assert WellFormed(ms[i].value);
    }
  }

  /** Both arrays handed to each merge hold parsed records. */
  lemma FieldsWellFormed(base: seq<Member>, cand: Json)
    requires WellFormed(JObject(base)) && WellFormed(cand) && IsSimdata(cand)
    ensures AllWellFormed(BaseField(base, Visuals) + Field(cand, Visuals))
    ensures AllWellFormed(BaseField(base, Animdata) + Field(cand, Animdata))
  {
    ArrayWellFormed(base, Visuals);
    ArrayWellFormed(base, Animdata);
    ArrayWellFormed(cand.members, Visuals);
    ArrayWellFormed(cand.members, Animdata);
  }

  /**
   * Output is produced exactly when the candidate parses, passes the schema, and a
   * base exists, parses and can be merged; otherwise the run ends with the first
   * failure.
   */
  lemma OutputOnlyWhenEveryCheckPasses(candidate: seq<Token>, base: Option<seq<Token>>, o: Outcome)
    requires ProcessSpec(candidate, base, o)
    ensures o.Written? <==>
      && Loads(candidate).Some?
      && Violations(Loads(candidate).value) == {}
      && base.Some?
      && Loads(base.value).Some?
      && Mergeable(Loads(base.value).value)
    ensures Loads(candidate).None? ==> o == InvalidJson
    ensures Loads(candidate).Some? && Violations(Loads(candidate).value) != {} ==> o.SchemaMismatch?
    ensures Loads(candidate).Some? && Violations(Loads(candidate).value) == {} && base.None? ==> o == BaseMissing
    ensures Loads(candidate).Some? && Violations(Loads(candidate).value) == {} && base.Some? ==>
      (Loads(base.value).None? ==> o == InvalidJson) &&
      (Loads(base.value).Some? && !Mergeable(Loads(base.value).value) ==> o == Raised)
  {
  }

  /** Whatever is written has exactly the keys `visuals` and `animdata`, both arrays: it passes the schema itself. */
  lemma OutputMatchesSchema(candidate: seq<Token>, base: Option<seq<Token>>, o: Outcome)
    requires ProcessSpec(candidate, base, o) && o.Written?
    ensures Names(o.output.members) == Properties
    ensures Violations(o.output) == {}
  {
    var ms := o.output.members;
    assert o.output == JObject([Member(Visuals, JArray(ms[0].value.elems)), Member(Animdata, JArray(ms[1].value.elems))]);
    OutputShapeIsValid(ms[0].value.elems, ms[1].value.elems);
  }

  /** The object `{"visuals": v, "animdata": a}` passes the schema for any two arrays. */
  lemma OutputShapeIsValid(v: seq<Json>, a: seq<Json>)
    ensures var doc := JObject([Member(Visuals, JArray(v)), Member(Animdata, JArray(a))]);
      Names(doc.members) == Properties && Violations(doc) == {}
  {
    var ms := [Member(Visuals, JArray(v)), Member(Animdata, JArray(a))];
    assert Names(ms) == {Visuals, Animdata} by {
      assert ms[0].name == Visuals && ms[1].name == Animdata;
      forall x | x in Names(ms) ensures x in {Visuals, Animdata} {
        var m :| m in ms && m.name == x;
      }
    }
    assert Get(ms, Visuals) == Some(ms[0].value);
    assert Get(ms, Animdata) == Some(ms[1].value);
    ValidIffSimdata(JObject(ms));
  }

  /**
   * Every record of the base's and the candidate's `visuals` is in the written
   * `visuals`, and nothing else is; the same for `animdata`. Each written array
   * has no two records with the same serialisation and is no longer than its two
   * inputs together.
   */
  lemma WrittenRecords(candidate: seq<Token>, base: Option<seq<Token>>, o: Outcome)
    requires ProcessSpec(candidate, base, o) && o.Written?
    ensures var c := Loads(candidate).value; var b := Loads(base.value).value.members;
      && IsSimdata(c)
      && (forall r :: r in o.output.members[0].value.elems <==> r in BaseField(b, Visuals) + Field(c, Visuals))
      && (forall r :: r in o.output.members[1].value.elems <==> r in BaseField(b, Animdata) + Field(c, Animdata))
      && |o.output.members[0].value.elems| <= |BaseField(b, Visuals)| + |Field(c, Visuals)|
      && |o.output.members[1].value.elems| <= |BaseField(b, Animdata)| + |Field(c, Animdata)|
  {
    var c := Loads(candidate).value;
    var b := Loads(base.value).value.members;
    ValidIffSimdata(c);
    FieldsWellFormed(b, c);
    var visuals := o.output.members[0].value.elems;
    var animdata := o.output.members[1].value.elems;
    MergeKeepsEveryRecord(visuals, BaseField(b, Visuals), Field(c, Visuals));
    MergeKeepsEveryRecord(animdata, BaseField(b, Animdata), Field(c, Animdata));
    MergeSize(visuals, BaseField(b, Visuals), Field(c, Visuals));
    MergeSize(animdata, BaseField(b, Animdata), Field(c, Animdata));
  }

  /**
   * Two runs on the same files end the same way and, when they write, write the
   * same records in each array; only the order of the records may differ.
   */
  lemma RunsAgree(candidate: seq<Token>, base: Option<seq<Token>>, o1: Outcome, o2: Outcome)
    requires ProcessSpec(candidate, base, o1) && ProcessSpec(candidate, base, o2)
    ensures !o1.Written? ==> o1 == o2
    ensures o1.Written? ==> o2.Written?
    ensures o1.Written? ==>
      && (forall r :: r in o1.output.members[0].value.elems <==> r in o2.output.members[0].value.elems)
      && (forall r :: r in o1.output.members[1].value.elems <==> r in o2.output.members[1].value.elems)
      && |o1.output.members[0].value.elems| == |o2.output.members[0].value.elems|
      && |o1.output.members[1].value.elems| == |o2.output.members[1].value.elems|
  {
    if o1.Written? {
      WrittenRecords(candidate, base, o1);
      WrittenRecords(candidate, base, o2);
      var c := Loads(candidate).value;
      var b := Loads(base.value).value.members;
      MergeSize(o1.output.members[0].value.elems, BaseField(b, Visuals), Field(c, Visuals));
      MergeSize(o2.output.members[0].value.elems, BaseField(b, Visuals), Field(c, Visuals));
      MergeSize(o1.output.members[1].value.elems, BaseField(b, Animdata), Field(c, Animdata));
      MergeSize(o2.output.members[1].value.elems, BaseField(b, Animdata), Field(c, Animdata));
    }
  }

  const Id1: Json := JObject([Member("id", JInt(1))])
  const Id2: Json := JObject([Member("id", JInt(2))])
  const X1: Json := JObject([Member("x", JInt(1))])
  /** `{"visuals": [{"id": 1}], "animdata": []}` */
  const ExampleBase: Json := JObject([Member(Visuals, JArray([Id1])), Member(Animdata, JArray([]))])
  /** `{"visuals": [{"id": 1}, {"id": 2}], "animdata": [{"x": 1}]}` */
  const ExampleCandidate: Json := JObject([Member(Visuals, JArray([Id1, Id2])), Member(Animdata, JArray([X1]))])

  /**
   * A worked run on the example files: the written `visuals` are the two records
   * `{"id": 1}` and `{"id": 2}`, in some order, and the written `animdata` is
   * `[{"x": 1}]`.
   */
  lemma WorkedExample(o: Outcome)
    requires ProcessSpec(Dumps(ExampleCandidate), Some(Dumps(ExampleBase)), o)
    ensures o.Written?
    ensures |o.output.members[0].value.elems| == 2
    ensures forall r :: r in o.output.members[0].value.elems <==> r == Id1 || r == Id2
    ensures o.output.members[1].value.elems == [X1]
  {
    ExampleFilesParse();
    ExampleFields();
    OutputShapeIsValid([Id1, Id2], [X1]);
    assert WellFormed(Id1) && WellFormed(Id2);
    MergeTwoRecords(o.output.members[0].value.elems, Id1, Id2);
    MergeIntoEmpty(o.output.members[1].value.elems, X1);
  }

  /** Both example files parse back to the documents they print. */
  lemma ExampleFilesParse()
    ensures Loads(Dumps(ExampleCandidate)) == Some(ExampleCandidate)
    ensures Loads(Dumps(ExampleBase)) == Some(ExampleBase)
  {
    assert WellFormed(Id1) && WellFormed(Id2) && WellFormed(X1);
    assert WellFormed(ExampleCandidate);
    assert WellFormed(ExampleBase);
    LoadsDumps(ExampleCandidate);
    LoadsDumps(ExampleBase);
  }

  /** The arrays the example files hold under each property. */
  lemma ExampleFields()
    ensures IsSimdata(ExampleCandidate)
    ensures Field(ExampleCandidate, Visuals) == [Id1, Id2]
    ensures Field(ExampleCandidate, Animdata) == [X1]
    ensures BaseField(ExampleBase.members, Visuals) == [Id1]
    ensures BaseField(ExampleBase.members, Animdata) == []
  {
    OutputShapeIsValid([Id1, Id2], [X1]);
    ValidIffSimdata(ExampleCandidate);
    assert Get(ExampleCandidate.members, Visuals) == Some(JArray([Id1, Id2]));
    assert Get(ExampleCandidate.members, Animdata) == Some(JArray([X1]));
    assert Get(ExampleBase.members, Visuals) == Some(JArray([Id1]));
    assert Get(ExampleBase.members, Animdata) == Some(JArray([]));
  }

  /** `{"visuals": 1}`: a base whose `visuals` is not an array. */
  const NonArrayBase: Json := JObject([Member(Visuals, JInt(1))])

  /**
   * The example candidate against the base `{"visuals": 1}`: `setdefault` keeps the
   * `1`, the concatenation raises, and nothing is written.
   */
  lemma NonArrayBaseRaises(o: Outcome)
    requires ProcessSpec(Dumps(ExampleCandidate), Some(Dumps(NonArrayBase)), o)
    ensures o == Raised
  {
    ExampleFilesParse();
    ExampleFields();
    assert WellFormed(NonArrayBase);
    LoadsDumps(NonArrayBase);
    assert Get(NonArrayBase.members, Visuals) == Some(JInt(1));
  }
}
