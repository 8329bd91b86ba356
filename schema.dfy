/**
 * The fixed schema a candidate document must match (`SIMDATA_SCHEMA`): an object
 * whose properties `visuals` and `animdata` are both required and both arrays, with
 * no additional properties allowed.
 */
module Schema {
  import opened Wrappers
  import opened JsonValues

  const Visuals: string := "visuals"
  const Animdata: string := "animdata"

  /** The schema's `properties`, which are also its `required` list. */
  const Properties: set<string> := {Visuals, Animdata}

  /** One failed keyword of the schema, as a JSON Schema validator reports it. */
  datatype Violation =
    | NotAnObject                               // "type": "object"
    | MissingRequired(name: string)             // "required"
    | AdditionalProperties(names: set<string>)  // "additionalProperties": false
    | NotAnArray(name: string)                  // "properties": {name: {"type": "array"}}

  /**
   * Every violation the validator finds in `v`; the document matches the schema when
   * there is none. The keywords other than "type" only look at objects.
   */
  function Violations(v: Json): set<Violation>
  {
    match v
    case JObject(ms) =>
      var extra := Names(ms) - Properties;
      (set p | p in Properties && p !in Names(ms) :: MissingRequired(p))
      + (if extra == {} then {} else {AdditionalProperties(extra)})
      + (set p | p in Properties && p in Names(ms) && !Get(ms, p).value.JArray? :: NotAnArray(p))
    case _ => {NotAnObject}
  }

  /** The shape the schema describes, stated directly. */
  predicate IsSimdata(v: Json)
  {
    && v.JObject?
    && Names(v.members) == Properties
    && (forall p | p in Properties :: Get(v.members, p).value.JArray?)
  }

  /** A document passes validation exactly when it has the shape the schema describes. */
  lemma ValidIffSimdata(v: Json)
    ensures Violations(v) == {} <==> IsSimdata(v)
  {
    if !v.JObject? {
      assert NotAnObject in Violations(v);
    } else {
      var ms := v.members;
      if p :| p in Properties && p !in Names(ms) {
        assert MissingRequired(p) in Violations(v);
      } else if Names(ms) - Properties != {} {
        assert AdditionalProperties(Names(ms) - Properties) in Violations(v);
      } else if p :| p in Properties && !Get(ms, p).value.JArray? {
        assert NotAnArray(p) in Violations(v);
      } else {
        assert Names(ms) == Properties;
      }
    }
  }

  /** The array a validated document holds under a schema property. */
  function Field(v: Json, p: string): (es: seq<Json>)
    requires IsSimdata(v) && p in Properties
    ensures Get(v.members, p) == Some(JArray(es))
  {
    Get(v.members, p).value.elems
  }

  /** An extra top-level key is reported as an additional property, whatever else holds. */
  lemma ExtraKeyRejected(ms: seq<Member>, k: string)
    requires k in Names(ms) && k !in Properties
    ensures exists names :: AdditionalProperties(names) in Violations(JObject(ms)) && k in names
  {
    assert AdditionalProperties(Names(ms) - Properties) in Violations(JObject(ms));
  }

  /** The document `{"visuals": [], "animdata": [], "extra": 1}` fails with exactly one violation. */
  lemma ExtraPropertyExample()
    ensures Violations(JObject([Member(Visuals, JArray([])), Member(Animdata, JArray([])),
                                Member("extra", JInt(1))]))
            == {AdditionalProperties({"extra"})}
  {
    var ms := [Member(Visuals, JArray([])), Member(Animdata, JArray([])), Member("extra", JInt(1))];
    assert Names(ms) == {Visuals, Animdata, "extra"} by {
      assert ms[0].name == Visuals && ms[1].name == Animdata && ms[2].name == "extra";
      forall x | x in Names(ms) ensures x in {Visuals, Animdata, "extra"} {
        var m :| m in ms && m.name == x;
      }
    }
    assert Names(ms) - Properties == {"extra"};
    assert Get(ms, Visuals) == Some(JArray([]));
    assert Get(ms, Animdata) == Some(JArray([]));
  }
}
