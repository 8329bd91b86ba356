/**
 * JSON values as the merger handles them after `json.load`: the six kinds of value
 * of RFC 8259, with numbers restricted to integers. An object keeps its members in
 * the order they were written (section 4 of RFC 8259); Python's `dict` does too.
 */
module JsonValues {
  import opened Wrappers

  datatype Json =
    | JNull
    | JBool(b: bool)
    | JInt(n: int)
    | JString(s: string)
    | JArray(elems: seq<Json>)
    | JObject(members: seq<Member>)

  /** One name/value pair of an object. */
  datatype Member = Member(name: string, value: Json)

  /** The names an object's members carry. */
  function Names(ms: seq<Member>): set<string>
  {
    set m | m in ms :: m.name
  }

  predicate DistinctNames(ms: seq<Member>)
  {
    forall i, j :: 0 <= i < j < |ms| ==> ms[i].name != ms[j].name
  }

  /**
   * The values a parsed document can hold: a Python `dict` never has two entries
   * with the same key, at any depth.
   */
  predicate WellFormed(v: Json)
  {
    match v
    case JArray(es) => forall i :: 0 <= i < |es| ==> WellFormed(es[i])
    case JObject(ms) => DistinctNames(ms) && forall i :: 0 <= i < |ms| ==> WellFormed(ms[i].value)
    case _ => true
  }

  lemma {:induction false} NamesCons(ms: seq<Member>)
    requires |ms| > 0
    ensures Names(ms) == {ms[0].name} + Names(ms[1..])
  {
    assert ms == [ms[0]] + ms[1..];
    forall x | x in Names(ms) ensures x in {ms[0].name} + Names(ms[1..]) {
      var m :| m in ms && m.name == x;
      if m != ms[0] {
        var i :| 0 <= i < |ms| && ms[i] == m;
        assert ms[1..][i - 1] == m;
      }
    }
  }

  /** A name no member carries is not among the names. */
  lemma NameAbsent(ms: seq<Member>, name: string)
    requires forall i :: 0 <= i < |ms| ==> ms[i].name != name
    ensures name !in Names(ms)
  {
  }

  /** `d[name]` / `name in d` on a `dict`: the value of the member called `name`, if any. */
  function Get(ms: seq<Member>, name: string): (r: Option<Json>)
    ensures r.Some? <==> name in Names(ms)
    ensures r.Some? ==> Member(name, r.value) in ms
  {
    if |ms| == 0 then None
    else
      NamesCons(ms);
      if ms[0].name == name then Some(ms[0].value) else Get(ms[1..], name)
  }

  /** On distinct names, `Get` finds the one member that carries the name. */
  lemma {:induction false} GetMember(ms: seq<Member>, i: nat)
    requires DistinctNames(ms) && i < |ms|
    ensures Get(ms, ms[i].name) == Some(ms[i].value)
  {
    if i > 0 {
      assert ms[0].name != ms[i].name;
      GetMember(ms[1..], i - 1);
    }
  }

  /**
   * `r` is `ms` with the first member called `name` given the value `v`: same
   * length, same position, every other member as it was.
   */
  predicate ReplacesFirst(ms: seq<Member>, name: string, v: Json, r: seq<Member>)
  {
    exists i | 0 <= i < |ms| :: && ms[i].name == name
                                && (forall j | 0 <= j < i :: ms[j].name != name)
                                && r == ms[i := Member(name, v)]
  }

  /**
   * `d[name] = v` on a `dict`: a name already present keeps the position of its
   * first occurrence and takes the new value; a new name is appended.
   */
  function Assign(ms: seq<Member>, name: string, v: Json): (r: seq<Member>)
    ensures Names(r) == Names(ms) + {name}
    ensures name in Names(ms) ==> ReplacesFirst(ms, name, v, r)
    ensures name !in Names(ms) ==> r == ms + [Member(name, v)]
  {
    if |ms| == 0 then [Member(name, v)]
    else
      NamesCons(ms);
      if ms[0].name == name then
        var r := [Member(name, v)] + ms[1..];
        NamesCons(r);
        ReplaceHead(ms, v);
        r
      else
        var rest := Assign(ms[1..], name, v);
        var r := [ms[0]] + rest;
        NamesCons(r);
        assert name !in Names(ms) ==> r == ms + [Member(name, v)] by {
          if name !in Names(ms) { assert ms == [ms[0]] + ms[1..]; }
        }
        if name in Names(ms) then
          ReplaceBehind(ms, name, v, rest);
          r
        else
          r
  }

  /** Replacing the head member's value keeps everything behind it. */
  lemma ReplaceHead(ms: seq<Member>, v: Json)
    requires |ms| > 0
    ensures ReplacesFirst(ms, ms[0].name, v, [Member(ms[0].name, v)] + ms[1..])
  {
    assert [Member(ms[0].name, v)] + ms[1..] == ms[0 := Member(ms[0].name, v)];
  }

  /** A replacement behind a head member of another name is a replacement in the whole. */
  lemma ReplaceBehind(ms: seq<Member>, name: string, v: Json, rest: seq<Member>)
    requires |ms| > 0 && ms[0].name != name
    requires ReplacesFirst(ms[1..], name, v, rest)
    ensures ReplacesFirst(ms, name, v, [ms[0]] + rest)
  {
    var k :| && 0 <= k < |ms[1..]| && ms[1..][k].name == name
             && (forall j | 0 <= j < k :: ms[1..][j].name != name)
             && rest == ms[1..][k := Member(name, v)];
    assert ms[k + 1] == ms[1..][k];
    forall j | 0 <= j < k + 1 ensures ms[j].name != name {
      if j > 0 { assert ms[j] == ms[1..][j - 1]; }
    }
    assert [ms[0]] + rest == ms[k + 1 := Member(name, v)];
  }

  /** After `d[name] = v`, looking `name` up gives `v` and every other name is as before. */
  lemma {:induction false} AssignGet(ms: seq<Member>, name: string, v: Json, other: string)
    ensures Get(Assign(ms, name, v), name) == Some(v)
    ensures other != name ==> Get(Assign(ms, name, v), other) == Get(ms, other)
  {
    if |ms| > 0 && ms[0].name != name {
      AssignGet(ms[1..], name, v, other);
    }
  }

  /** Prepending a member whose name is new keeps the names distinct. */
  lemma DistinctCons(m: Member, rest: seq<Member>)
    requires DistinctNames(rest) && m.name !in Names(rest)
    ensures DistinctNames([m] + rest)
  {
    var r := [m] + rest;
    forall i, j | 0 <= i < j < |r| ensures r[i].name != r[j].name {
      assert r[j] == rest[j - 1] && r[j] in rest;
      if i > 0 { assert r[i] == rest[i - 1]; }
    }
  }

  /** With distinct names, the first member's name does not recur later. */
  lemma HeadNameAbsent(ms: seq<Member>)
    requires DistinctNames(ms) && |ms| > 0
    ensures ms[0].name !in Names(ms[1..])
    ensures DistinctNames(ms[1..])
  {
    forall i | 0 <= i < |ms[1..]| ensures ms[1..][i].name != ms[0].name {
      assert ms[1..][i] == ms[i + 1];
    }
    NameAbsent(ms[1..], ms[0].name);
  }

  /** `d[name] = v` keeps a parsed object parsed: names stay distinct. */
  lemma {:induction false} AssignWellFormed(ms: seq<Member>, name: string, v: Json)
    requires WellFormed(JObject(ms)) && WellFormed(v)
    ensures WellFormed(JObject(Assign(ms, name, v)))
  {
    var r := Assign(ms, name, v);
    if |ms| > 0 {
      HeadNameAbsent(ms);
      if ms[0].name != name {
        var rest := Assign(ms[1..], name, v);
        assert WellFormed(JObject(ms[1..])) by {
          forall i | 0 <= i < |ms[1..]| ensures WellFormed(ms[1..][i].value) {
            assert ms[1..][i] == ms[i + 1];
          }
        }
        AssignWellFormed(ms[1..], name, v);
        assert r == [ms[0]] + rest;
        DistinctCons(ms[0], rest);
        forall j | 0 <= j < |r| ensures WellFormed(r[j].value) {
          if j > 0 { assert r[j] == rest[j - 1]; }
        }
      } else {
        assert r == [Member(name, v)] + ms[1..];
        DistinctCons(Member(name, v), ms[1..]);
        forall j | 0 <= j < |r| ensures WellFormed(r[j].value) {
          if j > 0 { assert r[j] == ms[j]; }
        }
      }
    }
  }

  /**
   * `d.setdefault(name, d0)`: a missing name is appended with value `d0`; an object
   * that already has the name is left as it is.
   */
  function SetDefault(ms: seq<Member>, name: string, d0: Json): (r: seq<Member>)
    ensures Names(r) == Names(ms) + {name}
    ensures Get(r, name) == if name in Names(ms) then Get(ms, name) else Some(d0)
    ensures forall other :: other != name ==> Get(r, other) == Get(ms, other)
    ensures name in Names(ms) ==> r == ms
  {
    if name in Names(ms) then ms
    else
      forall other ensures other != name ==> Get(Assign(ms, name, d0), other) == Get(ms, other) {
        AssignGet(ms, name, d0, other);
      }
      Assign(ms, name, d0)
  }
}
