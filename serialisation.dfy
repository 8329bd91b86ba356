/**
 * `json.dumps` and `json.loads` at the level of JSON tokens (section 2 of RFC 8259).
 * A string token carries the decoded string and a number token the integer, so the
 * character-level printing (escapes, digits, separators) is not part of this model;
 * printing tokens as text is injective, so two values have equal `json.dumps`
 * strings exactly when they have equal token sequences here.
 */
module Serialisation {
  import opened Wrappers
  import opened JsonValues

  datatype Token =
    | LBrace | RBrace | LBracket | RBracket | Colon | Comma
    | NullLit | TrueLit | FalseLit
    | Number(n: int)
    | Str(s: string)

  /**
   * `json.dumps(v)` without `sort_keys`: members are written in the object's own
   * order, so two objects that differ only in member order serialise differently.
   */
  function Dumps(v: Json): seq<Token>
  {
    match v
    case JNull => [NullLit]
    case JBool(b) => if b then [TrueLit] else [FalseLit]
    case JInt(n) => [Number(n)]
    case JString(s) => [Str(s)]
    case JArray(es) => [LBracket] + DumpsElems(es) + [RBracket]
    case JObject(ms) => [LBrace] + DumpsMembers(ms) + [RBrace]
  }

  /** Array elements separated by commas. */
  function DumpsElems(es: seq<Json>): seq<Token>
  {
    if |es| == 0 then []
    else if |es| == 1 then Dumps(es[0])
    else Dumps(es[0]) + [Comma] + DumpsElems(es[1..])
  }

  /** Object members, each `"name" : value`, separated by commas. */
  function DumpsMembers(ms: seq<Member>): seq<Token>
  {
    if |ms| == 0 then []
    else if |ms| == 1 then [Str(ms[0].name), Colon] + Dumps(ms[0].value)
    else [Str(ms[0].name), Colon] + Dumps(ms[0].value) + [Comma] + DumpsMembers(ms[1..])
  }

  /**
   * Parses one value at the front of `ts` and returns it with the tokens after it.
   * Objects are built as `json.loads` builds a `dict`: a repeated name keeps the
   * position of its first occurrence and the value of its last.
   */
  function ParseValue(ts: seq<Token>): (r: Option<(Json, seq<Token>)>)
    ensures r.Some? ==> |r.value.1| < |ts|
    decreases |ts|, 1
  {
    if |ts| == 0 then None
    else match ts[0]
      case NullLit => Some((JNull, ts[1..]))
      case TrueLit => Some((JBool(true), ts[1..]))
      case FalseLit => Some((JBool(false), ts[1..]))
      case Number(n) => Some((JInt(n), ts[1..]))
      case Str(s) => Some((JString(s), ts[1..]))
      case LBracket =>
        if |ts| > 1 && ts[1] == RBracket then Some((JArray([]), ts[2..]))
        else (
          match ParseElems(ts[1..], [])
          case None => None
          case Some((es, rest)) => Some((JArray(es), rest)))
      case LBrace =>
        if |ts| > 1 && ts[1] == RBrace then Some((JObject([]), ts[2..]))
        else (
          match ParseMembers(ts[1..], [])
          case None => None
          case Some((ms, rest)) => Some((JObject(ms), rest)))
      case _ => None
  }

  /** Parses `value (, value)* ]`, appending the values to `acc`. */
  function ParseElems(ts: seq<Token>, acc: seq<Json>): (r: Option<(seq<Json>, seq<Token>)>)
    ensures r.Some? ==> |r.value.1| < |ts|
    decreases |ts|, 2
  {
    match ParseValue(ts)
    case None => None
    case Some((v, rest)) =>
      if |rest| == 0 then None
      else if rest[0] == Comma then ParseElems(rest[1..], acc + [v])
      else if rest[0] == RBracket then Some((acc + [v], rest[1..]))
      else None
  }

  /** Parses `"name" : value (, "name" : value)* }`, assigning each member into `acc`. */
  function ParseMembers(ts: seq<Token>, acc: seq<Member>): (r: Option<(seq<Member>, seq<Token>)>)
    ensures r.Some? ==> |r.value.1| < |ts|
    decreases |ts|, 2
  {
    if |ts| < 2 || !ts[0].Str? || ts[1] != Colon then None
    else
      match ParseValue(ts[2..])
      case None => None
      case Some((v, rest)) =>
        var acc' := Assign(acc, ts[0].s, v);
        if |rest| == 0 then None
        else if rest[0] == Comma then ParseMembers(rest[1..], acc')
        else if rest[0] == RBrace then Some((acc', rest[1..]))
        else None
  }

  /** `json.loads(text)`: one value and nothing after it, or a decode error (None). */
  function Loads(ts: seq<Token>): (r: Option<Json>)
    ensures r.Some? ==> WellFormed(r.value)
  {
    ParseValueWellFormed(ts);
    match ParseValue(ts)
    case Some((v, rest)) => if rest == [] then Some(v) else None
    case None => None
  }

  /** Every value a parse produces is well-formed: no object has a repeated name. */
  lemma {:induction false} ParseValueWellFormed(ts: seq<Token>)
    ensures ParseValue(ts).Some? ==> WellFormed(ParseValue(ts).value.0)
    decreases |ts|, 1
  {
    if |ts| > 1 && ts[0] == LBracket && ts[1] != RBracket {
      ParseElemsWellFormed(ts[1..], []);
    } else if |ts| > 1 && ts[0] == LBrace && ts[1] != RBrace {
      ParseMembersWellFormed(ts[1..], []);
    }
  }

  lemma {:induction false} ParseElemsWellFormed(ts: seq<Token>, acc: seq<Json>)
    requires forall i :: 0 <= i < |acc| ==> WellFormed(acc[i])
    ensures ParseElems(ts, acc).Some? ==>
      forall i :: 0 <= i < |ParseElems(ts, acc).value.0| ==> WellFormed(ParseElems(ts, acc).value.0[i])
    decreases |ts|, 2
  {
    ParseValueWellFormed(ts);
    match ParseValue(ts)
    case None =>
    case Some((v, rest)) =>
      var acc' := acc + [v];
      assert forall i :: 0 <= i < |acc'| ==> WellFormed(acc'[i]) by {
        forall i | 0 <= i < |acc'| ensures WellFormed(acc'[i]) {
          if i < |acc| { assert acc'[i] == acc[i]; }
        }
      }
      if |rest| > 0 && rest[0] == Comma {
        ParseElemsWellFormed(rest[1..], acc');
      }
  }

  lemma {:induction false} ParseMembersWellFormed(ts: seq<Token>, acc: seq<Member>)
    requires WellFormed(JObject(acc))
    ensures ParseMembers(ts, acc).Some? ==> WellFormed(JObject(ParseMembers(ts, acc).value.0))
    decreases |ts|, 2
  {
    if |ts| >= 2 && ts[0].Str? && ts[1] == Colon {
      ParseValueWellFormed(ts[2..]);
      match ParseValue(ts[2..])
      case None =>
      case Some((v, rest)) =>
        AssignWellFormed(acc, ts[0].s, v);
        if |rest| > 0 && rest[0] == Comma {
          ParseMembersWellFormed(rest[1..], Assign(acc, ts[0].s, v));
        }
    }
  }

  /** Parsing what `Dumps` printed gives back the value and leaves the following tokens. */
  lemma {:induction false} ParseDumps(v: Json, rest: seq<Token>)
    requires WellFormed(v)
    ensures ParseValue(Dumps(v) + rest) == Some((v, rest))
    decreases v, 0
  {
    match v
    case JArray(es) =>
      if |es| == 0 {
        assert Dumps(v) + rest == [LBracket, RBracket] + rest;
      } else {
        ParseDumpsArray(es, rest);
      }
    case JObject(ms) =>
      if |ms| == 0 {
        assert Dumps(v) + rest == [LBrace, RBrace] + rest;
      } else {
        ParseDumpsObject(ms, rest);
      }
    case _ =>
      assert (Dumps(v) + rest)[1..] == rest;
  }

  /** The first token `Dumps` prints never closes an array or an object. */
  lemma FirstTokenOpens(v: Json)
    ensures |Dumps(v)| > 0 && Dumps(v)[0] != RBracket && Dumps(v)[0] != RBrace
  {
  }

  lemma {:induction false} ParseDumpsArray(es: seq<Json>, rest: seq<Token>)
    requires |es| > 0
    requires forall i :: 0 <= i < |es| ==> WellFormed(es[i])
    ensures ParseValue(Dumps(JArray(es)) + rest) == Some((JArray(es), rest))
    decreases es, 2
  {
    var inner := DumpsElems(es) + [RBracket] + rest;
    assert Dumps(JArray(es)) + rest == [LBracket] + inner;
    ConsTail(LBracket, inner);
    ParseDumpsElems(es, [], rest);
    assert [] + es == es;
    assert inner[0] == Dumps(es[0])[0] by {
      DumpsElemsCons(es);
      FirstTokenOpens(es[0]);
    }
    FirstTokenOpens(es[0]);
  }

  lemma {:induction false} ParseDumpsObject(ms: seq<Member>, rest: seq<Token>)
    requires |ms| > 0
    requires WellFormed(JObject(ms))
    ensures ParseValue(Dumps(JObject(ms)) + rest) == Some((JObject(ms), rest))
    decreases ms, 2
  {
    var inner := DumpsMembers(ms) + [RBrace] + rest;
    assert Dumps(JObject(ms)) + rest == [LBrace] + inner;
    assert [] + ms == ms;
    ParseDumpsMembers(ms, [], rest);
    assert inner[0] == Str(ms[0].name);
    assert ([LBrace] + inner)[1..] == inner;
  }

  lemma {:induction false} ParseDumpsElems(es: seq<Json>, acc: seq<Json>, rest: seq<Token>)
    requires |es| > 0
    requires forall i :: 0 <= i < |es| ==> WellFormed(es[i])
    ensures ParseElems(DumpsElems(es) + [RBracket] + rest, acc) == Some((acc + es, rest))
    decreases es, 1
  {
    var inner := if |es| == 1 then rest else DumpsElems(es[1..]) + [RBracket] + rest;
    var tail := [if |es| == 1 then RBracket else Comma] + inner;
    assert DumpsElems(es) + [RBracket] + rest == Dumps(es[0]) + tail by {
      DumpsElemsCons(es);
    }
    ParseDumps(es[0], tail);
    ConsTail(tail[0], inner);
    AppendHead(acc, es);
    if |es| > 1 {
      assert forall i :: 0 <= i < |es[1..]| ==> WellFormed(es[1..][i]) by {
        forall i | 0 <= i < |es[1..]| ensures WellFormed(es[1..][i]) { assert es[1..][i] == es[i + 1]; }
      }
      ParseDumpsElems(es[1..], acc + [es[0]], rest);
    }
  }

  lemma DumpsElemsCons(es: seq<Json>)
    requires |es| > 0
    ensures DumpsElems(es) == Dumps(es[0]) + (if |es| == 1 then [] else [Comma] + DumpsElems(es[1..]))
  {
  }

  lemma {:induction false} ParseDumpsMembers(ms: seq<Member>, acc: seq<Member>, rest: seq<Token>)
    requires |ms| > 0
    requires WellFormed(JObject(acc + ms))
    ensures ParseMembers(DumpsMembers(ms) + [RBrace] + rest, acc) == Some((acc + ms, rest))
    decreases ms, 1
  {
    var m := ms[0];
    var inner := if |ms| == 1 then rest else DumpsMembers(ms[1..]) + [RBrace] + rest;
    var tail := [if |ms| == 1 then RBrace else Comma] + inner;
    assert DumpsMembers(ms) + [RBrace] + rest == [Str(m.name), Colon] + (Dumps(m.value) + tail) by {
      DumpsMembersCons(ms);
    }
    SplitObject(acc, ms);
    ParseFirstMember(m, acc, tail);
    ConsTail(tail[0], inner);
    AppendHead(acc, ms);
    if |ms| > 1 {
      ParseDumpsMembers(ms[1..], acc + [m], rest);
    }
  }

  /** Parsing one printed member whose name is new to `acc`, up to what follows it. */
  lemma ParseFirstMember(m: Member, acc: seq<Member>, tail: seq<Token>)
    requires WellFormed(m.value)
    requires Assign(acc, m.name, m.value) == acc + [m]
    ensures ParseMembers([Str(m.name), Colon] + (Dumps(m.value) + tail), acc) ==
      if |tail| == 0 then None
      else if tail[0] == Comma then ParseMembers(tail[1..], acc + [m])
      else if tail[0] == RBrace then Some((acc + [m], tail[1..]))
      else None
    decreases m, 0
  {
    var ts := [Str(m.name), Colon] + (Dumps(m.value) + tail);
    assert ts[2..] == Dumps(m.value) + tail;
    ParseDumps(m.value, tail);
    ParseMembersStep(ts, acc, m.value, tail);
  }

  lemma DumpsMembersCons(ms: seq<Member>)
    requires |ms| > 0
    ensures DumpsMembers(ms) == [Str(ms[0].name), Colon] + Dumps(ms[0].value)
      + (if |ms| == 1 then [] else [Comma] + DumpsMembers(ms[1..]))
  {
  }

  lemma AppendHead<T>(acc: seq<T>, s: seq<T>)
    requires |s| > 0
    ensures (acc + [s[0]]) + s[1..] == acc + s
    ensures |s| == 1 ==> acc + [s[0]] == acc + s
  {
    assert s == [s[0]] + s[1..];
  }

  lemma ConsTail<T>(x: T, s: seq<T>)
    ensures ([x] + s)[1..] == s
  {
  }

  /** One step of `ParseMembers`: a member, then a comma or the closing brace. */
  lemma ParseMembersStep(ts: seq<Token>, acc: seq<Member>, v: Json, tail: seq<Token>)
    requires |ts| >= 2 && ts[0].Str? && ts[1] == Colon && ParseValue(ts[2..]) == Some((v, tail))
    ensures ParseMembers(ts, acc) ==
      if |tail| == 0 then None
      else if tail[0] == Comma then ParseMembers(tail[1..], Assign(acc, ts[0].s, v))
      else if tail[0] == RBrace then Some((Assign(acc, ts[0].s, v), tail[1..]))
      else None
  {
  }

  /** Splitting a well-formed object's members after `acc`: the next member is new to `acc`. */
  lemma SplitObject(acc: seq<Member>, ms: seq<Member>)
    requires |ms| > 0
    requires WellFormed(JObject(acc + ms))
    ensures WellFormed(ms[0].value)
    ensures Assign(acc, ms[0].name, ms[0].value) == acc + [ms[0]]
    ensures WellFormed(JObject((acc + [ms[0]]) + ms[1..]))
  {
    var all := acc + ms;
    forall i, j | 0 <= i < j < |acc| ensures acc[i].name != acc[j].name {
      assert acc[i] == all[i] && acc[j] == all[j];
    }
    forall i | 0 <= i < |acc| ensures WellFormed(acc[i].value) {
      assert acc[i] == all[i];
    }
    assert ms[0] == all[|acc|];
    forall i | 0 <= i < |acc| ensures acc[i].name != ms[0].name {
      assert acc[i] == all[i];
    }
    NameAbsent(acc, ms[0].name);
    assert (acc + [ms[0]]) + ms[1..] == all;
  }

  /** `json.loads(json.dumps(v)) == v` for every value a parse can produce. */
  lemma LoadsDumps(v: Json)
    requires WellFormed(v)
    ensures Loads(Dumps(v)) == Some(v)
  {
    ParseDumps(v, []);
    assert Dumps(v) + [] == Dumps(v);
  }

  /** Hence `json.dumps` tells parsed values apart: equal serialisations mean equal values. */
  lemma DumpsInjective(a: Json, b: Json)
    requires WellFormed(a) && WellFormed(b)
    ensures Dumps(a) == Dumps(b) <==> a == b
  {
    LoadsDumps(a);
    LoadsDumps(b);
  }
}
