/**
 * The deduplicating merge of one array field (`visuals` or `animdata`): the base
 * records and the candidate records are concatenated, each is serialised with
 * `json.dumps`, the serialisations are collected in a set, and every distinct
 * serialisation is parsed back with `json.loads`. Records are identified by their
 * serialisation only, so key order inside an object matters.
 */
module Merge {
  import opened Wrappers
  import opened JsonValues
  import opened Serialisation

  /** `{json.dumps(r) for r in rs}`. */
  function Serialised(rs: seq<Json>): set<seq<Token>>
  {
    set r | r in rs :: Dumps(r)
  }

  /** Records that came out of `json.load`. */
  predicate AllWellFormed(rs: seq<Json>)
  {
    forall r :: r in rs ==> WellFormed(r)
  }

  /** No two records of `rs` have the same serialisation. */
  predicate Unique(rs: seq<Json>)
  {
    forall i, j :: 0 <= i < j < |rs| ==> Dumps(rs[i]) != Dumps(rs[j])
  }

  /**
   * `merged` is a merge of `base` and `cand`, in whichever order the set was
   * iterated: it has exactly the serialisations of `base + cand`, each once, and
   * holds only records taken from `base + cand`.
   */
  ghost predicate IsMergeOf(merged: seq<Json>, base: seq<Json>, cand: seq<Json>)
  {
    && Serialised(merged) == Serialised(base + cand)
    && Unique(merged)
    && (forall r :: r in merged ==> r in base + cand)
  }

  /**
   * `[json.loads(s) for s in list({json.dumps(r) for r in base + cand})]`. The set is
   * enumerated in an arbitrary order, as iterating a Python set is.
   */
  method MergeArray(base: seq<Json>, cand: seq<Json>) returns (merged: seq<Json>)
    requires AllWellFormed(base + cand)
    ensures IsMergeOf(merged, base, cand)
  {
    var keys := Serialised(base + cand);
    merged := [];
    var remaining := keys;
    while remaining != {}
      invariant remaining <= keys
      invariant Serialised(merged) == keys - remaining
      invariant Unique(merged)
      invariant forall r :: r in merged ==> r in base + cand
      decreases remaining
    {
      var s :| s in remaining;
      ghost var r :| r in base + cand && Dumps(r) == s;
      LoadsDumps(r);
      var record := Loads(s).value;
      AppendFresh(merged, record);
      assert (keys - remaining) + {s} == keys - (remaining - {s});
      merged := merged + [record];
      remaining := remaining - {s};
    }
  }

  lemma SerialisedAppend(rs: seq<Json>, x: Json)
    ensures Serialised(rs + [x]) == Serialised(rs) + {Dumps(x)}
  {
    assert forall r :: r in rs + [x] <==> r in rs || r == x;
  }

  /** Appending a record with a new serialisation keeps the records unique. */
  lemma AppendFresh(rs: seq<Json>, x: Json)
    requires Unique(rs) && Dumps(x) !in Serialised(rs)
    ensures Unique(rs + [x])
    ensures Serialised(rs + [x]) == Serialised(rs) + {Dumps(x)}
    ensures forall r :: r in rs + [x] <==> r in rs || r == x
  {
    SerialisedAppend(rs, x);
    var rs' := rs + [x];
    forall i, j | 0 <= i < j < |rs'| ensures Dumps(rs'[i]) != Dumps(rs'[j]) {
      assert rs'[i] == rs[i] && rs[i] in rs;
      if j < |rs| { assert rs'[j] == rs[j]; }
    }
  }

  lemma SerialisedConcat(a: seq<Json>, b: seq<Json>)
    ensures Serialised(a + b) == Serialised(a) + Serialised(b)
  {
    assert forall r :: r in a + b <==> r in a || r in b;
  }

  /** There are never more distinct serialisations than records. */
  lemma {:induction false} SerialisedSize(rs: seq<Json>)
    ensures |Serialised(rs)| <= |rs|
  {
    if |rs| > 0 {
      var init := rs[..|rs| - 1];
      assert rs == init + [rs[|rs| - 1]];
      SerialisedAppend(init, rs[|rs| - 1]);
      SerialisedSize(init);
    }
  }

  /** Without repeated serialisations there are exactly as many as records. */
  lemma {:induction false} UniqueSize(rs: seq<Json>)
    requires Unique(rs)
    ensures |Serialised(rs)| == |rs|
  {
    if |rs| > 0 {
      var init := rs[..|rs| - 1];
      var last := rs[|rs| - 1];
      assert rs == init + [last];
      assert Unique(init) by {
        forall i, j | 0 <= i < j < |init| ensures Dumps(init[i]) != Dumps(init[j]) {
          assert init[i] == rs[i] && init[j] == rs[j];
        }
      }
      UniqueSize(init);
      assert Dumps(last) !in Serialised(init) by {
        forall i | 0 <= i < |init| ensures Dumps(init[i]) != Dumps(last) {
          assert init[i] == rs[i];
        }
      }
      SerialisedAppend(init, last);
    }
  }

  /**
   * The merged array holds one record per distinct serialisation, so it is never
   * longer than the base and candidate arrays together.
   */
  lemma MergeSize(merged: seq<Json>, base: seq<Json>, cand: seq<Json>)
    requires IsMergeOf(merged, base, cand)
    ensures |merged| == |Serialised(base + cand)| <= |base| + |cand|
  {
    UniqueSize(merged);
    SerialisedSize(base + cand);
  }

  /** Nothing is lost: every base or candidate record is itself in the merged array. */
  lemma MergeKeepsEveryRecord(merged: seq<Json>, base: seq<Json>, cand: seq<Json>)
    requires AllWellFormed(base + cand)
    requires IsMergeOf(merged, base, cand)
    ensures forall r :: r in merged <==> r in base + cand
  {
    forall r | r in base + cand ensures r in merged {
      assert Dumps(r) in Serialised(merged);
      var y :| y in merged && Dumps(y) == Dumps(r);
      DumpsInjective(y, r);
    }
  }

  /** Merging is commutative up to order: the same records, the same count. */
  lemma MergeCommutes(m1: seq<Json>, m2: seq<Json>, a: seq<Json>, b: seq<Json>)
    requires AllWellFormed(a + b)
    requires IsMergeOf(m1, a, b) && IsMergeOf(m2, b, a)
    ensures forall r :: r in m1 <==> r in m2
    ensures |m1| == |m2|
  {
    assert Serialised(a + b) == Serialised(b + a) by {
      SerialisedConcat(a, b);
      SerialisedConcat(b, a);
    }
    assert forall r :: r in a + b <==> r in b + a;
    MergeKeepsEveryRecord(m1, a, b);
    MergeKeepsEveryRecord(m2, b, a);
    MergeSize(m1, a, b);
    MergeSize(m2, b, a);
  }

  /** Merging an array with itself gives its records back, each once. */
  lemma MergeWithSelf(merged: seq<Json>, a: seq<Json>)
    requires AllWellFormed(a)
    requires IsMergeOf(merged, a, a)
    ensures forall r :: r in merged <==> r in a
    ensures |merged| == |Serialised(a)| <= |a|
  {
    assert Serialised(a + a) == Serialised(a) by {
      SerialisedConcat(a, a);
    }
    assert forall r :: r in a + a <==> r in a;
    MergeKeepsEveryRecord(merged, a, a);
    MergeSize(merged, a, a);
    SerialisedSize(a);
  }

  /** Candidate records that the base already has add nothing. */
  lemma MergeKnownRecords(merged: seq<Json>, base: seq<Json>, cand: seq<Json>)
    requires Serialised(cand) <= Serialised(base)
    requires IsMergeOf(merged, base, cand)
    ensures Serialised(merged) == Serialised(base)
    ensures |merged| == |Serialised(base)|
  {
    SerialisedConcat(base, cand);
    MergeSize(merged, base, cand);
  }

  /** Merging a merged array again with nothing changes neither its records nor its size. */
  lemma RemergeIsStable(m: seq<Json>, m2: seq<Json>, a: seq<Json>, b: seq<Json>)
    requires IsMergeOf(m, a, b) && IsMergeOf(m2, m, [])
    ensures Serialised(m2) == Serialised(m)
    ensures |m2| == |m|
  {
    assert m + [] == m;
    MergeSize(m2, m, []);
    UniqueSize(m);
  }

  /** A record given twice, once in each array, comes out once. */
  lemma DuplicateCollapses(merged: seq<Json>, r: Json)
    requires IsMergeOf(merged, [r], [r])
    ensures merged == [r]
  {
    assert Serialised([r] + [r]) == {Dumps(r)};
    MergeSize(merged, [r], [r]);
    assert merged[0] in [r] + [r];
  }

  /**
   * Without `sort_keys`, `{"a": 1, "b": 2}` and `{"b": 2, "a": 1}` serialise
   * differently, so both survive the merge.
   */
  lemma KeyOrderIsKept(merged: seq<Json>)
    requires IsMergeOf(merged, [JObject([Member("a", JInt(1)), Member("b", JInt(2))])],
                               [JObject([Member("b", JInt(2)), Member("a", JInt(1))])])
    ensures |merged| == 2
  {
    var r1 := JObject([Member("a", JInt(1)), Member("b", JInt(2))]);
    var r2 := JObject([Member("b", JInt(2)), Member("a", JInt(1))]);
    assert Dumps(r1)[1] == Str("a") && Dumps(r2)[1] == Str("b");
    assert Serialised([r1] + [r2]) == {Dumps(r1), Dumps(r2)};
    MergeSize(merged, [r1], [r2]);
  }

  /** Merging `[a]` with `[a, b]` for two different records gives both, each once. */
  lemma MergeTwoRecords(m: seq<Json>, a: Json, b: Json)
    requires WellFormed(a) && WellFormed(b) && a != b
    requires IsMergeOf(m, [a], [a, b])
    ensures |m| == 2
    ensures forall r :: r in m <==> r == a || r == b
  {
    DumpsInjective(a, b);
    var all := [a] + [a, b];
    assert Serialised(all) == {Dumps(a), Dumps(b)} by {
      assert forall r :: r in all <==> r == a || r == b;
    }
    MergeSize(m, [a], [a, b]);
    assert AllWellFormed(all);
    MergeKeepsEveryRecord(m, [a], [a, b]);
  }

  /** Merging nothing with a single record gives that record. */
  lemma MergeIntoEmpty(m: seq<Json>, r: Json)
    requires IsMergeOf(m, [], [r])
    ensures m == [r]
  {
    assert [] + [r] == [r];
    assert Serialised([r]) == {Dumps(r)};
    MergeSize(m, [], [r]);
    assert m[0] in [r];
  }
}
