/** Gathering the captures of several path matches per key and collapsing
    them: to one value per key (or an ambiguity error), or to the set of
    values per key. */
module Gather {
  import opened Wrappers
  import opened Values

  /** The named captures of one matched path. */
  type Candidate = map<string, string>

  /** Every candidate captured every key. */
  ghost predicate Covers(keys: seq<string>, results: seq<Candidate>) {
    forall i, k :: 0 <= i < |results| && k in keys ==> k in results[i]
  }

  /** `_gather_list_of_dicts`, for one key: the captured values in order. */
  function Gathered(results: seq<Candidate>, key: string): (g: seq<string>)
    requires forall i :: 0 <= i < |results| ==> key in results[i]
    ensures |g| == |results|
    ensures forall i :: 0 <= i < |results| ==> g[i] == results[i][key]
  {
    seq(|results|, i requires 0 <= i < |results| => results[i][key])
  }

  /** Two captures of the key differ. */
  predicate Ambiguous(g: seq<string>) {
    exists i, j :: 0 <= i < |g| && 0 <= j < |g| && g[i] != g[j]
  }

  /** `_recursive_dedupe_dicts(gathered, raise_on_dupes=True)`: each key
      collapses to its single value; the first key (in `keys` order) whose
      captures disagree raises `AmbiguityError`. */
  function Collapse(keys: seq<string>, results: seq<Candidate>): (r: Result<Metadata>)
    requires Covers(keys, results)
    ensures r.Ok? <==> forall k :: k in keys ==> !Ambiguous(Gathered(results, k))
    ensures r.Ok? && |results| > 0 ==> r.value.Keys == set k | k in keys
    ensures r.Ok? ==> forall k, i :: k in r.value && 0 <= i < |results| ==> r.value[k] == Text(results[i][k])
    ensures r.Err? ==> r.error.AmbiguityError? && !r.error.suggestsPaths
    ensures r.Err? ==> r.error.subject in keys && Ambiguous(Gathered(results, r.error.subject))
  {
    if |results| == 0 || |keys| == 0 then Ok(map[])
    else
      assert keys[0] in keys && forall k :: k in keys[1..] ==> k in keys;
      var g := Gathered(results, keys[0]);
      if Ambiguous(g) then Err(AmbiguityError(keys[0], false))
      else
        var rest :- Collapse(keys[1..], results);
        assert forall i :: 0 <= i < |results| ==> g[i] == g[0];
        Ok(rest[keys[0] := Text(g[0])])
  }

  /** The corrected multi-match collapse: each key maps to the set of its
      captured values, and disagreement is never an error. */
  function CollectSets(keys: seq<string>, results: seq<Candidate>): (r: Metadata)
    requires Covers(keys, results)
    ensures r.Keys == set k | k in keys
    ensures forall k :: k in r ==> r[k].StrSet?
    ensures forall k, v :: k in r ==> (v in r[k].strs <==> exists i :: 0 <= i < |results| && results[i][k] == v)
  {
    map k | k in keys :: StrSet(set i | 0 <= i < |results| :: results[i][k])
  }

  /** The collapse does not depend on the order of the candidates, nor on how
      often one repeats: only on which candidates there are. */
  lemma {:induction false} CollapseOrderIndependent(keys: seq<string>, rs1: seq<Candidate>, rs2: seq<Candidate>)
    requires Covers(keys, rs1) && Covers(keys, rs2)
    requires forall c :: c in rs1 <==> c in rs2
    ensures Collapse(keys, rs1) == Collapse(keys, rs2)
    decreases |keys|
  {
    assert |rs1| == 0 <==> |rs2| == 0 by {
      if |rs1| > 0 { assert rs1[0] in rs2; }
      if |rs2| > 0 { assert rs2[0] in rs1; }
    }
    if |rs1| > 0 && |keys| > 0 {
      assert keys[0] in keys && forall k :: k in keys[1..] ==> k in keys;
      var g1 := Gathered(rs1, keys[0]);
      var g2 := Gathered(rs2, keys[0]);
      SameCapturesSameAmbiguity(rs1, rs2, keys[0]);
      CollapseOrderIndependent(keys[1..], rs1, rs2);
      if !Ambiguous(g1) {
        assert rs2[0] in rs1;
        var j :| 0 <= j < |rs1| && rs1[j] == rs2[0];
        assert g2[0] == g1[j] == g1[0];
      }
    }
  }

  /** Likewise the set-valued collapse. */
  lemma CollectSetsOrderIndependent(keys: seq<string>, rs1: seq<Candidate>, rs2: seq<Candidate>)
    requires Covers(keys, rs1) && Covers(keys, rs2)
    requires forall c :: c in rs1 <==> c in rs2
    ensures CollectSets(keys, rs1) == CollectSets(keys, rs2)
  {
    var c1 := CollectSets(keys, rs1);
    var c2 := CollectSets(keys, rs2);
    forall k | k in c1
      ensures c1[k] == c2[k]
    {
      forall v ensures v in c1[k].strs <==> v in c2[k].strs {
        if v in c1[k].strs {
          var i :| 0 <= i < |rs1| && rs1[i][k] == v;
          assert rs1[i] in rs2;
        }
        if v in c2[k].strs {
          var i :| 0 <= i < |rs2| && rs2[i][k] == v;
          assert rs2[i] in rs1;
        }
      }
    }
  }

  lemma SameCapturesSameAmbiguity(rs1: seq<Candidate>, rs2: seq<Candidate>, k: string)
    requires forall i :: 0 <= i < |rs1| ==> k in rs1[i]
    requires forall i :: 0 <= i < |rs2| ==> k in rs2[i]
    requires forall c :: c in rs1 <==> c in rs2
    ensures Ambiguous(Gathered(rs1, k)) <==> Ambiguous(Gathered(rs2, k))
  {
    var g1 := Gathered(rs1, k);
    var g2 := Gathered(rs2, k);
    if Ambiguous(g1) {
      var i, j :| 0 <= i < |g1| && 0 <= j < |g1| && g1[i] != g1[j];
      assert rs1[i] in rs2 && rs1[j] in rs2;
      var i2 :| 0 <= i2 < |rs2| && rs2[i2] == rs1[i];
      var j2 :| 0 <= j2 < |rs2| && rs2[j2] == rs1[j];
      assert g2[i2] != g2[j2];
    }
    if Ambiguous(g2) {
      var i, j :| 0 <= i < |g2| && 0 <= j < |g2| && g2[i] != g2[j];
      assert rs2[i] in rs1 && rs2[j] in rs1;
      var i1 :| 0 <= i1 < |rs1| && rs1[i1] == rs2[i];
      var j1 :| 0 <= j1 < |rs1| && rs1[j1] == rs2[j];
      assert g1[i1] != g1[j1];
    }
  }
}
