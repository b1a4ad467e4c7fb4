/**
 * The related-artifact bookkeeping of `$refresh-generated-content`: the
 * measure's "depends-on" artifacts are dropped, the data-requirements
 * generator is run on what remains, and each generated artifact is appended
 * unless a deep-equal one is already in the (growing) list.
 */
module Artifacts {
  import opened Fhir
  import opened Services

  /** `removeIf(type == DEPENDSON)`: an artifact without a type makes the comparison fail. */
  function WithoutDependsOn(artifacts: seq<RelatedArtifact>): (r: Result<seq<RelatedArtifact>>)
    ensures r.Ok? <==> forall k :: 0 <= k < |artifacts| ==> artifacts[k].artifactType.Some?
    ensures r.Err? ==> r.error == MissingArtifactType
    ensures r.Ok? ==> |r.value| <= |artifacts|
  {
    if artifacts == [] then Ok([])
    else
      var earlier :- WithoutDependsOn(artifacts[..|artifacts| - 1]);
      var last := artifacts[|artifacts| - 1];
      if last.artifactType.None? then Err(MissingArtifactType)
      else if last.artifactType.value == DependsOn then Ok(earlier)
      else Ok(earlier + [last])
  }

  /** Some artifact of the list is deep-equal to `a`. */
  predicate HasDeepEqual(s: seq<RelatedArtifact>, a: RelatedArtifact) {
    exists k :: 0 <= k < |s| && DeepEqual(s[k], a)
  }

  /** The merge against the growing list: a generated artifact is appended unless a deep-equal one is already there. */
  function Merge(current: seq<RelatedArtifact>, generated: seq<RelatedArtifact>): seq<RelatedArtifact> {
    if generated == [] then current
    else
      var before := Merge(current, generated[..|generated| - 1]);
      var a := generated[|generated| - 1];
      if HasDeepEqual(before, a) then before else before + [a]
  }

  /**
   * `refreshGeneratedContent`, up to the update: the measure that is written
   * back. `generate` is the generator's list of related artifacts for the
   * measure it is given.
   */
  function Refresh(storage: Storage, generate: Measure -> seq<RelatedArtifact>, measureId: string): Result<Measure> {
    var m :- if storage.readMeasure(measureId).Some? then Ok(storage.readMeasure(measureId).value)
             else Err(MeasureNotFound(measureId));
    var kept :- WithoutDependsOn(m.relatedArtifacts);
    var stripped := m.(relatedArtifacts := kept);
    Ok(stripped.(relatedArtifacts := Merge(kept, generate(stripped))))
  }

  // ---------------------------------------------------------------------
  // Properties
  // ---------------------------------------------------------------------

  /** No two artifacts of the list are deep-equal. */
  predicate DeepDistinct(s: seq<RelatedArtifact>) {
    forall i, j :: 0 <= i < j < |s| ==> !DeepEqual(s[i], s[j])
  }

  /** Appending keeps a deep-equal artifact that was there. */
  lemma HasDeepEqualAppend(s: seq<RelatedArtifact>, x: RelatedArtifact, a: RelatedArtifact)
    requires HasDeepEqual(s, a)
    ensures HasDeepEqual(s + [x], a)
  {
    var k :| 0 <= k < |s| && DeepEqual(s[k], a);
    assert (s + [x])[k] == s[k];
  }

  /** Exactly the typed artifacts other than "depends-on" are kept, in order. */
  lemma {:induction false} WithoutDependsOnKeeps(artifacts: seq<RelatedArtifact>)
    requires WithoutDependsOn(artifacts).Ok?
    ensures var r := WithoutDependsOn(artifacts).value;
            forall a :: a in r <==> a in artifacts && a.artifactType != Some(DependsOn)
  {
    if artifacts != [] {
      var init := artifacts[..|artifacts| - 1];
      WithoutDependsOnKeeps(init);
      assert artifacts == init + [artifacts[|artifacts| - 1]];
    }
  }

  /** The positions of the artifacts whose type is not "depends-on", in order. */
  function KeptAt(artifacts: seq<RelatedArtifact>): seq<nat> {
    if artifacts == [] then []
    else
      var n := |artifacts| - 1;
      KeptAt(artifacts[..n]) + if Kept(artifacts[n]) then [n] else []
  }

  /** `removeIf` keeps an artifact whose type is not "depends-on". */
  predicate Kept(a: RelatedArtifact) {
    a.artifactType != Some(DependsOn)
  }

  /** The positions increase, and an artifact's position is listed exactly when it is kept. */
  lemma {:induction false} KeptAtPositions(artifacts: seq<RelatedArtifact>)
    ensures IncreasingBelow(KeptAt(artifacts), |artifacts|)
    ensures forall k :: 0 <= k < |artifacts| ==> (k in KeptAt(artifacts) <==> Kept(artifacts[k]))
  {
    if artifacts != [] {
      var n := |artifacts| - 1;
      var init := artifacts[..n];
      KeptAtPositions(init);
      var before, pos := KeptAt(init), KeptAt(artifacts);
      assert pos == before + if Kept(artifacts[n]) then [n] else [];
      forall i | 0 <= i < |pos| ensures pos[i] < |artifacts| {
        if i < |before| {
          assert pos[i] == before[i];
        }
      }
      forall i, j | 0 <= i < j < |pos| ensures pos[i] < pos[j] {
        if j < |before| {
          assert pos[i] == before[i] && pos[j] == before[j];
        } else {
          assert pos[i] == before[i] && pos[j] == n;
        }
      }
      assert n !in before;
      forall k | 0 <= k < n ensures k in pos <==> Kept(artifacts[k]) {
        assert artifacts[k] == init[k];
      }
    }
  }

  /** `removeIf` on artifacts that all have a type: the kept ones, in order. */
  function Filtered(artifacts: seq<RelatedArtifact>): seq<RelatedArtifact> {
    if artifacts == [] then []
    else
      var n := |artifacts| - 1;
      Filtered(artifacts[..n]) + if Kept(artifacts[n]) then [artifacts[n]] else []
  }

  lemma {:induction false} WithoutDependsOnIsFiltered(artifacts: seq<RelatedArtifact>)
    requires WithoutDependsOn(artifacts).Ok?
    ensures WithoutDependsOn(artifacts).value == Filtered(artifacts)
  {
    if artifacts != [] {
      WithoutDependsOnIsFiltered(artifacts[..|artifacts| - 1]);
    }
  }

  /** Filtered artifact i is the artifact at the i-th kept position. */
  lemma {:induction false} FilteredAt(artifacts: seq<RelatedArtifact>)
    ensures |KeptAt(artifacts)| == |Filtered(artifacts)|
    ensures forall i :: 0 <= i < |KeptAt(artifacts)| ==>
              KeptAt(artifacts)[i] < |artifacts| && artifacts[KeptAt(artifacts)[i]] == Filtered(artifacts)[i]
  {
    KeptAtPositions(artifacts);
    if artifacts != [] {
      var n := |artifacts| - 1;
      var init := artifacts[..n];
      FilteredAt(init);
      var before, pos := KeptAt(init), KeptAt(artifacts);
      var kept0, kept := Filtered(init), Filtered(artifacts);
      assert pos == before + if Kept(artifacts[n]) then [n] else [];
      assert kept == kept0 + if Kept(artifacts[n]) then [artifacts[n]] else [];
      forall i | 0 <= i < |pos|
        ensures pos[i] < |artifacts| && artifacts[pos[i]] == kept[i]
      {
        if i < |before| {
          assert pos[i] == before[i] && kept[i] == kept0[i] && artifacts[before[i]] == init[before[i]];
        }
      }
    }
  }

  /**
   * The removal is an order-keeping filter: kept artifact i is artifact
   * `pos[i]`, the positions increase, and an artifact's position is listed
   * exactly when its type is not "depends-on"; duplicates stay duplicates.
   */
  lemma WithoutDependsOnFilter(artifacts: seq<RelatedArtifact>)
    requires WithoutDependsOn(artifacts).Ok?
    ensures |KeptAt(artifacts)| == |WithoutDependsOn(artifacts).value|
    ensures IncreasingBelow(KeptAt(artifacts), |artifacts|)
    ensures forall i :: 0 <= i < |KeptAt(artifacts)| ==>
              KeptAt(artifacts)[i] < |artifacts| && artifacts[KeptAt(artifacts)[i]] == WithoutDependsOn(artifacts).value[i]
    ensures forall k :: 0 <= k < |artifacts| ==> (k in KeptAt(artifacts) <==> Kept(artifacts[k]))
  {
    WithoutDependsOnIsFiltered(artifacts);
    KeptAtPositions(artifacts);
    FilteredAt(artifacts);
  }

  /** The merge only appends: the current list is a prefix of the result. */
  lemma {:induction false} MergeExtends(current: seq<RelatedArtifact>, generated: seq<RelatedArtifact>)
    ensures |current| <= |Merge(current, generated)| <= |current| + |generated|
    ensures Merge(current, generated)[..|current|] == current
  {
    if generated != [] {
      var before := Merge(current, generated[..|generated| - 1]);
      MergeExtends(current, generated[..|generated| - 1]);
      assert (before + [generated[|generated| - 1]])[..|current|] == before[..|current|];
    }
  }

  /**
   * After the merge every current artifact is still there, every generated
   * one has a deep-equal artifact there, and everything there was current or
   * generated.
   */
  lemma {:induction false} MergeMembers(current: seq<RelatedArtifact>, generated: seq<RelatedArtifact>)
    ensures forall a :: a in current ==> a in Merge(current, generated)
    ensures forall k :: 0 <= k < |generated| ==> HasDeepEqual(Merge(current, generated), generated[k])
    ensures forall a :: a in Merge(current, generated) ==> a in current || a in generated
  {
    if generated != [] {
      var init := generated[..|generated| - 1];
      var before := Merge(current, init);
      var a := generated[|generated| - 1];
      MergeMembers(current, init);
      assert generated == init + [a];
      if !HasDeepEqual(before, a) {
        forall k | 0 <= k < |init|
          ensures HasDeepEqual(before + [a], generated[k])
        {
          HasDeepEqualAppend(before, a, generated[k]);
        }
        assert DeepEqual((before + [a])[|before|], a);
      }
    }
  }

  /** No artifact is added twice: a list without repetitions stays without them, even if the generator repeats itself. */
  lemma {:induction false} MergeDistinct(current: seq<RelatedArtifact>, generated: seq<RelatedArtifact>)
    requires DeepDistinct(current)
    ensures DeepDistinct(Merge(current, generated))
  {
    if generated != [] {
      var before := Merge(current, generated[..|generated| - 1]);
      MergeDistinct(current, generated[..|generated| - 1]);
      var a := generated[|generated| - 1];
      if !HasDeepEqual(before, a) {
        var after := before + [a];
        forall i, j | 0 <= i < j < |after|
          ensures !DeepEqual(after[i], after[j])
        {
          if j == |before| {
            assert after[i] == before[i];
          } else {
            assert after[i] == before[i] && after[j] == before[j];
          }
        }
      }
    }
  }

  /** Merging what is already merged changes nothing. */
  lemma {:induction false} MergeIdempotent(current: seq<RelatedArtifact>, generated: seq<RelatedArtifact>)
    ensures Merge(Merge(current, generated), generated) == Merge(current, generated)
  {
    MergeMembers(current, generated);
    MergePresent(Merge(current, generated), generated);
  }

  /** Artifacts that all have a deep-equal one in the list already leave it unchanged. */
  lemma {:induction false} MergePresent(current: seq<RelatedArtifact>, generated: seq<RelatedArtifact>)
    requires forall k :: 0 <= k < |generated| ==> HasDeepEqual(current, generated[k])
    ensures Merge(current, generated) == current
  {
    if generated != [] {
      MergePresent(current, generated[..|generated| - 1]);
    }
  }

  /** A generator that lists the same artifact twice adds it once. */
  lemma RepeatedArtifactOnce(a: RelatedArtifact)
    ensures Merge([], [a, a]) == [a]
  {
    assert [a][..0] == [];
    assert Merge([], [a]) == [a];
    assert [a, a][..1] == [a];
    assert DeepEqual([a][0], a);
  }

  /**
   * Deep equality treats a blank element as absent: an artifact whose
   * display is blank is not added beside the same artifact without one.
   */
  lemma BlankDisplayNotAdded(a: RelatedArtifact)
    ensures Merge([a.(display := None)], [a.(display := Some(" "))]) == [a.(display := None)]
  {
    var current := [a.(display := None)];
    var generated := [a.(display := Some(" "))];
    assert generated[..0] == [];
    assert DeepEqual(current[0], generated[0]);
  }

  /**
   * The measure written back: a failed read or an untyped artifact fails;
   * otherwise its artifacts start with the kept ones, contain every
   * generated one, and any "depends-on" among them was generated.
   */
  lemma RefreshShape(storage: Storage, generate: Measure -> seq<RelatedArtifact>, measureId: string)
    ensures storage.readMeasure(measureId).None? ==> Refresh(storage, generate, measureId) == Err(MeasureNotFound(measureId))
    ensures Refresh(storage, generate, measureId).Ok? ==>
              var m := storage.readMeasure(measureId).value;
              var kept := WithoutDependsOn(m.relatedArtifacts).value;
              var generated := generate(m.(relatedArtifacts := kept));
              var r := Refresh(storage, generate, measureId).value;
              && r == m.(relatedArtifacts := r.relatedArtifacts)
              && |kept| <= |r.relatedArtifacts| && r.relatedArtifacts[..|kept|] == kept
              && (forall k :: 0 <= k < |generated| ==> HasDeepEqual(r.relatedArtifacts, generated[k]))
              && (forall a :: a in r.relatedArtifacts && a.artifactType == Some(DependsOn) ==> a in generated)
  {
    if Refresh(storage, generate, measureId).Ok? {
      var m := storage.readMeasure(measureId).value;
      var kept := WithoutDependsOn(m.relatedArtifacts).value;
      var generated := generate(m.(relatedArtifacts := kept));
      WithoutDependsOnKeeps(m.relatedArtifacts);
      MergeExtends(kept, generated);
      MergeMembers(kept, generated);
    }
  }

  // ---------------------------------------------------------------------
  // The imperative operations
  // ---------------------------------------------------------------------

  /** The inner search, stopping at the first deep-equal artifact. */
  method ArtifactExists(artifacts: seq<RelatedArtifact>, a: RelatedArtifact) returns (exists_: bool)
    ensures exists_ <==> HasDeepEqual(artifacts, a)
  {
    exists_ := false;
    var i := 0;
    while i < |artifacts|
      invariant 0 <= i <= |artifacts|
      invariant forall k :: 0 <= k < i ==> !DeepEqual(artifacts[k], a)
    {
      if DeepEqual(artifacts[i], a) {
        return true;
      }
      i := i + 1;
    }
  }

  /** The outer loop over the generated artifacts. */
  method MergeArtifacts(current: seq<RelatedArtifact>, generated: seq<RelatedArtifact>) returns (merged: seq<RelatedArtifact>)
    ensures merged == Merge(current, generated)
  {
    merged := current;
    var i := 0;
    while i < |generated|
      invariant 0 <= i <= |generated|
      invariant merged == Merge(current, generated[..i])
    {
      assert generated[..i + 1][..i] == generated[..i];
      var found := ArtifactExists(merged, generated[i]);
      if !found {
        merged := merged + [generated[i]];
      }
      i := i + 1;
    }
    assert generated[..i] == generated;
  }

  /** `refreshGeneratedContent`: the measure handed to the update. */
  method RefreshGeneratedContent(storage: Storage, generate: Measure -> seq<RelatedArtifact>, measureId: string)
    returns (res: Result<Measure>)
    ensures res == Refresh(storage, generate, measureId)
  {
    var read := storage.readMeasure(measureId);
    if read.None? {
      return Err(MeasureNotFound(measureId));
    }
    var kept := WithoutDependsOn(read.value.relatedArtifacts);
    if kept.Err? {
      return Err(kept.error);
    }
    var stripped := read.value.(relatedArtifacts := kept.value);
    var merged := MergeArtifacts(kept.value, generate(stripped));
    return Ok(stripped.(relatedArtifacts := merged));
  }
}
