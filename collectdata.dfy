/**
 * `$collect-data`: the patient report of a measure, stripped of its groups,
 * followed by every resource the evaluation gathered (the entries of the
 * report's contained bundles) and, one level deep, the resources those refer
 * to. A per-bundle map from resource id to resource keeps a bundle from
 * contributing the same id twice.
 *
 * The FHIR structure definitions the source walks by reflection are the
 * parameter `model`: `model(r)` is, for each child element of `r` in
 * definition order, what its first value is.
 */
module CollectData {
  import opened Fhir
  import opened Services

  const ReportParameterName := "measurereport"
  const ResourceParameterName := "resource"

  /** The first value of a child element of a resource. */
  datatype FirstValue =
    | NoValues
    | NotAReference
    | ReferenceTo(resourceType: Option<string>, idPart: Option<string>)

  type Model = Resource -> seq<FirstValue>

  /** A reference the source follows: one with both a resource type and an id part. */
  predicate Followed(v: FirstValue) {
    v.ReferenceTo? && Present(v.resourceType) && Present(v.idPart)
  }

  // ---------------------------------------------------------------------
  // The mutable collaborators
  // ---------------------------------------------------------------------

  /** The `Parameters` resource under construction. */
  class ParameterList {
    var parameters: seq<Parameter>

    constructor()
      ensures parameters == []
    {
      parameters := [];
    }

    method Add(name: string, resource: Resource)
      modifies this
      ensures parameters == old(parameters) + [Parameter(name, resource)]
    {
      parameters := parameters + [Parameter(name, resource)];
    }
  }

  /** The `HashMap<String, Resource>` keyed by id value, where a missing id is the null key. */
  class ResourceMap {
    var entries: map<Option<string>, Resource>

    constructor()
      ensures entries == map[]
    {
      entries := map[];
    }

    predicate ContainsKey(key: Option<string>)
      reads this
    {
      key in entries
    }

    method Put(key: Option<string>, resource: Resource)
      modifies this
      ensures entries == old(entries)[key := resource]
    {
      entries := entries[key := resource];
    }
  }

  // ---------------------------------------------------------------------
  // The specification
  // ---------------------------------------------------------------------

  /** The parameters gathered so far and the resource map of the current bundle. */
  datatype Gathered = Gathered(params: seq<Parameter>, seen: map<Option<string>, Resource>)

  /** Adds a resource whose id is not yet in the map. */
  function Admit(g: Gathered, r: Resource): Gathered {
    Gathered(g.params + [Parameter(ResourceParameterName, r)], g.seen[Id(r) := r])
  }

  /**
   * One child of `resolveReferences`: a followed reference is read (a
   * failed read fails the operation, whether or not the id was seen) and the
   * result is added unless its id is already in the map.
   */
  function ResolveValue(g: Gathered, v: FirstValue, storage: Storage): Result<Gathered> {
    if Followed(v) then
      match storage.read(v.resourceType.value, v.idPart.value)
      case None => Err(UnresolvedReference(v.resourceType.value, v.idPart.value))
      case Some(fetched) => Ok(if Id(fetched) in g.seen then g else Admit(g, fetched))
    else Ok(g)
  }

  function ResolveValues(g: Gathered, values: seq<FirstValue>, storage: Storage): Result<Gathered> {
    if values == [] then Ok(g)
    else
      var before :- ResolveValues(g, values[..|values| - 1], storage);
      ResolveValue(before, values[|values| - 1], storage)
  }

  /** One entry of `addEvaluatedResourcesToParameters`. */
  function AddEntry(g: Gathered, e: Entry, storage: Storage, model: Model): Result<Gathered> {
    if e.resource.None? || IsList(e.resource.value) || Id(e.resource.value) in g.seen then Ok(g)
    else ResolveValues(Admit(g, e.resource.value), model(e.resource.value), storage)
  }

  function AddEntries(g: Gathered, entries: seq<Entry>, storage: Storage, model: Model): Result<Gathered> {
    if entries == [] then Ok(g)
    else
      var before :- AddEntries(g, entries[..|entries| - 1], storage, model);
      AddEntry(before, entries[|entries| - 1], storage, model)
  }

  /** A contained bundle, with a map of its own. */
  function AddBundle(params: seq<Parameter>, b: Bundle, storage: Storage, model: Model): Result<seq<Parameter>> {
    var g :- AddEntries(Gathered(params, map[]), b.entries, storage, model);
    Ok(g.params)
  }

  /** Every contained resource that is a bundle, in order. */
  function AddContained(params: seq<Parameter>, contained: seq<Resource>, storage: Storage, model: Model): Result<seq<Parameter>> {
    if contained == [] then Ok(params)
    else
      var before :- AddContained(params, contained[..|contained| - 1], storage, model);
      var last := contained[|contained| - 1];
      if last.BundleResource? then AddBundle(before, last.bundle, storage, model) else Ok(before)
  }

  /** The report `collectData` returns: the default (patient) evaluation without its groups. */
  function StrippedReport(storage: Storage, engine: Engine, measureId: string, patientRef: Option<string>,
                          practitionerRef: Option<string>): Result<MeasureReport>
  {
    var report :- EvaluateMeasure(storage, engine, measureId, None, patientRef, practitionerRef, None);
    Ok(report.(groups := []))
  }

  function CollectDataSpec(storage: Storage, engine: Engine, model: Model, measureId: string,
                           patientRef: Option<string>, practitionerRef: Option<string>): Result<seq<Parameter>>
  {
    var report :- StrippedReport(storage, engine, measureId, patientRef, practitionerRef);
    AddContained([Parameter(ReportParameterName, ReportResource(report))], report.contained, storage, model)
  }

  // ---------------------------------------------------------------------
  // Properties
  // ---------------------------------------------------------------------

  /**
   * What gathering from `base` keeps: the earlier parameters are untouched,
   * every new one is a "resource" parameter, no two new ones share an id,
   * and the map's keys are exactly the ids of the new ones.
   */
  predicate Tracks(base: seq<Parameter>, g: Gathered) {
    && |base| <= |g.params| && g.params[..|base|] == base
    && (forall j :: |base| <= j < |g.params| ==> g.params[j].name == ResourceParameterName)
    && (forall j, k :: |base| <= j < k < |g.params| ==> Id(g.params[j].resource) != Id(g.params[k].resource))
    && (forall j :: |base| <= j < |g.params| ==> Id(g.params[j].resource) in g.seen)
    && (forall key :: key in g.seen ==> exists j :: |base| <= j < |g.params| && Id(g.params[j].resource) == key)
  }

  lemma AdmitTracks(base: seq<Parameter>, g: Gathered, r: Resource)
    requires Tracks(base, g) && Id(r) !in g.seen
    ensures Tracks(base, Admit(g, r))
  {
    var g' := Admit(g, r);
    assert g'.params[..|base|] == g.params[..|base|];
    AdmitDistinct(base, g, r);
    AdmitKeys(base, g, r);
  }

  lemma AdmitDistinct(base: seq<Parameter>, g: Gathered, r: Resource)
    requires Tracks(base, g) && Id(r) !in g.seen
    ensures forall j, k :: |base| <= j < k < |Admit(g, r).params| ==>
              Id(Admit(g, r).params[j].resource) != Id(Admit(g, r).params[k].resource)
  {
    var ps := Admit(g, r).params;
    forall j, k | |base| <= j < k < |ps|
      ensures Id(ps[j].resource) != Id(ps[k].resource)
    {
      assert ps[j] == g.params[j];
      if k < |g.params| {
        assert ps[k] == g.params[k];
      }
    }
  }

  lemma AdmitKeys(base: seq<Parameter>, g: Gathered, r: Resource)
    requires Tracks(base, g) && Id(r) !in g.seen
    ensures forall key :: key in Admit(g, r).seen ==>
              exists j :: |base| <= j < |Admit(g, r).params| && Id(Admit(g, r).params[j].resource) == key
  {
    var g' := Admit(g, r);
    forall key | key in g'.seen
      ensures exists j :: |base| <= j < |g'.params| && Id(g'.params[j].resource) == key
    {
      if key == Id(r) {
        assert Id(g'.params[|g.params|].resource) == key;
      } else {
        var j :| |base| <= j < |g.params| && Id(g.params[j].resource) == key;
        assert g'.params[j] == g.params[j];
      }
    }
  }

  lemma {:induction false} ResolveValuesTracks(base: seq<Parameter>, g: Gathered, values: seq<FirstValue>, storage: Storage)
    requires Tracks(base, g)
    requires ResolveValues(g, values, storage).Ok?
    ensures Tracks(base, ResolveValues(g, values, storage).value)
  {
    if values != [] {
      ResolveValuesTracks(base, g, values[..|values| - 1], storage);
      var before := ResolveValues(g, values[..|values| - 1], storage).value;
      var v := values[|values| - 1];
      if Followed(v) {
        var fetched := storage.read(v.resourceType.value, v.idPart.value).value;
        if Id(fetched) !in before.seen {
          AdmitTracks(base, before, fetched);
        }
      }
    }
  }

  lemma {:induction false} AddEntriesTracks(base: seq<Parameter>, g: Gathered, entries: seq<Entry>,
                                            storage: Storage, model: Model)
    requires Tracks(base, g)
    requires AddEntries(g, entries, storage, model).Ok?
    ensures Tracks(base, AddEntries(g, entries, storage, model).value)
  {
    if entries != [] {
      AddEntriesTracks(base, g, entries[..|entries| - 1], storage, model);
      var before := AddEntries(g, entries[..|entries| - 1], storage, model).value;
      var e := entries[|entries| - 1];
      if !(e.resource.None? || IsList(e.resource.value) || Id(e.resource.value) in before.seen) {
        AdmitTracks(base, before, e.resource.value);
        ResolveValuesTracks(base, Admit(before, e.resource.value), model(e.resource.value), storage);
      }
    }
  }

  /**
   * A contained bundle appends "resource" parameters only, with pairwise
   * distinct ids; the parameters before it are kept.
   */
  lemma BundleIdsDistinct(params: seq<Parameter>, b: Bundle, storage: Storage, model: Model)
    requires AddBundle(params, b, storage, model).Ok?
    ensures var ps := AddBundle(params, b, storage, model).value;
            && |params| <= |ps| && ps[..|params|] == params
            && (forall j :: |params| <= j < |ps| ==> ps[j].name == ResourceParameterName)
            && (forall j, k :: |params| <= j < k < |ps| ==> Id(ps[j].resource) != Id(ps[k].resource))
  {
    AddEntriesTracks(params, Gathered(params, map[]), b.entries, storage, model);
  }

  /** After a bundle's entries, every non-List entry resource is represented by a parameter with its id. */
  lemma {:induction false} EntriesRepresented(g: Gathered, entries: seq<Entry>, storage: Storage, model: Model)
    requires AddEntries(g, entries, storage, model).Ok?
    ensures var after := AddEntries(g, entries, storage, model).value;
            && (forall key :: key in g.seen ==> key in after.seen)
            && forall k :: 0 <= k < |entries| && entries[k].resource.Some? && !IsList(entries[k].resource.value) ==>
                 Id(entries[k].resource.value) in after.seen
  {
    if entries != [] {
      var init := entries[..|entries| - 1];
      EntriesRepresented(g, init, storage, model);
      var before := AddEntries(g, init, storage, model).value;
      var e := entries[|entries| - 1];
      if !(e.resource.None? || IsList(e.resource.value) || Id(e.resource.value) in before.seen) {
        ResolveValuesGrows(Admit(before, e.resource.value), model(e.resource.value), storage);
      }
      forall k | 0 <= k < |init| ensures init[k] == entries[k] { }
    }
  }

  lemma {:induction false} ResolveValuesGrows(g: Gathered, values: seq<FirstValue>, storage: Storage)
    requires ResolveValues(g, values, storage).Ok?
    ensures forall key :: key in g.seen ==> key in ResolveValues(g, values, storage).value.seen
    ensures |g.params| <= |ResolveValues(g, values, storage).value.params|
  {
    if values != [] {
      ResolveValuesGrows(g, values[..|values| - 1], storage);
    }
  }

  /** `r` is what the source reads for one of the followed references among `values`. */
  predicate ReadFor(values: seq<FirstValue>, r: Resource, storage: Storage) {
    exists m :: 0 <= m < |values| && Followed(values[m])
      && storage.read(values[m].resourceType.value, values[m].idPart.value) == Some(r)
  }

  /** `r` is what the source reads for one of `source`'s own followed references. */
  predicate Fetched(source: Resource, r: Resource, storage: Storage, model: Model) {
    ReadFor(model(source), r, storage)
  }

  /**
   * Entry k is admitted: it holds a non-List resource whose id the map did
   * not hold when the loop reached it, so its references are resolved.
   */
  predicate AdmittedAt(g: Gathered, entries: seq<Entry>, k: int, storage: Storage, model: Model)
    requires 0 <= k < |entries|
  {
    && entries[k].resource.Some? && !IsList(entries[k].resource.value)
    && AddEntries(g, entries[..k], storage, model).Ok?
    && Id(entries[k].resource.value) !in AddEntries(g, entries[..k], storage, model).value.seen
  }

  /** `r` is an admitted entry resource of `entries`, or is read for a reference of one: nothing deeper. */
  predicate FromEntries(g: Gathered, entries: seq<Entry>, r: Resource, storage: Storage, model: Model) {
    exists k :: 0 <= k < |entries| && AdmittedAt(g, entries, k, storage, model)
      && (r == entries[k].resource.value || Fetched(entries[k].resource.value, r, storage, model))
  }

  lemma ReadForPrefix(values: seq<FirstValue>, n: nat, r: Resource, storage: Storage)
    requires n <= |values| && ReadFor(values[..n], r, storage)
    ensures ReadFor(values, r, storage)
  {
    var m :| 0 <= m < n && Followed(values[..n][m])
      && storage.read(values[..n][m].resourceType.value, values[..n][m].idPart.value) == Some(r);
    assert values[..n][m] == values[m];
  }

  lemma {:induction false} ResolveValuesProvenance(g: Gathered, values: seq<FirstValue>, storage: Storage)
    requires ResolveValues(g, values, storage).Ok?
    ensures var after := ResolveValues(g, values, storage).value;
            && |g.params| <= |after.params| && after.params[..|g.params|] == g.params
            && forall j :: |g.params| <= j < |after.params| ==> ReadFor(values, after.params[j].resource, storage)
  {
    if values != [] {
      var n := |values| - 1;
      var init := values[..n];
      ResolveValuesProvenance(g, init, storage);
      var before := ResolveValues(g, init, storage).value;
      var after := ResolveValues(g, values, storage).value;
      assert |before.params| <= |after.params| && after.params[..|before.params|] == before.params;
      assert after.params[..|g.params|] == before.params[..|g.params|];
      forall j | |g.params| <= j < |after.params|
        ensures ReadFor(values, after.params[j].resource, storage)
      {
        if j < |before.params| {
          assert after.params[j] == before.params[j];
          ReadForPrefix(values, n, before.params[j].resource, storage);
        } else {
          assert Followed(values[n]);
        }
      }
    }
  }

  /**
   * Every parameter a bundle's entries add is an admitted entry resource or
   * a resource read for one of that entry resource's own references: the
   * references of an entry skipped as a duplicate are not followed, and
   * fetched resources are never searched for further references.
   */
  lemma {:induction false} EntriesProvenance(g: Gathered, entries: seq<Entry>, storage: Storage, model: Model)
    requires AddEntries(g, entries, storage, model).Ok?
    ensures var after := AddEntries(g, entries, storage, model).value;
            && |g.params| <= |after.params| && after.params[..|g.params|] == g.params
            && forall j :: |g.params| <= j < |after.params| ==> FromEntries(g, entries, after.params[j].resource, storage, model)
  {
    if entries != [] {
      var init := entries[..|entries| - 1];
      EntriesProvenance(g, init, storage, model);
      var before := AddEntries(g, init, storage, model).value;
      var after := AddEntries(g, entries, storage, model).value;
      var e := entries[|entries| - 1];
      var last := |entries| - 1;
      if !(e.resource.None? || IsList(e.resource.value) || Id(e.resource.value) in before.seen) {
        var r := e.resource.value;
        ResolveValuesProvenance(Admit(before, r), model(r), storage);
      }
      assert after.params[..|before.params|] == before.params;
      assert entries[..last] == init;
      forall j | |g.params| <= j < |after.params|
        ensures FromEntries(g, entries, after.params[j].resource, storage, model)
      {
        if j < |before.params| {
          assert after.params[j] == before.params[j];
          var k :| 0 <= k < |init| && AdmittedAt(g, init, k, storage, model)
            && (before.params[j].resource == init[k].resource.value
                || Fetched(init[k].resource.value, before.params[j].resource, storage, model));
          AdmittedInPrefix(g, entries, last, k, storage, model);
        } else if j == |before.params| {
          assert AdmittedAt(g, entries, last, storage, model);
          assert after.params[j].resource == e.resource.value;
        } else {
          assert AdmittedAt(g, entries, last, storage, model);
          assert Fetched(entries[last].resource.value, after.params[j].resource, storage, model);
        }
      }
    }
  }

  /** Whether an entry is admitted depends only on the entries before it. */
  lemma AdmittedInPrefix(g: Gathered, entries: seq<Entry>, n: nat, k: nat, storage: Storage, model: Model)
    requires k < n <= |entries|
    ensures AdmittedAt(g, entries[..n], k, storage, model) <==> AdmittedAt(g, entries, k, storage, model)
  {
    assert entries[..n][..k] == entries[..k];
    assert entries[..n][k] == entries[k];
  }

  /** Every followed reference among `values` can be read. */
  predicate Readable(values: seq<FirstValue>, storage: Storage) {
    forall m :: 0 <= m < |values| && Followed(values[m]) ==>
      storage.read(values[m].resourceType.value, values[m].idPart.value).Some?
  }

  /** Every followed reference among `values` reads a resource whose id is a key of `seen`. */
  predicate Resolved(values: seq<FirstValue>, storage: Storage, seen: map<Option<string>, Resource>) {
    && Readable(values, storage)
    && forall m :: 0 <= m < |values| && Followed(values[m]) ==>
         Id(storage.read(values[m].resourceType.value, values[m].idPart.value).value) in seen
  }

  lemma ResolvedGrows(values: seq<FirstValue>, storage: Storage, seen: map<Option<string>, Resource>,
                      seen': map<Option<string>, Resource>)
    requires Resolved(values, storage, seen)
    requires forall key :: key in seen ==> key in seen'
    ensures Resolved(values, storage, seen')
  {
  }

  lemma ReadablePrefix(values: seq<FirstValue>, n: nat, storage: Storage)
    requires n <= |values|
    ensures Readable(values, storage) ==> Readable(values[..n], storage)
  {
    if Readable(values, storage) {
      forall m | 0 <= m < n && Followed(values[..n][m])
        ensures storage.read(values[..n][m].resourceType.value, values[..n][m].idPart.value).Some?
      {
        assert values[..n][m] == values[m];
      }
    }
  }

  /**
   * Resolving fails exactly when some followed reference cannot be read;
   * when it succeeds, the resource read for every followed reference has
   * its id in the map, whether it was added now or was already there.
   */
  lemma {:induction false} ResolveValuesComplete(g: Gathered, values: seq<FirstValue>, storage: Storage)
    ensures ResolveValues(g, values, storage).Ok? <==> Readable(values, storage)
    ensures ResolveValues(g, values, storage).Ok? ==> Resolved(values, storage, ResolveValues(g, values, storage).value.seen)
  {
    if values != [] {
      var n := |values| - 1;
      var init := values[..n];
      ResolveValuesComplete(g, init, storage);
      ReadablePrefix(values, n, storage);
      var v := values[n];
      if ResolveValues(g, init, storage).Ok? {
        var before := ResolveValues(g, init, storage).value;
        if ResolveValues(g, values, storage).Ok? {
          var after := ResolveValues(g, values, storage).value;
          assert forall key :: key in before.seen ==> key in after.seen;
          ResolvedGrows(init, storage, before.seen, after.seen);
          forall m | 0 <= m < |values| && Followed(values[m])
            ensures storage.read(values[m].resourceType.value, values[m].idPart.value).Some?
            ensures Id(storage.read(values[m].resourceType.value, values[m].idPart.value).value) in after.seen
          {
            if m < n {
              assert values[m] == init[m];
            }
          }
        } else {
          assert Followed(v) && storage.read(v.resourceType.value, v.idPart.value).None?;
        }
      } else {
        var m :| 0 <= m < |init| && Followed(init[m]) && storage.read(init[m].resourceType.value, init[m].idPart.value).None?;
        assert init[m] == values[m];
      }
    }
  }

  /**
   * After a bundle's entries, the resource read for every followed reference
   * of every admitted entry has its id in the map.
   */
  lemma {:induction false} EntriesComplete(g: Gathered, entries: seq<Entry>, storage: Storage, model: Model)
    requires AddEntries(g, entries, storage, model).Ok?
    ensures forall k :: 0 <= k < |entries| && AdmittedAt(g, entries, k, storage, model) ==>
              Resolved(model(entries[k].resource.value), storage, AddEntries(g, entries, storage, model).value.seen)
  {
    if entries != [] {
      var last := |entries| - 1;
      var init := entries[..last];
      EntriesComplete(g, init, storage, model);
      var before := AddEntries(g, init, storage, model).value;
      var after := AddEntries(g, entries, storage, model).value;
      var e := entries[last];
      assert entries[..last] == init;
      if !(e.resource.None? || IsList(e.resource.value) || Id(e.resource.value) in before.seen) {
        var r := e.resource.value;
        ResolveValuesGrows(Admit(before, r), model(r), storage);
        ResolveValuesComplete(Admit(before, r), model(r), storage);
      }
      assert forall key :: key in before.seen ==> key in after.seen;
      forall k | 0 <= k < |entries| && AdmittedAt(g, entries, k, storage, model)
        ensures Resolved(model(entries[k].resource.value), storage, after.seen)
      {
        if k < last {
          AdmittedInPrefix(g, entries, last, k, storage, model);
          assert init[k] == entries[k];
          ResolvedGrows(model(entries[k].resource.value), storage, before.seen, after.seen);
        }
      }
    }
  }

  /** A bundle's entries fail only where an admitted entry has a reference that cannot be read. */
  lemma {:induction false} EntriesFailure(g: Gathered, entries: seq<Entry>, storage: Storage, model: Model)
    requires AddEntries(g, entries, storage, model).Err?
    ensures exists k :: 0 <= k < |entries| && AdmittedAt(g, entries, k, storage, model)
              && !Readable(model(entries[k].resource.value), storage)
  {
    var last := |entries| - 1;
    var init := entries[..last];
    assert entries[..last] == init;
    if AddEntries(g, init, storage, model).Err? {
      EntriesFailure(g, init, storage, model);
      var k :| 0 <= k < |init| && AdmittedAt(g, init, k, storage, model)
        && !Readable(model(init[k].resource.value), storage);
      AdmittedInPrefix(g, entries, last, k, storage, model);
      assert init[k] == entries[k];
    } else {
      var r := entries[last].resource.value;
      ResolveValuesComplete(Admit(AddEntries(g, init, storage, model).value, r), model(r), storage);
      assert AdmittedAt(g, entries, last, storage, model);
    }
  }

  lemma {:induction false} AddContainedKeepsPrefix(params: seq<Parameter>, contained: seq<Resource>,
                                                   storage: Storage, model: Model)
    requires AddContained(params, contained, storage, model).Ok?
    ensures var ps := AddContained(params, contained, storage, model).value;
            && |params| <= |ps| && ps[..|params|] == params
            && forall j :: |params| <= j < |ps| ==> ps[j].name == ResourceParameterName
  {
    if contained != [] {
      var init := contained[..|contained| - 1];
      AddContainedKeepsPrefix(params, init, storage, model);
      var before := AddContained(params, init, storage, model).value;
      var last := contained[|contained| - 1];
      if last.BundleResource? {
        BundleIdsDistinct(before, last.bundle, storage, model);
        var ps := AddContained(params, contained, storage, model).value;
        assert ps[..|before|] == before;
        assert ps[..|params|] == before[..|params|];
      }
    }
  }

  /** The report, without groups, is the first parameter, named "measurereport"; every later one is named "resource". */
  lemma ReportComesFirst(storage: Storage, engine: Engine, model: Model, measureId: string,
                         patientRef: Option<string>, practitionerRef: Option<string>)
    requires CollectDataSpec(storage, engine, model, measureId, patientRef, practitionerRef).Ok?
    ensures var ps := CollectDataSpec(storage, engine, model, measureId, patientRef, practitionerRef).value;
            var report := StrippedReport(storage, engine, measureId, patientRef, practitionerRef);
            && report.Ok? && report.value.groups == []
            && |ps| >= 1 && ps[0] == Parameter(ReportParameterName, ReportResource(report.value))
            && forall j :: 1 <= j < |ps| ==> ps[j].name == ResourceParameterName
  {
    var report := StrippedReport(storage, engine, measureId, patientRef, practitionerRef).value;
    var head := [Parameter(ReportParameterName, ReportResource(report))];
    AddContainedKeepsPrefix(head, report.contained, storage, model);
  }

  /** The report is the engine's patient report of the measure: the report type is left to its default. */
  lemma CollectedReportIsPatientReport(storage: Storage, engine: Engine, measureId: string,
                                       patientRef: Option<string>, practitionerRef: Option<string>)
    requires storage.readMeasure(measureId).Some?
    ensures StrippedReport(storage, engine, measureId, patientRef, practitionerRef).Ok?
    ensures StrippedReport(storage, engine, measureId, patientRef, practitionerRef).value
            == engine.patient(storage.readMeasure(measureId).value, patientRef).(groups := [])
  {
  }

  // ---------------------------------------------------------------------
  // An example of the one-level rule
  // ---------------------------------------------------------------------

  const PatientA := OtherResource("Patient", Some("a"), "")
  const ObservationB := OtherResource("Observation", Some("b"), "")
  const EncounterC := OtherResource("Encounter", Some("c"), "")

  /** A refers to B and B to C; storage holds all three. */
  function ChainModel(r: Resource): seq<FirstValue> {
    if r == PatientA then [ReferenceTo(Some("Observation"), Some("b"))]
    else if r == ObservationB then [ReferenceTo(Some("Encounter"), Some("c"))]
    else []
  }

  function ChainRead(resourceType: string, idPart: string): Option<Resource> {
    if resourceType == "Observation" && idPart == "b" then Some(ObservationB)
    else if resourceType == "Encounter" && idPart == "c" then Some(EncounterC)
    else None
  }

  lemma PresentWord(s: string)
    requires |s| > 0 && 'A' <= s[0] <= 'z'
    ensures Present(Some(s))
  {
    assert !Text.IsWhitespace(s[0]);
  }

  /** A bundle holding only A yields A and B but not C, which only B refers to. */
  lemma OneLevelOnly(storage: Storage)
    requires storage.read == ChainRead
    ensures AddEntries(Gathered([], map[]), [Entry(Some(PatientA), None)], storage, ChainModel).Ok?
    ensures AddEntries(Gathered([], map[]), [Entry(Some(PatientA), None)], storage, ChainModel).value.params
            == [Parameter(ResourceParameterName, PatientA), Parameter(ResourceParameterName, ObservationB)]
  {
    PresentWord("Observation");
    PresentWord("b");
    assert ChainModel(PatientA) == [ReferenceTo(Some("Observation"), Some("b"))];
    var g1 := Admit(Gathered([], map[]), PatientA);
    var values := ChainModel(PatientA);
    assert values[..0] == [];
    assert ResolveValues(g1, values, storage) == ResolveValue(g1, values[0], storage);
    assert Id(ObservationB) !in g1.seen;
    var entries := [Entry(Some(PatientA), None)];
    assert entries[..0] == [];
  }

  /**
   * The resources an entry refers to follow that entry: a bundle holding A
   * then C yields A, then B, which A refers to, and only then C.
   */
  lemma ReferencesFollowTheirEntry(storage: Storage)
    requires storage.read == ChainRead
    ensures AddEntries(Gathered([], map[]), [Entry(Some(PatientA), None), Entry(Some(EncounterC), None)], storage, ChainModel).Ok?
    ensures AddEntries(Gathered([], map[]), [Entry(Some(PatientA), None), Entry(Some(EncounterC), None)], storage, ChainModel).value.params
            == [Parameter(ResourceParameterName, PatientA), Parameter(ResourceParameterName, ObservationB),
                Parameter(ResourceParameterName, EncounterC)]
  {
    var entries := [Entry(Some(PatientA), None), Entry(Some(EncounterC), None)];
    PresentWord("Observation");
    PresentWord("b");
    var g1 := Admit(Gathered([], map[]), PatientA);
    var values := ChainModel(PatientA);
    assert values == [ReferenceTo(Some("Observation"), Some("b"))];
    assert values[..0] == [];
    assert Id(ObservationB) !in g1.seen;
    var g2 := Admit(g1, ObservationB);
    assert ResolveValues(g1, values, storage) == Ok(g2);
    assert entries[..1][..0] == [];
    assert AddEntries(Gathered([], map[]), entries[..1], storage, ChainModel) == Ok(g2);
    assert Id(EncounterC) !in g2.seen;
    assert ChainModel(EncounterC) == [];
  }

  // ---------------------------------------------------------------------
  // The imperative operations
  // ---------------------------------------------------------------------

  lemma ResolveValuesStep(g: Gathered, values: seq<FirstValue>, storage: Storage, i: nat)
    requires i < |values|
    requires ResolveValues(g, values[..i], storage).Ok?
    ensures ResolveValues(g, values[..i + 1], storage)
            == ResolveValue(ResolveValues(g, values[..i], storage).value, values[i], storage)
  {
    assert values[..i + 1][..i] == values[..i];
  }

  /**
   * `resolveReferences`: the first value of each child; a followed reference
   * is read and added to both the parameters and the map unless its id is
   * already mapped.
   */
  method ResolveReferences(resource: Resource, parameters: ParameterList, resourceMap: ResourceMap,
                           storage: Storage, model: Model) returns (failure: Option<Error>)
    modifies parameters, resourceMap
    ensures var r := ResolveValues(Gathered(old(parameters.parameters), old(resourceMap.entries)), model(resource), storage);
            && (failure.None? <==> r.Ok?)
            && (r.Ok? ==> parameters.parameters == r.value.params && resourceMap.entries == r.value.seen)
            && (r.Err? ==> failure == Some(r.error))
  {
    ghost var g0 := Gathered(parameters.parameters, resourceMap.entries);
    var values := model(resource);
    var i := 0;
    while i < |values|
      invariant 0 <= i <= |values|
      invariant ResolveValues(g0, values[..i], storage).Ok?
      invariant ResolveValues(g0, values[..i], storage).value == Gathered(parameters.parameters, resourceMap.entries)
    {
      ResolveValuesStep(g0, values, storage, i);
      var v := values[i];
      if v.ReferenceTo? && Present(v.resourceType) && Present(v.idPart) {
        var fetched := storage.read(v.resourceType.value, v.idPart.value);
        if fetched.None? {
          FailurePersists(g0, values, storage, i);
          return Some(UnresolvedReference(v.resourceType.value, v.idPart.value));
        }
        if !resourceMap.ContainsKey(Id(fetched.value)) {
          parameters.Add(ResourceParameterName, fetched.value);
          resourceMap.Put(Id(fetched.value), fetched.value);
        }
      }
      i := i + 1;
    }
    assert values[..i] == values;
    return None;
  }

  /** An error stops the fold: the later values cannot undo it. */
  lemma {:induction false} FailurePersists(g: Gathered, values: seq<FirstValue>, storage: Storage, i: nat)
    requires i < |values|
    requires ResolveValues(g, values[..i + 1], storage).Err?
    ensures ResolveValues(g, values, storage) == ResolveValues(g, values[..i + 1], storage)
  {
    if i + 1 < |values| {
      var init := values[..|values| - 1];
      assert init[..i + 1] == values[..i + 1];
      FailurePersists(g, init, storage, i);
    } else {
      assert values[..i + 1] == values;
    }
  }

  lemma AddEntriesStep(g: Gathered, entries: seq<Entry>, storage: Storage, model: Model, i: nat)
    requires i < |entries|
    requires AddEntries(g, entries[..i], storage, model).Ok?
    ensures AddEntries(g, entries[..i + 1], storage, model)
            == AddEntry(AddEntries(g, entries[..i], storage, model).value, entries[i], storage, model)
  {
    assert entries[..i + 1][..i] == entries[..i];
  }

  lemma {:induction false} EntryFailurePersists(g: Gathered, entries: seq<Entry>, storage: Storage, model: Model, i: nat)
    requires i < |entries|
    requires AddEntries(g, entries[..i + 1], storage, model).Err?
    ensures AddEntries(g, entries, storage, model) == AddEntries(g, entries[..i + 1], storage, model)
  {
    if i + 1 < |entries| {
      var init := entries[..|entries| - 1];
      assert init[..i + 1] == entries[..i + 1];
      EntryFailurePersists(g, init, storage, model, i);
    } else {
      assert entries[..i + 1] == entries;
    }
  }

  /** `addEvaluatedResourcesToParameters`: one contained bundle, with a fresh resource map. */
  method AddEvaluatedResourcesToParameters(contained: Bundle, parameters: ParameterList,
                                           storage: Storage, model: Model) returns (failure: Option<Error>)
    modifies parameters
    ensures var r := AddBundle(old(parameters.parameters), contained, storage, model);
            && (failure.None? <==> r.Ok?)
            && (r.Ok? ==> parameters.parameters == r.value)
            && (r.Err? ==> failure == Some(r.error))
  {
    var resourceMap := new ResourceMap();
    ghost var g0 := Gathered(parameters.parameters, resourceMap.entries);
    var entries := contained.entries;
    var i := 0;
    while i < |entries|
      invariant 0 <= i <= |entries|
      invariant AddEntries(g0, entries[..i], storage, model).Ok?
      invariant AddEntries(g0, entries[..i], storage, model).value == Gathered(parameters.parameters, resourceMap.entries)
    {
      AddEntriesStep(g0, entries, storage, model, i);
      var e := entries[i];
      if e.resource.Some? && !IsList(e.resource.value) {
        var r := e.resource.value;
        if !resourceMap.ContainsKey(Id(r)) {
          parameters.Add(ResourceParameterName, r);
          resourceMap.Put(Id(r), r);
          failure := ResolveReferences(r, parameters, resourceMap, storage, model);
          if failure.Some? {
            EntryFailurePersists(g0, entries, storage, model, i);
            return;
          }
        }
      }
      i := i + 1;
    }
    assert entries[..i] == entries;
    return None;
  }

  lemma AddContainedStep(params: seq<Parameter>, contained: seq<Resource>, storage: Storage, model: Model, i: nat)
    requires i < |contained|
    requires AddContained(params, contained[..i], storage, model).Ok?
    ensures var before := AddContained(params, contained[..i], storage, model).value;
            AddContained(params, contained[..i + 1], storage, model)
            == if contained[i].BundleResource? then AddBundle(before, contained[i].bundle, storage, model) else Ok(before)
  {
    assert contained[..i + 1][..i] == contained[..i];
  }

  lemma {:induction false} ContainedFailurePersists(params: seq<Parameter>, contained: seq<Resource>,
                                                    storage: Storage, model: Model, i: nat)
    requires i < |contained|
    requires AddContained(params, contained[..i + 1], storage, model).Err?
    ensures AddContained(params, contained, storage, model) == AddContained(params, contained[..i + 1], storage, model)
  {
    if i + 1 < |contained| {
      var init := contained[..|contained| - 1];
      assert init[..i + 1] == contained[..i + 1];
      ContainedFailurePersists(params, init, storage, model, i);
    } else {
      assert contained[..i + 1] == contained;
    }
  }

  /** `collectData`: the report first, then every contained bundle's resources. */
  method CollectData(storage: Storage, engine: Engine, model: Model, measureId: string,
                     patientRef: Option<string>, practitionerRef: Option<string>) returns (res: Result<seq<Parameter>>)
    ensures res == CollectDataSpec(storage, engine, model, measureId, patientRef, practitionerRef)
  {
    var evaluated := EvaluateMeasure(storage, engine, measureId, None, patientRef, practitionerRef, None);
    if evaluated.Err? {
      return Err(evaluated.error);
    }
    var report := evaluated.value.(groups := []);
    assert StrippedReport(storage, engine, measureId, patientRef, practitionerRef) == Ok(report);
    var parameters := new ParameterList();
    parameters.Add(ReportParameterName, ReportResource(report));
    ghost var head := parameters.parameters;
    assert head == [Parameter(ReportParameterName, ReportResource(report))];
    assert CollectDataSpec(storage, engine, model, measureId, patientRef, practitionerRef)
        == AddContained(head, report.contained, storage, model);
    var i := 0;
    while i < |report.contained|
      invariant 0 <= i <= |report.contained|
      invariant AddContained(head, report.contained[..i], storage, model).Ok?
      invariant AddContained(head, report.contained[..i], storage, model).value == parameters.parameters
    {
      AddContainedStep(head, report.contained, storage, model, i);
      var contained := report.contained[i];
      if contained.BundleResource? {
        var failure := AddEvaluatedResourcesToParameters(contained.bundle, parameters, storage, model);
        if failure.Some? {
          assert AddContained(head, report.contained[..i + 1], storage, model) == Err(failure.value);
          ContainedFailurePersists(head, report.contained, storage, model, i);
          return Err(failure.value);
        }
      }
      i := i + 1;
    }
    assert report.contained[..i] == report.contained;
    return Ok(parameters.parameters);
  }
}
