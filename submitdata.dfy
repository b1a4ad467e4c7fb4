/**
 * `$submit-data`: the submitted report and resources are written in one
 * transaction. The report comes first; a submitted bundle contributes its
 * entries, converted to transaction entries unless it already is a
 * transaction bundle; any other resource becomes one transaction entry.
 */
module SubmitData {
  import opened Fhir
  import opened Services

  /** A resource with an id is written with PUT to its id, one without with POST to its type. */
  function TransactionEntry(r: Resource): (e: Entry)
    ensures e.resource == Some(r) && e.request.Some?
    ensures e.request.value.verb == Put <==> HasId(r)
    ensures e.request.value.verb == Put || e.request.value.verb == Post
    ensures e.request.value.url == (if HasId(r) then Id(r).value else FhirType(r))
  {
    if HasId(r) then Entry(Some(r), Some(Request(Put, Id(r).value)))
    else Entry(Some(r), Some(Request(Post, FhirType(r))))
  }

  predicate IsTransaction(b: Bundle) {
    b.bundleType == Some(Transaction)
  }

  /** The transaction entries for every entry of `entries` that holds a resource, in order. */
  function ConvertEntries(entries: seq<Entry>): seq<Entry> {
    if entries == [] then []
    else
      var e := entries[|entries| - 1];
      ConvertEntries(entries[..|entries| - 1]) + (if e.resource.Some? then [TransactionEntry(e.resource.value)] else [])
  }

  /** `createTransactionBundle`: a missing bundle is an empty transaction and a transaction bundle is kept as it is. */
  function ConvertBundle(b: Option<Bundle>): Bundle {
    if b.None? then Bundle(None, Some(Transaction), [])
    else if IsTransaction(b.value) then b.value
    else Bundle(None, Some(Transaction), ConvertEntries(b.value.entries))
  }

  /** The entries a submitted resource contributes. */
  function Contribution(r: Resource): seq<Entry> {
    if r.BundleResource? then ConvertBundle(Some(r.bundle)).entries else [TransactionEntry(r)]
  }

  /** The entries of every resource of `rs`, in order. */
  function Concat(f: Resource -> seq<Entry>, rs: seq<Resource>): seq<Entry> {
    if rs == [] then []
    else Concat(f, rs[..|rs| - 1]) + f(rs[|rs| - 1])
  }

  function Contributions(resources: seq<Resource>): seq<Entry> {
    Concat(Contribution, resources)
  }

  /** The bundle `submitData` hands to the transaction. */
  function Submission(report: MeasureReport, resources: seq<Resource>): Bundle {
    Bundle(None, Some(Transaction), [TransactionEntry(ReportResource(report))] + Contributions(resources))
  }

  // ---------------------------------------------------------------------
  // Properties
  // ---------------------------------------------------------------------

  /** The resources of `entries` that are present, in order. */
  function ResourcesOf(entries: seq<Entry>): (rs: seq<Resource>)
    ensures |rs| <= |entries|
  {
    if entries == [] then []
    else
      var e := entries[|entries| - 1];
      ResourcesOf(entries[..|entries| - 1]) + (if e.resource.Some? then [e.resource.value] else [])
  }

  /** Converting entries is mapping `TransactionEntry` over their resources: nothing reordered, nothing but empty entries dropped. */
  lemma {:induction false} ConvertEntriesMaps(entries: seq<Entry>)
    ensures |ConvertEntries(entries)| == |ResourcesOf(entries)|
    ensures forall i :: 0 <= i < |ResourcesOf(entries)| ==> ConvertEntries(entries)[i] == TransactionEntry(ResourcesOf(entries)[i])
  {
    if entries != [] {
      ConvertEntriesMaps(entries[..|entries| - 1]);
    }
  }

  /** An entry without a resource is dropped; each with one is kept. */
  lemma {:induction false} ResourcesOfCounts(entries: seq<Entry>)
    ensures (forall k :: 0 <= k < |entries| ==> entries[k].resource.Some?) ==> |ResourcesOf(entries)| == |entries|
    ensures (forall k :: 0 <= k < |entries| ==> entries[k].resource.None?) ==> ResourcesOf(entries) == []
  {
    if entries != [] {
      ResourcesOfCounts(entries[..|entries| - 1]);
    }
  }

  /** The positions of the entries that carry a resource, in order. */
  function PresentAt(entries: seq<Entry>): seq<nat> {
    if entries == [] then []
    else
      var n := |entries| - 1;
      PresentAt(entries[..n]) + if entries[n].resource.Some? then [n] else []
  }

  /**
   * `ResourcesOf` is an order-keeping filter: resource i is the one of entry
   * `pos[i]`, the positions increase, and an entry's position is listed
   * exactly when it carries a resource.
   */
  lemma {:induction false} ResourcesOfFilter(entries: seq<Entry>)
    ensures |PresentAt(entries)| == |ResourcesOf(entries)|
    ensures IncreasingBelow(PresentAt(entries), |entries|)
    ensures forall i :: 0 <= i < |PresentAt(entries)| ==>
              PresentAt(entries)[i] < |entries| && entries[PresentAt(entries)[i]].resource == Some(ResourcesOf(entries)[i])
    ensures forall k :: 0 <= k < |entries| ==> (k in PresentAt(entries) <==> entries[k].resource.Some?)
  {
    if entries != [] {
      var n := |entries| - 1;
      var init := entries[..n];
      ResourcesOfFilter(init);
      var before, pos := PresentAt(init), PresentAt(entries);
      var rs0, rs := ResourcesOf(init), ResourcesOf(entries);
      assert pos == before + if entries[n].resource.Some? then [n] else [];
      assert rs == rs0 + if entries[n].resource.Some? then [entries[n].resource.value] else [];
      forall i | 0 <= i < |pos|
        ensures pos[i] < |entries| && entries[pos[i]].resource == Some(rs[i])
      {
        if i < |before| {
          assert pos[i] == before[i] && rs[i] == rs0[i] && entries[before[i]] == init[before[i]];
        }
      }
      forall i, j | 0 <= i < j < |pos| ensures pos[i] < pos[j] {
        if j < |before| {
          assert pos[i] == before[i] && pos[j] == before[j];
        } else {
          assert pos[i] == before[i] && pos[j] == n;
        }
      }
      assert n !in before;
      forall k | 0 <= k < n ensures k in pos <==> entries[k].resource.Some? {
        assert entries[k] == init[k];
      }
    }
  }

  /** A transaction bundle is forwarded verbatim, whatever its entries carry. */
  lemma TransactionKept(b: Bundle)
    requires IsTransaction(b)
    ensures ConvertBundle(Some(b)) == b
    ensures Contribution(BundleResource(b)) == b.entries
  {
  }

  /** Converting twice changes nothing: the result of a conversion is a transaction bundle. */
  lemma ConvertIdempotent(b: Option<Bundle>)
    ensures IsTransaction(ConvertBundle(b))
    ensures ConvertBundle(Some(ConvertBundle(b))) == ConvertBundle(b)
  {
  }

  lemma {:induction false} ConcatAppend(f: Resource -> seq<Entry>, xs: seq<Resource>, ys: seq<Resource>)
    ensures Concat(f, xs + ys) == Concat(f, xs) + Concat(f, ys)
  {
    if ys == [] {
      assert xs + ys == xs;
    } else {
      var init := ys[..|ys| - 1];
      assert (xs + ys)[..|xs + ys| - 1] == xs + init;
      assert (xs + ys)[|xs + ys| - 1] == ys[|ys| - 1];
      ConcatAppend(f, xs, init);
    }
  }

  /** Each entry of a concatenation comes from one resource: if every resource's entries satisfy `Converted`, so does the whole. */
  lemma {:induction false} ConcatConverted(f: Resource -> seq<Entry>, rs: seq<Resource>)
    requires forall k :: 0 <= k < |rs| ==> AllConverted(f(rs[k]))
    ensures AllConverted(Concat(f, rs))
  {
    if rs != [] {
      var init := rs[..|rs| - 1];
      ConcatConverted(f, init);
      AppendConverted(Concat(f, init), f(rs[|rs| - 1]));
    }
  }

  predicate AllConverted(entries: seq<Entry>) {
    forall i :: 0 <= i < |entries| ==> Converted(entries[i])
  }

  lemma AppendConverted(xs: seq<Entry>, ys: seq<Entry>)
    requires AllConverted(xs) && AllConverted(ys)
    ensures AllConverted(xs + ys)
  {
    forall i | 0 <= i < |xs + ys|
      ensures Converted((xs + ys)[i])
    {
      if i < |xs| {
        assert (xs + ys)[i] == xs[i];
      } else {
        assert (xs + ys)[i] == ys[i - |xs|];
      }
    }
  }

  /** Resources are submitted in the order given: a prefix of the list contributes a prefix of the entries. */
  lemma OrderPreserved(report: MeasureReport, resources: seq<Resource>, n: nat)
    requires n <= |resources|
    ensures var entries := Submission(report, resources).entries;
            var earlier := Contributions(resources[..n]);
            |entries| >= 1 + |earlier| && entries[1..1 + |earlier|] == earlier
  {
    assert resources == resources[..n] + resources[n..];
    ConcatAppend(Contribution, resources[..n], resources[n..]);
  }

  /** The report's entry is first, and the bundle is a transaction. */
  lemma ReportFirst(report: MeasureReport, resources: seq<Resource>)
    ensures var b := Submission(report, resources);
            && IsTransaction(b) && |b.entries| >= 1
            && b.entries[0] == TransactionEntry(ReportResource(report))
            && b.entries[0].request.value.verb == (if Present(report.id) then Put else Post)
  {
  }

  /** Plain resources (no bundles) each contribute one entry, in order. */
  lemma {:induction false} PlainResources(resources: seq<Resource>)
    requires forall k :: 0 <= k < |resources| ==> !resources[k].BundleResource?
    ensures |Contributions(resources)| == |resources|
    ensures forall k :: 0 <= k < |resources| ==> Contributions(resources)[k] == TransactionEntry(resources[k])
  {
    if resources != [] {
      PlainResources(resources[..|resources| - 1]);
    }
  }

  /** A submitted entry that came through conversion is exactly the transaction entry of its resource. */
  predicate Converted(e: Entry) {
    e.resource.Some? && e == TransactionEntry(e.resource.value)
  }

  lemma ConvertEntriesConverted(entries: seq<Entry>)
    ensures AllConverted(ConvertEntries(entries))
  {
    ConvertEntriesMaps(entries);
  }

  /**
   * Unless a transaction bundle is among the submitted resources, every
   * entry of the submission holds a resource and the request for it, PUT by
   * id or POST by type.
   */
  lemma EveryEntryHasRequest(report: MeasureReport, resources: seq<Resource>)
    requires forall k :: 0 <= k < |resources| ==> !(resources[k].BundleResource? && IsTransaction(resources[k].bundle))
    ensures var entries := Submission(report, resources).entries;
            forall i :: 0 <= i < |entries| ==> Converted(entries[i])
  {
    forall k | 0 <= k < |resources|
      ensures AllConverted(Contribution(resources[k]))
    {
      if resources[k].BundleResource? {
        ConvertEntriesConverted(resources[k].bundle.entries);
      }
    }
    ConcatConverted(Contribution, resources);
    AppendConverted([TransactionEntry(ReportResource(report))], Contributions(resources));
  }

  // ---------------------------------------------------------------------
  // The imperative operations
  // ---------------------------------------------------------------------

  lemma ConvertEntriesStep(entries: seq<Entry>, i: nat)
    requires i < |entries|
    ensures ConvertEntries(entries[..i + 1])
            == ConvertEntries(entries[..i]) + (if entries[i].resource.Some? then [TransactionEntry(entries[i].resource.value)] else [])
  {
    assert entries[..i + 1][..i] == entries[..i];
  }

  /** `createTransactionBundle`. */
  method CreateTransactionBundle(bundle: Option<Bundle>) returns (transaction: Bundle)
    ensures transaction == ConvertBundle(bundle)
  {
    if bundle.None? {
      return Bundle(None, Some(Transaction), []);
    }
    if bundle.value.bundleType.Some? && bundle.value.bundleType.value == Transaction {
      return bundle.value;
    }
    var source := bundle.value.entries;
    var entries: seq<Entry> := [];
    var i := 0;
    while i < |source|
      invariant 0 <= i <= |source|
      invariant entries == ConvertEntries(source[..i])
    {
      ConvertEntriesStep(source, i);
      if source[i].resource.Some? {
        entries := entries + [TransactionEntry(source[i].resource.value)];
      }
      i := i + 1;
    }
    assert source[..i] == source;
    return Bundle(None, Some(Transaction), entries);
  }

  /** Appends every entry of `extra` in order, as the source's inner loop does. */
  method AppendEntries(entries: seq<Entry>, extra: seq<Entry>) returns (result: seq<Entry>)
    ensures result == entries + extra
  {
    result := entries;
    var i := 0;
    while i < |extra|
      invariant 0 <= i <= |extra|
      invariant result == entries + extra[..i]
    {
      assert extra[..i + 1] == extra[..i] + [extra[i]];
      result := result + [extra[i]];
      i := i + 1;
    }
    assert extra[..i] == extra;
  }

  /** `submitData`: builds the submission and returns what the transaction returns for it. */
  method Submit(storage: Storage, report: MeasureReport, resources: seq<Resource>) returns (res: Result<Resource>)
    ensures res == storage.transaction(Submission(report, resources))
  {
    var entries := [TransactionEntry(ReportResource(report))];
    var i := 0;
    while i < |resources|
      invariant 0 <= i <= |resources|
      invariant entries == [TransactionEntry(ReportResource(report))] + Contributions(resources[..i])
    {
      assert resources[..i + 1][..i] == resources[..i];
      var r := resources[i];
      if r.BundleResource? {
        var converted := CreateTransactionBundle(Some(r.bundle));
        entries := AppendEntries(entries, converted.entries);
      } else {
        entries := entries + [TransactionEntry(r)];
      }
      i := i + 1;
    }
    assert resources[..i] == resources;
    res := storage.transaction(Bundle(None, Some(Transaction), entries));
  }
}
