/**
 * `$care-gaps`: for one patient, every measure (optionally filtered by topic)
 * is evaluated, and each measure whose report shows a gap contributes a
 * composition section, the stamped report and a DetectedIssue to a FHIR
 * document bundle. `careGapsReport` builds one such document per subject.
 *
 * The UUIDs and the date the source draws fresh are taken from `mint`:
 * `mint(call, k)` are the values drawn for the k-th measure of the
 * `call`-th document.
 */
module CareGaps {
  import opened Fhir
  import opened Services
  import Scoring
  import Text

  const PatientPrefix := "Patient/"
  const OrganizationPrefix := "Organization/"
  const ReportPrefix := "MeasureReport/"
  const IssuePrefix := "DetectedIssue/"
  const ReportProfile := "http://hl7.org/fhir/us/davinci-deqm/StructureDefinition/indv-measurereport-deqm"
  const IssueCategorySystem := "http://hl7.org/fhir/us/davinci-deqm/CodeSystem/detectedissue-category"
  const CareGapCode := "care-gap"
  const DocumentTitle := "Care Gap Report"
  const FinalStatus := "final"
  const MeasurePageSize := 1000
  const ParameterPrefix := "Gaps in Care Report - "

  /** The report id, the issue id and the report date drawn for one measure. */
  datatype FreshValues = FreshValues(reportId: string, issueId: string, date: string)

  /** What a measure with a gap contributes to the document. */
  datatype Finding = Finding(section: Section, report: MeasureReport, issue: DetectedIssue)

  // ---------------------------------------------------------------------
  // Building blocks
  // ---------------------------------------------------------------------

  /** The patient reference: the subject, with "Patient/" put in front unless it is there already. */
  function PatientReference(subject: string): string {
    if Text.StartsWith(subject, PatientPrefix) then subject else PatientPrefix + subject
  }

  /** The reference starts with "Patient/", ends with the subject, and adds the prefix only when it is missing. */
  lemma PatientReferenceShape(subject: string)
    ensures var r := PatientReference(subject);
            && Text.StartsWith(r, PatientPrefix)
            && |subject| <= |r| && r[|r| - |subject|..] == subject
            && (r == subject <==> Text.StartsWith(subject, PatientPrefix))
            && (r != subject ==> r == PatientPrefix + subject)
  {
    var r := PatientReference(subject);
    if !Text.StartsWith(subject, PatientPrefix) {
      assert r[..|PatientPrefix|] == PatientPrefix;
      assert r[|r| - |subject|..] == subject;
    }
  }

  /** Prefixing is idempotent: a reference is its own patient reference. */
  lemma PatientReferenceIdempotent(subject: string)
    ensures PatientReference(PatientReference(subject)) == PatientReference(subject)
    ensures PatientReference(PatientPrefix + subject) == PatientPrefix + subject
  {
    assert (PatientPrefix + subject)[..|PatientPrefix|] == PatientPrefix;
  }

  /** The topic search parameter: only a non-null, non-empty topic filters. */
  function TopicFilter(topic: Option<string>): (r: Option<string>)
    ensures r.Some? <==> topic.Some? && topic.value != ""
    ensures r.Some? ==> r == topic
  {
    if topic.Some? && topic.value != "" then topic else None
  }

  /** `getResources(0, 1000)`: the first page of at most 1000 results. */
  function FirstPage(ms: seq<Measure>): (r: seq<Measure>)
    ensures |r| == if |ms| < MeasurePageSize then |ms| else MeasurePageSize
    ensures r == ms[..|r|]
  {
    if |ms| < MeasurePageSize then ms else ms[..MeasurePageSize]
  }

  /** The measures a document covers. */
  function MeasuresFor(storage: Storage, topic: Option<string>): seq<Measure> {
    FirstPage(storage.searchMeasures(TopicFilter(topic)))
  }

  /** The engine's report with a fresh id and date, the measure's notation, the organization as reporter and the DEQM profile. */
  function StampReport(report: MeasureReport, measure: Measure, org: string, drawn: FreshValues): (r: MeasureReport)
    ensures r.id == Some(drawn.reportId) && r.date == Some(drawn.date)
    ensures r.improvementNotation == measure.improvementNotation
    ensures r.reporter == Some(OrganizationPrefix + org) && r.profiles == [ReportProfile]
    ensures r.groups == report.groups && r.contained == report.contained && r.extensions == report.extensions
  {
    report.(id := Some(drawn.reportId), date := Some(drawn.date),
            improvementNotation := measure.improvementNotation,
            reporter := Some(OrganizationPrefix + org), profiles := [ReportProfile])
  }

  /** The care-gap issue for the subject, whose one piece of evidence is the report. */
  function IssueFor(subject: string, drawn: FreshValues): (r: DetectedIssue)
    ensures r.id == drawn.issueId && r.status == FinalStatus && r.patient == PatientReference(subject)
    ensures r.evidence == [ReportPrefix + drawn.reportId]
    ensures r.code == Coding(Some(IssueCategorySystem), Some(CareGapCode))
  {
    DetectedIssue(drawn.issueId, FinalStatus, PatientReference(subject),
                  [ReportPrefix + drawn.reportId], Coding(Some(IssueCategorySystem), Some(CareGapCode)))
  }

  /** The section of a measure with a gap: the measure's title when it has one, the report as focus, the issue as entry. */
  function SectionFor(measure: Measure, drawn: FreshValues): (r: Section)
    ensures r.title == (if HasTitle(measure) then measure.title else None)
    ensures r.focus == ReportPrefix + drawn.reportId && r.entries == [IssuePrefix + drawn.issueId]
  {
    Section(if HasTitle(measure) then measure.title else None,
            ReportPrefix + drawn.reportId, [IssuePrefix + drawn.issueId])
  }

  function OrganizationOf(storage: Storage): Result<string> {
    if storage.firstOrganization.Some? then Ok(storage.firstOrganization.value) else Err(NoOrganization)
  }

  /** The engine's patient report for the subject and the measure as read back from storage. */
  function EngineReport(storage: Storage, engine: Engine, subject: string, measure: Measure): MeasureReport
    requires storage.readMeasure(measure.id).Some?
  {
    engine.patient(storage.readMeasure(measure.id).value, Some(subject))
  }

  /** The measure can be read back and its report shows a gap. */
  predicate HasGap(storage: Storage, engine: Engine, subject: string, measure: Measure) {
    && storage.readMeasure(measure.id).Some?
    && Scoring.GapDecision(measure, EngineReport(storage, engine, subject, measure).groups) == Ok(true)
  }

  /** The measure can be read back and its report shows no gap. */
  predicate NoGap(storage: Storage, engine: Engine, subject: string, measure: Measure) {
    && storage.readMeasure(measure.id).Some?
    && Scoring.GapDecision(measure, EngineReport(storage, engine, subject, measure).groups) == Ok(false)
  }

  /**
   * One pass of the measure loop: the patient report is evaluated (which
   * fails when the measure cannot be read back), then the organization is
   * needed, then the gap is decided; only a gap yields a finding.
   */
  function MeasureStep(storage: Storage, engine: Engine, subject: string, measure: Measure,
                       drawn: FreshValues): (r: Result<Option<Finding>>)
    ensures r.Ok? && r.value.Some? ==>
              && storage.firstOrganization.Some?
              && r.value.value.report.reporter == Some(OrganizationPrefix + storage.firstOrganization.value)
              && r.value.value.section == SectionFor(measure, drawn)
              && r.value.value.issue == IssueFor(subject, drawn)
              && r.value.value.report.id == Some(drawn.reportId)
              && HasGroup(r.value.value.report.groups) && HasScoring(measure)
    ensures storage.readMeasure(measure.id).Some? && storage.firstOrganization.None? ==> r == Err(NoOrganization)
    ensures storage.readMeasure(measure.id).None? ==> r == Err(MeasureNotFound(measure.id))
  {
    var evaluated :- EvaluateMeasure(storage, engine, measure.id, None, Some(subject), None, None);
    var org :- OrganizationOf(storage);
    var report := StampReport(evaluated, measure, org, drawn);
    var gap :- Scoring.GapDecision(measure, report.groups);
    if gap then Ok(Some(Finding(SectionFor(measure, drawn), report, IssueFor(subject, drawn))))
    else Ok(None)
  }

  /**
   * Once the measure is read back and the organization found, the pass
   * follows the gap decision on the engine's report: it fails exactly when
   * the decision does (a missing notation code), and yields a finding
   * exactly for a gap, whose report is the engine's report stamped.
   */
  lemma StepIsGapDecision(storage: Storage, engine: Engine, subject: string, measure: Measure, drawn: FreshValues)
    requires storage.readMeasure(measure.id).Some? && storage.firstOrganization.Some?
    ensures var r := MeasureStep(storage, engine, subject, measure, drawn);
            var decision := Scoring.GapDecision(measure, EngineReport(storage, engine, subject, measure).groups);
            && (r.Err? <==> decision.Err?)
            && (r.Err? ==> r.error == MissingImprovementNotationCode)
            && (r.Ok? ==> (r.value.Some? <==> decision == Ok(true)))
            && (r.Ok? && r.value.Some? ==>
                  r.value.value.report
                  == StampReport(EngineReport(storage, engine, subject, measure), measure, storage.firstOrganization.value, drawn))
  {
    var base := EngineReport(storage, engine, subject, measure);
    assert base.extensions + ProductLineExtensions(None) == base.extensions;
  }

  /** The findings of the measures in order, or the first failure. */
  function Findings(storage: Storage, engine: Engine, subject: string, measures: seq<Measure>,
                    mint: (nat, nat) -> FreshValues, call: nat): Result<seq<Finding>>
  {
    if measures == [] then Ok([])
    else
      var earlier :- Findings(storage, engine, subject, measures[..|measures| - 1], mint, call);
      var step :- MeasureStep(storage, engine, subject, measures[|measures| - 1], mint(call, |measures| - 1));
      Ok(earlier + if step.Some? then [step.value] else [])
  }

  /** The positions of the measures whose pass yields a finding, in order. */
  function GapPositions(storage: Storage, engine: Engine, subject: string, measures: seq<Measure>,
                        mint: (nat, nat) -> FreshValues, call: nat): seq<nat>
  {
    if measures == [] then []
    else
      var k := |measures| - 1;
      GapPositions(storage, engine, subject, measures[..k], mint, call)
      + if YieldsFinding(storage, engine, subject, measures[k], mint(call, k)) then [k] else []
  }

  predicate YieldsFinding(storage: Storage, engine: Engine, subject: string, measure: Measure, drawn: FreshValues) {
    var step := MeasureStep(storage, engine, subject, measure, drawn);
    step.Ok? && step.value.Some?
  }

  function SectionsOf(fs: seq<Finding>): (r: seq<Section>)
    ensures |r| == |fs| && forall i :: 0 <= i < |fs| ==> r[i] == fs[i].section
  {
    seq(|fs|, i requires 0 <= i < |fs| => fs[i].section)
  }

  function ReportsOf(fs: seq<Finding>): (r: seq<MeasureReport>)
    ensures |r| == |fs| && forall i :: 0 <= i < |fs| ==> r[i] == fs[i].report
  {
    seq(|fs|, i requires 0 <= i < |fs| => fs[i].report)
  }

  function IssuesOf(fs: seq<Finding>): (r: seq<DetectedIssue>)
    ensures |r| == |fs| && forall i :: 0 <= i < |fs| ==> r[i] == fs[i].issue
  {
    seq(|fs|, i requires 0 <= i < |fs| => fs[i].issue)
  }

  function ReportEntries(rs: seq<MeasureReport>): (r: seq<Entry>)
    ensures |r| == |rs| && forall i :: 0 <= i < |rs| ==> r[i] == Entry(Some(ReportResource(rs[i])), None)
  {
    seq(|rs|, i requires 0 <= i < |rs| => Entry(Some(ReportResource(rs[i])), None))
  }

  function IssueEntries(issues: seq<DetectedIssue>): (r: seq<Entry>)
    ensures |r| == |issues| && forall i :: 0 <= i < |issues| ==> r[i] == Entry(Some(IssueResource(issues[i])), None)
  {
    seq(|issues|, i requires 0 <= i < |issues| => Entry(Some(IssueResource(issues[i])), None))
  }

  function CompositionFor(subject: string, sections: seq<Section>): Composition {
    Composition(None, FinalStatus, PatientReference(subject), DocumentTitle, sections)
  }

  /** The document: the composition, then every report, then every issue. */
  function Assemble(subject: string, fs: seq<Finding>): Bundle {
    Bundle(None, Some(Document),
           [Entry(Some(CompositionResource(CompositionFor(subject, SectionsOf(fs)))), None)]
           + ReportEntries(ReportsOf(fs)) + IssueEntries(IssuesOf(fs)))
  }

  /** `patientCareGap`: a null or empty subject is rejected before anything is read. */
  function CareGapDocument(storage: Storage, engine: Engine, subject: Option<string>, topic: Option<string>,
                           mint: (nat, nat) -> FreshValues, call: nat): (r: Result<Bundle>)
    ensures subject.None? || subject.value == "" ==> r == Err(SubjectRequired)
  {
    if subject.None? || subject.value == "" then Err(SubjectRequired)
    else
      var fs :- Findings(storage, engine, subject.value, MeasuresFor(storage, topic), mint, call);
      Ok(Assemble(subject.value, fs))
  }

  // ---------------------------------------------------------------------
  // Properties of the document
  // ---------------------------------------------------------------------

  lemma {:induction false} FindingsBound(storage: Storage, engine: Engine, subject: string, ms: seq<Measure>,
                                         mint: (nat, nat) -> FreshValues, call: nat)
    requires Findings(storage, engine, subject, ms, mint, call).Ok?
    ensures |Findings(storage, engine, subject, ms, mint, call).value| <= |ms|
  {
    if ms != [] {
      FindingsBound(storage, engine, subject, ms[..|ms| - 1], mint, call);
    }
  }

  /**
   * The findings are exactly those of the measures with a finding, in
   * measure order: finding i is the one of measure `pos[i]`, the positions
   * increase, every pass succeeded, and every measure with a finding is
   * among them.
   */
  lemma FindingsProvenance(storage: Storage, engine: Engine, subject: string, ms: seq<Measure>,
                           mint: (nat, nat) -> FreshValues, call: nat)
    requires Findings(storage, engine, subject, ms, mint, call).Ok?
    ensures var fs := Findings(storage, engine, subject, ms, mint, call).value;
            var pos := GapPositions(storage, engine, subject, ms, mint, call);
            && |pos| == |fs|
            && (forall i :: 0 <= i < |pos| ==>
                  pos[i] < |ms| && MeasureStep(storage, engine, subject, ms[pos[i]], mint(call, pos[i])) == Ok(Some(fs[i])))
            && IncreasingBelow(pos, |ms|)
            && (forall k :: 0 <= k < |ms| ==>
                  MeasureStep(storage, engine, subject, ms[k], mint(call, k)).Ok?
                  && (k in pos <==> MeasureStep(storage, engine, subject, ms[k], mint(call, k)).value.Some?))
  {
    FindingsAtPositions(storage, engine, subject, ms, mint, call);
    PositionsIncrease(storage, engine, subject, ms, mint, call);
    StepsSucceed(storage, engine, subject, ms, mint, call);
  }

  /** Finding i is the one of the measure at position i. */
  lemma {:induction false} FindingsAtPositions(storage: Storage, engine: Engine, subject: string, ms: seq<Measure>,
                                               mint: (nat, nat) -> FreshValues, call: nat)
    requires Findings(storage, engine, subject, ms, mint, call).Ok?
    ensures var fs := Findings(storage, engine, subject, ms, mint, call).value;
            var pos := GapPositions(storage, engine, subject, ms, mint, call);
            && |pos| == |fs|
            && (forall i :: 0 <= i < |pos| ==>
                  pos[i] < |ms| && MeasureStep(storage, engine, subject, ms[pos[i]], mint(call, pos[i])) == Ok(Some(fs[i])))
  {
    if ms != [] {
      var n := |ms| - 1;
      var init := ms[..n];
      FindingsAtPositions(storage, engine, subject, init, mint, call);
      var earlier := Findings(storage, engine, subject, init, mint, call).value;
      var before := GapPositions(storage, engine, subject, init, mint, call);
      var step := MeasureStep(storage, engine, subject, ms[n], mint(call, n));
      var fs := Findings(storage, engine, subject, ms, mint, call).value;
      var pos := GapPositions(storage, engine, subject, ms, mint, call);
      assert fs == earlier + if step.value.Some? then [step.value.value] else [];
      assert pos == before + if YieldsFinding(storage, engine, subject, ms[n], mint(call, n)) then [n] else [];
      forall i | 0 <= i < |pos|
        ensures pos[i] < |ms| && MeasureStep(storage, engine, subject, ms[pos[i]], mint(call, pos[i])) == Ok(Some(fs[i]))
      {
        if i < |before| {
          assert pos[i] == before[i] && fs[i] == earlier[i] && ms[before[i]] == init[before[i]];
        }
      }
    }
  }

  /** The positions are measure indices in increasing order. */
  lemma {:induction false} PositionsIncrease(storage: Storage, engine: Engine, subject: string, ms: seq<Measure>,
                                             mint: (nat, nat) -> FreshValues, call: nat)
    ensures IncreasingBelow(GapPositions(storage, engine, subject, ms, mint, call), |ms|)
  {
    if ms != [] {
      var n := |ms| - 1;
      PositionsIncrease(storage, engine, subject, ms[..n], mint, call);
      var before := GapPositions(storage, engine, subject, ms[..n], mint, call);
      var pos := GapPositions(storage, engine, subject, ms, mint, call);
      var tail: seq<nat> := if YieldsFinding(storage, engine, subject, ms[n], mint(call, n)) then [n] else [];
      assert |ms[..n]| == n;
      assert pos == before + tail;
      forall i | 0 <= i < |pos| ensures pos[i] < |ms| {
        if i < |before| {
          assert pos[i] == before[i] && before[i] < n;
        } else {
          assert pos[i] == n;
        }
      }
      forall i, j | 0 <= i < j < |pos| ensures pos[i] < pos[j] {
        if j < |before| {
          assert pos[i] == before[i] && pos[j] == before[j];
        } else {
          assert pos[i] == before[i] && pos[j] == n;
        }
      }
    }
  }

  /** Every pass succeeded, and a measure's position is listed exactly when its pass yields a finding. */
  lemma {:induction false} StepsSucceed(storage: Storage, engine: Engine, subject: string, ms: seq<Measure>,
                                        mint: (nat, nat) -> FreshValues, call: nat)
    requires Findings(storage, engine, subject, ms, mint, call).Ok?
    ensures var pos := GapPositions(storage, engine, subject, ms, mint, call);
            forall k :: 0 <= k < |ms| ==>
              MeasureStep(storage, engine, subject, ms[k], mint(call, k)).Ok?
              && (k in pos <==> MeasureStep(storage, engine, subject, ms[k], mint(call, k)).value.Some?)
  {
    if ms != [] {
      var n := |ms| - 1;
      var init := ms[..n];
      StepsSucceed(storage, engine, subject, init, mint, call);
      PositionsIncrease(storage, engine, subject, init, mint, call);
      var before := GapPositions(storage, engine, subject, init, mint, call);
      var step := MeasureStep(storage, engine, subject, ms[n], mint(call, n));
      var pos := GapPositions(storage, engine, subject, ms, mint, call);
      assert pos == before + if YieldsFinding(storage, engine, subject, ms[n], mint(call, n)) then [n] else [];
      assert n !in before;
      forall k | 0 <= k < n
        ensures MeasureStep(storage, engine, subject, ms[k], mint(call, k)).Ok?
        ensures k in pos <==> MeasureStep(storage, engine, subject, ms[k], mint(call, k)).value.Some?
      {
        assert ms[k] == init[k];
      }
    }
  }

  /**
   * With the findings made, every measure was read back and the organization
   * found, and a measure has a finding exactly when its report shows a gap.
   */
  lemma FindingsAreGaps(storage: Storage, engine: Engine, subject: string, ms: seq<Measure>,
                        mint: (nat, nat) -> FreshValues, call: nat)
    requires Findings(storage, engine, subject, ms, mint, call).Ok?
    ensures |ms| > 0 ==> storage.firstOrganization.Some?
    ensures forall k :: 0 <= k < |ms| ==>
              storage.readMeasure(ms[k].id).Some?
              && (k in GapPositions(storage, engine, subject, ms, mint, call) <==> HasGap(storage, engine, subject, ms[k]))
  {
    FindingsProvenance(storage, engine, subject, ms, mint, call);
    if |ms| > 0 {
      assert MeasureStep(storage, engine, subject, ms[0], mint(call, 0)).Ok?;
    }
    forall k | 0 <= k < |ms|
      ensures storage.readMeasure(ms[k].id).Some?
      ensures k in GapPositions(storage, engine, subject, ms, mint, call) <==> HasGap(storage, engine, subject, ms[k])
    {
      assert MeasureStep(storage, engine, subject, ms[k], mint(call, k)).Ok?;
      StepIsGapDecision(storage, engine, subject, ms[k], mint(call, k));
    }
  }

  /** Section, report and issue of a finding point at each other, and the issue at the subject. */
  predicate Linked(subject: string, f: Finding) {
    && f.report.id.Some?
    && f.section.focus == ReportPrefix + f.report.id.value
    && f.section.entries == [IssuePrefix + f.issue.id]
    && f.issue.evidence == [ReportPrefix + f.report.id.value]
    && f.issue.patient == PatientReference(subject)
  }

  lemma FindingsLinked(storage: Storage, engine: Engine, subject: string, ms: seq<Measure>,
                       mint: (nat, nat) -> FreshValues, call: nat)
    requires Findings(storage, engine, subject, ms, mint, call).Ok?
    ensures var fs := Findings(storage, engine, subject, ms, mint, call).value;
            forall i :: 0 <= i < |fs| ==> Linked(subject, fs[i])
  {
    FindingsProvenance(storage, engine, subject, ms, mint, call);
    var fs := Findings(storage, engine, subject, ms, mint, call).value;
    var pos := GapPositions(storage, engine, subject, ms, mint, call);
    forall i | 0 <= i < |fs| ensures Linked(subject, fs[i]) {
      assert MeasureStep(storage, engine, subject, ms[pos[i]], mint(call, pos[i])) == Ok(Some(fs[i]));
    }
  }

  /**
   * The layout of a care-gap document for `subject`: one composition entry,
   * then n reports, then n issues, where n is the number of sections;
   * section i points at report i and issue i, and issue i's evidence is
   * report i.
   */
  predicate WellLinked(subject: string, doc: Bundle) {
    DocumentHead(subject, doc) && DocumentLinks(subject, doc)
  }

  /** A Document bundle opening with the final "Care Gap Report" composition about the patient, with a report and an issue per section. */
  predicate DocumentHead(subject: string, doc: Bundle) {
    && doc.bundleType == Some(Document)
    && |doc.entries| >= 1
    && doc.entries[0].resource.Some? && doc.entries[0].resource.value.CompositionResource?
    && var c := doc.entries[0].resource.value.composition;
    && c.subject == PatientReference(subject) && c.title == DocumentTitle && c.status == FinalStatus
    && |doc.entries| == 1 + 2 * |c.sections|
  }

  /** Section i, entry 1 + i and entry 1 + n + i belong together. */
  predicate DocumentLinks(subject: string, doc: Bundle)
    requires DocumentHead(subject, doc)
  {
    forall i :: 0 <= i < |doc.entries[0].resource.value.composition.sections| ==> LinkedAt(subject, doc, i)
  }

  /** Section i, entry 1 + i and entry 1 + n + i of a document. */
  predicate LinkedAt(subject: string, doc: Bundle, i: nat)
    requires DocumentHead(subject, doc) && i < |doc.entries[0].resource.value.composition.sections|
  {
    var c := doc.entries[0].resource.value.composition;
    LinkedTriple(c.sections[i], doc.entries[1 + i], doc.entries[1 + |c.sections| + i], subject)
  }

  /** Section, report entry and issue entry at the same position refer to each other. */
  predicate LinkedTriple(section: Section, reportEntry: Entry, issueEntry: Entry, subject: string) {
    && reportEntry.resource.Some? && reportEntry.resource.value.ReportResource?
    && issueEntry.resource.Some? && issueEntry.resource.value.IssueResource?
    && var rep := reportEntry.resource.value.report;
    && var issue := issueEntry.resource.value.issue;
    && rep.id.Some?
    && section.focus == ReportPrefix + rep.id.value
    && section.entries == [IssuePrefix + issue.id]
    && issue.evidence == [ReportPrefix + rep.id.value]
    && issue.patient == PatientReference(subject)
  }

  /** An assembled document has 1 + 2n entries, the composition first. */
  lemma AssembleHead(subject: string, fs: seq<Finding>)
    ensures |Assemble(subject, fs).entries| == 1 + 2 * |fs|
    ensures Assemble(subject, fs).entries[0] == Entry(Some(CompositionResource(CompositionFor(subject, SectionsOf(fs)))), None)
  {
  }

  /** The entries of an assembled document at positions 1 + i and 1 + n + i. */
  lemma AssembleAt(subject: string, fs: seq<Finding>, i: nat)
    requires i < |fs|
    ensures |Assemble(subject, fs).entries| == 1 + 2 * |fs|
    ensures Assemble(subject, fs).entries[1 + i] == Entry(Some(ReportResource(fs[i].report)), None)
    ensures Assemble(subject, fs).entries[1 + |fs| + i] == Entry(Some(IssueResource(fs[i].issue)), None)
  {
    var head := [Entry(Some(CompositionResource(CompositionFor(subject, SectionsOf(fs)))), None)];
    var reports := ReportEntries(ReportsOf(fs));
    var issues := IssueEntries(IssuesOf(fs));
    assert Assemble(subject, fs).entries == head + reports + issues;
    assert (head + reports + issues)[1 + i] == reports[i];
    assert (head + reports + issues)[1 + |fs| + i] == issues[i];
  }

  lemma AssembleLinks(subject: string, fs: seq<Finding>)
    requires forall i :: 0 <= i < |fs| ==> Linked(subject, fs[i])
    requires DocumentHead(subject, Assemble(subject, fs))
    ensures DocumentLinks(subject, Assemble(subject, fs))
  {
    AssembleHead(subject, fs);
    forall i | 0 <= i < |fs|
      ensures EntriesAt(Assemble(subject, fs), fs, i)
    {
      AssembleAt(subject, fs, i);
    }
    LinksOfEntries(subject, Assemble(subject, fs), fs);
  }

  /** Entries 1 + i and 1 + n + i of `doc` hold the report and the issue of finding i. */
  predicate EntriesAt(doc: Bundle, fs: seq<Finding>, i: nat)
    requires i < |fs| && |doc.entries| == 1 + 2 * |fs|
  {
    && doc.entries[1 + i] == Entry(Some(ReportResource(fs[i].report)), None)
    && doc.entries[1 + |fs| + i] == Entry(Some(IssueResource(fs[i].issue)), None)
  }

  /** A document whose entries are those of linked findings has its links in place. */
  lemma LinksOfEntries(subject: string, doc: Bundle, fs: seq<Finding>)
    requires forall i :: 0 <= i < |fs| ==> Linked(subject, fs[i])
    requires DocumentHead(subject, doc)
    requires doc.entries[0].resource.value.composition.sections == SectionsOf(fs)
    requires forall i :: 0 <= i < |fs| ==> EntriesAt(doc, fs, i)
    ensures DocumentLinks(subject, doc)
  {
    forall i | 0 <= i < |fs|
      ensures LinkedAt(subject, doc, i)
    {
      LinkedIndex(subject, doc, fs, i);
    }
  }

  lemma LinkedIndex(subject: string, doc: Bundle, fs: seq<Finding>, i: nat)
    requires DocumentHead(subject, doc)
    requires i < |fs| == |doc.entries[0].resource.value.composition.sections|
    requires doc.entries[0].resource.value.composition.sections[i] == fs[i].section
    requires Linked(subject, fs[i]) && EntriesAt(doc, fs, i)
    ensures LinkedAt(subject, doc, i)
  {
    LinkedEntries(subject, fs[i]);
  }

  lemma LinkedEntries(subject: string, f: Finding)
    requires Linked(subject, f)
    ensures LinkedTriple(f.section, Entry(Some(ReportResource(f.report)), None), Entry(Some(IssueResource(f.issue)), None), subject)
  {
  }

  /** Assembling linked findings gives a well-linked document. */
  lemma AssembleLayout(subject: string, fs: seq<Finding>)
    requires forall i :: 0 <= i < |fs| ==> Linked(subject, fs[i])
    ensures WellLinked(subject, Assemble(subject, fs))
  {
    AssembleHead(subject, fs);
    assert DocumentHead(subject, Assemble(subject, fs));
    AssembleLinks(subject, fs);
  }

  /** Every document `patientCareGap` returns is well linked. */
  lemma DocumentLayout(storage: Storage, engine: Engine, subject: Option<string>, topic: Option<string>,
                       mint: (nat, nat) -> FreshValues, call: nat)
    requires CareGapDocument(storage, engine, subject, topic, mint, call).Ok?
    ensures subject.Some? && subject.value != ""
    ensures WellLinked(subject.value, CareGapDocument(storage, engine, subject, topic, mint, call).value)
  {
    var fs := Findings(storage, engine, subject.value, MeasuresFor(storage, topic), mint, call).value;
    FindingsLinked(storage, engine, subject.value, MeasuresFor(storage, topic), mint, call);
    AssembleLayout(subject.value, fs);
  }

  /** When no measure has a gap, the document is the bare composition with no sections. */
  lemma NoGapsNoSections(storage: Storage, engine: Engine, subject: string, topic: Option<string>,
                         mint: (nat, nat) -> FreshValues, call: nat)
    requires subject != ""
    requires storage.firstOrganization.Some? || MeasuresFor(storage, topic) == []
    requires var ms := MeasuresFor(storage, topic);
             forall k :: 0 <= k < |ms| ==> NoGap(storage, engine, subject, ms[k])
    ensures CareGapDocument(storage, engine, Some(subject), topic, mint, call).Ok?
    ensures CareGapDocument(storage, engine, Some(subject), topic, mint, call).value
            == Bundle(None, Some(Document), [Entry(Some(CompositionResource(CompositionFor(subject, []))), None)])
  {
    NoGapsNoFindings(storage, engine, subject, MeasuresFor(storage, topic), mint, call);
    AssembleNothing(subject);
  }

  lemma AssembleNothing(subject: string)
    ensures Assemble(subject, []) == Bundle(None, Some(Document), [Entry(Some(CompositionResource(CompositionFor(subject, []))), None)])
  {
    assert SectionsOf([]) == [] && ReportsOf([]) == [] && IssuesOf([]) == [];
    assert ReportEntries([]) == [] && IssueEntries([]) == [];
  }

  lemma {:induction false} NoGapsNoFindings(storage: Storage, engine: Engine, subject: string, ms: seq<Measure>,
                                            mint: (nat, nat) -> FreshValues, call: nat)
    requires storage.firstOrganization.Some? || ms == []
    requires forall k :: 0 <= k < |ms| ==> NoGap(storage, engine, subject, ms[k])
    ensures Findings(storage, engine, subject, ms, mint, call).Ok?
    ensures Findings(storage, engine, subject, ms, mint, call).value == []
  {
    if ms != [] {
      var init := ms[..|ms| - 1];
      forall k | 0 <= k < |init|
        ensures NoGap(storage, engine, subject, init[k])
      {
        assert init[k] == ms[k];
      }
      NoGapsNoFindings(storage, engine, subject, init, mint, call);
      assert NoGap(storage, engine, subject, ms[|ms| - 1]);
      StepIsGapDecision(storage, engine, subject, ms[|ms| - 1], mint(call, |ms| - 1));
      assert MeasureStep(storage, engine, subject, ms[|ms| - 1], mint(call, |ms| - 1)) == Ok(None);
    }
  }

  /** No organization only matters once there is a measure to report on. */
  lemma NoMeasuresNeedNoOrganization(storage: Storage, engine: Engine, subject: string, topic: Option<string>,
                                     mint: (nat, nat) -> FreshValues, call: nat)
    requires subject != "" && MeasuresFor(storage, topic) == []
    ensures CareGapDocument(storage, engine, Some(subject), topic, mint, call).Ok?
    ensures CareGapDocument(storage, engine, Some(subject), topic, mint, call).value
            == Bundle(None, Some(Document), [Entry(Some(CompositionResource(CompositionFor(subject, []))), None)])
  {
    AssembleNothing(subject);
  }

  /** A failing measure fails the whole document, whatever the later measures do. */
  lemma {:induction false} FirstFailureWins(storage: Storage, engine: Engine, subject: string, ms: seq<Measure>,
                                            mint: (nat, nat) -> FreshValues, call: nat, k: nat)
    requires k < |ms|
    requires Findings(storage, engine, subject, ms[..k], mint, call).Ok?
    requires MeasureStep(storage, engine, subject, ms[k], mint(call, k)).Err?
    ensures Findings(storage, engine, subject, ms, mint, call)
            == Err(MeasureStep(storage, engine, subject, ms[k], mint(call, k)).error)
  {
    if k == |ms| - 1 {
      assert ms[..|ms| - 1] == ms[..k];
    } else {
      var init := ms[..|ms| - 1];
      assert init[..k] == ms[..k] && init[k] == ms[k];
      FirstFailureWins(storage, engine, subject, init, mint, call, k);
    }
  }

  // ---------------------------------------------------------------------
  // The imperative operations
  // ---------------------------------------------------------------------

  /** The body of the measure loop, with the counts and the proportion computed by their loops. */
  method EvaluateForGap(storage: Storage, engine: Engine, subject: string, measure: Measure, drawn: FreshValues)
    returns (r: Result<Option<Finding>>)
    ensures r == MeasureStep(storage, engine, subject, measure, drawn)
  {
    var evaluated := EvaluateMeasure(storage, engine, measure.id, None, Some(subject), None, None);
    if evaluated.Err? {
      return Err(evaluated.error);
    }
    if storage.firstOrganization.None? {
      return Err(NoOrganization);
    }
    var report := StampReport(evaluated.value, measure, storage.firstOrganization.value, drawn);
    r := Ok(None);
    if HasGroup(report.groups) && HasScoring(measure) {
      var numerator, denominator := Scoring.ExtractCounts(report.groups);
      var proportion := Scoring.Proportion(measure.scoring, numerator, denominator);
      var code := FirstCode(measure.improvementNotation);
      if code.None? {
        return Err(MissingImprovementNotationCode);
      }
      if Scoring.IsGap(code.value, proportion) {
        r := Ok(Some(Finding(SectionFor(measure, drawn), report, IssueFor(subject, drawn))));
      }
    }
  }

  lemma FindingsStep(storage: Storage, engine: Engine, subject: string, ms: seq<Measure>,
                     mint: (nat, nat) -> FreshValues, call: nat, i: nat)
    requires i < |ms|
    requires Findings(storage, engine, subject, ms[..i], mint, call).Ok?
    requires MeasureStep(storage, engine, subject, ms[i], mint(call, i)).Ok?
    ensures var step := MeasureStep(storage, engine, subject, ms[i], mint(call, i)).value;
            && Findings(storage, engine, subject, ms[..i + 1], mint, call).Ok?
            && Findings(storage, engine, subject, ms[..i + 1], mint, call).value
               == Findings(storage, engine, subject, ms[..i], mint, call).value + if step.Some? then [step.value] else []
  {
    assert ms[..i + 1][..i] == ms[..i];
  }

  lemma OfAppend(fs: seq<Finding>, f: Finding)
    ensures SectionsOf(fs + [f]) == SectionsOf(fs) + [f.section]
    ensures ReportsOf(fs + [f]) == ReportsOf(fs) + [f.report]
    ensures IssuesOf(fs + [f]) == IssuesOf(fs) + [f.issue]
  {
  }

  /**
   * The measure loop of `patientCareGap`: the sections, reports and issues
   * of the measures with a gap, in measure order, or the first failure.
   */
  method ScanMeasures(storage: Storage, engine: Engine, subject: string, measures: seq<Measure>,
                      mint: (nat, nat) -> FreshValues, call: nat)
    returns (failure: Option<Error>, sections: seq<Section>, reports: seq<MeasureReport>, issues: seq<DetectedIssue>)
    ensures failure.Some? <==> Findings(storage, engine, subject, measures, mint, call).Err?
    ensures failure.Some? ==> failure.value == Findings(storage, engine, subject, measures, mint, call).error
    ensures failure.None? ==>
              var fs := Findings(storage, engine, subject, measures, mint, call).value;
              sections == SectionsOf(fs) && reports == ReportsOf(fs) && issues == IssuesOf(fs)
  {
    sections, reports, issues := [], [], [];
    ghost var found: seq<Finding> := [];
    var i := 0;
    while i < |measures|
      invariant 0 <= i <= |measures|
      invariant Findings(storage, engine, subject, measures[..i], mint, call).Ok?
      invariant Findings(storage, engine, subject, measures[..i], mint, call).value == found
      invariant sections == SectionsOf(found) && reports == ReportsOf(found) && issues == IssuesOf(found)
    {
      var step := EvaluateForGap(storage, engine, subject, measures[i], mint(call, i));
      if step.Err? {
        FirstFailureWins(storage, engine, subject, measures, mint, call, i);
        return Some(step.error), [], [], [];
      }
      FindingsStep(storage, engine, subject, measures, mint, call, i);
      if step.value.Some? {
        OfAppend(found, step.value.value);
        var f := step.value.value;
        sections := sections + [f.section];
        reports := reports + [f.report];
        issues := issues + [f.issue];
        found := found + [f];
      }
      i := i + 1;
    }
    assert measures[..i] == measures;
    failure := None;
  }

  lemma ReportEntriesStep(rs: seq<MeasureReport>, k: nat)
    requires k < |rs|
    ensures ReportEntries(rs[..k + 1]) == ReportEntries(rs[..k]) + [Entry(Some(ReportResource(rs[k])), None)]
  {
  }

  lemma IssueEntriesStep(issues: seq<DetectedIssue>, k: nat)
    requires k < |issues|
    ensures IssueEntries(issues[..k + 1]) == IssueEntries(issues[..k]) + [Entry(Some(IssueResource(issues[k])), None)]
  {
  }

  /** The loop adding one entry per report. */
  method AddReportEntries(entries0: seq<Entry>, reports: seq<MeasureReport>) returns (entries: seq<Entry>)
    ensures entries == entries0 + ReportEntries(reports)
  {
    entries := entries0;
    var k := 0;
    while k < |reports|
      invariant 0 <= k <= |reports|
      invariant entries == entries0 + ReportEntries(reports[..k])
    {
      ReportEntriesStep(reports, k);
      entries := entries + [Entry(Some(ReportResource(reports[k])), None)];
      k := k + 1;
    }
    assert reports[..k] == reports;
  }

  /** The loop adding one entry per issue. */
  method AddIssueEntries(entries0: seq<Entry>, issues: seq<DetectedIssue>) returns (entries: seq<Entry>)
    ensures entries == entries0 + IssueEntries(issues)
  {
    entries := entries0;
    var k := 0;
    while k < |issues|
      invariant 0 <= k <= |issues|
      invariant entries == entries0 + IssueEntries(issues[..k])
    {
      IssueEntriesStep(issues, k);
      entries := entries + [Entry(Some(IssueResource(issues[k])), None)];
      k := k + 1;
    }
    assert issues[..k] == issues;
  }

  /** The document entries: the composition, each report, each issue. */
  method BuildDocument(subject: string, sections: seq<Section>, reports: seq<MeasureReport>, issues: seq<DetectedIssue>)
    returns (doc: Bundle)
    ensures doc == Bundle(None, Some(Document),
                          [Entry(Some(CompositionResource(CompositionFor(subject, sections))), None)]
                          + ReportEntries(reports) + IssueEntries(issues))
  {
    var entries := [Entry(Some(CompositionResource(CompositionFor(subject, sections))), None)];
    entries := AddReportEntries(entries, reports);
    entries := AddIssueEntries(entries, issues);
    doc := Bundle(None, Some(Document), entries);
  }

  /** `patientCareGap`: the subject check, the measure loop, then the document. */
  method PatientCareGap(storage: Storage, engine: Engine, subject: Option<string>, topic: Option<string>,
                        mint: (nat, nat) -> FreshValues, call: nat) returns (res: Result<Bundle>)
    ensures res == CareGapDocument(storage, engine, subject, topic, mint, call)
  {
    if subject.None? || subject.value == "" {
      return Err(SubjectRequired);
    }
    var measures := MeasuresFor(storage, topic);
    var failure, sections, reports, issues := ScanMeasures(storage, engine, subject.value, measures, mint, call);
    if failure.Some? {
      return Err(failure.value);
    }
    var doc := BuildDocument(subject.value, sections, reports, issues);
    res := Ok(doc);
  }

  // ---------------------------------------------------------------------
  // careGapsReport
  // ---------------------------------------------------------------------

  /** The name of the single-subject parameter; Java renders a null subject as "null". */
  function SubjectName(subject: Option<string>): string {
    if subject.Some? then subject.value else "null"
  }

  /** The document of each subject name of a group, the i-th drawing its fresh values as call i. */
  function GroupDocuments(storage: Storage, engine: Engine, names: seq<string>, topic: Option<string>,
                          mint: (nat, nat) -> FreshValues): (r: seq<Result<Bundle>>)
    ensures |r| == |names|
    ensures forall i :: 0 <= i < |names| ==> r[i] == CareGapDocument(storage, engine, Some(names[i]), topic, mint, i)
  {
    seq(|names|, i requires 0 <= i < |names| => CareGapDocument(storage, engine, Some(names[i]), topic, mint, i))
  }

  /** One parameter per subject name, holding that name's document; the first failing document fails the list. */
  function GroupParameters(names: seq<string>, docs: seq<Result<Bundle>>): Result<seq<Parameter>>
    requires |docs| == |names|
  {
    if names == [] then Ok([])
    else
      var earlier :- GroupParameters(names[..|names| - 1], docs[..|names| - 1]);
      var doc :- docs[|names| - 1];
      Ok(earlier + [Parameter(ParameterPrefix + names[|names| - 1], BundleResource(doc))])
  }

  /**
   * `careGapsReport`: a non-empty subject group is split on commas, one
   * document per name; otherwise, without a practitioner, one document for
   * the subject; with a practitioner, no parameters at all.
   */
  function GapsReport(storage: Storage, engine: Engine, subject: Option<string>, subjectGroup: Option<string>,
                      topic: Option<string>, practitioner: Option<string>,
                      mint: (nat, nat) -> FreshValues): Result<seq<Parameter>>
  {
    if subjectGroup.Some? && |subjectGroup.value| > 0 then
      var names := Text.JavaSplit(subjectGroup.value, ',');
      GroupParameters(names, GroupDocuments(storage, engine, names, topic, mint))
    else if practitioner.None? || practitioner.value == "" then
      var doc :- CareGapDocument(storage, engine, subject, topic, mint, 0);
      Ok([Parameter(ParameterPrefix + SubjectName(subject), BundleResource(doc))])
    else Ok([])
  }

  lemma GroupParametersStep(names: seq<string>, docs: seq<Result<Bundle>>, i: nat)
    requires |docs| == |names| && i < |names|
    requires GroupParameters(names[..i], docs[..i]).Ok? && docs[i].Ok?
    ensures GroupParameters(names[..i + 1], docs[..i + 1]).Ok?
    ensures GroupParameters(names[..i + 1], docs[..i + 1]).value
            == GroupParameters(names[..i], docs[..i]).value + [Parameter(ParameterPrefix + names[i], BundleResource(docs[i].value))]
  {
    assert names[..i + 1][..i] == names[..i] && docs[..i + 1][..i] == docs[..i];
  }

  /** Parameter i is named after subject name i and holds document i. */
  lemma {:induction false} GroupParametersShape(names: seq<string>, docs: seq<Result<Bundle>>)
    requires |docs| == |names|
    requires GroupParameters(names, docs).Ok?
    ensures var ps := GroupParameters(names, docs).value;
            |ps| == |names|
            && forall i :: 0 <= i < |names| ==>
                 ps[i].name == ParameterPrefix + names[i] && docs[i].Ok? && ps[i].resource == BundleResource(docs[i].value)
  {
    if names != [] {
      var k := |names| - 1;
      GroupParametersShape(names[..k], docs[..k]);
    }
  }

  /** The list fails exactly when some document fails, with the error of the first one that does. */
  lemma {:induction false} GroupFailureWins(names: seq<string>, docs: seq<Result<Bundle>>, k: nat)
    requires |docs| == |names| && k < |names|
    requires GroupParameters(names[..k], docs[..k]).Ok? && docs[k].Err?
    ensures GroupParameters(names, docs) == Err(docs[k].error)
  {
    if k == |names| - 1 {
      assert names[..|names| - 1] == names[..k] && docs[..|names| - 1] == docs[..k];
    } else {
      var n := |names| - 1;
      assert names[..n][..k] == names[..k] && docs[..n][..k] == docs[..k] && docs[..n][k] == docs[k];
      GroupFailureWins(names[..n], docs[..n], k);
    }
  }

  /** An empty name in the group (as in "a,,b") fails the whole report with `SubjectRequired`, unless an earlier name failed. */
  lemma EmptyNameFails(storage: Storage, engine: Engine, names: seq<string>, topic: Option<string>,
                       mint: (nat, nat) -> FreshValues, k: nat)
    requires k < |names| && names[k] == ""
    requires GroupParameters(names[..k], GroupDocuments(storage, engine, names, topic, mint)[..k]).Ok?
    ensures GroupParameters(names, GroupDocuments(storage, engine, names, topic, mint)) == Err(SubjectRequired)
  {
    var docs := GroupDocuments(storage, engine, names, topic, mint);
    EmptyNameDocument(storage, engine, names, topic, mint, k);
    GroupFailureWins(names, docs, k);
  }

  lemma EmptyNameDocument(storage: Storage, engine: Engine, names: seq<string>, topic: Option<string>,
                          mint: (nat, nat) -> FreshValues, k: nat)
    requires k < |names| && names[k] == ""
    ensures GroupDocuments(storage, engine, names, topic, mint)[k].Err?
    ensures GroupDocuments(storage, engine, names, topic, mint)[k].error == SubjectRequired
  {
  }

  /**
   * For a group written as comma-joined non-empty names without commas,
   * the report has one parameter per name, in order, named after it.
   */
  lemma GroupOfNames(storage: Storage, engine: Engine, names: seq<string>, subject: Option<string>,
                     topic: Option<string>, practitioner: Option<string>, mint: (nat, nat) -> FreshValues)
    requires |names| >= 1
    requires forall i :: 0 <= i < |names| ==> names[i] != "" && ',' !in names[i]
    requires GapsReport(storage, engine, subject, Some(Text.Join(names, ',')), topic, practitioner, mint).Ok?
    ensures var ps := GapsReport(storage, engine, subject, Some(Text.Join(names, ',')), topic, practitioner, mint).value;
            |ps| == |names| && forall i :: 0 <= i < |names| ==> ps[i].name == ParameterPrefix + names[i]
  {
    Text.SplitJoin(names, ',');
    JoinNonEmpty(names, ',');
    GroupParametersShape(names, GroupDocuments(storage, engine, names, topic, mint));
  }

  lemma JoinNonEmpty(ps: seq<string>, sep: char)
    requires |ps| >= 1 && ps[0] != ""
    ensures |Text.Join(ps, sep)| > 0
  {
  }

  /** Without a subject group, a practitioner yields an empty result and no practitioner a single document. */
  lemma SingleSubjectBranches(storage: Storage, engine: Engine, subject: Option<string>, subjectGroup: Option<string>,
                              topic: Option<string>, practitioner: Option<string>, mint: (nat, nat) -> FreshValues)
    requires subjectGroup.None? || subjectGroup.value == ""
    ensures practitioner.Some? && practitioner.value != "" ==>
              GapsReport(storage, engine, subject, subjectGroup, topic, practitioner, mint).Ok?
              && GapsReport(storage, engine, subject, subjectGroup, topic, practitioner, mint).value == []
    ensures (practitioner.None? || practitioner.value == "") && (subject.None? || subject.value == "") ==>
              GapsReport(storage, engine, subject, subjectGroup, topic, practitioner, mint) == Err(SubjectRequired)
    ensures (practitioner.None? || practitioner.value == "")
            && GapsReport(storage, engine, subject, subjectGroup, topic, practitioner, mint).Ok? ==>
              var ps := GapsReport(storage, engine, subject, subjectGroup, topic, practitioner, mint).value;
              |ps| == 1 && subject.Some? && ps[0].name == ParameterPrefix + subject.value
  {
  }

  /** The subject-group loop of `careGapsReport`: one document per name. */
  method GroupReport(storage: Storage, engine: Engine, names: seq<string>, topic: Option<string>,
                     mint: (nat, nat) -> FreshValues) returns (res: Result<seq<Parameter>>)
    ensures res == GroupParameters(names, GroupDocuments(storage, engine, names, topic, mint))
  {
    ghost var docs := GroupDocuments(storage, engine, names, topic, mint);
    var parameters: seq<Parameter> := [];
    var i := 0;
    while i < |names|
      invariant 0 <= i <= |names|
      invariant GroupParameters(names[..i], docs[..i]).Ok?
      invariant GroupParameters(names[..i], docs[..i]).value == parameters
    {
      var doc := PatientCareGap(storage, engine, Some(names[i]), topic, mint, i);
      assert doc == docs[i];
      if doc.Err? {
        GroupFailureWins(names, docs, i);
        return Err(doc.error);
      }
      GroupParametersStep(names, docs, i);
      parameters := parameters + [Parameter(ParameterPrefix + names[i], BundleResource(doc.value))];
      i := i + 1;
    }
    assert names[..i] == names && docs[..i] == docs;
    return Ok(parameters);
  }

  /** `careGapsReport`, calling `PatientCareGap` once per subject. */
  method CareGapsReport(storage: Storage, engine: Engine, subject: Option<string>, subjectGroup: Option<string>,
                        topic: Option<string>, practitioner: Option<string>,
                        mint: (nat, nat) -> FreshValues) returns (res: Result<seq<Parameter>>)
    ensures res == GapsReport(storage, engine, subject, subjectGroup, topic, practitioner, mint)
  {
    if subjectGroup.Some? && |subjectGroup.value| > 0 {
      var names := Text.JavaSplit(subjectGroup.value, ',');
      res := GroupReport(storage, engine, names, topic, mint);
      return;
    }
    if practitioner.None? || practitioner.value == "" {
      var doc := PatientCareGap(storage, engine, subject, topic, mint, 0);
      if doc.Err? {
        return Err(doc.error);
      }
      return Ok([Parameter(ParameterPrefix + SubjectName(subject), BundleResource(doc.value))]);
    }
    return Ok([]);
  }
}
