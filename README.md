# Measure operations of the cqf-ruler R4 server, modelled in Dafny

This project models the clinical-quality measure operations that the cqf-ruler
FHIR server exposes on `Measure` (R4), and proves properties of the model:

- `$evaluate-measure` (module `Services`) reads the measure and dispatches on
  the report type: patient by default, or patient-list or population. The
  product-line extension is attached only on the default path.
- `$care-gaps` (module `CareGaps`) builds one care-gap document per subject, or
  per name of a comma-separated subject group. For each measure whose
  report shows a gap, a document has one section, one measure report and one
  detected issue, and they reference each other. The gap decision (module
  `Scoring`) reads the numerator and denominator counts from the report's
  groups, where the last assignment wins. It divides them with Java's
  truncating integer division. It then compares the proportion with the
  measure's improvement notation, ignoring case.
- `$collect-data` (module `CollectData`) returns the report without its groups,
  then goes through the report's contained bundles, bundle by bundle and entry
  by entry. Each non-List resource whose id is new to its bundle is added,
  followed immediately by the resources its first-value references point to,
  one level deep. Each bundle keeps a map of its own from id to resource.
- `$submit-data` (module `SubmitData`) writes the report and the submitted
  resources in one transaction. A resource with an id is written with PUT, a
  resource without one with POST. A transaction bundle's entries are forwarded
  as they are, and any other bundle's entries are converted.
- `$refresh-generated-content` (module `Artifacts`) drops the measure's
  "depends-on" related artifacts. It then appends each generated artifact
  that has no deep-equal one in the list yet. Deep equality follows HAPI's
  `equalsDeep`, where an absent element and a blank one are equal.

Module `Fhir` holds the FHIR values the operations touch. `Text` holds the
parts of `java.lang.String` they rely on: ASCII `toLowerCase`, `startsWith`,
blank tests, and `split(",")`, which drops trailing empty pieces.

Storage, the clinical-logic engine, the FHIR structure definitions walked by
reflection, and the related-artifact generator are all parameters: `Storage`,
`Engine`, `CollectData.Model` and a `Measure -> seq<RelatedArtifact>` function.
Random UUIDs and the current date come from a parameter
`mint: (nat, nat) -> FreshValues`, indexed by subject call and measure position.

Each state-changing loop of the source is a `method` with loop invariants. It
is proved equal to a specification function, and the properties are lemmas
about that function. The collect-data parameter list and resource map are
classes that the methods update in place.

On these points the model follows what the code does:

- The counters keep the last matching population count, not the first.
- Collect-data follows references one level deep, not transitively.
- Collect-data deduplicates ids within each contained bundle, not across all
  of them.

## Model

| member | source | states |
|---|---|---|
| `Services.ParseReportType` | r4/src/main/java/org/opencds/cqf/r4/providers/MeasureOperationsProvider.java:161-171 | exactly "patient", "patient-list" and "population" are accepted; the mode's name is the given string; anything else fails with `InvalidReportType` of that string |
| `Services.ParseReportTypeName` | r4/src/main/java/org/opencds/cqf/r4/providers/MeasureOperationsProvider.java:162-168 | each report mode's name parses back to that mode |
| `Services.EvaluateMeasure` | r4/src/main/java/org/opencds/cqf/r4/providers/MeasureOperationsProvider.java:150-183 | succeeds iff the measure is found and the report type is absent or valid; a missing measure gives `MeasureNotFound`, otherwise the failure is `InvalidReportType`; with a report type the result is the engine's report for that mode, without one the patient report with the product-line extension appended |
| `Services.ReportTypeDispatch` | r4/src/main/java/org/opencds/cqf/r4/providers/MeasureOperationsProvider.java:161-169 | "patient" gives the patient report for the patient, "patient-list" the subject-list report for the practitioner and "population" the population report, each with no extension added |
| `Services.DefaultIsPatientReport` | r4/src/main/java/org/opencds/cqf/r4/providers/MeasureOperationsProvider.java:174-183 | without a report type the result is the "patient" report plus the product-line extension |
| `Services.ProductLineOnlyOnDefault` | r4/src/main/java/org/opencds/cqf/r4/providers/MeasureOperationsProvider.java:176-181 | the engine's extensions are kept; exactly one extension is added, iff no report type and a product line are given |
| `Scoring.CodingMatchesSpec` | r4/src/main/java/org/opencds/cqf/r4/providers/MeasureOperationsProvider.java:319-327 | a population assigns nothing iff it has no count or no coding carries the code; every assigned value is the population's count |
| `Scoring.PopulationsMatchesSpec` | r4/src/main/java/org/opencds/cqf/r4/providers/MeasureOperationsProvider.java:314-331 | a group's populations assign nothing iff none contributes; each assigned value is the count of a contributing population |
| `Scoring.GroupsMatchesSpec` | r4/src/main/java/org/opencds/cqf/r4/providers/MeasureOperationsProvider.java:312-333 | the groups assign nothing iff no population of any group contributes; each assigned value is a contribution |
| `Scoring.CountIsContribution` | r4/src/main/java/org/opencds/cqf/r4/providers/MeasureOperationsProvider.java:310-333 | the counter is 0 when nothing contributes; otherwise it is the count of the last contributing population in loop order: no later population of its group and no later group contributes |
| `Scoring.GroupsMatchesAppend` | r4/src/main/java/org/opencds/cqf/r4/providers/MeasureOperationsProvider.java:312-333 | the assignments of a list of groups are those of its parts in order |
| `Scoring.LaterGroupsWin` | r4/src/main/java/org/opencds/cqf/r4/providers/MeasureOperationsProvider.java:321-326 | last match wins: a later contributing group overrides every earlier value |
| `Scoring.SilentGroupsKeepCount` | r4/src/main/java/org/opencds/cqf/r4/providers/MeasureOperationsProvider.java:312-333 | later groups that contribute nothing keep the earlier value |
| `Scoring.SingleCodingMatches` | r4/src/main/java/org/opencds/cqf/r4/providers/MeasureOperationsProvider.java:319-326 | a one-coding population assigns its count exactly when the code matches and a count is present |
| `Scoring.OneGroupOfTwo` | r4/src/main/java/org/opencds/cqf/r4/providers/MeasureOperationsProvider.java:312-333 | a group of two populations assigns the first one's values, then the second one's |
| `Scoring.ScanCodings` | r4/src/main/java/org/opencds/cqf/r4/providers/MeasureOperationsProvider.java:319-328 | the innermost loop leaves each counter at the last value assigned to it, or at its value before the loop |
| `Scoring.ScanPopulations` | r4/src/main/java/org/opencds/cqf/r4/providers/MeasureOperationsProvider.java:313-332 | the population loop leaves each counter at its last assigned value, or at its value before the loop |
| `Scoring.ExtractCounts` | r4/src/main/java/org/opencds/cqf/r4/providers/MeasureOperationsProvider.java:310-333 | the nested loops compute `Count` for "numerator" and "denominator" |
| `Scoring.TruncDivInRange` | r4/src/main/java/org/opencds/cqf/r4/providers/MeasureOperationsProvider.java:342 | every `int` quotient except `MIN_VALUE / -1` fits in an `int` |
| `Scoring.JavaDivNonNegative` | r4/src/main/java/org/opencds/cqf/r4/providers/MeasureOperationsProvider.java:342 | on non-negative operands the quotient is the floor, and 0 exactly when the numerator is below the denominator |
| `Scoring.JavaDivSigns` | r4/src/main/java/org/opencds/cqf/r4/providers/MeasureOperationsProvider.java:342 | negating either operand negates the quotient (truncation, not flooring) |
| `Scoring.ThreeOfTenIsZero` | r4/src/main/java/org/opencds/cqf/r4/providers/MeasureOperationsProvider.java:342 | 3 / 10 is 0 |
| `Scoring.Proportion` | r4/src/main/java/org/opencds/cqf/r4/providers/MeasureOperationsProvider.java:337-346 | the guarded loop over the scoring codings computes `ScoreProportion` |
| `Scoring.ProportionNonZero` | r4/src/main/java/org/opencds/cqf/r4/providers/MeasureOperationsProvider.java:337-346 | a non-zero proportion needs a non-zero denominator and a "proportion" scoring code, and is then the truncated quotient |
| `Scoring.GapIgnoresCase` | r4/src/main/java/org/opencds/cqf/r4/providers/MeasureOperationsProvider.java:350 | the notation is compared after lower-casing, so its case does not matter |
| `Scoring.GapDecision` | r4/src/main/java/org/opencds/cqf/r4/providers/MeasureOperationsProvider.java:309-353 | a gap is only found when the report has groups and the measure has scoring; it fails iff it gets as far as reading the notation and the notation has no first code |
| `Scoring.ProportionHasScoring` | r4/src/main/java/org/opencds/cqf/r4/providers/MeasureOperationsProvider.java:309-340 | a "proportion" scoring coding means the measure has scoring |
| `Scoring.ProportionOfNonNegative` | r4/src/main/java/org/opencds/cqf/r4/providers/MeasureOperationsProvider.java:337-343 | with non-negative counts and a positive denominator the proportion is non-negative, and 0 exactly below 100% |
| `Scoring.GapForNonNegativeCounts` | r4/src/main/java/org/opencds/cqf/r4/providers/MeasureOperationsProvider.java:337-353 | for a proportion measure with non-negative counts and a positive denominator, "increase" gaps iff numerator < denominator, and "decrease" gaps iff numerator >= denominator |
| `Scoring.GapWithoutProportion` | r4/src/main/java/org/opencds/cqf/r4/providers/MeasureOperationsProvider.java:337-353 | without a proportion (zero denominator or no proportion code), "increase" always gaps and "decrease" never does |
| `Scoring.ThreeOfTenCounts` | r4/src/main/java/org/opencds/cqf/r4/providers/MeasureOperationsProvider.java:310-333 | a group with numerator 3 and denominator 10 yields the counts 3 and 10 |
| `Scoring.ThreeOfTenIncreaseIsGap` | r4/src/main/java/org/opencds/cqf/r4/providers/MeasureOperationsProvider.java:337-353 | a proportion "increase" measure at 3 of 10 has a gap, because 3 / 10 truncates to 0 |
| `Text.ToLower` | r4/src/main/java/org/opencds/cqf/r4/providers/MeasureOperationsProvider.java:350 | the result has the same length, with each ASCII capital lowered |
| `Text.ToLowerIdempotent` | r4/src/main/java/org/opencds/cqf/r4/providers/MeasureOperationsProvider.java:350 | lower-casing twice is lower-casing once |
| `Text.ToLowerKeepsLower` | r4/src/main/java/org/opencds/cqf/r4/providers/MeasureOperationsProvider.java:350 | an all-lowercase word is unchanged |
| `Text.DropTrailingEmpty` | r4/src/main/java/org/opencds/cqf/r4/providers/MeasureOperationsProvider.java:230 | `split` keeps a prefix of the pieces that ends in a non-empty piece and drops only empty ones |
| `Text.PiecesHaveNoSeparator` | r4/src/main/java/org/opencds/cqf/r4/providers/MeasureOperationsProvider.java:230 | no piece contains the separator |
| `Text.JoinPieces` | r4/src/main/java/org/opencds/cqf/r4/providers/MeasureOperationsProvider.java:230 | joining the pieces with the separator gives back the string |
| `Text.PiecesOfJoin` | r4/src/main/java/org/opencds/cqf/r4/providers/MeasureOperationsProvider.java:230 | splitting a join of separator-free pieces gives back the pieces |
| `Text.SplitJoin` | r4/src/main/java/org/opencds/cqf/r4/providers/MeasureOperationsProvider.java:230 | `split` of a join of separator-free pieces whose last piece is non-empty gives back the pieces |
| `Text.JavaSplitPieces` | r4/src/main/java/org/opencds/cqf/r4/providers/MeasureOperationsProvider.java:230 | `split` yields separator-free pieces; with a separator present, it is a prefix of all pieces |
| `CareGaps.PatientReferenceShape` | r4/src/main/java/org/opencds/cqf/r4/providers/MeasureOperationsProvider.java:279 | the reference starts with "Patient/" and ends with the subject; it equals the subject iff that already starts with "Patient/", else it is "Patient/" + subject |
| `CareGaps.PatientReferenceIdempotent` | r4/src/main/java/org/opencds/cqf/r4/providers/MeasureOperationsProvider.java:279 | adding the prefix is idempotent |
| `CareGaps.TopicFilter` | r4/src/main/java/org/opencds/cqf/r4/providers/MeasureOperationsProvider.java:267-270 | the search filters by topic iff the topic is non-null and non-empty, and then by exactly that topic |
| `CareGaps.FirstPage` | r4/src/main/java/org/opencds/cqf/r4/providers/MeasureOperationsProvider.java:272 | the first at most 1000 measures of the search, in order |
| `CareGaps.StampReport` | r4/src/main/java/org/opencds/cqf/r4/providers/MeasureOperationsProvider.java:299-304 | the report gets the fresh id and date, the measure's notation, the organization as reporter and the DEQM profile; groups, contained resources and extensions are kept |
| `CareGaps.IssueFor` | r4/src/main/java/org/opencds/cqf/r4/providers/MeasureOperationsProvider.java:355-362 | the issue has the fresh id, is final, is about the patient, has the report as its one piece of evidence, and has the care-gap code |
| `CareGaps.SectionFor` | r4/src/main/java/org/opencds/cqf/r4/providers/MeasureOperationsProvider.java:289-365 | the section has the measure's title if present, the report as focus and the issue as its one entry |
| `CareGaps.MeasureStep` | r4/src/main/java/org/opencds/cqf/r4/providers/MeasureOperationsProvider.java:286-373 | a finding needs an organization, which becomes the reporter, plus groups and scoring; it carries that measure's section and issue; no organization fails with `NoOrganization`, an unreadable measure with `MeasureNotFound` |
| `CareGaps.StepIsGapDecision` | r4/src/main/java/org/opencds/cqf/r4/providers/MeasureOperationsProvider.java:286-373 | with the measure readable and an organization found, the pass fails iff the gap decision on the engine's patient report fails, and then with `MissingImprovementNotationCode`; it yields a finding iff the decision is a gap, and the finding's report is that engine report stamped with the measure pass's fresh values and the organization |
| `CareGaps.CareGapDocument` | r4/src/main/java/org/opencds/cqf/r4/providers/MeasureOperationsProvider.java:251-254 | a null or empty subject is rejected with `SubjectRequired` |
| `CareGaps.FindingsBound` | r4/src/main/java/org/opencds/cqf/r4/providers/MeasureOperationsProvider.java:286-374 | at most one finding per measure |
| `CareGaps.FindingsProvenance` | r4/src/main/java/org/opencds/cqf/r4/providers/MeasureOperationsProvider.java:286-374 | the findings are those of the measures whose pass yields one, in measure order: finding i comes from measure `pos[i]` with its fresh values, the positions strictly increase, every pass succeeded, and a measure's position is listed iff its pass yields a finding |
| `CareGaps.FindingsAreGaps` | r4/src/main/java/org/opencds/cqf/r4/providers/MeasureOperationsProvider.java:286-374 | once the findings are made, every measure was read back and the organization found, and a measure has a finding iff the gap decision on its engine report is a gap |
| `CareGaps.FindingsLinked` | r4/src/main/java/org/opencds/cqf/r4/providers/MeasureOperationsProvider.java:305-370 | in every finding the section points at the report and the issue, and the issue points at the report and the patient |
| `CareGaps.AssembleHead` | r4/src/main/java/org/opencds/cqf/r4/providers/MeasureOperationsProvider.java:274-386 | a document of n findings has 1 + 2n entries, with the composition first |
| `CareGaps.AssembleAt` | r4/src/main/java/org/opencds/cqf/r4/providers/MeasureOperationsProvider.java:376-384 | entry 1 + i holds report i and entry 1 + n + i holds issue i |
| `CareGaps.AssembleLayout` | r4/src/main/java/org/opencds/cqf/r4/providers/MeasureOperationsProvider.java:274-386 | linked findings give a well-linked Document bundle: the final "Care Gap Report" composition about the patient, then the reports, then the issues, section i linking report i and issue i |
| `CareGaps.DocumentLayout` | r4/src/main/java/org/opencds/cqf/r4/providers/MeasureOperationsProvider.java:251-387 | every document produced has a non-empty subject and is well linked |
| `CareGaps.NoGapsNoFindings` | r4/src/main/java/org/opencds/cqf/r4/providers/MeasureOperationsProvider.java:286-374 | when every measure is readable, an organization exists (or there are no measures) and the gap decision on every measure's engine report is "no gap", there are no findings |
| `CareGaps.NoGapsNoSections` | r4/src/main/java/org/opencds/cqf/r4/providers/MeasureOperationsProvider.java:274-386 | under the same conditions for the measures of the topic, the document is the bare composition without sections |
| `CareGaps.NoMeasuresNeedNoOrganization` | r4/src/main/java/org/opencds/cqf/r4/providers/MeasureOperationsProvider.java:257-303 | with no measures the document is produced even without an organization |
| `CareGaps.FirstFailureWins` | r4/src/main/java/org/opencds/cqf/r4/providers/MeasureOperationsProvider.java:286-374 | the first failing measure's error fails the document, whatever later measures do |
| `CareGaps.EvaluateForGap` | r4/src/main/java/org/opencds/cqf/r4/providers/MeasureOperationsProvider.java:288-373 | the loop body, with counts and proportion from their loops, computes `MeasureStep` |
| `CareGaps.ScanMeasures` | r4/src/main/java/org/opencds/cqf/r4/providers/MeasureOperationsProvider.java:282-374 | the measure loop fails iff `Findings` fails, with its error; otherwise the lists hold the findings' sections, reports and issues in order |
| `CareGaps.AddReportEntries` | r4/src/main/java/org/opencds/cqf/r4/providers/MeasureOperationsProvider.java:378-380 | the loop appends one entry per report, in order |
| `CareGaps.AddIssueEntries` | r4/src/main/java/org/opencds/cqf/r4/providers/MeasureOperationsProvider.java:382-384 | the loop appends one entry per issue, in order |
| `CareGaps.BuildDocument` | r4/src/main/java/org/opencds/cqf/r4/providers/MeasureOperationsProvider.java:274-386 | the Document bundle holds the composition, then the reports, then the issues |
| `CareGaps.PatientCareGap` | r4/src/main/java/org/opencds/cqf/r4/providers/MeasureOperationsProvider.java:251-387 | the method computes `CareGapDocument` |
| `CareGaps.GroupDocuments` | r4/src/main/java/org/opencds/cqf/r4/providers/MeasureOperationsProvider.java:230-233 | one document per subject name, in order |
| `CareGaps.GroupParametersShape` | r4/src/main/java/org/opencds/cqf/r4/providers/MeasureOperationsProvider.java:228-235 | parameter i is named "Gaps in Care Report - " + name i and holds document i |
| `CareGaps.GroupFailureWins` | r4/src/main/java/org/opencds/cqf/r4/providers/MeasureOperationsProvider.java:230-234 | the first failing document fails the whole report with its error |
| `CareGaps.EmptyNameFails` | r4/src/main/java/org/opencds/cqf/r4/providers/MeasureOperationsProvider.java:230-253 | an empty name in the group (as in "a,,b") fails the report with `SubjectRequired` unless an earlier name failed |
| `CareGaps.GroupOfNames` | r4/src/main/java/org/opencds/cqf/r4/providers/MeasureOperationsProvider.java:226-235 | a group written as comma-joined non-empty names yields one parameter per name, in order, named after it |
| `CareGaps.SingleSubjectBranches` | r4/src/main/java/org/opencds/cqf/r4/providers/MeasureOperationsProvider.java:237-248 | without a group, a practitioner gives an empty result; without one, a missing subject fails and otherwise there is one parameter named after the subject |
| `CareGaps.GroupReport` | r4/src/main/java/org/opencds/cqf/r4/providers/MeasureOperationsProvider.java:228-235 | the subject-group loop computes `GroupParameters` of the names' documents |
| `CareGaps.CareGapsReport` | r4/src/main/java/org/opencds/cqf/r4/providers/MeasureOperationsProvider.java:219-249 | the method computes `GapsReport`, with its three branches |
| `CollectData.ParameterList.Add` | r4/src/main/java/org/opencds/cqf/r4/providers/MeasureOperationsProvider.java:427-428 | appends one named parameter |
| `CollectData.ResourceMap.Put` | r4/src/main/java/org/opencds/cqf/r4/providers/MeasureOperationsProvider.java:430 | maps the id to the resource |
| `CollectData.AdmitTracks` | r4/src/main/java/org/opencds/cqf/r4/providers/MeasureOperationsProvider.java:426-431 | adding an unseen resource keeps the invariant: earlier parameters untouched, new ones named "resource", ids distinct, map keys exactly their ids |
| `CollectData.ResolveValuesTracks` | r4/src/main/java/org/opencds/cqf/r4/providers/MeasureOperationsProvider.java:439-463 | resolving references keeps that invariant |
| `CollectData.AddEntriesTracks` | r4/src/main/java/org/opencds/cqf/r4/providers/MeasureOperationsProvider.java:421-437 | the entry loop keeps that invariant |
| `CollectData.BundleIdsDistinct` | r4/src/main/java/org/opencds/cqf/r4/providers/MeasureOperationsProvider.java:421-437 | a contained bundle only appends "resource" parameters with pairwise distinct ids |
| `CollectData.EntriesRepresented` | r4/src/main/java/org/opencds/cqf/r4/providers/MeasureOperationsProvider.java:424-433 | every non-List entry resource's id ends up in the map, and no id leaves it |
| `CollectData.ResolveValuesComplete` | r4/src/main/java/org/opencds/cqf/r4/providers/MeasureOperationsProvider.java:439-463 | resolving fails iff some followed reference cannot be read; on success the resource read for every followed reference has its id in the map |
| `CollectData.EntriesComplete` | r4/src/main/java/org/opencds/cqf/r4/providers/MeasureOperationsProvider.java:421-463 | after a bundle's entries, the resource read for every followed reference of every admitted entry (a non-List resource whose id was not yet mapped) has its id in the map |
| `CollectData.EntriesFailure` | r4/src/main/java/org/opencds/cqf/r4/providers/MeasureOperationsProvider.java:421-463 | a bundle's entries fail only where an admitted entry has a followed reference that cannot be read |
| `CollectData.ResolveValuesProvenance` | r4/src/main/java/org/opencds/cqf/r4/providers/MeasureOperationsProvider.java:448-460 | each resource added while resolving is what storage returns for one of the followed references |
| `CollectData.EntriesProvenance` | r4/src/main/java/org/opencds/cqf/r4/providers/MeasureOperationsProvider.java:421-463 | every added resource is an admitted entry resource (non-List, id not yet mapped when reached), or is read for one of that entry resource's own references; a skipped duplicate's references are not followed, and nothing deeper is |
| `CollectData.AddContainedKeepsPrefix` | r4/src/main/java/org/opencds/cqf/r4/providers/MeasureOperationsProvider.java:405-411 | the contained-bundle loop only appends "resource" parameters |
| `CollectData.ReportComesFirst` | r4/src/main/java/org/opencds/cqf/r4/providers/MeasureOperationsProvider.java:396-411 | the first parameter is "measurereport" holding the report without groups; all others are "resource" |
| `CollectData.CollectedReportIsPatientReport` | r4/src/main/java/org/opencds/cqf/r4/providers/MeasureOperationsProvider.java:396-398 | the report is the engine's patient report with its groups removed |
| `CollectData.OneLevelOnly` | r4/src/main/java/org/opencds/cqf/r4/providers/MeasureOperationsProvider.java:439-463 | with A referring to B and B to C, a bundle of A yields A and B but not C |
| `CollectData.ReferencesFollowTheirEntry` | r4/src/main/java/org/opencds/cqf/r4/providers/MeasureOperationsProvider.java:421-463 | with A referring to B, a bundle of A then C yields A, B, C: the resources an entry refers to come right after it, before the next entry |
| `CollectData.ResolveReferences` | r4/src/main/java/org/opencds/cqf/r4/providers/MeasureOperationsProvider.java:439-463 | fails iff `ResolveValues` fails, with its error; otherwise it leaves the parameters and the map it computes |
| `CollectData.AddEvaluatedResourcesToParameters` | r4/src/main/java/org/opencds/cqf/r4/providers/MeasureOperationsProvider.java:421-437 | with a fresh map, fails iff `AddBundle` fails; otherwise it leaves the parameters it computes |
| `CollectData.CollectData` | r4/src/main/java/org/opencds/cqf/r4/providers/MeasureOperationsProvider.java:390-419 | the method computes `CollectDataSpec` |
| `SubmitData.TransactionEntry` | r4/src/main/java/org/opencds/cqf/r4/providers/MeasureOperationsProvider.java:529-540 | the entry holds the resource; it is a PUT iff the resource has an id, the URL being that id, and otherwise a POST to the resource type |
| `SubmitData.ConvertEntriesMaps` | r4/src/main/java/org/opencds/cqf/r4/providers/MeasureOperationsProvider.java:514-521 | conversion maps `TransactionEntry` over the resource-bearing entries, in order |
| `SubmitData.ResourcesOfCounts` | r4/src/main/java/org/opencds/cqf/r4/providers/MeasureOperationsProvider.java:517-519 | when every entry carries a resource all are kept; when none does the result is empty |
| `SubmitData.ResourcesOfFilter` | r4/src/main/java/org/opencds/cqf/r4/providers/MeasureOperationsProvider.java:517-519 | the resources are an order-keeping filter of the entries: resource i is that of entry `pos[i]`, the positions strictly increase, and an entry is listed iff it carries a resource |
| `SubmitData.TransactionKept` | r4/src/main/java/org/opencds/cqf/r4/providers/MeasureOperationsProvider.java:510-511 | a transaction bundle is forwarded verbatim |
| `SubmitData.ConvertIdempotent` | r4/src/main/java/org/opencds/cqf/r4/providers/MeasureOperationsProvider.java:507-527 | conversion yields a transaction bundle, so converting again changes nothing |
| `SubmitData.ConcatAppend` | r4/src/main/java/org/opencds/cqf/r4/providers/MeasureOperationsProvider.java:493-503 | the entries of a list of resources are those of its parts in order |
| `SubmitData.OrderPreserved` | r4/src/main/java/org/opencds/cqf/r4/providers/MeasureOperationsProvider.java:491-503 | after the report entry, each prefix of the resources contributes a prefix of the entries |
| `SubmitData.ReportFirst` | r4/src/main/java/org/opencds/cqf/r4/providers/MeasureOperationsProvider.java:480-491 | the submission is a transaction whose first entry is the report's, a PUT iff the report has an id |
| `SubmitData.PlainResources` | r4/src/main/java/org/opencds/cqf/r4/providers/MeasureOperationsProvider.java:493-503 | non-bundle resources contribute one transaction entry each, in order |
| `SubmitData.EveryEntryHasRequest` | r4/src/main/java/org/opencds/cqf/r4/providers/MeasureOperationsProvider.java:491-503 | unless a transaction bundle is submitted, every entry is the transaction entry of its own resource |
| `SubmitData.CreateTransactionBundle` | r4/src/main/java/org/opencds/cqf/r4/providers/MeasureOperationsProvider.java:507-527 | the method computes `ConvertBundle` |
| `SubmitData.AppendEntries` | r4/src/main/java/org/opencds/cqf/r4/providers/MeasureOperationsProvider.java:495-497 | the loop appends all entries, in order |
| `SubmitData.Submit` | r4/src/main/java/org/opencds/cqf/r4/providers/MeasureOperationsProvider.java:477-505 | returns what the transaction returns for `Submission` of the report and resources |
| `Artifacts.WithoutDependsOn` | r4/src/main/java/org/opencds/cqf/r4/providers/MeasureOperationsProvider.java:79-80 | succeeds iff every artifact has a type, failing with `MissingArtifactType`; never grows the list |
| `Artifacts.WithoutDependsOnKeeps` | r4/src/main/java/org/opencds/cqf/r4/providers/MeasureOperationsProvider.java:79-80 | an artifact is kept iff it was there and its type is not "depends-on" |
| `Artifacts.WithoutDependsOnIsFiltered` | r4/src/main/java/org/opencds/cqf/r4/providers/MeasureOperationsProvider.java:79-80 | when every artifact has a type, the removal is the plain filter that keeps, in order, each artifact whose type is not "depends-on" |
| `Artifacts.WithoutDependsOnFilter` | r4/src/main/java/org/opencds/cqf/r4/providers/MeasureOperationsProvider.java:79-80 | the removal is an order-keeping filter: kept artifact i is artifact `pos[i]`, the positions strictly increase, and an artifact is listed iff its type is not "depends-on", so duplicates stay |
| `Artifacts.MergeExtends` | r4/src/main/java/org/opencds/cqf/r4/providers/MeasureOperationsProvider.java:86-101 | the merge is append-only, with the current list as a prefix and at most one addition per generated artifact |
| `Artifacts.MergeMembers` | r4/src/main/java/org/opencds/cqf/r4/providers/MeasureOperationsProvider.java:86-101 | after the merge every current artifact is still there, every generated one has a deep-equal artifact there, and every artifact there was current or generated |
| `Artifacts.MergeDistinct` | r4/src/main/java/org/opencds/cqf/r4/providers/MeasureOperationsProvider.java:86-101 | a list where no two artifacts are deep-equal stays so, even if generated artifacts repeat |
| `Artifacts.MergeIdempotent` | r4/src/main/java/org/opencds/cqf/r4/providers/MeasureOperationsProvider.java:86-101 | merging the same artifacts again changes nothing |
| `Artifacts.MergePresent` | r4/src/main/java/org/opencds/cqf/r4/providers/MeasureOperationsProvider.java:88-99 | generated artifacts that each have a deep-equal one in the list already leave it unchanged |
| `Artifacts.RepeatedArtifactOnce` | r4/src/main/java/org/opencds/cqf/r4/providers/MeasureOperationsProvider.java:87-99 | an artifact generated twice is added once |
| `Artifacts.BlankDisplayNotAdded` | r4/src/main/java/org/opencds/cqf/r4/providers/MeasureOperationsProvider.java:89-97 | an artifact whose display is blank is not added beside the same artifact with no display, since `equalsDeep` counts a blank element as absent |
| `Artifacts.RefreshShape` | r4/src/main/java/org/opencds/cqf/r4/providers/MeasureOperationsProvider.java:77-101 | a missing measure fails; otherwise only the artifacts change: the kept ones come first, every generated one has a deep-equal artifact there, and every "depends-on" there was generated |
| `Artifacts.ArtifactExists` | r4/src/main/java/org/opencds/cqf/r4/providers/MeasureOperationsProvider.java:88-96 | the inner search is true iff some artifact of the list is deep-equal to the generated one: every element the same, an absent element equal to a blank one |
| `Artifacts.MergeArtifacts` | r4/src/main/java/org/opencds/cqf/r4/providers/MeasureOperationsProvider.java:86-101 | the nested loops compute `Merge` |
| `Artifacts.RefreshGeneratedContent` | r4/src/main/java/org/opencds/cqf/r4/providers/MeasureOperationsProvider.java:74-112 | the method computes `Refresh`, which is the measure handed to the update |

## Left out

- The clinical-logic engine is the `Engine` parameter, with one function per report mode. The inputs `seed.setup` receives besides the measure (`periodStart`, `periodEnd`, `productLine`, `source`, `user` and `pass`) are not carried: the engine functions do not depend on them, so the model does not capture an engine result that varies with the product line.
- The `measure` and `lastReceivedOn` operation parameters of `$evaluate-measure` are unused by the source and are not modelled.
- Storage reads, searches and transactions are the `Storage` parameter. `getResourceDao(type)` for an unknown type fails the same way as a missing resource.
- Random UUIDs and `new Date()` come from the `mint` parameter. Minted ids are taken to contain no '/', as UUIDs do not, so a section's `"DetectedIssue/"` reference ends in the minted id itself rather than in its last path segment.
- The reflective walk over FHIR structure definitions is the `Model` parameter. It gives, for each child element, what its first value is.
- The data-requirements generator (`createCqfMeasure`) is a function parameter.
- Narrative generation and the final `update` in `$refresh-generated-content` are not modelled. The model returns the measure that would be written.
- `$hqmf`, `$get-narrative` and `$data-requirements` are not modelled. They only forward to other providers.
- HAPI's `hasX`/`isEmpty` tests are simplified. A string element is present when non-null and not blank, where blank means ASCII whitespace only: the other characters `Character.isWhitespace` accepts, such as U+2000 or U+3000, count as content. A group is present when flagged or when it has populations. `entry.hasResource()` is modelled as the resource being there, so an entry whose resource is present but has no content at all is converted or collected by the model, where the source skips it.
- `Fhir.DeepEqual` gives `equalsDeep` for elements that are strings. The attachment (`document`) and each extension's value are flattened to one string each, so two attachments or values are equal when both are blank or when they are the same string. Their own inner elements are not compared one by one. String elements carry no extensions of their own.
- `toLowerCase` is modelled for ASCII letters only.
- The `double proportion` holds an integer quotient. It is modelled as `int32`, which is exact because the value is always an integer.
- A Java exception stops the operation. The model returns the error and does not describe the partial state left behind.
- `CollectData.ResolveReferences`: on failure, the contract does not say what was already added to the parameters and the map.
- `CollectData.AddEvaluatedResourcesToParameters`: on failure, the contract does not say what was already added to the parameters.
- `SubmitData.Submit`: an absent `resource` parameter list is modelled as an empty list.
- A null bundle passed to `createTransactionBundle` is modelled as `None`. `$submit-data` never passes one.
- `careGapsReport` with a practitioner (and no subject group) returns empty parameters, as the source does. That branch is unfinished in the source.
