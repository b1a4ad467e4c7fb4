/**
 * The FHIR R4 values that the measure operations read and build, reduced to
 * the elements those operations look at, together with the error outcomes
 * of the operations and the HAPI emptiness tests ("hasX") they rely on.
 */
module Fhir {
  import Text

  datatype Option<T> = None | Some(value: T)

  /** Every exception the modelled operations can raise. */
  datatype Error =
    | MeasureNotFound(measureId: string)
    | InvalidReportType(reportType: string)
    | SubjectRequired
    | NoOrganization
    | MissingImprovementNotationCode
    | UnresolvedReference(resourceType: string, idPart: string)
    | MissingArtifactType
    | StorageFailure(reason: string)

  datatype Result<T> = Ok(value: T) | Err(error: Error) {
    predicate IsFailure() { Err? }
    function PropagateFailure<U>(): Result<U>
      requires Err?
    {
      Err(error)
    }
    function Extract(): T
      requires Ok?
    {
      value
    }
  }

  /** Java `int`. */
  newtype int32 = x: int | -0x8000_0000 <= x < 0x8000_0000

  /** A string element is present when it is non-null and not blank (HAPI `hasX`). */
  predicate Present(s: Option<string>) {
    s.Some? && !Text.IsBlank(s.value)
  }

  datatype Coding = Coding(system: Option<string>, code: Option<string>)

  datatype CodeableConcept = CodeableConcept(codings: seq<Coding>, text: Option<string>)

  predicate CodingHasContent(c: Coding) {
    Present(c.system) || Present(c.code)
  }

  /** `CodeableConcept.isEmpty()` negated: some coding or the text carries data. */
  predicate ConceptHasContent(cc: CodeableConcept) {
    Present(cc.text) || exists i :: 0 <= i < |cc.codings| && CodingHasContent(cc.codings[i])
  }

  /** `getCodingFirstRep().getCode()`: the code of the first coding, null without one. */
  function FirstCode(cc: CodeableConcept): Option<string> {
    if |cc.codings| == 0 then None else cc.codings[0].code
  }

  datatype Population = Population(code: CodeableConcept, count: Option<int32>)

  /**
   * A report group. `otherElements` stands for the group's id, code, measure
   * score and stratifiers, which the operations only test for presence.
   */
  datatype Group = Group(populations: seq<Population>, otherElements: bool)

  predicate GroupHasContent(g: Group) {
    g.otherElements || |g.populations| > 0
  }

  /** `MeasureReport.hasGroup()`: some group is non-empty. */
  predicate HasGroup(groups: seq<Group>) {
    exists i :: 0 <= i < |groups| && GroupHasContent(groups[i])
  }

  datatype Extension = Extension(url: string, value: string)

  datatype MeasureReport = MeasureReport(
    id: Option<string>,
    date: Option<string>,
    improvementNotation: CodeableConcept,
    reporter: Option<string>,
    profiles: seq<string>,
    groups: seq<Group>,
    contained: seq<Resource>,
    extensions: seq<Extension>)

  datatype ArtifactType =
    | Documentation | Justification | Citation | Predecessor | Successor
    | DerivedFrom | DependsOn | ComposedOf

  /**
   * A related artifact with every element `equalsDeep` compares; `document`
   * stands for the attachment, flattened to one string.
   */
  datatype RelatedArtifact = RelatedArtifact(
    id: Option<string>,
    extensions: seq<Extension>,
    artifactType: Option<ArtifactType>,
    artifactLabel: Option<string>,
    display: Option<string>,
    citation: Option<string>,
    url: Option<string>,
    document: Option<string>,
    resource: Option<string>)

  /**
   * HAPI `compareDeep(a, b, true)` on two string elements: an absent element
   * and a blank one both count as empty, and two empty elements are equal;
   * otherwise the values must be the same.
   */
  predicate SameText(a: Option<string>, b: Option<string>) {
    (!Present(a) && !Present(b)) || a == b
  }

  /** `compareDeep` on one extension: its url and its value, element by element. */
  predicate SameExtension(e: Extension, f: Extension) {
    SameText(Some(e.url), Some(f.url)) && SameText(Some(e.value), Some(f.value))
  }

  /** `compareDeep` on two lists: the same length, and equal position by position. */
  predicate SameExtensions(a: seq<Extension>, b: seq<Extension>) {
    |a| == |b| && forall i :: 0 <= i < |a| ==> SameExtension(a[i], b[i])
  }

  /**
   * `RelatedArtifact.equalsDeep`: the element id and extensions, then every
   * element of the artifact; the type is a code, equal only to the same code.
   */
  predicate DeepEqual(a: RelatedArtifact, b: RelatedArtifact) {
    && SameText(a.id, b.id)
    && SameExtensions(a.extensions, b.extensions)
    && a.artifactType == b.artifactType
    && SameText(a.artifactLabel, b.artifactLabel)
    && SameText(a.display, b.display)
    && SameText(a.citation, b.citation)
    && SameText(a.url, b.url)
    && SameText(a.document, b.document)
    && SameText(a.resource, b.resource)
  }

  datatype Measure = Measure(
    id: string,
    title: Option<string>,
    scoring: CodeableConcept,
    improvementNotation: CodeableConcept,
    relatedArtifacts: seq<RelatedArtifact>)

  predicate HasTitle(m: Measure) { Present(m.title) }

  predicate HasScoring(m: Measure) { ConceptHasContent(m.scoring) }

  datatype Section = Section(title: Option<string>, focus: string, entries: seq<string>)

  datatype Composition = Composition(
    id: Option<string>,
    status: string,
    subject: string,
    title: string,
    sections: seq<Section>)

  datatype DetectedIssue = DetectedIssue(
    id: string,
    status: string,
    patient: string,
    evidence: seq<string>,
    code: Coding)

  datatype BundleType =
    | Document | Message | Transaction | TransactionResponse | Batch
    | BatchResponse | History | Searchset | Collection

  datatype Verb = Get | Head | Post | Put | Delete | Patch

  datatype Request = Request(verb: Verb, url: string)

  /**
   * A resource. The kinds this core builds carry their elements; every other
   * kind is `OtherResource`, whose `content` stands for all its remaining
   * elements. `resourceType == "List"` is a FHIR List.
   */
  datatype Resource =
    | ReportResource(report: MeasureReport)
    | CompositionResource(composition: Composition)
    | IssueResource(issue: DetectedIssue)
    | BundleResource(bundle: Bundle)
    | OtherResource(resourceType: string, id: Option<string>, content: string)

  datatype Bundle = Bundle(id: Option<string>, bundleType: Option<BundleType>, entries: seq<Entry>)

  datatype Entry = Entry(resource: Option<Resource>, request: Option<Request>)

  datatype Parameter = Parameter(name: string, resource: Resource)

  /** `getIdElement().getValue()`. */
  function Id(r: Resource): Option<string> {
    match r
    case ReportResource(rep) => rep.id
    case CompositionResource(c) => c.id
    case IssueResource(i) => Some(i.id)
    case BundleResource(b) => b.id
    case OtherResource(_, id, _) => id
  }

  /** `hasId()`: the id value is present and not blank. */
  predicate HasId(r: Resource) { Present(Id(r)) }

  /** `fhirType()`. */
  function FhirType(r: Resource): string {
    match r
    case ReportResource(_) => "MeasureReport"
    case CompositionResource(_) => "Composition"
    case IssueResource(_) => "DetectedIssue"
    case BundleResource(_) => "Bundle"
    case OtherResource(t, _, _) => t
  }

  /** `instanceof ListResource`. */
  predicate IsList(r: Resource) {
    r.OtherResource? && r.resourceType == "List"
  }

  /** `pos` lists indices below `bound` in strictly increasing order: how a filter's survivors are located. */
  predicate IncreasingBelow(pos: seq<nat>, bound: nat) {
    && (forall i :: 0 <= i < |pos| ==> pos[i] < bound)
    && (forall i, j :: 0 <= i < j < |pos| ==> pos[i] < pos[j])
  }
}
