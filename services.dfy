/**
 * The collaborators of the measure operations, passed in as values: the
 * resource storage (its reads, searches and transactions) and the clinical
 * logic engine that evaluates a measure. On top of them, the
 * `$evaluate-measure` entry point, which looks the measure up and
 * dispatches on the report type.
 */
module Services {
  import opened Fhir

  /** The three report shapes of the evaluation engine. */
  datatype Engine = Engine(
    patient: (Measure, Option<string>) -> MeasureReport,
    subjectList: (Measure, Option<string>) -> MeasureReport,
    population: Measure -> MeasureReport)

  /**
   * A snapshot of storage. `searchMeasures` is the measure search for an
   * optional topic, in the order storage returns it; `firstOrganization` is
   * the id part of the first result of the unfiltered organization search;
   * `read` reads a resource by type and id part; `transaction` applies a
   * transaction bundle atomically.
   */
  datatype Storage = Storage(
    readMeasure: string -> Option<Measure>,
    searchMeasures: Option<string> -> seq<Measure>,
    firstOrganization: Option<string>,
    read: (string, string) -> Option<Resource>,
    transaction: Bundle -> Result<Resource>)

  datatype ReportMode = PatientMode | SubjectListMode | PopulationMode

  const ProductLineUrl := "http://hl7.org/fhir/us/cqframework/cqfmeasures/StructureDefinition/cqfm-productLine"

  function ReportTypeName(mode: ReportMode): string {
    match mode
    case PatientMode => "patient"
    case SubjectListMode => "patient-list"
    case PopulationMode => "population"
  }

  /** The `switch` on an explicit report type. */
  function ParseReportType(t: string): (r: Result<ReportMode>)
    ensures r.Ok? <==> (t == "patient" || t == "patient-list" || t == "population")
    ensures r.Ok? ==> ReportTypeName(r.value) == t
    ensures r.Err? ==> r.error == InvalidReportType(t)
  {
    if t == "patient" then Ok(PatientMode)
    else if t == "patient-list" then Ok(SubjectListMode)
    else if t == "population" then Ok(PopulationMode)
    else Err(InvalidReportType(t))
  }

  lemma ParseReportTypeName(mode: ReportMode)
    ensures ParseReportType(ReportTypeName(mode)) == Ok(mode)
  {
  }

  function RunEngine(engine: Engine, m: Measure, mode: ReportMode,
                     patientRef: Option<string>, practitionerRef: Option<string>): MeasureReport
  {
    match mode
    case PatientMode => engine.patient(m, patientRef)
    case SubjectListMode => engine.subjectList(m, practitionerRef)
    case PopulationMode => engine.population(m)
  }

  function ProductLineExtensions(productLine: Option<string>): seq<Extension> {
    if productLine.Some? then [Extension(ProductLineUrl, productLine.value)] else []
  }

  /**
   * `$evaluate-measure`: fails when the measure is missing or the report type
   * is not one of the three; an absent report type means the patient report,
   * and only then is the product line attached as an extension.
   */
  function EvaluateMeasure(storage: Storage, engine: Engine, measureId: string,
                           reportType: Option<string>, patientRef: Option<string>,
                           practitionerRef: Option<string>, productLine: Option<string>): (r: Result<MeasureReport>)
    ensures r.Ok? <==> storage.readMeasure(measureId).Some?
                       && (reportType.None? || ParseReportType(reportType.value).Ok?)
    ensures storage.readMeasure(measureId).None? ==> r == Err(MeasureNotFound(measureId))
    ensures r.Err? && storage.readMeasure(measureId).Some? ==> r.error == InvalidReportType(reportType.value)
    ensures r.Ok? && reportType.Some? ==>
              r.value == RunEngine(engine, storage.readMeasure(measureId).value,
                                   ParseReportType(reportType.value).value, patientRef, practitionerRef)
    ensures r.Ok? && reportType.None? ==>
              var base := engine.patient(storage.readMeasure(measureId).value, patientRef);
              r.value == base.(extensions := base.extensions + ProductLineExtensions(productLine))
  {
    var m :- if storage.readMeasure(measureId).Some? then Ok(storage.readMeasure(measureId).value)
             else Err(MeasureNotFound(measureId));
    match reportType
    case Some(t) =>
      var mode :- ParseReportType(t);
      Ok(RunEngine(engine, m, mode, patientRef, practitionerRef))
    case None =>
      var report := engine.patient(m, patientRef);
      Ok(report.(extensions := report.extensions + ProductLineExtensions(productLine)))
  }

  /**
   * Without a report type the engine's patient report is returned, the same
   * one that "patient" selects, with the product line extension appended
   * when a product line is given.
   */
  lemma DefaultIsPatientReport(storage: Storage, engine: Engine, measureId: string,
                               patientRef: Option<string>, practitionerRef: Option<string>,
                               productLine: Option<string>)
    requires storage.readMeasure(measureId).Some?
    ensures var byDefault := EvaluateMeasure(storage, engine, measureId, None, patientRef, practitionerRef, productLine);
            var explicit := EvaluateMeasure(storage, engine, measureId, Some("patient"), patientRef, practitionerRef, productLine);
            byDefault.Ok? && explicit.Ok?
            && byDefault.value == explicit.value.(extensions := explicit.value.extensions + ProductLineExtensions(productLine))
  {
  }

  /**
   * Each explicit report type selects its own evaluation: "patient" the
   * patient report for `patientRef`, "patient-list" the subject list for
   * `practitionerRef`, "population" the population report; none of them
   * gets the product line extension.
   */
  lemma ReportTypeDispatch(storage: Storage, engine: Engine, measureId: string,
                           patientRef: Option<string>, practitionerRef: Option<string>,
                           productLine: Option<string>)
    requires storage.readMeasure(measureId).Some?
    ensures var m := storage.readMeasure(measureId).value;
            && EvaluateMeasure(storage, engine, measureId, Some("patient"), patientRef, practitionerRef, productLine)
               == Ok(engine.patient(m, patientRef))
            && EvaluateMeasure(storage, engine, measureId, Some("patient-list"), patientRef, practitionerRef, productLine)
               == Ok(engine.subjectList(m, practitionerRef))
            && EvaluateMeasure(storage, engine, measureId, Some("population"), patientRef, practitionerRef, productLine)
               == Ok(engine.population(m))
  {
  }

  /** The product line extension is added exactly on the default path and only when a product line is given. */
  lemma ProductLineOnlyOnDefault(storage: Storage, engine: Engine, measureId: string,
                                 reportType: Option<string>, patientRef: Option<string>,
                                 practitionerRef: Option<string>, productLine: Option<string>)
    requires EvaluateMeasure(storage, engine, measureId, reportType, patientRef, practitionerRef, productLine).Ok?
    ensures var r := EvaluateMeasure(storage, engine, measureId, reportType, patientRef, practitionerRef, productLine).value;
            var mode := if reportType.None? then PatientMode else ParseReportType(reportType.value).value;
            var base := RunEngine(engine, storage.readMeasure(measureId).value, mode, patientRef, practitionerRef);
            r.extensions == base.extensions + (if reportType.None? then ProductLineExtensions(productLine) else [])
            && (|r.extensions| == |base.extensions| + 1 <==> reportType.None? && productLine.Some?)
  {
  }
}
