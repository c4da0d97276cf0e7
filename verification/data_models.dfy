/**
 * The record shapes of an extracted operative report and their conversion to
 * a nested mapping (`OperativeReport.to_dict`, which uses `dataclasses.asdict`).
 * Every scalar field is optional and defaults to `None`; the nested records
 * and lists default to fresh empty values.
 */
module DataModels {
  import opened Base

  datatype PatientInfo = PatientInfo(
    firstName: Option<string> := None,
    lastName: Option<string> := None,
    middleName: Option<string> := None,
    gender: Option<string> := None,
    dateOfBirth: Option<string> := None,
    unitNumber: Option<string> := None,
    accountNumber: Option<string> := None)

  datatype InsuranceInfo = InsuranceInfo(
    primaryInsurance: Option<string> := None,
    secondaryInsurance: Option<string> := None)

  datatype AdmissionInfo = AdmissionInfo(
    dateOfAdmission: Option<string> := None,
    dateOfSurgery: Option<string> := None,
    dateOfInjury: Option<string> := None,
    placeOfInjury: Option<string> := None,
    status: Option<string> := None,
    surgeryVenue: Option<string> := None,
    globalPeriod: Option<string> := None,
    globalEnds: Option<string> := None)

  datatype ProviderInfo = ProviderInfo(
    surgeon: Option<string> := None,
    firstAssistant: Option<string> := None,
    eAndM: Option<string> := None,
    dateOfConsultation: Option<string> := None,
    attendingPhysician: Option<string> := None)

  /** One processed diagnosis line (a typed dictionary with exactly these five keys). */
  datatype ProcessedDiagnosis = ProcessedDiagnosis(
    originalText: string,
    identifiedCode: Option<string>,
    isValidIcd10: bool,
    icd10Description: Option<string>,
    isLeafNode: Option<bool>)

  datatype DiagnosisInfo = DiagnosisInfo(processedDiagnoses: seq<ProcessedDiagnosis> := [])

  datatype ProcedureInfo = ProcedureInfo(
    name: Option<string> := None,
    cptCode: Option<string> := None,
    side: Option<string> := None,
    region: Option<string> := None)

  datatype OperativeReport = OperativeReport(
    patient: PatientInfo := PatientInfo(),
    insurance: InsuranceInfo := InsuranceInfo(),
    admission: AdmissionInfo := AdmissionInfo(),
    provider: ProviderInfo := ProviderInfo(),
    diagnoses: DiagnosisInfo := DiagnosisInfo(),
    procedures: seq<ProcedureInfo> := [],
    complications: Option<string> := None,
    estimatedBloodLoss: Option<string> := None,
    implants: Option<string> := None,
    recommendations: Option<string> := None)

  // ---------------------------------------------------------------------
  // to_dict
  // ---------------------------------------------------------------------

  /** A JSON-like value: what `asdict` produces from the records above. */
  datatype Value =
    | Null
    | Str(str: string)
    | Boolean(b: bool)
    | List(items: seq<Value>)
    | Dict(entries: seq<(string, Value)>)

  /** The keys of a mapping, in insertion order. */
  function Keys(entries: seq<(string, Value)>): (ks: seq<string>)
    ensures |ks| == |entries|
    ensures forall k :: 0 <= k < |entries| ==> ks[k] == entries[k].0
  {
    seq(|entries|, k requires 0 <= k < |entries| => entries[k].0)
  }

  function OptStr(o: Option<string>): Value {
    match o
    case None => Null
    case Some(x) => Str(x)
  }

  function OptBool(o: Option<bool>): Value {
    match o
    case None => Null
    case Some(x) => Boolean(x)
  }

  const PatientFields: seq<string> :=
    ["first_name", "last_name", "middle_name", "gender", "date_of_birth", "unit_number", "account_number"]
  const InsuranceFields: seq<string> := ["primary_insurance", "secondary_insurance"]
  const AdmissionFields: seq<string> :=
    ["date_of_admission", "date_of_surgery", "date_of_injury", "place_of_injury", "status",
     "surgery_venue", "global_period", "global_ends"]
  const ProviderFields: seq<string> :=
    ["surgeon", "first_assistant", "e_and_m", "date_of_consultation", "attending_physician"]
  const ProcessedDiagnosisFields: seq<string> :=
    ["original_text", "identified_code", "is_valid_icd10", "icd10_description", "is_leaf_node"]
  const DiagnosisFields: seq<string> := ["processed_diagnoses"]
  const ProcedureFields: seq<string> := ["name", "cpt_code", "side", "region"]
  const ReportFields: seq<string> :=
    ["patient", "insurance", "admission", "provider", "diagnoses", "procedures",
     "complications", "estimated_blood_loss", "implants", "recommendations"]

  function PatientToDict(p: PatientInfo): Value {
    Dict([("first_name", OptStr(p.firstName)), ("last_name", OptStr(p.lastName)),
          ("middle_name", OptStr(p.middleName)), ("gender", OptStr(p.gender)),
          ("date_of_birth", OptStr(p.dateOfBirth)), ("unit_number", OptStr(p.unitNumber)),
          ("account_number", OptStr(p.accountNumber))])
  }

  function InsuranceToDict(i: InsuranceInfo): Value {
    Dict([("primary_insurance", OptStr(i.primaryInsurance)), ("secondary_insurance", OptStr(i.secondaryInsurance))])
  }

  function AdmissionToDict(a: AdmissionInfo): Value {
    Dict([("date_of_admission", OptStr(a.dateOfAdmission)), ("date_of_surgery", OptStr(a.dateOfSurgery)),
          ("date_of_injury", OptStr(a.dateOfInjury)), ("place_of_injury", OptStr(a.placeOfInjury)),
          ("status", OptStr(a.status)), ("surgery_venue", OptStr(a.surgeryVenue)),
          ("global_period", OptStr(a.globalPeriod)), ("global_ends", OptStr(a.globalEnds))])
  }

  function ProviderToDict(p: ProviderInfo): Value {
    Dict([("surgeon", OptStr(p.surgeon)), ("first_assistant", OptStr(p.firstAssistant)),
          ("e_and_m", OptStr(p.eAndM)), ("date_of_consultation", OptStr(p.dateOfConsultation)),
          ("attending_physician", OptStr(p.attendingPhysician))])
  }

  function ProcessedDiagnosisToDict(d: ProcessedDiagnosis): Value {
    Dict([("original_text", Str(d.originalText)), ("identified_code", OptStr(d.identifiedCode)),
          ("is_valid_icd10", Boolean(d.isValidIcd10)), ("icd10_description", OptStr(d.icd10Description)),
          ("is_leaf_node", OptBool(d.isLeafNode))])
  }

  function ProcedureToDict(p: ProcedureInfo): Value {
    Dict([("name", OptStr(p.name)), ("cpt_code", OptStr(p.cptCode)), ("side", OptStr(p.side)),
          ("region", OptStr(p.region))])
  }

  function DiagnosesToList(ds: seq<ProcessedDiagnosis>): (v: seq<Value>)
    ensures |v| == |ds|
    ensures forall k :: 0 <= k < |ds| ==> v[k] == ProcessedDiagnosisToDict(ds[k])
  {
    seq(|ds|, k requires 0 <= k < |ds| => ProcessedDiagnosisToDict(ds[k]))
  }

  function ProceduresToList(ps: seq<ProcedureInfo>): (v: seq<Value>)
    ensures |v| == |ps|
    ensures forall k :: 0 <= k < |ps| ==> v[k] == ProcedureToDict(ps[k])
  {
    seq(|ps|, k requires 0 <= k < |ps| => ProcedureToDict(ps[k]))
  }

  /** `OperativeReport.to_dict()` */
  function ToDict(r: OperativeReport): Value {
    Dict([("patient", PatientToDict(r.patient)),
          ("insurance", InsuranceToDict(r.insurance)),
          ("admission", AdmissionToDict(r.admission)),
          ("provider", ProviderToDict(r.provider)),
          ("diagnoses", Dict([("processed_diagnoses", List(DiagnosesToList(r.diagnoses.processedDiagnoses)))])),
          ("procedures", List(ProceduresToList(r.procedures))),
          ("complications", OptStr(r.complications)),
          ("estimated_blood_loss", OptStr(r.estimatedBloodLoss)),
          ("implants", OptStr(r.implants)),
          ("recommendations", OptStr(r.recommendations))])
  }

  // ---------------------------------------------------------------------
  // Facts
  // ---------------------------------------------------------------------

  lemma PatientInjective(a: PatientInfo, b: PatientInfo)
    requires PatientToDict(a) == PatientToDict(b)
    ensures a == b
  {
    var x, y := PatientToDict(a).entries, PatientToDict(b).entries;
    assert x[0] == y[0] && x[1] == y[1] && x[2] == y[2] && x[3] == y[3];
    assert x[4] == y[4] && x[5] == y[5] && x[6] == y[6];
  }

  lemma InsuranceInjective(a: InsuranceInfo, b: InsuranceInfo)
    requires InsuranceToDict(a) == InsuranceToDict(b)
    ensures a == b
  {
    var x, y := InsuranceToDict(a).entries, InsuranceToDict(b).entries;
    assert x[0] == y[0] && x[1] == y[1];
  }

  lemma AdmissionInjective(a: AdmissionInfo, b: AdmissionInfo)
    requires AdmissionToDict(a) == AdmissionToDict(b)
    ensures a == b
  {
    var x, y := AdmissionToDict(a).entries, AdmissionToDict(b).entries;
    assert x[0] == y[0] && x[1] == y[1] && x[2] == y[2] && x[3] == y[3];
    assert x[4] == y[4] && x[5] == y[5] && x[6] == y[6] && x[7] == y[7];
  }

  lemma ProviderInjective(a: ProviderInfo, b: ProviderInfo)
    requires ProviderToDict(a) == ProviderToDict(b)
    ensures a == b
  {
    var x, y := ProviderToDict(a).entries, ProviderToDict(b).entries;
    assert x[0] == y[0] && x[1] == y[1] && x[2] == y[2] && x[3] == y[3] && x[4] == y[4];
  }

  lemma ProcessedDiagnosisInjective(a: ProcessedDiagnosis, b: ProcessedDiagnosis)
    requires ProcessedDiagnosisToDict(a) == ProcessedDiagnosisToDict(b)
    ensures a == b
  {
    var x, y := ProcessedDiagnosisToDict(a).entries, ProcessedDiagnosisToDict(b).entries;
    assert x[0] == y[0] && x[1] == y[1] && x[2] == y[2] && x[3] == y[3] && x[4] == y[4];
    match a.isLeafNode case None => case Some(_) => {}
  }

  lemma ProcedureInjective(a: ProcedureInfo, b: ProcedureInfo)
    requires ProcedureToDict(a) == ProcedureToDict(b)
    ensures a == b
  {
    var x, y := ProcedureToDict(a).entries, ProcedureToDict(b).entries;
    assert x[0] == y[0] && x[1] == y[1] && x[2] == y[2] && x[3] == y[3];
  }

  /** `to_dict` loses nothing: two reports with the same mapping are the same report. */
  lemma ToDictInjective(r1: OperativeReport, r2: OperativeReport)
    requires ToDict(r1) == ToDict(r2)
    ensures r1 == r2
  {
    ToDictParts(r1, r2);
    PatientInjective(r1.patient, r2.patient);
    InsuranceInjective(r1.insurance, r2.insurance);
    AdmissionInjective(r1.admission, r2.admission);
    ProviderInjective(r1.provider, r2.provider);
    DiagnosesListInjective(r1.diagnoses.processedDiagnoses, r2.diagnoses.processedDiagnoses);
    ProceduresListInjective(r1.procedures, r2.procedures);
  }

  /** Equal mappings have equal entries, field by field. */
  lemma ToDictParts(r1: OperativeReport, r2: OperativeReport)
    requires ToDict(r1) == ToDict(r2)
    ensures PatientToDict(r1.patient) == PatientToDict(r2.patient)
    ensures InsuranceToDict(r1.insurance) == InsuranceToDict(r2.insurance)
    ensures AdmissionToDict(r1.admission) == AdmissionToDict(r2.admission)
    ensures ProviderToDict(r1.provider) == ProviderToDict(r2.provider)
    ensures DiagnosesToList(r1.diagnoses.processedDiagnoses) == DiagnosesToList(r2.diagnoses.processedDiagnoses)
    ensures ProceduresToList(r1.procedures) == ProceduresToList(r2.procedures)
    ensures r1.complications == r2.complications && r1.estimatedBloodLoss == r2.estimatedBloodLoss
    ensures r1.implants == r2.implants && r1.recommendations == r2.recommendations
  {
    var e1, e2 := ToDict(r1).entries, ToDict(r2).entries;
    assert e1[0] == e2[0] && e1[1] == e2[1] && e1[2] == e2[2] && e1[3] == e2[3] && e1[4] == e2[4] && e1[5] == e2[5];
    assert e1[6] == e2[6] && e1[7] == e2[7] && e1[8] == e2[8] && e1[9] == e2[9];
  }

  lemma DiagnosesListInjective(d1: seq<ProcessedDiagnosis>, d2: seq<ProcessedDiagnosis>)
    requires DiagnosesToList(d1) == DiagnosesToList(d2)
    ensures d1 == d2
  {
    forall k | 0 <= k < |d1| ensures d1[k] == d2[k] {
      ProcessedDiagnosisInjective(d1[k], d2[k]);
    }
  }

  lemma ProceduresListInjective(p1: seq<ProcedureInfo>, p2: seq<ProcedureInfo>)
    requires ProceduresToList(p1) == ProceduresToList(p2)
    ensures p1 == p2
  {
    forall k | 0 <= k < |p1| ensures p1[k] == p2[k] {
      ProcedureInjective(p1[k], p2[k]);
    }
  }

  /** The mapping uses the dataclass field names, in declaration order, at every level. */
  lemma FieldNames(r: OperativeReport)
    ensures Keys(ToDict(r).entries) == ReportFields
    ensures Keys(PatientToDict(r.patient).entries) == PatientFields
    ensures Keys(InsuranceToDict(r.insurance).entries) == InsuranceFields
    ensures Keys(AdmissionToDict(r.admission).entries) == AdmissionFields
    ensures Keys(ProviderToDict(r.provider).entries) == ProviderFields
    ensures Keys(ToDict(r).entries[4].1.entries) == DiagnosisFields
    ensures forall k :: 0 <= k < |r.diagnoses.processedDiagnoses| ==>
      Keys(ProcessedDiagnosisToDict(r.diagnoses.processedDiagnoses[k]).entries) == ProcessedDiagnosisFields
    ensures forall k :: 0 <= k < |r.procedures| ==> Keys(ProcedureToDict(r.procedures[k]).entries) == ProcedureFields
  {
  }

  /** A fresh report: empty nested records, no procedures, no diagnoses, and no misc values. */
  lemma FreshReport()
    ensures OperativeReport() == OperativeReport(diagnoses := DiagnosisInfo(processedDiagnoses := []))
    ensures OperativeReport().procedures == [] && OperativeReport().diagnoses.processedDiagnoses == []
    ensures forall k :: 6 <= k < 10 ==> ToDict(OperativeReport()).entries[k].1 == Null
    ensures ToDict(OperativeReport()).entries[..6] ==
      [("patient", PatientToDict(PatientInfo())), ("insurance", InsuranceToDict(InsuranceInfo())),
       ("admission", AdmissionToDict(AdmissionInfo())), ("provider", ProviderToDict(ProviderInfo())),
       ("diagnoses", Dict([("processed_diagnoses", List([]))])), ("procedures", List([]))]
    ensures forall k :: 0 <= k < 2 ==> InsuranceToDict(InsuranceInfo()).entries[k].1 == Null
    ensures forall k :: 0 <= k < 7 ==> PatientToDict(PatientInfo()).entries[k].1 == Null
    ensures forall k :: 0 <= k < 8 ==> AdmissionToDict(AdmissionInfo()).entries[k].1 == Null
    ensures forall k :: 0 <= k < 5 ==> ProviderToDict(ProviderInfo()).entries[k].1 == Null
    ensures forall k :: 0 <= k < 4 ==> ProcedureToDict(ProcedureInfo()).entries[k].1 == Null
  {
  }
}
