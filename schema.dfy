/** The three tables of the store and the input bounds the procedures validate. */
module Schema {
  import opened Common

  datatype SectionType = CaseAssessment | CounterArguments | DiscoveryPlan | Other

  /** The wire name of a section type. */
  function TypeName(t: SectionType): string {
    match t
    case CaseAssessment => "CASE_ASSESSMENT"
    case CounterArguments => "COUNTER_ARGUMENTS"
    case DiscoveryPlan => "DISCOVERY_PLAN"
    case Other => "OTHER"
  }

  /** The enum check on a section's `type`: exactly the four wire names are accepted,
      each as the type it names. */
  function ParseSectionType(s: string): (r: Option<SectionType>)
    ensures forall t :: r == Some(t) <==> TypeName(t) == s
  {
    if s == "CASE_ASSESSMENT" then Some(CaseAssessment)
    else if s == "COUNTER_ARGUMENTS" then Some(CounterArguments)
    else if s == "DISCOVERY_PLAN" then Some(DiscoveryPlan)
    else if s == "OTHER" then Some(Other)
    else None
  }

  datatype Case = Case(
    id: Id,
    userId: UserId,
    title: string,
    description: Option<string>,
    createdAt: int,
    updatedAt: int)

  datatype Section = Section(
    id: Id,
    caseId: Id,
    name: string,
    kind: SectionType,
    content: Option<string>,
    order: int)

  datatype Document = Document(
    id: Id,
    caseId: Id,
    sectionId: Option<Id>,
    name: string,
    fileUrl: string,
    fileType: string,
    fileSize: int,
    summary: Option<string>,
    uploadedAt: int)

  /** The length bound on a case title and on a section name: 1 to 100 characters. */
  predicate ValidName(s: string) {
    1 <= |s| <= 100
  }

  /** The i-th of the three sections every new case starts with. */
  function DefaultSection(id: Id, caseId: Id, i: nat): (s: Section)
    requires i < 3
    ensures s.id == id && s.caseId == caseId && s.order == i && s.content == None
    ensures i == 0 ==> s.name == "Case Assessment" && s.kind == CaseAssessment
    ensures i == 1 ==> s.name == "Counter Arguments" && s.kind == CounterArguments
    ensures i == 2 ==> s.name == "Discovery Plan" && s.kind == DiscoveryPlan
  {
    var (name, kind) :=
      if i == 0 then ("Case Assessment", CaseAssessment)
      else if i == 1 then ("Counter Arguments", CounterArguments)
      else ("Discovery Plan", DiscoveryPlan);
    Section(id, caseId, name, kind, None, i)
  }
}
