/** The fixed feature schema of the placement model and the assembly of one
    candidate's form answers into a feature vector in that schema's order. */
module Features {

  datatype Option<T> = None | Some(value: T)

  /** The 25 model inputs. The last five are the one-hot flags of the branch. */
  datatype Feature =
    | Cgpa | CollegeTier | InternshipsCount | ProjectsCount
    | CertificationsCount | CodingSkillScore | AptitudeScore
    | CommunicationSkillScore | LogicalReasoningScore
    | HackathonsParticipated | GithubRepos | LinkedinConnections
    | MockInterviewScore | AttendancePercentage | Backlogs
    | ExtracurricularScore | LeadershipScore | VolunteerExperience
    | SleepHours | StudyHoursPerDay | BranchCivil | BranchEce
    | BranchEee | BranchIt | BranchMechanical

  datatype Branch = Civil | Ece | Eee | It | Mechanical

  /** No feature occurs twice in s. */
  predicate Distinct(s: seq<Feature>) {
    forall i, j :: 0 <= i < j < |s| ==> s[i] != s[j]
  }

  /** The column order the scaler and the classifier were fitted with. */
  const FeatureColumns: seq<Feature> := [
    Cgpa, CollegeTier, InternshipsCount, ProjectsCount,
    CertificationsCount, CodingSkillScore, AptitudeScore,
    CommunicationSkillScore, LogicalReasoningScore,
    HackathonsParticipated, GithubRepos, LinkedinConnections,
    MockInterviewScore, AttendancePercentage, Backlogs,
    ExtracurricularScore, LeadershipScore, VolunteerExperience,
    SleepHours, StudyHoursPerDay, BranchCivil, BranchEce,
    BranchEee, BranchIt, BranchMechanical
  ]

  /** The seven features for which feedback is written, in the order of the
      list the curated dictionary is built from; the sort sees them in this
      order, so it breaks ties. */
  const Curated: seq<Feature> := [
    CodingSkillScore, InternshipsCount, MockInterviewScore,
    CommunicationSkillScore, AptitudeScore, Cgpa, Backlogs
  ]

  /** The column name under which the source keys each feature. */
  function ColumnName(f: Feature): string {
    match f
    case Cgpa => "cgpa"
    case CollegeTier => "college_tier"
    case InternshipsCount => "internships_count"
    case ProjectsCount => "projects_count"
    case CertificationsCount => "certifications_count"
    case CodingSkillScore => "coding_skill_score"
    case AptitudeScore => "aptitude_score"
    case CommunicationSkillScore => "communication_skill_score"
    case LogicalReasoningScore => "logical_reasoning_score"
    case HackathonsParticipated => "hackathons_participated"
    case GithubRepos => "github_repos"
    case LinkedinConnections => "linkedin_connections"
    case MockInterviewScore => "mock_interview_score"
    case AttendancePercentage => "attendance_percentage"
    case Backlogs => "backlogs"
    case ExtracurricularScore => "extracurricular_score"
    case LeadershipScore => "leadership_score"
    case VolunteerExperience => "volunteer_experience"
    case SleepHours => "sleep_hours"
    case StudyHoursPerDay => "study_hours_per_day"
    case BranchCivil => "branch_Civil"
    case BranchEce => "branch_ECE"
    case BranchEee => "branch_EEE"
    case BranchIt => "branch_IT"
    case BranchMechanical => "branch_Mechanical"
  }

  /** Proof device for `NameRoundTrip`: picks the only feature whose name
      could be `name`, from its length and its first and ninth letters, so
      that a name is compared with one column name rather than all 25. */
  function Candidate(name: string): Option<Feature> {
    var n := |name|;
    var c0 := if n > 0 then name[0] else ' ';
    var c8 := if n > 8 then name[8] else ' ';
    if n == 4 then Some(Cgpa)
    else if n == 8 then Some(Backlogs)
    else if n == 9 then Some(BranchIt)
    else if n == 10 then (if c8 == 'C' then Some(BranchEce) else Some(BranchEee))
    else if n == 11 then Some(SleepHours)
    else if n == 12 then (if c0 == 'c' then Some(CollegeTier) else if c0 == 'g' then Some(GithubRepos) else Some(BranchCivil))
    else if n == 14 then (if c0 == 'p' then Some(ProjectsCount) else Some(AptitudeScore))
    else if n == 16 then Some(LeadershipScore)
    else if n == 17 then (if c0 == 'i' then Some(InternshipsCount) else Some(BranchMechanical))
    else if n == 18 then Some(CodingSkillScore)
    else if n == 19 then Some(StudyHoursPerDay)
    else if n == 20 then
      (if c0 == 'c' then Some(CertificationsCount) else if c0 == 'l' then Some(LinkedinConnections)
       else if c0 == 'm' then Some(MockInterviewScore) else Some(VolunteerExperience))
    else if n == 21 then (if c0 == 'a' then Some(AttendancePercentage) else Some(ExtracurricularScore))
    else if n == 23 then (if c0 == 'l' then Some(LogicalReasoningScore) else Some(HackathonsParticipated))
    else if n == 25 then Some(CommunicationSkillScore)
    else None
  }

  /** Looks a column up by name, as a keyed access into the frame does. */
  function FeatureNamed(name: string): (r: Option<Feature>)
    ensures r.Some? ==> ColumnName(r.value) == name
  {
    var c := Candidate(name);
    if c.Some? && ColumnName(c.value) == name then c else None
  }

  /** Every column name resolves back to its own feature, so two features
      never share a name and keying by feature is keying by name. */
  lemma NameRoundTrip(f: Feature)
    ensures FeatureNamed(ColumnName(f)) == Some(f)
  {
    assert Candidate(ColumnName(f)) == Some(f);
  }

  lemma NamesInjective(f: Feature, g: Feature)
    requires ColumnName(f) == ColumnName(g)
    ensures f == g
  {
    NameRoundTrip(f);
    NameRoundTrip(g);
  }

  /** The position of a feature in the fitted column order. */
  function ColumnIndex(f: Feature): (i: nat)
    ensures i < |FeatureColumns| && FeatureColumns[i] == f
  {
    match f
    case Cgpa => 0
    case CollegeTier => 1
    case InternshipsCount => 2
    case ProjectsCount => 3
    case CertificationsCount => 4
    case CodingSkillScore => 5
    case AptitudeScore => 6
    case CommunicationSkillScore => 7
    case LogicalReasoningScore => 8
    case HackathonsParticipated => 9
    case GithubRepos => 10
    case LinkedinConnections => 11
    case MockInterviewScore => 12
    case AttendancePercentage => 13
    case Backlogs => 14
    case ExtracurricularScore => 15
    case LeadershipScore => 16
    case VolunteerExperience => 17
    case SleepHours => 18
    case StudyHoursPerDay => 19
    case BranchCivil => 20
    case BranchEce => 21
    case BranchEee => 22
    case BranchIt => 23
    case BranchMechanical => 24
  }

  /** The schema has 25 slots, holds every feature, and holds each exactly
      once: slot i and ColumnIndex are mutually inverse. */
  lemma ColumnsAreSchema()
    ensures |FeatureColumns| == 25
    ensures forall f: Feature :: f in FeatureColumns
    ensures forall i :: 0 <= i < |FeatureColumns| ==> ColumnIndex(FeatureColumns[i]) == i
    ensures Distinct(FeatureColumns)
  {
    forall f: Feature ensures f in FeatureColumns {
      assert FeatureColumns[ColumnIndex(f)] == f;
    }
  }

  /** The rank of a curated feature in the curated list (7 for all others). */
  function CuratedRank(f: Feature): (k: nat)
    ensures k <= |Curated|
    ensures f in Curated <==> k < |Curated|
    ensures k < |Curated| ==> Curated[k] == f
  {
    match f
    case CodingSkillScore => 0
    case InternshipsCount => 1
    case MockInterviewScore => 2
    case CommunicationSkillScore => 3
    case AptitudeScore => 4
    case Cgpa => 5
    case Backlogs => 6
    case _ => 7
  }

  /** The curated features are seven distinct columns of the schema. */
  lemma CuratedInSchema()
    ensures |Curated| == 7
    ensures forall i :: 0 <= i < |Curated| ==> Curated[i] in FeatureColumns
    ensures forall i :: 0 <= i < |Curated| ==> CuratedRank(Curated[i]) == i
    ensures Distinct(Curated)
  {
    ColumnsAreSchema();
  }

  /** The label the branch selector shows for each choice. */
  function BranchLabel(b: Branch): string {
    match b
    case Civil => "Civil"
    case Ece => "ECE"
    case Eee => "EEE"
    case It => "IT"
    case Mechanical => "Mechanical"
  }

  /** The flag column that stands for each branch choice: the column named
      after the selector's label. */
  function BranchFlag(b: Branch): (f: Feature)
    ensures 20 <= ColumnIndex(f) < 25
    ensures ColumnName(f) == "branch_" + BranchLabel(b)
  {
    match b
    case Civil => BranchCivil
    case Ece => BranchEce
    case Eee => BranchEee
    case It => BranchIt
    case Mechanical => BranchMechanical
  }

  /** Distinct branch choices have distinct flag columns. */
  lemma BranchFlagInjective(b: Branch, c: Branch)
    requires BranchFlag(b) == BranchFlag(c)
    ensures b == c
  {
  }

  /** The answers of the input form. */
  datatype Inputs = Inputs(
    cgpa: real,
    coding: int,
    aptitude: int,
    logical: int,
    internships: int,
    projects: int,
    certifications: int,
    backlogs: int,
    communication: int,
    mock: int,
    leadership: int,
    extracurricular: int,
    github: int,
    linkedin: int,
    attendance: int,
    sleep: real,
    study: real,
    collegeTier: int,
    volunteer: int,
    hackathons: int,
    branch: Branch)

  /** The ranges the form's sliders and selectors allow. */
  predicate InRange(x: Inputs) {
    && 4.0 <= x.cgpa <= 10.0
    && 0 <= x.coding <= 100
    && 0 <= x.aptitude <= 100
    && 0 <= x.logical <= 100
    && 0 <= x.internships <= 8
    && 0 <= x.projects <= 13
    && 0 <= x.certifications <= 11
    && 0 <= x.backlogs <= 6
    && 0 <= x.communication <= 100
    && 0 <= x.mock <= 100
    && 0 <= x.leadership <= 100
    && 0 <= x.extracurricular <= 100
    && 0 <= x.github <= 16
    && 50 <= x.linkedin <= 1000
    && 50 <= x.attendance <= 100
    && 3.0 <= x.sleep <= 10.0
    && 0.5 <= x.study <= 10.0
    && x.collegeTier in {1, 2, 3}
    && x.volunteer in {0, 1}
    && 0 <= x.hackathons <= 8
  }

  /** The form's initial answers: slider defaults, first selector options. */
  const Defaults: Inputs := Inputs(
    7.0, 60, 60, 60, 1, 2, 2, 0, 60, 60, 40, 50, 3, 200, 75, 7.0, 3.0,
    1, 0, 1, Civil)

  /** The value the form places in the column of feature f. */
  function FieldValue(x: Inputs, f: Feature): real {
    match f
    case Cgpa => x.cgpa
    case CollegeTier => x.collegeTier as real
    case InternshipsCount => x.internships as real
    case ProjectsCount => x.projects as real
    case CertificationsCount => x.certifications as real
    case CodingSkillScore => x.coding as real
    case AptitudeScore => x.aptitude as real
    case CommunicationSkillScore => x.communication as real
    case LogicalReasoningScore => x.logical as real
    case HackathonsParticipated => x.hackathons as real
    case GithubRepos => x.github as real
    case LinkedinConnections => x.linkedin as real
    case MockInterviewScore => x.mock as real
    case AttendancePercentage => x.attendance as real
    case Backlogs => x.backlogs as real
    case ExtracurricularScore => x.extracurricular as real
    case LeadershipScore => x.leadership as real
    case VolunteerExperience => x.volunteer as real
    case SleepHours => x.sleep
    case StudyHoursPerDay => x.study
    case BranchCivil => if x.branch == Civil then 1.0 else 0.0
    case BranchEce => if x.branch == Ece then 1.0 else 0.0
    case BranchEee => if x.branch == Eee then 1.0 else 0.0
    case BranchIt => if x.branch == It then 1.0 else 0.0
    case BranchMechanical => if x.branch == Mechanical then 1.0 else 0.0
  }

  /** The one-row frame in fitted column order. */
  function Assemble(x: Inputs): (v: seq<real>)
    ensures |v| == |FeatureColumns|
    ensures forall f: Feature :: v[ColumnIndex(f)] == FieldValue(x, f)
  {
    seq(|FeatureColumns|, i requires 0 <= i < |FeatureColumns| => FieldValue(x, FeatureColumns[i]))
  }

  /** Exactly one branch flag of the assembled vector is set, the one of the
      selected branch; the five flags sum to one. */
  lemma BranchOneHot(x: Inputs)
    ensures forall b: Branch :: Assemble(x)[ColumnIndex(BranchFlag(b))] == (if b == x.branch then 1.0 else 0.0)
    ensures forall i :: 20 <= i < 25 ==> (Assemble(x)[i] == 1.0 <==> i == ColumnIndex(BranchFlag(x.branch)))
    ensures forall i :: 20 <= i < 25 ==> (Assemble(x)[i] == 0.0 <==> i != ColumnIndex(BranchFlag(x.branch)))
    ensures Assemble(x)[20] + Assemble(x)[21] + Assemble(x)[22] + Assemble(x)[23] + Assemble(x)[24] == 1.0
  {
    var v := Assemble(x);
    assert v[20] == FieldValue(x, BranchCivil);
    assert v[21] == FieldValue(x, BranchEce);
    assert v[22] == FieldValue(x, BranchEee);
    assert v[23] == FieldValue(x, BranchIt);
    assert v[24] == FieldValue(x, BranchMechanical);
  }

  /** Lowest and highest value the form can place in each column. */
  function Lower(f: Feature): real {
    match f
    case Cgpa => 4.0
    case CollegeTier => 1.0
    case LinkedinConnections => 50.0
    case AttendancePercentage => 50.0
    case SleepHours => 3.0
    case StudyHoursPerDay => 0.5
    case _ => 0.0
  }

  function Upper(f: Feature): real {
    match f
    case Cgpa => 10.0
    case CollegeTier => 3.0
    case InternshipsCount => 8.0
    case ProjectsCount => 13.0
    case CertificationsCount => 11.0
    case HackathonsParticipated => 8.0
    case GithubRepos => 16.0
    case LinkedinConnections => 1000.0
    case Backlogs => 6.0
    case SleepHours => 10.0
    case StudyHoursPerDay => 10.0
    case VolunteerExperience => 1.0
    case BranchCivil => 1.0
    case BranchEce => 1.0
    case BranchEee => 1.0
    case BranchIt => 1.0
    case BranchMechanical => 1.0
    case _ => 100.0
  }

  /** Answers within the form's ranges give a vector within the column bounds. */
  lemma AssembledWithinBounds(x: Inputs)
    requires InRange(x)
    ensures forall i :: 0 <= i < |FeatureColumns| ==>
      Lower(FeatureColumns[i]) <= Assemble(x)[i] <= Upper(FeatureColumns[i])
  {
    var v := Assemble(x);
    forall i | 0 <= i < |FeatureColumns|
      ensures Lower(FeatureColumns[i]) <= v[i] <= Upper(FeatureColumns[i])
    {
      var f := FeatureColumns[i];
      assert v[i] == FieldValue(x, f);
    }
  }

  lemma DefaultsInRange()
    ensures InRange(Defaults)
    ensures Assemble(Defaults)[ColumnIndex(BranchCivil)] == 1.0
  {
  }
}
