/**
 The syllabus tables of the Faculty of Engineering and Technology
 (lib/branches-data.ts) and their lookups: the branch list, the offered
 semesters, the subject titles of a branch and semester with the first-year
 and placeholder fallbacks, and the display name of a branch.
 */
module Branches {
  import JsText
  import Collection

  datatype Branch = Branch(code: string, name: string)
  datatype Subject = Subject(code: string, title: string)

  const BRANCHES: seq<Branch> := [
    Branch("CSE", "Comp. Science & Engineering"),
    Branch("ECE", "Electronics & Comm. Engineering"),
    Branch("EE", "Electrical Engineering"),
    Branch("ME", "Mechanical Engineering"),
    Branch("CE", "Civil Engineering")
  ]

  /** The subject lists, keyed `<branch>_S<semester>`, plus the first-year
      lists `COMMON_S1`, `COMMON_S2` and the `PLACEHOLDER` list. */
  const SYLLABUS: map<string, seq<Subject>> := map[
    "COMMON_S1" := COMMON_S1,
    "COMMON_S2" := COMMON_S2,
    "CSE_S3" := CSE_S3,
    "ECE_S3" := ECE_S3,
    "EE_S3" := EE_S3,
    "ME_S3" := ME_S3,
    "CE_S3" := CE_S3,
    "CSE_S5" := CSE_S5,
    "ECE_S5" := ECE_S5,
    "EE_S5" := EE_S5,
    "ME_S5" := ME_S5,
    "CE_S5" := CE_S5,
    "CSE_S7" := CSE_S7,
    "ECE_S7" := ECE_S7,
    "EE_S7" := EE_S7,
    "ME_S7" := ME_S7,
    "CE_S7" := CE_S7,
    "PLACEHOLDER" := PLACEHOLDER
  ]

  const COMMON_S1: seq<Subject> := [
    Subject("AS-101", "Engineering Physics - I"),
    Subject("AS-103", "Engineering Mathematics - I"),
    Subject("EE-101", "Basic Electrical Engineering"),
    Subject("CS-101", "Programming for Problem Solving (C)"),
    Subject("AS-102", "Engineering Chemistry"),
    Subject("AS-104", "Professional Communication")]

  const COMMON_S2: seq<Subject> := [
    Subject("AS-201", "Engineering Physics - II"),
    Subject("AS-203", "Engineering Mathematics - II"),
    Subject("ME-201", "Elements of Mechanical Engineering"),
    Subject("EC-201", "Basic Electronics Engineering"),
    Subject("AS-205", "Environment & Ecology (Audit)")]

  const CSE_S3: seq<Subject> := [
    Subject("NAS-301", "Engineering Mathematics-III"),
    Subject("NCS-301", "Data Structure"),
    Subject("NEC-301", "Digital Circuits & Logic Design"),
    Subject("NCS-303", "Numerical and Statistical Techniques"),
    Subject("NCS-302", "Object Oriented Programming"),
    Subject("NCS-304", "Theory of Automata"),
    Subject("NCS-305", "Emerging Trends in Technology")]

  const ECE_S3: seq<Subject> := [
    Subject("NAS-301", "Engineering Mathematics-III"),
    Subject("NCS-301", "Data Structure"),
    Subject("NEC-301", "Digital Circuits & Logic Design"),
    Subject("NEC-302", "Semiconductor Devices & Circuits"),
    Subject("NEC-303", "Signal & Systems"),
    Subject("NEC-304", "Electronics Measurement & Instrumentation")]

  const EE_S3: seq<Subject> := [
    Subject("NAS-301", "Engineering Mathematics-III"),
    Subject("NEE-301", "Network Analysis & Synthesis"),
    Subject("NEE-302", "Electrical Machines-I"),
    Subject("NEE-303", "Electrical Measurement & Measuring Instruments"),
    Subject("NEE-304", "Basic Signals & Systems Analysis"),
    Subject("NEC-305", "Analog and Digital Electronics")]

  const ME_S3: seq<Subject> := [
    Subject("NAS-301", "Engineering Mathematics-III"),
    Subject("NME-301", "Strength of Materials"),
    Subject("NCE-301", "Fluid Mechanics"),
    Subject("NME-302", "Materials Science & Engineering"),
    Subject("NME-303", "Engineering Thermodynamics"),
    Subject("NME-304", "Measurements & Metrology")]

  const CE_S3: seq<Subject> := [
    Subject("NAS-301", "Engineering Mathematics-III"),
    Subject("NME-301", "Strength of Materials"),
    Subject("NCE-301", "Fluid Mechanics"),
    Subject("NCE-302", "Material Construction"),
    Subject("NCE-303", "Surveying"),
    Subject("NCE-304", "Engineering Geology")]

  const CSE_S5: seq<Subject> := [
    Subject("NCS-501", "Operating System"),
    Subject("NCS-502", "Data Base Management Concepts"),
    Subject("NCS-503", "Compiler Design"),
    Subject("NCS-504", "Web Technology"),
    Subject("NCS-505", "Software Engineering"),
    Subject("NCS-506", "Java Programming")]

  const ECE_S5: seq<Subject> := [
    Subject("NEC-502", "Microprocessor & Interfaces"),
    Subject("NEC-503", "Analog Integrated Circuits"),
    Subject("NEC-504", "Antenna & Wave Propagation"),
    Subject("NEC-505", "Control System"),
    Subject("NEC-501", "Principles of Communication Engineering"),
    Subject("NAI-501", "Fundamentals of Data Analytics")]

  const EE_S5: seq<Subject> := [
    Subject("NEE-501", "Power System-II"),
    Subject("NEE-502", "Control Systems"),
    Subject("NEE-503", "Power Electronics"),
    Subject("NEE-504", "Advanced Electrical Machines"),
    Subject("NEC-501", "Principles of Communication Engineering"),
    Subject("NEE-505", "Power Station Practice")]

  const ME_S5: seq<Subject> := [
    Subject("NME-501", "Machine Design-II"),
    Subject("NME-502", "Heat and Mass Transfer"),
    Subject("NME-503", "Theory of Machines-II"),
    Subject("NME-504", "Industrial Engineering"),
    Subject("NME-505", "Manufacturing Science and Engineering-II"),
    Subject("NME-506", "I.C. Engines")]

  const CE_S5: seq<Subject> := [
    Subject("NCE-501", "Structural Analysis-II"),
    Subject("NCE-502", "Design of Concrete Structures-I"),
    Subject("NCE-503", "Transportation Engineering-I"),
    Subject("NCE-504", "Geotechnical Engineering"),
    Subject("NCE-505", "Environmental Engineering-I"),
    Subject("NCE-506", "Engineering Hydrology")]

  const CSE_S7: seq<Subject> := [
    Subject("CS-701", "Advance DBMS"),
    Subject("CS-702", "Computer Graphics"),
    Subject("CS-703", "Artificial Intelligence"),
    Subject("CS-7044", "Data Mining"),
    Subject("AS-702", "Industrial Management"),
    Subject("PE-701", "Program Elective"),
    Subject("OE-701", "Open Elective")]

  const ECE_S7: seq<Subject> := [
    Subject("EC-701", "Mobile and Wireless Communications"),
    Subject("EC-702", "VLSI Design"),
    Subject("EC-703", "Optical Communication"),
    Subject("EC-7041", "Information Theory and Coding"),
    Subject("AS-701", "Engineering Economics"),
    Subject("PE-701", "Program Elective"),
    Subject("OE-701", "Open Elective")]

  const EE_S7: seq<Subject> := [
    Subject("EE-701", "Switchgear and Protection"),
    Subject("EE-702", "Electric Drives"),
    Subject("EE-703", "FACTS Devices"),
    Subject("EE-7042", "Advanced Power Transmission"),
    Subject("AS-701", "Engineering Economics"),
    Subject("PE-701", "Program Elective"),
    Subject("OE-701", "Open Elective")]

  const ME_S7: seq<Subject> := [
    Subject("ME-701", "Refrigeration & Air Conditioning"),
    Subject("ME-702", "Computer Aided Design"),
    Subject("ME-703", "Computer Aided Manufacturing"),
    Subject("ME-7041", "Non-Destructive Testing"),
    Subject("AS-701", "Engineering Economics"),
    Subject("PE-701", "Program Elective"),
    Subject("OE-701", "Open Elective")]

  const CE_S7: seq<Subject> := [
    Subject("CE-701", "Design of Steel Structures"),
    Subject("CE-702", "Engineering Hydrology"),
    Subject("CE-703", "Water Resource Engineering"),
    Subject("CE-7042", "Environmental Impact Assessment"),
    Subject("AS-702", "Industrial Management"),
    Subject("PE-701", "Program Elective"),
    Subject("OE-701", "Open Elective")]

  const PLACEHOLDER: seq<Subject> := [
    Subject("XX-001", "Core Subject Placeholder"),
    Subject("XX-002", "Departmental Elective / Project")]

  /** Every list of the syllabus has at least one subject. */
  predicate NoEmptyList(syllabus: map<string, seq<Subject>>)
  {
    forall k :: k in syllabus ==> syllabus[k] != []
  }

  /** `getBranches`: the codes of the branch table, in table order. */
  function GetBranches(): (codes: seq<string>)
    ensures |codes| == |BRANCHES|
    ensures forall i :: 0 <= i < |BRANCHES| ==> codes[i] == BRANCHES[i].code
  {
    seq(|BRANCHES|, i requires 0 <= i < |BRANCHES| => BRANCHES[i].code)
  }

  /** `getSemesters`: the odd semesters the site covers. */
  function GetSemesters(): (semesters: seq<int>)
    ensures forall s :: s in semesters <==> 1 <= s <= 7 && s % 2 == 1
    ensures forall i, j :: 0 <= i < j < |semesters| ==> semesters[i] < semesters[j]
  {
    [1, 3, 5, 7]
  }

  /** The titles of a subject list, in order. */
  function Titles(subjects: seq<Subject>): (titles: seq<string>)
    ensures |titles| == |subjects|
    ensures forall i :: 0 <= i < |subjects| ==> titles[i] == subjects[i].title
  {
    if subjects == [] then [] else [subjects[0].title] + Titles(subjects[1..])
  }

  /** `${branch}_S${semester}`. */
  function SubjectKey(branch: string, semester: int): string
  {
    branch + "_S" + JsText.NumberText(semester)
  }

  /** Which list `getSubjects` reads: the keyed list, the first-year list
      for a semester up to 2, nothing when that list is missing, or the
      placeholder. */
  datatype Lookup = Keyed(key: string) | FirstYear(key: string) | NoList | Placeholder

  function SubjectsLookup(branch: string, semester: int): (l: Lookup)
    ensures l.Keyed? <==> SubjectKey(branch, semester) in SYLLABUS
    ensures l.Keyed? ==> l.key == SubjectKey(branch, semester)
    ensures (l.FirstYear? || l.NoList?) <==> SubjectKey(branch, semester) !in SYLLABUS && semester <= 2
    ensures l.FirstYear? ==> l.key == "COMMON_S" + JsText.NumberText(semester) && l.key in SYLLABUS
    ensures l.Placeholder? <==> SubjectKey(branch, semester) !in SYLLABUS && semester > 2
  {
    var key := SubjectKey(branch, semester);
    if key in SYLLABUS then Keyed(key)
    else if semester <= 2 then
      var commonKey := "COMMON_S" + JsText.NumberText(semester);
      if commonKey in SYLLABUS then FirstYear(commonKey) else NoList
    else Placeholder
  }

  /** `getSubjects`: the titles of the list the lookup selects, `[]` when
      there is none. The result is empty exactly when no list applies. */
  function GetSubjects(branch: string, semester: int): (titles: seq<string>)
    ensures NoEmptyList(SYLLABUS) ==> (titles == [] <==> SubjectsLookup(branch, semester).NoList?)
  {
    match SubjectsLookup(branch, semester)
    case Keyed(key) => Titles(SYLLABUS[key])
    case FirstYear(key) => Titles(SYLLABUS[key])
    case NoList => []
    case Placeholder => Titles(SYLLABUS["PLACEHOLDER"])
  }

  /** Every list of the syllabus is non-empty. */
  lemma SyllabusListsNonEmpty()
    ensures NoEmptyList(SYLLABUS)
  {
  }

  lemma SemesterTexts()
    ensures JsText.NumberText(1) == "1" && JsText.NumberText(3) == "3"
    ensures JsText.NumberText(5) == "5" && JsText.NumberText(7) == "7"
  {
    assert JsText.DigitChar(1) == '1' && JsText.DigitChar(3) == '3';
    assert JsText.DigitChar(5) == '5' && JsText.DigitChar(7) == '7';
  }

  /** The keys of one branch: no own first-semester list, an own list for
      semesters 3, 5 and 7. */
  predicate HasOddSemesterKeys(branch: string)
  {
    && SubjectKey(branch, 1) !in SYLLABUS
    && SubjectKey(branch, 3) in SYLLABUS && SubjectKey(branch, 5) in SYLLABUS && SubjectKey(branch, 7) in SYLLABUS
  }

  lemma CseKeys()
    ensures HasOddSemesterKeys("CSE")
  {
    SemesterTexts();
    assert SubjectKey("CSE", 1) == "CSE_S1" && SubjectKey("CSE", 3) == "CSE_S3";
    assert SubjectKey("CSE", 5) == "CSE_S5" && SubjectKey("CSE", 7) == "CSE_S7";
  }

  lemma EceKeys()
    ensures HasOddSemesterKeys("ECE")
  {
    SemesterTexts();
    assert SubjectKey("ECE", 1) == "ECE_S1" && SubjectKey("ECE", 3) == "ECE_S3";
    assert SubjectKey("ECE", 5) == "ECE_S5" && SubjectKey("ECE", 7) == "ECE_S7";
  }

  lemma EeKeys()
    ensures HasOddSemesterKeys("EE")
  {
    SemesterTexts();
    assert SubjectKey("EE", 1) == "EE_S1" && SubjectKey("EE", 3) == "EE_S3";
    assert SubjectKey("EE", 5) == "EE_S5" && SubjectKey("EE", 7) == "EE_S7";
  }

  lemma MeKeys()
    ensures HasOddSemesterKeys("ME")
  {
    SemesterTexts();
    assert SubjectKey("ME", 1) == "ME_S1" && SubjectKey("ME", 3) == "ME_S3";
    assert SubjectKey("ME", 5) == "ME_S5" && SubjectKey("ME", 7) == "ME_S7";
  }

  lemma CeKeys()
    ensures HasOddSemesterKeys("CE")
  {
    SemesterTexts();
    assert SubjectKey("CE", 1) == "CE_S1" && SubjectKey("CE", 3) == "CE_S3";
    assert SubjectKey("CE", 5) == "CE_S5" && SubjectKey("CE", 7) == "CE_S7";
  }

  lemma BranchKeys(branch: string)
    requires branch in GetBranches()
    ensures HasOddSemesterKeys(branch)
  {
    var codes := GetBranches();
    assert codes[0] == "CSE" && codes[1] == "ECE" && codes[2] == "EE" && codes[3] == "ME" && codes[4] == "CE";
    CseKeys();
    EceKeys();
    EeKeys();
    MeKeys();
    CeKeys();
  }

  /** Every branch and semester the site offers has its own list, except the
      first semester, which falls back to the first-year list: the
      placeholder is never reached and no offered choice has no subjects. */
  lemma OfferedChoicesHaveSubjects(branch: string, semester: int)
    requires branch in GetBranches() && semester in GetSemesters()
    ensures semester == 1 ==> SubjectsLookup(branch, semester) == FirstYear("COMMON_S1")
    ensures semester != 1 ==> SubjectsLookup(branch, semester) == Keyed(SubjectKey(branch, semester))
    ensures GetSubjects(branch, semester) != []
  {
    BranchKeys(branch);
    SemesterTexts();
    SyllabusListsNonEmpty();
    assert semester == 1 || semester == 3 || semester == 5 || semester == 7;
    assert "COMMON_S" + JsText.NumberText(1) == "COMMON_S1";
  }

  /** `getBranchName`: the name of the first branch with that code, or the
      code itself when none has it (or its name is empty). */
  function GetBranchName(branch: string): (name: string)
    ensures (forall b :: b in BRANCHES ==> b.code != branch) ==> name == branch
  {
    var found := Collection.FindOne(BRANCHES, (b: Branch) => b.code == branch);
    if found.Some? && found.value.name != "" then found.value.name else branch
  }

  /** No two rows of the branch table share a code. */
  lemma CodesDistinct()
    ensures forall j, k :: 0 <= j < k < |BRANCHES| ==> BRANCHES[j].code != BRANCHES[k].code
  {
  }

  /** Each listed code is shown with its own row's name. */
  lemma ListedBranchName(i: nat)
    requires i < |BRANCHES|
    ensures GetBranchName(BRANCHES[i].code) == BRANCHES[i].name
  {
    var code := BRANCHES[i].code;
    var found := Collection.FindOne(BRANCHES, (b: Branch) => b.code == code);
    assert BRANCHES[i] in BRANCHES;
    var j :| 0 <= j < |BRANCHES| && BRANCHES[j] == found.value;
    CodesDistinct();
    assert j == i;
  }
}
