/**
 * The course-information record (src/components/CourseInfo.jsx) that the form
 * edits and the spreadsheet parser fills in.
 */
module CourseInfo {
  import opened Options
  import opened Strings

  datatype Info = Info(
    courseCode: string,
    courseTitle: string,
    department: string,
    academicYear: string,
    semester: string,
    section: string)

  datatype Field = CourseCode | CourseTitle | Department | AcademicYear | Semester | Section

  /** The record the form starts from when no data exists: six empty fields. */
  const Blank := Info("", "", "", "", "", "")

  /** The form's state: the existing data when there is any, the blank record otherwise. */
  function Initial(existing: Option<Info>): Info
  {
    existing.GetOr(Blank)
  }

  function Get(i: Info, f: Field): string
  {
    match f
    case CourseCode => i.courseCode
    case CourseTitle => i.courseTitle
    case Department => i.department
    case AcademicYear => i.academicYear
    case Semester => i.semester
    case Section => i.section
  }

  /** `handleChange(field, value)`: `{ ...prev, [field]: value }`. */
  function Set(i: Info, f: Field, value: string): (r: Info)
    ensures Get(r, f) == value
    ensures forall g :: g != f ==> Get(r, g) == Get(i, g)
  {
    match f
    case CourseCode => i.(courseCode := value)
    case CourseTitle => i.(courseTitle := value)
    case Department => i.(department := value)
    case AcademicYear => i.(academicYear := value)
    case Semester => i.(semester := value)
    case Section => i.(section := value)
  }

  /** `handleSubmit`: every field is non-blank once trimmed. */
  predicate Valid(i: Info)
  {
    forall f: Field :: Trim(Get(i, f)) != ""
  }

  /** Submission is accepted exactly when all six fields are filled. */
  lemma ValidIff(i: Info)
    ensures Valid(i) <==>
      && Trim(i.courseCode) != "" && Trim(i.courseTitle) != "" && Trim(i.department) != ""
      && Trim(i.academicYear) != "" && Trim(i.semester) != "" && Trim(i.section) != ""
  {
    if !Valid(i) {
      var f: Field :| Trim(Get(i, f)) == "";
      match f
      case CourseCode =>
      case CourseTitle =>
      case Department =>
      case AcademicYear =>
      case Semester =>
      case Section =>
    }
  }

  /** The blank record is never accepted. */
  lemma BlankRejected()
    ensures !Valid(Initial(None))
  {
    assert Trim(Get(Blank, CourseCode)) == "";
  }

  /** Clearing any field makes the record invalid; filling one keeps a valid record valid. */
  lemma SetValidity(i: Info, f: Field, value: string)
    ensures Trim(value) == "" ==> !Valid(Set(i, f, value))
    ensures Valid(i) && Trim(value) != "" ==> Valid(Set(i, f, value))
  {
    if Trim(value) == "" {
      assert Trim(Get(Set(i, f, value), f)) == "";
    }
  }
}
