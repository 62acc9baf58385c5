/** The admin's manual issue form: its fields, the required-field check, the
    skills parser, the choice of document URI, the mock upload and the reset
    after a successful transaction. */
module IssueForm {
  import opened Wrappers
  import opened Json
  import Text

  /** The form's fields. The year starts as a number; editing it stores the
      typed text, as every input change does. */
  datatype FormData = FormData(
    studentAddress: string,
    studentName: string,
    universityName: string,
    yearOfGraduation: Value,
    degree: string,
    major: string,
    skills: string,
    documentUri: string)

  /** A file picked in the file input, by name. */
  type File = string

  datatype Field =
    | StudentAddressField | StudentNameField | UniversityNameField | YearField
    | DegreeField | MajorField | SkillsField | DocumentUriField

  /** The value a field holds, as the input shows it. */
  function Read(form: FormData, field: Field): Value {
    match field
    case StudentAddressField => Str(form.studentAddress)
    case StudentNameField => Str(form.studentName)
    case UniversityNameField => Str(form.universityName)
    case YearField => form.yearOfGraduation
    case DegreeField => Str(form.degree)
    case MajorField => Str(form.major)
    case SkillsField => Str(form.skills)
    case DocumentUriField => Str(form.documentUri)
  }

  /** The initial form and the one `resetForm` restores: every text empty, the
      year the current one. */
  function Initial(currentYear: int): (f: FormData)
    ensures forall field :: field != YearField ==> Read(f, field) == Str("")
    ensures Read(f, YearField) == Num(currentYear)
  {
    FormData("", "", "", Num(currentYear), "", "", "", "")
  }

  /** `handleChange`: the named field takes the typed text, the others keep theirs. */
  function Edit(form: FormData, field: Field, text: string): (r: FormData)
    ensures Read(r, field) == Str(text)
    ensures forall other :: other != field ==> Read(r, other) == Read(form, other)
  {
    match field
    case StudentAddressField => form.(studentAddress := text)
    case StudentNameField => form.(studentName := text)
    case UniversityNameField => form.(universityName := text)
    case YearField => form.(yearOfGraduation := Str(text))
    case DegreeField => form.(degree := text)
    case MajorField => form.(major := text)
    case SkillsField => form.(skills := text)
    case DocumentUriField => form.(documentUri := text)
  }

  /** `handleFileChange`: the first chosen file replaces the held one; choosing
      nothing keeps it. */
  function ChooseFile(held: Option<File>, chosen: seq<File>): (r: Option<File>)
    ensures |chosen| > 0 ==> r == Some(chosen[0])
    ensures |chosen| == 0 ==> r == held
  {
    if |chosen| > 0 then Some(chosen[0]) else held
  }

  /** The required-field check: address, name, university and degree must be
      non-empty; major and year are not checked. */
  predicate Valid(form: FormData) {
    form.studentAddress != "" && form.studentName != "" && form.universityName != "" && form.degree != ""
  }

  /** Indices, from `from` on, of the pieces that do not trim to "", in order. */
  function KeptIndices(pieces: seq<string>, from: nat): (r: seq<nat>)
    requires from <= |pieces|
    ensures |r| <= |pieces| - from
    ensures forall k :: 0 <= k < |r| ==> from <= r[k] < |pieces| && Text.Trim(pieces[r[k]]) != ""
    ensures forall k, l :: 0 <= k < l < |r| ==> r[k] < r[l]
    ensures forall i :: from <= i < |pieces| && Text.Trim(pieces[i]) != "" ==> i in r
    decreases |pieces| - from
  {
    if from == |pieces| then []
    else
      var rest := KeptIndices(pieces, from + 1);
      if Text.Trim(pieces[from]) != "" then [from] + rest else rest
  }

  /** `skills.split(",").map(s => s.trim()).filter(s => s !== "")`. The result
      lists the trimmed comma pieces that are not empty, each once, in the order
      of the pieces; so there are at most as many as commas plus one, none is
      empty, and none starts or ends with whitespace. */
  function ParseSkills(text: string): (r: seq<string>)
    ensures var pieces := Text.Split(text, ',');
            var kept := KeptIndices(pieces, 0);
            && |r| == |kept|
            && forall k :: 0 <= k < |r| ==> r[k] == Text.Trim(pieces[kept[k]])
    ensures |r| <= Text.Count(text, ',') + 1
    ensures forall k :: 0 <= k < |r| ==> r[k] != ""
    ensures forall k :: 0 <= k < |r| ==> !Text.IsJsWhitespace(r[k][0]) && !Text.IsJsWhitespace(r[k][|r[k]| - 1])
  {
    var pieces := Text.Split(text, ',');
    var kept := KeptIndices(pieces, 0);
    var r := seq(|kept|, k requires 0 <= k < |kept| => Text.Trim(pieces[kept[k]]));
    assert forall k :: 0 <= k < |r| ==> Text.IsTrimOf(pieces[kept[k]], r[k]);
    r
  }

  /** A piece that trims to something non-empty is never dropped, and the kept
      pieces keep their relative order. */
  lemma ParseSkillsKeepsPieces(text: string, i: nat, j: nat)
    requires i < j < |Text.Split(text, ',')|
    requires Text.Trim(Text.Split(text, ',')[i]) != "" && Text.Trim(Text.Split(text, ',')[j]) != ""
    ensures exists k, l :: 0 <= k < l < |ParseSkills(text)|
              && ParseSkills(text)[k] == Text.Trim(Text.Split(text, ',')[i])
              && ParseSkills(text)[l] == Text.Trim(Text.Split(text, ',')[j])
  {
    var pieces := Text.Split(text, ',');
    var kept := KeptIndices(pieces, 0);
    assert i in kept && j in kept;
    var k :| 0 <= k < |kept| && kept[k] == i;
    var l :| 0 <= l < |kept| && kept[l] == j;
    assert ParseSkills(text)[k] == Text.Trim(pieces[i]);
    assert ParseSkills(text)[l] == Text.Trim(pieces[j]);
  }

  /** The mock upload's URI, from the two random base-36 fragments it draws. */
  function MockUploadUri(fragment1: string, fragment2: string): (r: string)
    ensures Text.StartsWith(r, "ipfs://Qm")
    ensures r[9..] == fragment1 + fragment2
  {
    "ipfs://" + "Qm" + fragment1 + fragment2
  }

  /** `uploadToIPFS`: "" without a file, the mock URI with one. */
  function Upload(file: Option<File>, fragment1: string, fragment2: string): (r: string)
    ensures file.None? <==> r == ""
    ensures file.Some? ==> Text.StartsWith(r, "ipfs://Qm")
  {
    if file.None? then "" else MockUploadUri(fragment1, fragment2)
  }

  /** The document URI sent with the transaction: an attached file's uploaded
      URI takes precedence; without a file the typed value is used as it is. */
  function DocumentUri(form: FormData, file: Option<File>, fragment1: string, fragment2: string): (r: string)
    ensures file.None? ==> r == form.documentUri
    ensures file.Some? ==> r == MockUploadUri(fragment1, fragment2)
  {
    if file.Some? then Upload(file, fragment1, fragment2) else form.documentUri
  }

  /** The arguments of `issueCertificate`, in order. */
  datatype TxArgs = TxArgs(
    studentAddress: string,
    studentName: string,
    universityName: string,
    yearOfGraduation: int,
    degree: string,
    major: string,
    skills: seq<string>,
    documentUri: string)

  /** `handleSubmit`: returns the form and file afterwards and the transaction
      sent, if any. An invalid form, or a year that `BigInt` rejects, sends
      nothing; the form is reset only when the transaction succeeded. */
  function Submit(form: FormData, file: Option<File>, fragment1: string, fragment2: string,
                  ofString: string -> Option<int>, txOk: bool, currentYear: int): (r: (FormData, Option<File>, Option<TxArgs>))
    ensures !Valid(form) ==> r == (form, file, None)
    ensures r.2.Some? <==> Valid(form) && ToBigInt(form.yearOfGraduation, ofString).Some?
    ensures r.2.Some? ==>
              && r.2.value.documentUri == DocumentUri(form, file, fragment1, fragment2)
              && r.2.value.skills == ParseSkills(form.skills)
              && r.2.value.yearOfGraduation == ToBigInt(form.yearOfGraduation, ofString).value
              && r.2.value.studentAddress == form.studentAddress && r.2.value.studentName == form.studentName
              && r.2.value.universityName == form.universityName
              && r.2.value.degree == form.degree && r.2.value.major == form.major
    ensures r.2.Some? && txOk ==> r.0 == Initial(currentYear) && r.1.None?
    ensures !(r.2.Some? && txOk) ==> r.0 == form && r.1 == file
  {
    if !Valid(form) then (form, file, None)
    else
      var uri := DocumentUri(form, file, fragment1, fragment2);
      var skills := ParseSkills(form.skills);
      match ToBigInt(form.yearOfGraduation, ofString)
      case None => (form, file, None)
      case Some(year) =>
        var args := TxArgs(form.studentAddress, form.studentName, form.universityName, year,
                           form.degree, form.major, skills, uri);
        if txOk then (Initial(currentYear), None, Some(args)) else (form, file, Some(args))
  }
}
