/** The upload dialog (src/components/NewDocumentModal.jsx): choosing or
    dropping a file, editing the form, submitting and closing. A file is
    reduced to its name. */
module NewDocModal {
  import opened Wrappers

  datatype File = File(name: string)

  datatype Form = Form(file: Option<File>, filename: string, parseType: string)

  const DefaultParseType := "通用文档解析"

  const Empty := Form(None, "", DefaultParseType)

  /** What the dialog hands to the page on submit. */
  datatype Upload = Upload(file: File, filename: string, parseType: string)

  /** `handleFileChange`: a file replaces the chosen one and its name fills
      the filename; no file (as the "重新选择" button passes) changes nothing. */
  function FileChange(f: Form, file: Option<File>): (r: Form)
    ensures file.None? ==> r == f
    ensures file.Some? ==> r.file == file && r.filename == file.value.name && r.parseType == f.parseType
  {
    if file.Some? then f.(file := file, filename := file.value.name) else f
  }

  /** The "重新选择" button does not clear a chosen file. */
  lemma ReselectKeepsFile(f: Form)
    ensures FileChange(f, None).file == f.file
  {
  }

  /** `handleDrop`: only the first dropped file counts; an empty drop changes nothing. */
  function Drop(f: Form, files: seq<File>): (r: Form)
    ensures files == [] ==> r == f
    ensures files != [] ==> r == FileChange(f, Some(files[0]))
  {
    if |files| > 0 then FileChange(f, Some(files[0])) else f
  }

  /** Dropping several files is dropping the first alone. */
  lemma DropUsesFirst(f: Form, first: File, more: seq<File>)
    ensures Drop(f, [first] + more) == Drop(f, [first])
  {
  }

  function EditFilename(f: Form, name: string): (r: Form)
    ensures r.filename == name && r.file == f.file && r.parseType == f.parseType
  {
    f.(filename := name)
  }

  function EditParseType(f: Form, t: string): (r: Form)
    ensures r.parseType == t && r.file == f.file && r.filename == f.filename
  {
    f.(parseType := t)
  }

  /** The dialog after an action: the form, whether it is open, and what
      was submitted. */
  datatype Dialog = Dialog(form: Form, open: bool, submitted: Option<Upload>)

  /** `handleSubmit`: only a complete form (a file, a non-empty name and a
      non-empty type) is submitted; then the form is reset and the dialog
      closes. An incomplete form stays as it is. */
  function Submit(f: Form): (r: Dialog)
    ensures r.submitted.Some? <==> f.file.Some? && f.filename != "" && f.parseType != ""
    ensures r.submitted.Some? ==> r.submitted.value == Upload(f.file.value, f.filename, f.parseType) && r == Dialog(Empty, false, r.submitted)
    ensures r.submitted.None? ==> r == Dialog(f, true, None)
  {
    if f.file.Some? && f.filename != "" && f.parseType != "" then
      Dialog(Empty, false, Some(Upload(f.file.value, f.filename, f.parseType)))
    else Dialog(f, true, None)
  }

  /** `handleClose`: the form is reset and the dialog closes, submitting nothing. */
  function Close(f: Form): (r: Dialog)
    ensures r == Dialog(Empty, false, None)
  {
    Dialog(Empty, false, None)
  }

  /** Choosing a file with a non-empty name is enough to submit from the
      defaults, and the upload carries that file under its own name. */
  lemma ChooseThenSubmit(file: File)
    requires file.name != ""
    ensures Submit(FileChange(Empty, Some(file))).submitted == Some(Upload(file, file.name, DefaultParseType))
  {
  }

  /** The empty form cannot be submitted. */
  lemma EmptyNotSubmitted()
    ensures Submit(Empty).submitted.None?
  {
  }
}
