/** The choice of document cracker from the file extension, the match in
    `create_cracker` of src/formats/mod.rs (lines 22-33), as a map from the
    extension to the kind of cracker or an error. Constructing the cracker
    itself (opening and parsing the file) is not part of this model. */
module Formats {
  import opened Wrappers
  import opened Ascii

  /** The cracker kinds the repository defines; the RAR one exists but is
      never selected here. */
  datatype Kind = Pdf | Office | Zip | Rar

  const NoTypeMessage: string := "Unable to determine file type"
  const UnsupportedPrefix: string := "Unsupported file type: "

  /** `extension` is None when the path has no extension or it is not valid
      UTF-8. The match is on the lower-cased extension; the error message
      repeats the extension as written. */
  function Dispatch(extension: Option<string>): (r: Result<Kind>)
    ensures extension.None? ==> r == Err(NoTypeMessage)
    ensures r.Ok? ==> r.value != Rar
    ensures r == Ok(Pdf) <==> extension.Some? && Lower(extension.value) == "pdf"
    ensures r == Ok(Office) <==> extension.Some? && Lower(extension.value) in {"docx", "xlsx", "pptx"}
    ensures r == Ok(Zip) <==> extension.Some? && Lower(extension.value) == "zip"
    ensures extension.Some? && r.Err? ==> r.message == UnsupportedPrefix + extension.value
  {
    match extension
    case None => Err(NoTypeMessage)
    case Some(e) =>
      var lowered := Lower(e);
      if lowered == "pdf" then Ok(Pdf)
      else if lowered == "docx" || lowered == "xlsx" || lowered == "pptx" then Ok(Office)
      else if lowered == "zip" then Ok(Zip)
      else Err(UnsupportedPrefix + e)
  }

  /** Extensions that differ only in letter case select the same kind, and
      one is rejected exactly when the other is. */
  lemma CaseInsensitive(a: string, b: string)
    requires Lower(a) == Lower(b)
    ensures Dispatch(Some(a)).Ok? <==> Dispatch(Some(b)).Ok?
    ensures Dispatch(Some(a)).Ok? ==> Dispatch(Some(a)).value == Dispatch(Some(b)).value
  {
  }

  /** Upper-casing an extension does not change the kind it selects. */
  lemma UpperCaseSelectsTheSame(e: string)
    ensures Dispatch(Some(Upper(e))).Ok? <==> Dispatch(Some(e)).Ok?
    ensures Dispatch(Some(e)).Ok? ==> Dispatch(Some(Upper(e))).value == Dispatch(Some(e)).value
  {
    forall i | 0 <= i < |e|
      ensures ToLower(ToUpper(e[i])) == ToLower(e[i])
    {
      CaseMappingsAbsorb(e[i]);
    }
    assert Lower(Upper(e)) == Lower(e);
    CaseInsensitive(Upper(e), e);
  }

  lemma ZipExamples(upper: string, lower: string)
    requires upper == "ZIP" && lower == "zip"
    ensures Dispatch(Some(upper)) == Ok(Zip) && Dispatch(Some(lower)) == Ok(Zip)
  {
    assert Lower(upper) == lower;
  }

  lemma RarExample(e: string)
    requires e == "rar"
    ensures Dispatch(Some(e)) == Err("Unsupported file type: rar")
  {
    assert Lower(e) == e;
  }
}
