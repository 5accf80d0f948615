/**
 * The upload form of the `upload/` directory: the values it submits and the
 * zod schema they are checked against. The older single-page upload declares
 * the very same schema and uses this one.
 */
module UploadForm {
  import opened Common

  datatype UploadFormValues = UploadFormValues(documentType: string, documentId: string, issueDate: string)

  /** A browser File: its name, size in bytes and MIME type. */
  datatype FileInfo = FileInfo(name: string, size: nat, mimeType: string)

  /**
   * uploadSchema: `documentType` is any string; `documentId` and `issueDate`
   * need at least one character. Issues come in field order.
   */
  function ValidateUpload(v: UploadFormValues): (issues: seq<Issue>)
    ensures issues == [] <==> |v.documentId| >= 1 && |v.issueDate| >= 1
    ensures "documentType" !in Paths(issues)
    ensures "documentId" in Paths(issues) <==> v.documentId == ""
    ensures "issueDate" in Paths(issues) <==> v.issueDate == ""
    ensures |issues| <= 2
  {
    var idIssues := MinLength("documentId", v.documentId, 1, "Document ID is required");
    var dateIssues := MinLength("issueDate", v.issueDate, 1, "Issue date is required");
    assert Paths(idIssues + dateIssues) ==
      (if idIssues == [] then [] else ["documentId"]) + (if dateIssues == [] then [] else ["issueDate"]);
    idIssues + dateIssues
  }

  /**
   * The form's default `documentType` of "" validates, and so do a blank
   * document number and any text as the issue date: there is no trimming, no
   * date format and no future-date check.
   */
  lemma ValidationIsMinimal(t: string, id: string, date: string)
    requires |id| >= 1 && |date| >= 1
    ensures ValidateUpload(UploadFormValues("", id, date)) == []
    ensures ValidateUpload(UploadFormValues(t, " ", "not a date")) == []
  {
  }

  /** The defaults of every field ("") leave exactly the two required-field issues. */
  lemma DefaultsFailTwice()
    ensures ValidateUpload(UploadFormValues("", "", "")) ==
              [Issue("documentId", "Document ID is required"), Issue("issueDate", "Issue date is required")]
  {
  }
}
