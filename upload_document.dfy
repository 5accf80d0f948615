/**
 * The single-page upload view: a PDF-only, 5 MiB file check, then a submit
 * that, once its simulated delay has passed, appends one pending record to
 * the stored document list.
 */
module UploadDocumentPage {
  import opened Common
  import opened Storage
  import opened UploadForm

  const PdfMimeType: string := "application/pdf"
  const MaxPdfBytes: nat := 5 * 1024 * 1024
  /** Where both upload flows navigate once the record is stored. */
  const DocumentsRoute: string := "/dashboard/documents"

  datatype FileCheck = Accepted | Refused(message: string)

  /** handleFile's two tests, type first: the exact PDF MIME type, then at most 5 MiB. */
  function CheckPdfFile(f: FileInfo): (c: FileCheck)
    ensures c.Accepted? <==> f.mimeType == PdfMimeType && f.size <= MaxPdfBytes
    ensures f.mimeType != PdfMimeType ==> c == Refused("Only PDF files are allowed")
    ensures f.mimeType == PdfMimeType && f.size > MaxPdfBytes ==> c == Refused("File size exceeds 5MB limit")
  {
    if f.mimeType != PdfMimeType then Refused("Only PDF files are allowed")
    else if f.size > MaxPdfBytes then Refused("File size exceeds 5MB limit")
    else Accepted
  }

  /** The boundary: exactly 5 MiB passes, one byte more does not, and a near-PDF type fails. */
  lemma PdfLimitBoundary(name: string)
    ensures CheckPdfFile(FileInfo(name, MaxPdfBytes, PdfMimeType)).Accepted?
    ensures CheckPdfFile(FileInfo(name, MaxPdfBytes + 1, PdfMimeType)).Refused?
    ensures CheckPdfFile(FileInfo(name, 0, "application/x-pdf")).Refused?
  {
  }

  /** The record written for an upload at `now`; there is no file size or type. */
  function SubmittedRecord(values: UploadFormValues, file: FileInfo, now: Millis): (r: DocumentRecord)
    ensures r.status == Pending && r.id == "doc-" + IntToString(now) && r.uploadDate == now
    ensures r.docType == values.documentType && r.documentId == values.documentId
    ensures r.issueDate == values.issueDate && r.fileName == file.name
    ensures r.fileSize.None? && r.fileType.None?
  {
    DocumentRecord("doc-" + IntToString(now), values.documentType, values.documentId, values.issueDate,
                   file.name, None, None, now, Pending)
  }

  /**
   * A submit appends exactly one record at the end (an absent list counts as
   * empty): the earlier records stay as they were and the new one is pending,
   * carries the three form fields and the file name, and is named after the clock.
   */
  lemma SubmitAppendsOne(items: map<string, StoredValue>, values: UploadFormValues, file: FileInfo, now: Millis)
    requires WellTyped(items)
    ensures var before := DocumentsOrEmpty(items);
      var after := AppendDocument(items, SubmittedRecord(values, file, now));
      var docs := DocumentsOrEmpty(after);
      && |docs| == |before| + 1
      && docs[..|before|] == before
      && var r := docs[|before|];
      && r.status == Pending && r.id == "doc-" + IntToString(now)
      && r.docType == values.documentType && r.documentId == values.documentId
      && r.issueDate == values.issueDate && r.fileName == file.name
      && r.fileSize.None? && r.fileType.None?
  {
    var before := DocumentsOrEmpty(items);
    assert (before + [SubmittedRecord(values, file, now)])[..|before|] == before;
  }

  /**
   * The id is built from the clock alone: two uploads in the same
   * millisecond store two records under one id.
   */
  lemma SameInstantSameId(items: map<string, StoredValue>, v1: UploadFormValues, v2: UploadFormValues,
                          f1: FileInfo, f2: FileInfo, now: Millis)
    requires WellTyped(items)
    ensures var after := AppendAll(items, [SubmittedRecord(v1, f1, now), SubmittedRecord(v2, f2, now)]);
      var docs := DocumentsOrEmpty(after);
      |docs| == |DocumentsOrEmpty(items)| + 2 && docs[|docs| - 2].id == docs[|docs| - 1].id
  {
    AppendAllOrder(items, [SubmittedRecord(v1, f1, now), SubmittedRecord(v2, f2, now)]);
  }

  class UploadDocumentView {
    var selectedFile: Option<FileInfo>
    var isLoading: bool

    constructor ()
      ensures selectedFile.None? && !isLoading
    {
      selectedFile, isLoading := None, false;
    }

    /** handleFile: an accepted file replaces the selection; a refused one leaves it. */
    method HandleFile(f: FileInfo) returns (c: FileCheck)
      modifies this
      ensures c == CheckPdfFile(f)
      ensures selectedFile == (if c.Accepted? then Some(f) else old(selectedFile))
      ensures isLoading == old(isLoading)
    {
      if f.mimeType != PdfMimeType {
        return Refused("Only PDF files are allowed");
      }
      if f.size > MaxPdfBytes {
        return Refused("File size exceeds 5MB limit");
      }
      selectedFile := Some(f);
      return Accepted;
    }

    /**
     * onSubmit, up to the timer: without a file nothing happens and None is
     * returned; otherwise loading starts and the file the timer callback
     * will use is returned.
     */
    method OnSubmit() returns (pending: Option<FileInfo>)
      modifies this
      ensures pending == old(selectedFile)
      ensures isLoading == (if pending.None? then old(isLoading) else true)
      ensures selectedFile == old(selectedFile)
    {
      if selectedFile.None? {
        return None;
      }
      isLoading := true;
      return selectedFile;
    }

    /**
     * The timer callback of onSubmit for the file captured at submission:
     * loading ends, one record is appended to the stored list, and the page
     * navigates to the document list.
     */
    method FinishSubmit(values: UploadFormValues, file: FileInfo, store: LocalStorage, now: Millis)
      returns (navigateTo: string)
      requires store.Valid()
      modifies this, store
      ensures store.Valid() && !isLoading && selectedFile == old(selectedFile)
      ensures store.items == AppendDocument(old(store.items), SubmittedRecord(values, file, now))
      ensures navigateTo == DocumentsRoute
    {
      isLoading := false;
      var documentData := SubmittedRecord(values, file, now);
      var existingDocs := DocumentsOrEmpty(store.items);
      store.SetItem(DocumentsKey, DocumentList(existingDocs + [documentData]));
      return DocumentsRoute;
    }
  }
}
