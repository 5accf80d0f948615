/**
 * The upload hook of the `upload/` directory: with a file selected in the
 * provider it starts loading and, once its simulated delay has passed,
 * appends one pending record (with the file's size and type) to the stored list.
 */
module DocumentUpload {
  import opened Common
  import opened Storage
  import opened UploadForm
  import UploadDocumentPage
  import opened UploadContext

  /** The record written for an upload at `now`. */
  function UploadedRecord(values: UploadFormValues, file: FileInfo, now: Millis): (r: DocumentRecord)
    ensures r == UploadDocumentPage.SubmittedRecord(values, file, now).(fileSize := Some(file.size),
                                                                       fileType := Some(file.mimeType))
  {
    DocumentRecord("doc-" + IntToString(now), values.documentType, values.documentId, values.issueDate,
                   file.name, Some(file.size), Some(file.mimeType), now, Pending)
  }

  /**
   * An upload appends exactly one record at the end (an absent list counts as
   * empty): the earlier records are preserved and the new one is pending,
   * carries the form fields unchanged and the file's name, size and type.
   */
  lemma UploadAppendsOne(items: map<string, StoredValue>, values: UploadFormValues, file: FileInfo, now: Millis)
    requires WellTyped(items)
    ensures var before := DocumentsOrEmpty(items);
      var after := AppendDocument(items, UploadedRecord(values, file, now));
      var docs := DocumentsOrEmpty(after);
      && |docs| == |before| + 1
      && docs[..|before|] == before
      && var r := docs[|before|];
      && r.status == Pending && r.id == "doc-" + IntToString(now)
      && r.docType == values.documentType && r.documentId == values.documentId
      && r.issueDate == values.issueDate
      && r.fileName == file.name && r.fileSize == Some(file.size) && r.fileType == Some(file.mimeType)
  {
    var before := DocumentsOrEmpty(items);
    assert (before + [UploadedRecord(values, file, now)])[..|before|] == before;
  }

  /** The two upload flows write the same record but for the file's size and type. */
  lemma FlowsDifferInFileMetadata(values: UploadFormValues, file: FileInfo, now: Millis)
    ensures UploadedRecord(values, file, now) ==
              UploadDocumentPage.SubmittedRecord(values, file, now).(fileSize := Some(file.size),
                                                                    fileType := Some(file.mimeType))
    ensures UploadedRecord(values, file, now) != UploadDocumentPage.SubmittedRecord(values, file, now)
  {
  }

  /**
   * handleUpload, up to the timer: without a selected file nothing happens
   * and None is returned; otherwise loading starts and the file the timer
   * callback will use is returned.
   */
  method HandleUpload(provider: UploadProvider) returns (pending: Option<FileInfo>)
    modifies provider
    ensures pending == old(provider.selectedFile)
    ensures provider.isLoading == (if pending.None? then old(provider.isLoading) else true)
    ensures provider.selectedFile == old(provider.selectedFile)
  {
    if provider.selectedFile.None? {
      return None;
    }
    provider.SetIsLoading(true);
    return provider.selectedFile;
  }

  /**
   * The timer callback: one record is appended, loading ends, and the
   * second, shorter timer navigates to the document list.
   */
  method CompleteUpload(provider: UploadProvider, values: UploadFormValues, file: FileInfo,
                        store: LocalStorage, now: Millis)
    returns (navigateTo: string)
    requires store.Valid()
    modifies provider, store
    ensures store.Valid() && !provider.isLoading && provider.selectedFile == old(provider.selectedFile)
    ensures store.items == AppendDocument(old(store.items), UploadedRecord(values, file, now))
    ensures navigateTo == UploadDocumentPage.DocumentsRoute
  {
    var documentData := UploadedRecord(values, file, now);
    var existingDocs := DocumentsOrEmpty(store.items);
    store.SetItem(DocumentsKey, DocumentList(existingDocs + [documentData]));
    provider.SetIsLoading(false);
    return UploadDocumentPage.DocumentsRoute;
  }
}
