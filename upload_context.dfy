/**
 * The state shared by the pages of the `upload/` directory: the selected file
 * and the loading flag, and the file check of this flow (a PDF or an image,
 * at most 10 MiB), which is looser than the single-page upload's.
 */
module UploadContext {
  import opened Common
  import opened UploadForm
  import UploadDocumentPage

  const MaxUploadBytes: nat := 10 * 1024 * 1024

  predicate PdfOrImageType(mimeType: string)
  {
    Contains(mimeType, "pdf") || Contains(mimeType, "image/")
  }

  /**
   * handleFile's tests, type first: the MIME type must contain "pdf" or
   * "image/" somewhere (not equal a fixed type), then the size be at most 10 MiB.
   */
  function CheckUploadFile(f: FileInfo): (c: UploadDocumentPage.FileCheck)
    ensures c.Accepted? <==>
              ((exists i :: OccursAt(f.mimeType, "pdf", i)) || (exists i :: OccursAt(f.mimeType, "image/", i)))
              && f.size <= MaxUploadBytes
    ensures !PdfOrImageType(f.mimeType) ==> c == UploadDocumentPage.Refused("Only PDF and image files are allowed")
    ensures PdfOrImageType(f.mimeType) && f.size > MaxUploadBytes ==>
              c == UploadDocumentPage.Refused("File size exceeds 10MB limit")
  {
    ContainsIffOccurs(f.mimeType, "pdf");
    ContainsIffOccurs(f.mimeType, "image/");
    if !PdfOrImageType(f.mimeType) then UploadDocumentPage.Refused("Only PDF and image files are allowed")
    else if f.size > MaxUploadBytes then UploadDocumentPage.Refused("File size exceeds 10MB limit")
    else UploadDocumentPage.Accepted
  }

  /** Exactly 10 MiB passes and one byte more does not. */
  lemma UploadLimitBoundary(name: string)
    ensures CheckUploadFile(FileInfo(name, MaxUploadBytes, "image/png")).Accepted?
    ensures CheckUploadFile(FileInfo(name, MaxUploadBytes + 1, "image/png")).Refused?
  {
    assert OccursAt("image/png", "image/", 0);
  }

  /** The type test is a substring test: any type mentioning "pdf" passes, a plain text type does not. */
  lemma TypeTestIsSubstring(name: string)
    ensures CheckUploadFile(FileInfo(name, 0, "text/x-pdf-notes")).Accepted?
    ensures CheckUploadFile(FileInfo(name, 0, "text")).Refused?
  {
    assert OccursAt("text/x-pdf-notes", "pdf", 7);
    assert !Contains("text", "pdf") by {
      assert "text"[1..] == "ext" && "ext"[1..] == "xt" && "xt"[1..] == "t" && "t"[1..] == "";
      assert !Contains("", "pdf");
      assert !Contains("t", "pdf");
      assert !Contains("xt", "pdf");
      assert "ext"[0] != "pdf"[0] && !("pdf" <= "ext");
      assert !Contains("ext", "pdf");
      assert "text"[0] != "pdf"[0] && !("pdf" <= "text");
    }
    assert !Contains("text", "image/") by {
      assert "text"[1..] == "ext" && "ext"[1..] == "xt" && "xt"[1..] == "t" && "t"[1..] == "";
    }
  }

  /**
   * The two upload checks are not reconciled: every file the single-page
   * check accepts this one accepts too, but not the other way round.
   */
  lemma PdfCheckIsStricter(f: FileInfo)
    ensures UploadDocumentPage.CheckPdfFile(f).Accepted? ==> CheckUploadFile(f).Accepted?
    ensures CheckUploadFile(FileInfo("scan.pdf", 6 * 1024 * 1024, "application/pdf")).Accepted?
    ensures UploadDocumentPage.CheckPdfFile(FileInfo("scan.pdf", 6 * 1024 * 1024, "application/pdf")).Refused?
    ensures CheckUploadFile(FileInfo("id.png", 1024, "image/png")).Accepted?
    ensures UploadDocumentPage.CheckPdfFile(FileInfo("id.png", 1024, "image/png")).Refused?
  {
    assert OccursAt("application/pdf", "pdf", 12);
    assert OccursAt("image/png", "image/", 0);
  }

  /** The provider's state. */
  class UploadProvider {
    var selectedFile: Option<FileInfo>
    var isLoading: bool

    constructor ()
      ensures selectedFile.None? && !isLoading
    {
      selectedFile, isLoading := None, false;
    }

    /** handleFile: an accepted file becomes the selection; a refused one leaves it. */
    method HandleFile(f: FileInfo) returns (c: UploadDocumentPage.FileCheck)
      modifies this
      ensures c == CheckUploadFile(f)
      ensures selectedFile == (if c.Accepted? then Some(f) else old(selectedFile))
      ensures isLoading == old(isLoading)
    {
      if !Contains(f.mimeType, "pdf") && !Contains(f.mimeType, "image/") {
        return UploadDocumentPage.Refused("Only PDF and image files are allowed");
      }
      if f.size > MaxUploadBytes {
        return UploadDocumentPage.Refused("File size exceeds 10MB limit");
      }
      selectedFile := Some(f);
      return UploadDocumentPage.Accepted;
    }

    /** setSelectedFile, through which "Change File" clears the selection. */
    method SetSelectedFile(f: Option<FileInfo>)
      modifies this
      ensures selectedFile == f && isLoading == old(isLoading)
    {
      selectedFile := f;
    }

    method SetIsLoading(loading: bool)
      modifies this
      ensures isLoading == loading && selectedFile == old(selectedFile)
    {
      isLoading := loading;
    }
  }
}
