/**
 * The document endpoints: upload (file check, save, row, IPFS and
 * blockchain results, one "upload" verification row), list, get, delete
 * and hash verification, each scoped to the current user's own rows.
 * MD5, SHA-256, IPFS and the blockchain are parameters.
 */
module DocumentRoutes {
  import opened Common
  import opened Database
  import opened FileService

  /** The uploaded file as the handler sees it. */
  datatype UploadInput = UploadInput(filename: string, size: nat, contentType: string, contents: seq<bv8>)

  /** What `ipfs_service.upload_file` did: returned a hash (or None), or raised. */
  datatype IpfsOutcome = IpfsStored(hash: Option<string>) | IpfsRaised

  /** What `blockchain_service.store_document_hash` did: returned a hash (or None), or raised. */
  datatype ChainOutcome = ChainReturned(txHash: Option<string>) | ChainRaised

  datatype UploadResult = UploadResult(document: DocumentRow, ipfsHash: Option<string>,
                                       blockchainTxHash: Option<string>, verificationStatus: string)

  datatype VerifyReport = VerifyReport(documentId: int, isValid: bool, fileHash: string,
                                       storedHash: string, verificationStatus: string)

  const InvalidFile: string := "Invalid file type or size"
  const DocumentNotFound: string := "Document not found"
  const DocumentDeleted: string := "Document deleted successfully"
  const InternalError: string := "Internal Server Error"

  /** The IPFS hash kept: a raised call leaves it None. */
  function IpfsHashOf(o: IpfsOutcome): Option<string>
  {
    if o.IpfsStored? then o.hash else None
  }

  /** The transaction hash kept: a raised call leaves it None. */
  function TxHashOf(o: ChainOutcome): Option<string>
  {
    if o.ChainReturned? then o.txHash else None
  }

  /** "success" exactly when a truthy transaction hash came back. */
  function UploadStatus(tx: Option<string>): (s: string)
    ensures s == "success" <==> PyTruthy(tx)
    ensures s == "failed" <==> !PyTruthy(tx)
  {
    if PyTruthy(tx) then "success" else "failed"
  }

  /**
   * The document row as it stands after the upload: owned by the uploader,
   * size and type from the upload, the saved file's hash, and the IPFS and
   * blockchain results. `is_verified` is set whenever the blockchain call
   * returned at all, so the two flags of an upload disagree when it returns
   * None: the row is marked verified while its "upload" record says failed.
   * A successful record always comes with a verified row.
   */
  function UploadedRow(id: nat, title: string, description: Option<string>, path: string, file: UploadInput,
                       fileHash: string, ipfs: IpfsOutcome, chain: ChainOutcome, ownerId: nat): (row: DocumentRow)
    ensures row.id == id && row.ownerId == ownerId && row.filePath == path && row.fileHash == fileHash
    ensures row.fileSize == file.size && row.fileType == file.contentType
    ensures UploadStatus(TxHashOf(chain)) == "success" ==> row.isVerified
    ensures chain == ChainReturned(None) ==> row.isVerified && UploadStatus(TxHashOf(chain)) == "failed"
    ensures chain == ChainRaised ==> !row.isVerified && row.blockchainTxHash.None?
    ensures ipfs == IpfsRaised ==> row.ipfsHash.None?
  {
    DocumentRow(id, title, description, path, file.size, file.contentType, fileHash,
                IpfsHashOf(ipfs), TxHashOf(chain), chain.ChainReturned?, ownerId)
  }

  /**
   * upload_document. An invalid file is refused with 400 before anything is
   * saved or stored. Otherwise the file is written to its save path, one
   * document row is added and one "upload" verification row follows it.
   */
  method UploadDocument(db: Db, dir: UploadDirectory, u: nat, title: string, description: Option<string>,
                        file: UploadInput, md5: string -> string, sha256: seq<bv8> -> string,
                        ipfs: IpfsOutcome, chain: ChainOutcome, now: int)
    returns (r: Response<UploadResult>)
    requires db.Valid() && db.IsCurrentUser(u)
    modifies db, dir
    ensures db.Valid() && db.users == old(db.users) && db.nextUserId == old(db.nextUserId)
    ensures !IsValidFile(file.size, file.filename) ==>
              && r == HttpError(400, InvalidFile)
              && db.documents == old(db.documents) && db.verifications == old(db.verifications)
              && db.nextDocumentId == old(db.nextDocumentId)
              && db.nextVerificationId == old(db.nextVerificationId)
              && dir.files == old(dir.files)
    ensures IsValidFile(file.size, file.filename) ==>
              var owner := old(db.users)[u].id;
              var path := SavePath(dir.uploadDir, file.filename, owner, md5);
              var doc := UploadedRow(old(db.nextDocumentId), title, description, path, file,
                                     sha256(file.contents), ipfs, chain, owner);
              var tx := TxHashOf(chain);
              && dir.files == old(dir.files)[path := file.contents]
              && db.nextDocumentId == old(db.nextDocumentId) + 1
              && db.nextVerificationId == old(db.nextVerificationId) + 1
              && db.documents == old(db.documents) + [doc]
              && db.verifications == old(db.verifications) +
                   [VerificationRow(old(db.nextVerificationId), doc.id, owner, "upload", UploadStatus(tx),
                                    tx, IpfsHashOf(ipfs), None, now)]
              && r == Ok(UploadResult(doc, IpfsHashOf(ipfs), tx, UploadStatus(tx)))
  {
    if !IsValidFile(file.size, file.filename) {
      return HttpError(400, InvalidFile);
    }
    var owner := db.users[u].id;
    var filePath := dir.SaveFile(file.contents, file.filename, owner, md5);
    var fileHash := sha256(dir.files[filePath]);
    var document := DocumentRow(0, title, description, filePath, file.size, file.contentType,
                                fileHash, None, None, false, owner);
    var ipfsHash: Option<string> := None;
    if ipfs.IpfsStored? {
      ipfsHash := ipfs.hash;
      document := document.(ipfsHash := ipfsHash);
    }
    var blockchainTxHash: Option<string> := None;
    if chain.ChainReturned? {
      blockchainTxHash := chain.txHash;
      document := document.(blockchainTxHash := blockchainTxHash, isVerified := true);
    }
    document := db.AddDocument(document);
    var status := UploadStatus(blockchainTxHash);
    var _ := db.AddVerification(document.id, owner, "upload", status, blockchainTxHash, ipfsHash, None, now);
    r := Ok(UploadResult(document, ipfsHash, blockchainTxHash, status));
  }

  /** list_documents: the owner's rows, skip then limit. */
  function ListDocuments(docs: seq<DocumentRow>, ownerId: nat, skip: nat, limit: nat): (r: seq<DocumentRow>)
    ensures |r| <= limit
    ensures forall i :: 0 <= i < |r| ==> r[i] in docs && r[i].ownerId == ownerId
    ensures skip == 0 && |OwnedBy(docs, ownerId)| <= limit ==> r == OwnedBy(docs, ownerId)
  {
    PageBounds(OwnedBy(docs, ownerId), skip, limit);
    Page(OwnedBy(docs, ownerId), skip, limit)
  }

  /** Walking the list page after page misses no row and repeats none. */
  lemma ListPagesTile(docs: seq<DocumentRow>, ownerId: nat, skip: nat, a: nat, b: nat)
    ensures ListDocuments(docs, ownerId, skip, a) + ListDocuments(docs, ownerId, skip + a, b) ==
            ListDocuments(docs, ownerId, skip, a + b)
  {
    PagesTile(OwnedBy(docs, ownerId), skip, a, b);
  }

  /** get_document: the first row with this id owned by this user, or 404. */
  function GetDocument(docs: seq<DocumentRow>, ownerId: nat, docId: int): (r: Response<DocumentRow>)
    ensures r.HttpError? ==> r == HttpError(404, DocumentNotFound)
    ensures r.HttpError? <==> forall i :: 0 <= i < |docs| ==> !(docs[i].id == docId && docs[i].ownerId == ownerId)
    ensures r.Ok? ==> r.value in docs && r.value.id == docId && r.value.ownerId == ownerId
  {
    var k := FindOwned(docs, docId, ownerId);
    if k.None? then HttpError(404, DocumentNotFound) else Ok(docs[k.value])
  }

  /** Another user's document is answered exactly like a missing one. */
  lemma OthersDocumentsHidden(docs: seq<DocumentRow>, ownerId: nat, docId: int)
    requires forall i :: 0 <= i < |docs| && docs[i].id == docId ==> docs[i].ownerId != ownerId
    ensures GetDocument(docs, ownerId, docId) == HttpError(404, DocumentNotFound)
  {
  }

  /** Right after an upload the new row is what get_document returns for its id. */
  lemma GetAfterUpload(docs: seq<DocumentRow>, doc: DocumentRow, nextId: nat)
    requires forall i :: 0 <= i < |docs| ==> docs[i].id < nextId
    requires doc.id == nextId
    ensures GetDocument(docs + [doc], doc.ownerId, doc.id) == Ok(doc)
  {
    var all := docs + [doc];
    var k := FindOwned(all, doc.id, doc.ownerId);
    assert all[|docs|] == doc;
    assert k.value == |docs| by {
      assert all[k.value].id == nextId;
    }
  }

  /** Some verification row points at this document. */
  predicate Referenced(verifs: seq<VerificationRow>, docId: int)
  {
    exists i :: 0 <= i < |verifs| && verifs[i].documentId == docId
  }

  /** Keeps the verification rows of every document but this one. */
  function NotOfDocument(docId: int): VerificationRow -> bool
  {
    (v: VerificationRow) => v.documentId != docId
  }

  /**
   * delete_document as written: 404 unless the user owns a row with this id.
   * Otherwise the file is removed first (a missing file is ignored). The
   * Document-to-Verification relationship has no delete cascade, so deleting
   * a document that has verification rows makes the ORM set their
   * document_id, a NOT NULL column, to NULL: the commit fails, nothing is
   * written and the request answers 500. Only an unreferenced row is deleted.
   */
  method DeleteDocument(db: Db, dir: UploadDirectory, u: nat, docId: int) returns (r: Response<string>)
    requires db.Valid() && db.IsCurrentUser(u)
    modifies db, dir
    ensures db.Valid()
    ensures db.users == old(db.users) && db.verifications == old(db.verifications)
    ensures db.nextUserId == old(db.nextUserId) && db.nextDocumentId == old(db.nextDocumentId)
    ensures db.nextVerificationId == old(db.nextVerificationId)
    ensures FindOwned(old(db.documents), docId, old(db.users)[u].id).None? ==>
              && r == HttpError(404, DocumentNotFound)
              && db.documents == old(db.documents) && dir.files == old(dir.files)
    ensures FindOwned(old(db.documents), docId, old(db.users)[u].id).Some? ==>
              var k := FindOwned(old(db.documents), docId, old(db.users)[u].id).value;
              && dir.files == old(dir.files) - {old(db.documents)[k].filePath}
              && (Referenced(old(db.verifications), docId) ==>
                    r == HttpError(500, InternalError) && db.documents == old(db.documents))
              && (!Referenced(old(db.verifications), docId) ==>
                    r == Ok(DocumentDeleted) && db.documents == Without(old(db.documents), k))
  {
    var found := FindOwned(db.documents, docId, db.users[u].id);
    if found.None? {
      return HttpError(404, DocumentNotFound);
    }
    var k := found.value;
    dir.files := dir.files - {db.documents[k].filePath};
    if Referenced(db.verifications, docId) {
      return HttpError(500, InternalError);
    }
    db.documents := Without(db.documents, k);
    r := Ok(DocumentDeleted);
  }

  /**
   * Every upload writes an "upload" verification row for its document, so
   * deleting a document right after uploading it fails with 500: the row
   * stays, while its file is already gone.
   */
  method UploadThenDeleteFails(db: Db, dir: UploadDirectory, u: nat, title: string, description: Option<string>,
                               file: UploadInput, md5: string -> string, sha256: seq<bv8> -> string,
                               ipfs: IpfsOutcome, chain: ChainOutcome, now: int)
    returns (uploaded: Response<UploadResult>, deleted: Response<string>)
    requires db.Valid() && db.IsCurrentUser(u)
    requires IsValidFile(file.size, file.filename)
    modifies db, dir
    ensures uploaded.Ok? && deleted == HttpError(500, InternalError)
    ensures uploaded.value.document in db.documents
    ensures uploaded.value.document.filePath !in dir.files
  {
    uploaded := UploadDocument(db, dir, u, title, description, file, md5, sha256, ipfs, chain, now);
    var doc := uploaded.value.document;
    ghost var docs := db.documents;
    ghost var owner := db.users[u].id;
    assert Referenced(db.verifications, doc.id) by {
      assert db.verifications[|db.verifications| - 1].documentId == doc.id;
    }
    assert FindOwned(docs, doc.id, owner).Some? by {
      assert docs[|docs| - 1] == doc && doc.ownerId == owner;
    }
    deleted := DeleteDocument(db, dir, u, doc.id);
    assert docs[|docs| - 1] == doc;
  }

  /**
   * delete_document as evidently intended: the document's verification rows
   * go with it (a delete cascade), so the delete succeeds and leaves no row
   * pointing at the removed document.
   */
  method DeleteDocumentCascade(db: Db, dir: UploadDirectory, u: nat, docId: int) returns (r: Response<string>)
    requires db.Valid() && db.IsCurrentUser(u)
    modifies db, dir
    ensures db.Valid()
    ensures db.users == old(db.users)
    ensures db.nextUserId == old(db.nextUserId) && db.nextDocumentId == old(db.nextDocumentId)
    ensures db.nextVerificationId == old(db.nextVerificationId)
    ensures FindOwned(old(db.documents), docId, old(db.users)[u].id).None? ==>
              && r == HttpError(404, DocumentNotFound)
              && db.documents == old(db.documents) && db.verifications == old(db.verifications)
              && dir.files == old(dir.files)
    ensures FindOwned(old(db.documents), docId, old(db.users)[u].id).Some? ==>
              var k := FindOwned(old(db.documents), docId, old(db.users)[u].id).value;
              && r == Ok(DocumentDeleted)
              && db.documents == Without(old(db.documents), k)
              && db.verifications == Filter(NotOfDocument(docId), old(db.verifications))
              && !Referenced(db.verifications, docId)
              && dir.files == old(dir.files) - {old(db.documents)[k].filePath}
  {
    var found := FindOwned(db.documents, docId, db.users[u].id);
    if found.None? {
      return HttpError(404, DocumentNotFound);
    }
    var k := found.value;
    dir.files := dir.files - {db.documents[k].filePath};
    db.verifications := Filter(NotOfDocument(docId), db.verifications);
    db.documents := Without(db.documents, k);
    r := Ok(DocumentDeleted);
  }

  /** After a delete, the row is gone: get_document answers 404 for it. */
  lemma DeleteThenGet(docs: seq<DocumentRow>, ownerId: nat, docId: int)
    requires DistinctDocumentIds(docs)
    requires FindOwned(docs, docId, ownerId).Some?
    ensures var k := FindOwned(docs, docId, ownerId).value;
      GetDocument(Without(docs, k), ownerId, docId) == HttpError(404, DocumentNotFound)
  {
    var k := FindOwned(docs, docId, ownerId).value;
    var rest := Without(docs, k);
    forall i | 0 <= i < |rest| ensures rest[i].id != docId {
      var j := if i < k then i else i + 1;
      assert rest[i] == docs[j];
    }
  }

  /** The stored hash check of verify_document: the file at the row's path still hashes to the stored hash. */
  predicate HashMatches(files: map<string, seq<bv8>>, doc: DocumentRow, sha256: seq<bv8> -> string)
    requires doc.filePath in files
  {
    sha256(files[doc.filePath]) == doc.fileHash
  }

  /** The metadata of a "verify" record: `{"hash_match": True}` or `{"hash_match": False}`. */
  function HashMatchMetadata(valid: bool): string
  {
    "{\"hash_match\": " + (if valid then "True" else "False") + "}"
  }

  /**
   * verify_document: 404 unless owned; a file missing from disk makes the
   * hash computation raise (500, nothing written); otherwise exactly one
   * "verify" record is appended and the document row is left as it was.
   */
  method VerifyDocument(db: Db, dir: UploadDirectory, u: nat, docId: int, sha256: seq<bv8> -> string, now: int)
    returns (r: Response<VerifyReport>)
    requires db.Valid() && db.IsCurrentUser(u)
    modifies db
    ensures db.Valid()
    ensures db.users == old(db.users) && db.documents == old(db.documents)
    ensures db.nextUserId == old(db.nextUserId) && db.nextDocumentId == old(db.nextDocumentId)
    ensures db.nextVerificationId == old(db.nextVerificationId) + |db.verifications| - |old(db.verifications)|
    ensures var found := FindOwned(old(db.documents), docId, old(db.users)[u].id);
      && (found.None? ==> r == HttpError(404, DocumentNotFound) && db.verifications == old(db.verifications))
      && (found.Some? && old(db.documents)[found.value].filePath !in dir.files ==>
            r == HttpError(500, InternalError) && db.verifications == old(db.verifications))
      && (found.Some? && old(db.documents)[found.value].filePath in dir.files ==>
            var doc := old(db.documents)[found.value];
            var current := sha256(dir.files[doc.filePath]);
            var valid := HashMatches(dir.files, doc, sha256);
            var status := if valid then "success" else "failed";
            && r == Ok(VerifyReport(docId, valid, current, doc.fileHash, status))
            && db.verifications == old(db.verifications) +
                 [VerificationRow(old(db.nextVerificationId), doc.id, old(db.users)[u].id, "verify", status,
                                  None, None, Some(HashMatchMetadata(valid)), now)])
  {
    var found := FindOwned(db.documents, docId, db.users[u].id);
    if found.None? {
      return HttpError(404, DocumentNotFound);
    }
    var document := db.documents[found.value];
    if document.filePath !in dir.files {
      return HttpError(500, InternalError);
    }
    var currentHash := sha256(dir.files[document.filePath]);
    var isValid := currentHash == document.fileHash;
    var status := if isValid then "success" else "failed";
    var _ := db.AddVerification(document.id, db.users[u].id, "verify", status, None, None,
                                Some(HashMatchMetadata(isValid)), now);
    r := Ok(VerifyReport(docId, isValid, currentHash, document.fileHash, status));
  }

  /** The file an upload saves is the file its row's hash was taken of. */
  lemma UploadedFileMatches(files: map<string, seq<bv8>>, id: nat, title: string, description: Option<string>,
                            uploadDir: string, file: UploadInput, md5: string -> string,
                            sha256: seq<bv8> -> string, ipfs: IpfsOutcome, chain: ChainOutcome, ownerId: nat)
    ensures var path := SavePath(uploadDir, file.filename, ownerId, md5);
      var doc := UploadedRow(id, title, description, path, file, sha256(file.contents), ipfs, chain, ownerId);
      var after := files[path := file.contents];
      doc.filePath in after && HashMatches(after, doc, sha256)
  {
  }

  /**
   * Uploading another file under the same name overwrites the first one's
   * file, so the first document no longer verifies when the contents hash
   * differently.
   */
  lemma ReuploadBreaksEarlierDocument(files: map<string, seq<bv8>>, id: nat, title: string,
                                      description: Option<string>, uploadDir: string,
                                      first: UploadInput, second: UploadInput, md5: string -> string,
                                      sha256: seq<bv8> -> string, ipfs: IpfsOutcome, chain: ChainOutcome,
                                      ownerId: nat)
    requires first.filename == second.filename
    requires sha256(first.contents) != sha256(second.contents)
    ensures var path := SavePath(uploadDir, first.filename, ownerId, md5);
      var doc := UploadedRow(id, title, description, path, first, sha256(first.contents), ipfs, chain, ownerId);
      var after := files[path := first.contents][SavePath(uploadDir, second.filename, ownerId, md5) := second.contents];
      doc.filePath in after && !HashMatches(after, doc, sha256)
  {
  }
}
