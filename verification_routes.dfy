/**
 * The verification endpoints: the user's history (newest first, paged,
 * with the full count), one document's history, verification against the
 * blockchain (whose answer is a parameter) and the per-user counts.
 */
module VerificationRoutes {
  import opened Common
  import opened Database

  datatype HistoryPage = HistoryPage(verifications: seq<VerificationRow>, totalCount: nat)

  /** What `blockchain_service.verify_document_hash` did: answered, or raised with a message. */
  datatype ChainCheck = CheckReturned(valid: bool) | CheckRaised(error: string)

  datatype BlockchainReport = BlockchainReport(documentId: int, blockchainVerified: bool,
                                               transactionHash: string, verificationStatus: string)

  datatype VerificationStats = VerificationStats(
    totalVerifications: nat,
    successfulVerifications: nat,
    failedVerifications: nat,
    successRate: real,
    totalDocuments: nat,
    verifiedDocuments: nat,
    verificationCoverage: real)

  const DocumentNotFound: string := "Document not found"
  const NotOnChain: string := "Document not stored on blockchain"
  const ChainFailurePrefix: string := "Blockchain verification failed: "

  /** `order_by(created_at.desc())` as an ascending sort on the negated time. */
  function NegCreatedAt(v: VerificationRow): int
  {
    -v.createdAt
  }

  function ByUser(userId: nat): VerificationRow -> bool
  {
    (v: VerificationRow) => v.userId == userId
  }

  function ByDocument(docId: int): VerificationRow -> bool
  {
    (v: VerificationRow) => v.documentId == docId
  }

  function ByUserAndStatus(userId: nat, status: string): VerificationRow -> bool
  {
    (v: VerificationRow) => v.userId == userId && v.status == status
  }

  /** The rows chosen by `p`, newest first; rows created at the same time keep table order. */
  function NewestFirst(p: VerificationRow -> bool, verifs: seq<VerificationRow>): (r: seq<VerificationRow>)
    ensures multiset(r) == multiset(Filter(p, verifs))
    ensures forall i, j :: 0 <= i < j < |r| ==> r[i].createdAt >= r[j].createdAt
    ensures forall i :: 0 <= i < |r| ==> r[i] in verifs && p(r[i])
    ensures forall i :: 0 <= i < |verifs| && p(verifs[i]) ==> verifs[i] in r
  {
    var chosen := Filter(p, verifs);
    SortByKeyCorrect(chosen, NegCreatedAt);
    var r := SortByKey(chosen, NegCreatedAt);
    SameElements(r, chosen);
    DescendingTimes(r);
    r
  }

  lemma DescendingTimes(r: seq<VerificationRow>)
    requires SortedBy(r, NegCreatedAt)
    ensures forall i, j :: 0 <= i < j < |r| ==> r[i].createdAt >= r[j].createdAt
  {
    forall i, j | 0 <= i < j < |r| ensures r[i].createdAt >= r[j].createdAt {
      assert NegCreatedAt(r[i]) <= NegCreatedAt(r[j]);
    }
  }

  /**
   * get_verification_history: the user's rows, newest first, skip then
   * limit; the count is of all of the user's rows, whatever the page.
   */
  function History(verifs: seq<VerificationRow>, userId: nat, skip: nat, limit: nat): (r: HistoryPage)
    ensures r.totalCount == |Filter(ByUser(userId), verifs)|
    ensures |r.verifications| <= limit && |r.verifications| <= r.totalCount
    ensures |r.verifications| == if skip >= r.totalCount then 0 else Min(limit, r.totalCount - skip)
    ensures forall i :: 0 <= i < |r.verifications| ==> r.verifications[i] in verifs && r.verifications[i].userId == userId
    ensures forall i, j :: 0 <= i < j < |r.verifications| ==> r.verifications[i].createdAt >= r.verifications[j].createdAt
  {
    var sorted := NewestFirst(ByUser(userId), verifs);
    assert |sorted| == |multiset(sorted)| == |Filter(ByUser(userId), verifs)|;
    var page := Page(sorted, skip, limit);
    PageBounds(sorted, skip, limit);
    HistoryPage(page, |Filter(ByUser(userId), verifs)|)
  }

  /**
   * Offset paging loses and repeats nothing: a page of a rows followed by
   * the page that starts where it ended is the page of a + b rows.
   */
  lemma {:induction false} HistoryPagesTile(verifs: seq<VerificationRow>, userId: nat, skip: nat, a: nat, b: nat)
    ensures History(verifs, userId, skip, a).verifications + History(verifs, userId, skip + a, b).verifications
         == History(verifs, userId, skip, a + b).verifications
  {
    PagesTile(NewestFirst(ByUser(userId), verifs), skip, a, b);
  }

  /** A first page at least as long as the history holds all of the user's rows. */
  lemma FirstPageIsWholeHistory(verifs: seq<VerificationRow>, userId: nat, limit: nat)
    requires |Filter(ByUser(userId), verifs)| <= limit
    ensures var h := History(verifs, userId, 0, limit);
      |h.verifications| == h.totalCount &&
      multiset(h.verifications) == multiset(Filter(ByUser(userId), verifs)) &&
      forall i :: 0 <= i < |verifs| && verifs[i].userId == userId ==> verifs[i] in h.verifications
  {
    var sorted := NewestFirst(ByUser(userId), verifs);
    assert |sorted| == |multiset(sorted)| == |Filter(ByUser(userId), verifs)|;
    assert Page(sorted, 0, limit) == sorted;
  }

  /**
   * get_document_verification_history: 404 unless the user owns the
   * document; otherwise every record of that document, newest first,
   * including records other users made.
   */
  function DocumentHistory(docs: seq<DocumentRow>, verifs: seq<VerificationRow>, ownerId: nat, docId: int)
    : (r: Response<seq<VerificationRow>>)
    ensures r.HttpError? ==> r == HttpError(404, DocumentNotFound)
    ensures r.HttpError? <==> FindOwned(docs, docId, ownerId).None?
    ensures r.Ok? ==>
              && multiset(r.value) == multiset(Filter(ByDocument(docId), verifs))
              && (forall i :: 0 <= i < |r.value| ==> r.value[i] in verifs && r.value[i].documentId == docId)
              && (forall i :: 0 <= i < |verifs| && verifs[i].documentId == docId ==> verifs[i] in r.value)
              && (forall i, j :: 0 <= i < j < |r.value| ==> r.value[i].createdAt >= r.value[j].createdAt)
  {
    if FindOwned(docs, docId, ownerId).None? then HttpError(404, DocumentNotFound)
    else Ok(NewestFirst(ByDocument(docId), verifs))
  }

  /** Python's rendering of a bool inside the metadata text. */
  function PyBool(b: bool): string
  {
    if b then "True" else "False"
  }

  /** The metadata of a "blockchain_verify" record that got an answer. */
  function ChainMetadata(valid: bool): string
  {
    "{\"blockchain_verified\": " + PyBool(valid) + "}"
  }

  /** The metadata of a "blockchain_verify" record whose check raised. */
  function ErrorMetadata(error: string): string
  {
    "{\"error\": \"" + error + "\"}"
  }

  /** The status recorded on one blockchain check. */
  function ChainStatus(check: ChainCheck): (s: string)
    ensures s == "success" <==> check == CheckReturned(true)
    ensures s == "failed" <==> check != CheckReturned(true)
  {
    if check.CheckReturned? && check.valid then "success" else "failed"
  }

  /**
   * verify_document_on_blockchain: 404 unless owned and 400 without a
   * transaction hash, neither writing anything; past those checks exactly
   * one "blockchain_verify" record is written, on the normal path and on the
   * raised path alike, and the raised path then answers 500.
   */
  method VerifyOnBlockchain(db: Db, u: nat, docId: int, check: ChainCheck, now: int)
    returns (r: Response<BlockchainReport>)
    requires db.Valid() && db.IsCurrentUser(u)
    modifies db
    ensures db.Valid()
    ensures db.users == old(db.users) && db.documents == old(db.documents)
    ensures db.nextUserId == old(db.nextUserId) && db.nextDocumentId == old(db.nextDocumentId)
    ensures db.nextVerificationId == old(db.nextVerificationId) + |db.verifications| - |old(db.verifications)|
    ensures var found := FindOwned(old(db.documents), docId, old(db.users)[u].id);
      && (found.None? ==> r == HttpError(404, DocumentNotFound) && db.verifications == old(db.verifications))
      && (found.Some? && !PyTruthy(old(db.documents)[found.value].blockchainTxHash) ==>
            r == HttpError(400, NotOnChain) && db.verifications == old(db.verifications))
      && (found.Some? && PyTruthy(old(db.documents)[found.value].blockchainTxHash) ==>
            var doc := old(db.documents)[found.value];
            var metadata := match check
              case CheckReturned(valid) => ChainMetadata(valid)
              case CheckRaised(e) => ErrorMetadata(e);
            && db.verifications == old(db.verifications) +
                 [VerificationRow(old(db.nextVerificationId), doc.id, old(db.users)[u].id, "blockchain_verify",
                                  ChainStatus(check), doc.blockchainTxHash, None, Some(metadata), now)]
            && r == match check
                 case CheckReturned(valid) =>
                   Ok(BlockchainReport(docId, valid, doc.blockchainTxHash.value, ChainStatus(check)))
                 case CheckRaised(e) => HttpError(500, ChainFailurePrefix + e))
  {
    var found := FindOwned(db.documents, docId, db.users[u].id);
    if found.None? {
      return HttpError(404, DocumentNotFound);
    }
    var document := db.documents[found.value];
    if !PyTruthy(document.blockchainTxHash) {
      return HttpError(400, NotOnChain);
    }
    var userId := db.users[u].id;
    match check {
      case CheckReturned(isValid) =>
        var status := if isValid then "success" else "failed";
        var _ := db.AddVerification(document.id, userId, "blockchain_verify", status,
                                    document.blockchainTxHash, None, Some(ChainMetadata(isValid)), now);
        r := Ok(BlockchainReport(docId, isValid, document.blockchainTxHash.value, status));
      case CheckRaised(e) =>
        var _ := db.AddVerification(document.id, userId, "blockchain_verify", "failed",
                                    document.blockchainTxHash, None, Some(ErrorMetadata(e)), now);
        r := HttpError(500, ChainFailurePrefix + e);
    }
  }

  /** Document.is_verified, the flag the coverage counts. */
  predicate IsVerified(d: DocumentRow)
  {
    d.isVerified
  }

  /** A percentage of a part in a whole; 0 for an empty whole. */
  function Rate(part: nat, whole: nat): (r: real)
    requires part <= whole
    ensures 0.0 <= r <= 100.0
    ensures whole == 0 ==> r == 0.0
    ensures whole > 0 && part == whole ==> r == 100.0
    ensures whole > 0 ==> r * whole as real == part as real * 100.0
  {
    if whole == 0 then 0.0
    else
      assert part as real / whole as real <= 1.0 by {
        assert part as real <= whole as real;
      }
      part as real / whole as real * 100.0
  }

  /**
   * get_verification_stats: the five counts, and the two percentages taken
   * over them. Successful and failed are disjoint parts of the total, and
   * verified documents a part of the user's documents.
   */
  function Stats(docs: seq<DocumentRow>, verifs: seq<VerificationRow>, userId: nat): (r: VerificationStats)
    ensures r.totalVerifications == |Filter(ByUser(userId), verifs)|
    ensures r.successfulVerifications == |Filter(ByUserAndStatus(userId, "success"), verifs)|
    ensures r.failedVerifications == |Filter(ByUserAndStatus(userId, "failed"), verifs)|
    ensures r.totalDocuments == |OwnedBy(docs, userId)|
    ensures r.verifiedDocuments == |Filter(IsVerified, OwnedBy(docs, userId))|
    ensures r.successfulVerifications + r.failedVerifications <= r.totalVerifications
    ensures r.verifiedDocuments <= r.totalDocuments
    ensures r.successRate == Rate(r.successfulVerifications, r.totalVerifications)
    ensures r.verificationCoverage == Rate(r.verifiedDocuments, r.totalDocuments)
    ensures 0.0 <= r.successRate <= 100.0 && 0.0 <= r.verificationCoverage <= 100.0
    ensures r.totalVerifications == 0 ==> r.successRate == 0.0
    ensures r.totalDocuments == 0 ==> r.verificationCoverage == 0.0
  {
    var total := |Filter(ByUser(userId), verifs)|;
    var successful := |Filter(ByUserAndStatus(userId, "success"), verifs)|;
    var failed := |Filter(ByUserAndStatus(userId, "failed"), verifs)|;
    FilterCountDisjoint(ByUser(userId), ByUserAndStatus(userId, "success"), ByUserAndStatus(userId, "failed"), verifs);
    var owned := OwnedBy(docs, userId);
    var verified := |Filter(IsVerified, owned)|;
    VerificationStats(total, successful, failed, Rate(successful, total), |owned|, verified, Rate(verified, |owned|))
  }

  /**
   * Writing one record moves the counts by exactly that record: the total
   * grows when it is the user's, and the successful or failed count grows
   * with it according to its status.
   */
  lemma StatsAfterRecord(docs: seq<DocumentRow>, verifs: seq<VerificationRow>, row: VerificationRow, userId: nat)
    ensures var before := Stats(docs, verifs, userId);
      var after := Stats(docs, verifs + [row], userId);
      && after.totalVerifications == before.totalVerifications + (if row.userId == userId then 1 else 0)
      && after.successfulVerifications ==
           before.successfulVerifications + (if row.userId == userId && row.status == "success" then 1 else 0)
      && after.failedVerifications ==
           before.failedVerifications + (if row.userId == userId && row.status == "failed" then 1 else 0)
      && after.totalDocuments == before.totalDocuments && after.verifiedDocuments == before.verifiedDocuments
  {
    FilterConcat(ByUser(userId), verifs, [row]);
    FilterConcat(ByUserAndStatus(userId, "success"), verifs, [row]);
    FilterConcat(ByUserAndStatus(userId, "failed"), verifs, [row]);
  }

  /** A failed blockchain check counts as a failed verification of the user. */
  lemma RaisedCheckCountsAsFailed(docs: seq<DocumentRow>, verifs: seq<VerificationRow>, row: VerificationRow, e: string)
    requires row.status == ChainStatus(CheckRaised(e))
    ensures var before := Stats(docs, verifs, row.userId);
      var after := Stats(docs, verifs + [row], row.userId);
      after.failedVerifications == before.failedVerifications + 1 &&
      after.successfulVerifications == before.successfulVerifications
  {
    StatsAfterRecord(docs, verifs, row, row.userId);
  }
}
