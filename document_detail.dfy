/**
 * The document detail view: the record whose id is the route parameter is
 * looked up in the stored list (read only; "not found" is an ordinary
 * outcome), and mock blockchain data is made up for verified records.
 */
module DocumentDetailPage {
  import opened Common
  import opened Storage
  import DocumentsPage

  /** The first record whose id is `id` (Array.prototype.find). */
  function FindById(docs: seq<DocumentRecord>, id: string): (r: Option<DocumentRecord>)
    ensures r.None? <==> forall i :: 0 <= i < |docs| ==> docs[i].id != id
    ensures r.Some? ==> exists i :: 0 <= i < |docs| && docs[i] == r.value && r.value.id == id &&
                                    forall j :: 0 <= j < i ==> docs[j].id != id
  {
    if docs == [] then None
    else if docs[0].id == id then Some(docs[0])
    else
      var r := FindById(docs[1..], id);
      assert r.Some? ==> exists i :: 0 <= i < |docs[1..]| && docs[1..][i] == r.value && r.value.id == id &&
                                    forall j :: 0 <= j < i ==> docs[1..][j].id != id;
      assert r.Some? ==> exists i :: 1 <= i < |docs| && docs[i] == r.value && r.value.id == id &&
                                    forall j :: 0 <= j < i ==> docs[j].id != id;
      r
  }

  /** The lookup against the store: an absent list finds nothing. */
  function Lookup(items: map<string, StoredValue>, id: string): Option<DocumentRecord>
    requires WellTyped(items)
  {
    if DocumentsKey in items then FindById(items[DocumentsKey].docs, id) else None
  }

  /** The mock blockchain record shown beside a verified document. */
  datatype VerificationData = VerificationData(
    blockchainId: string,
    timestamp: Millis,
    networkName: string,
    hash: string,
    verifiedBy: string)

  /** s.substring(0, n) for n >= 0. */
  function Take(s: string, n: nat): (r: string)
    ensures |r| <= n && r <= s
    ensures |s| <= n ==> r == s
  {
    if |s| <= n then s else s[..n]
  }

  /**
   * `randomHex1` and `randomHex2` are the hexadecimal digits behind "0." in
   * `Math.random().toString(16)` for the two draws; `substring(2, k)` keeps
   * the first k - 2 of them.
   */
  function MockVerification(now: Millis, randomHex1: string, randomHex2: string): (v: VerificationData)
    ensures v.networkName == "Ethereum Mainnet" && v.verifiedBy == "Digital Shadow Authority"
    ensures "0x" <= v.blockchainId && |v.blockchainId| <= 12
    ensures "0x" <= v.hash && |v.hash| <= 66
    ensures v.timestamp == now
  {
    VerificationData("0x" + Take(randomHex1, 10), now, "Ethereum Mainnet",
                     "0x" + Take(randomHex2, 64), "Digital Shadow Authority")
  }

  /** What the view renders for its state. */
  datatype Screen = Loading | NotFound | Detail(doc: DocumentRecord, verification: Option<VerificationData>)

  /** A route parameter is used only when it is present and non-empty (`if (!id) return`). */
  predicate RouteIdGiven(routeId: Option<string>)
  {
    routeId.Some? && routeId.value != ""
  }

  class DocumentDetailView {
    var document: Option<DocumentRecord>
    var verificationData: Option<VerificationData>
    var isLoading: bool

    constructor ()
      ensures document.None? && verificationData.None? && isLoading
    {
      document, verificationData, isLoading := None, None, true;
    }

    function View(): Screen
      reads this
    {
      if isLoading then Loading
      else if document.None? then NotFound
      else Detail(document.value, verificationData)
    }

    /**
     * The effect run for a route id. Without an id nothing happens. Otherwise
     * a found record replaces `document` (and, when verified, a fresh mock
     * verification replaces `verificationData`); a miss leaves both as they
     * were. The store is only read.
     */
    method FetchDocument(routeId: Option<string>, store: LocalStorage, now: Millis,
                         randomHex1: string, randomHex2: string)
      requires store.Valid()
      modifies this
      ensures !RouteIdGiven(routeId) ==>
                document == old(document) && verificationData == old(verificationData) &&
                isLoading == old(isLoading)
      ensures RouteIdGiven(routeId) ==> !isLoading
      ensures RouteIdGiven(routeId) ==>
                match Lookup(store.items, routeId.value)
                case None =>
                  document == old(document) && verificationData == old(verificationData)
                case Some(d) =>
                  && document == Some(d)
                  && verificationData == (if d.status == Verified
                                          then Some(MockVerification(now, randomHex1, randomHex2))
                                          else old(verificationData))
    {
      if !RouteIdGiven(routeId) {
        return;
      }
      var id := routeId.value;
      isLoading := true;
      if DocumentsKey in store.items {
        var parsedDocs := store.items[DocumentsKey].docs;
        var foundDoc := FindById(parsedDocs, id);
        if foundDoc.Some? {
          document := foundDoc;
          if foundDoc.value.status == Verified {
            verificationData := Some(MockVerification(now, randomHex1, randomHex2));
          }
        }
      }
      isLoading := false;
    }
  }

  /**
   * The seeded store serves the detail view: a record appended after seeding
   * is found by its id, an unknown id is not found, and neither lookup fails.
   */
  lemma EndToEndScenario(now: Millis, doc3: DocumentRecord)
    requires doc3.id == "doc-3" && doc3.docType == "voter" && doc3.status == Pending
    ensures var (seeded, items1) := DocumentsPage.LoadDocuments(map[], now);
      && |seeded| == 2 && seeded[0].docType == "pan" && seeded[1].docType == "aadhar"
      && var items2 := AppendDocument(items1, doc3);
      && var (shown, _) := DocumentsPage.LoadDocuments(items2, now);
      && |shown| == 3 && shown[2] == doc3
      && Lookup(items2, "doc-3") == Some(doc3)
      && Lookup(items2, "doc-404").None?
  {
    var (seeded, items1) := DocumentsPage.LoadDocuments(map[], now);
    var items2 := AppendDocument(items1, doc3);
    assert items2[DocumentsKey].docs == seeded + [doc3];
    assert FindById(seeded + [doc3], "doc-3") == Some(doc3) by {
      assert FindById([doc3], "doc-3") == Some(doc3);
      assert [seeded[1], doc3][1..] == [doc3];
      assert FindById([seeded[1], doc3], "doc-3") == Some(doc3);
      assert (seeded + [doc3])[1..] == [seeded[1], doc3];
    }
  }

  /** Absent list, or no record with the id: the not-found view, never an error. */
  lemma MissIsNotFound(items: map<string, StoredValue>, id: string)
    requires WellTyped(items)
    requires DocumentsKey !in items || forall i :: 0 <= i < |items[DocumentsKey].docs| ==> items[DocumentsKey].docs[i].id != id
    ensures Lookup(items, id).None?
  {
  }
}
