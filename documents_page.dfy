/**
 * The "My Documents" view: loading the stored list (seeding two demo records
 * when the `documents` key is absent) and the case-insensitive search box.
 * `TypeName` is the display name of a document type code, shared with the
 * detail and history views, which declare the same mapping.
 */
module DocumentsPage {
  import opened Common
  import opened Storage

  const KnownTypeCodes: seq<string> := ["pan", "aadhar", "voter", "birth"]

  /** The display name of a type code; any other code is shown as given. */
  function TypeName(code: string): (name: string)
    ensures code in KnownTypeCodes <==> name != code
    ensures code == "pan" ==> name == "PAN Card"
    ensures code == "aadhar" ==> name == "Aadhar Card"
    ensures code == "voter" ==> name == "Voter ID"
    ensures code == "birth" ==> name == "Birth Certificate"
  {
    match code
    case "pan" => "PAN Card"
    case "aadhar" => "Aadhar Card"
    case "voter" => "Voter ID"
    case "birth" => "Birth Certificate"
    case _ => code
  }

  /**
   * The two demo records written when no list is stored yet: distinct ids,
   * one verified and one pending, both dated before now, newest first.
   */
  function SeedDocuments(now: Millis): (r: seq<DocumentRecord>)
    ensures |r| == 2 && r[0].id != r[1].id
    ensures r[0].status == Verified && r[1].status == Pending
    ensures r[1].uploadDate < r[0].uploadDate < now
  {
    [ DocumentRecord("doc-1", "pan", "ABCDE1234F", "2022-05-15", "pan_card.pdf",
                     None, None, now - 7 * MillisPerDay, Verified),
      DocumentRecord("doc-2", "aadhar", "1234 5678 9012", "2021-08-22", "aadhar_card.pdf",
                     None, None, now - 14 * MillisPerDay, Pending) ]
  }

  /**
   * What one run of the view's loader does to the store, as a value: the
   * list it shows and the store's contents afterwards.
   */
  function LoadDocuments(items: map<string, StoredValue>, now: Millis): (r: (seq<DocumentRecord>, map<string, StoredValue>))
    requires WellTyped(items)
    ensures WellTyped(r.1)
    ensures StoredDocuments(r.1) == Some(r.0)
    ensures forall k :: k in items && k != DocumentsKey ==> k in r.1 && r.1[k] == items[k]
    ensures r.1.Keys == items.Keys + {DocumentsKey}
  {
    if DocumentsKey in items then (items[DocumentsKey].docs, items)
    else (SeedDocuments(now), items[DocumentsKey := DocumentList(SeedDocuments(now))])
  }

  /**
   * With the key absent exactly two records are stored and shown: doc-1
   * (pan, verified) uploaded a week ago and doc-2 (aadhar, pending) two weeks
   * ago, so the seed is newest first rather than in ascending upload order.
   */
  lemma SeedWhenAbsent(items: map<string, StoredValue>, now: Millis)
    requires WellTyped(items) && DocumentsKey !in items
    ensures var (shown, after) := LoadDocuments(items, now);
      && |shown| == 2
      && StoredDocuments(after) == Some(shown)
      && shown[0].id == "doc-1" && shown[0].docType == "pan" && shown[0].status == Verified
      && shown[0].documentId == "ABCDE1234F"
      && shown[1].id == "doc-2" && shown[1].docType == "aadhar" && shown[1].status == Pending
      && shown[1].documentId == "1234 5678 9012"
      && shown[0].uploadDate == now - 7 * MillisPerDay
      && shown[1].uploadDate == now - 14 * MillisPerDay
      && shown[0].uploadDate > shown[1].uploadDate
  {
  }

  /** With the key present the stored list is shown unchanged and nothing is written. */
  lemma LoadReadsStoredList(items: map<string, StoredValue>, now: Millis)
    requires WellTyped(items) && DocumentsKey in items
    ensures LoadDocuments(items, now) == (items[DocumentsKey].docs, items)
  {
  }

  /** A second load, at any later time, neither reseeds nor duplicates. */
  lemma LoadIdempotent(items: map<string, StoredValue>, now1: Millis, now2: Millis)
    requires WellTyped(items)
    ensures LoadDocuments(LoadDocuments(items, now1).1, now2) == LoadDocuments(items, now1)
  {
  }

  /**
   * The search predicate: the lower-cased term occurs in the lower-cased
   * display type name, document number or file name.
   */
  predicate Matches(d: DocumentRecord, term: string)
    ensures term == "" ==> Matches(d, term)
    ensures ToLower(term) == ToLower(d.documentId) ==> Matches(d, term)
    ensures ToLower(term) == ToLower(d.fileName) ==> Matches(d, term)
  {
    var t := ToLower(term);
    || Contains(ToLower(TypeName(d.docType)), t)
    || Contains(ToLower(d.documentId), t)
    || Contains(ToLower(d.fileName), t)
  }

  /** The list the view shows for a search term. */
  function Search(docs: seq<DocumentRecord>, term: string): (r: seq<DocumentRecord>)
    ensures IsSubsequence(r, docs)
    ensures forall i :: 0 <= i < |r| ==> r[i] in docs && Matches(r[i], term)
    ensures forall i :: 0 <= i < |docs| && Matches(docs[i], term) ==> docs[i] in r
    ensures forall x :: multiset(r)[x] == if Matches(x, term) then multiset(docs)[x] else 0
  {
    FilterIsSubsequence(d => Matches(d, term), docs);
    FilterMultiplicity(d => Matches(d, term), docs);
    Filter(d => Matches(d, term), docs)
  }

  /** The empty search term shows every loaded record, in order. */
  lemma EmptyTermShowsAll(docs: seq<DocumentRecord>)
    ensures Search(docs, "") == docs
  {
    forall i | 0 <= i < |docs| ensures Matches(docs[i], "") {
      EmptyIsContained(ToLower(TypeName(docs[i].docType)));
    }
    FilterKeepsAll(d => Matches(d, ""), docs);
  }

  /** Searching is case-insensitive in the term. */
  lemma SearchIgnoresTermCase(docs: seq<DocumentRecord>, term: string)
    ensures Search(docs, ToLower(term)) == Search(docs, term)
  {
    assert ToLower(ToLower(term)) == ToLower(term);
    FilterAgreeing(d => Matches(d, ToLower(term)), d => Matches(d, term), docs);
  }

  /** The state of the view. */
  class DocumentsView {
    var documents: seq<DocumentRecord>
    var searchTerm: string
    var isLoading: bool

    constructor ()
      ensures documents == [] && searchTerm == "" && isLoading
    {
      documents, searchTerm, isLoading := [], "", true;
    }

    /** fetchDocuments, run when the view is mounted. */
    method FetchDocuments(store: LocalStorage, now: Millis)
      requires store.Valid()
      modifies this, store
      ensures store.Valid()
      ensures (documents, store.items) == LoadDocuments(old(store.items), now)
      ensures !isLoading && searchTerm == old(searchTerm)
    {
      isLoading := true;
      if DocumentsKey in store.items {
        documents := store.items[DocumentsKey].docs;
      } else {
        var mock := SeedDocuments(now);
        store.SetItem(DocumentsKey, DocumentList(mock));
        documents := mock;
      }
      isLoading := false;
    }

    /** A new search term; the documents and the store stay as they are. */
    method SetSearchTerm(term: string)
      modifies this
      ensures searchTerm == term && documents == old(documents) && isLoading == old(isLoading)
    {
      searchTerm := term;
    }

    /** filteredDocuments: computed from the state, which it does not change. */
    function FilteredDocuments(): seq<DocumentRecord>
      reads this
    {
      Search(documents, searchTerm)
    }
  }
}
