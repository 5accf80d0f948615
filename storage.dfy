/**
 * The browser's localStorage as the client-side record store: a map from key
 * to the value that was JSON-serialised under it. Serialisation itself is not
 * modelled; each value is kept as the structure the views read back.
 */
module Storage {
  import opened Common

  // Keys the views use.
  const DocumentsKey: string := "documents"
  const HistoryKey: string := "verificationHistory"
  const UserKey: string := "user"
  const AccessTokenKey: string := "access_token"

  /** Times are integer milliseconds since the epoch (Date.now()). */
  type Millis = int

  const MillisPerDay: int := 24 * 60 * 60 * 1000

  /**
   * One stored document. The upload flow of the `upload/` directory also stores
   * the file's size and MIME type; the older single-page upload does not.
   */
  datatype DocumentRecord = DocumentRecord(
    id: string,
    docType: string,
    documentId: string,
    issueDate: string,
    fileName: string,
    fileSize: Option<int>,
    fileType: Option<string>,
    uploadDate: Millis,
    status: Status)

  /** One entry of the verification-history view. */
  datatype HistoryEntry = HistoryEntry(
    id: string,
    documentId: string,
    documentType: string,
    verificationDate: Millis,
    status: Status,
    documentName: string)

  /** The flat JSON values a stored user object holds. */
  datatype Json = JNull | JBool(b: bool) | JNum(n: int) | JStr(s: string)

  /** JavaScript truthiness of a property that may be missing (undefined). */
  predicate Truthy(v: Option<Json>)
  {
    match v
    case None => false
    case Some(JNull) => false
    case Some(JBool(b)) => b
    case Some(JNum(n)) => n != 0
    case Some(JStr(s)) => s != ""
  }

  function Property(obj: map<string, Json>, name: string): Option<Json>
  {
    if name in obj then Some(obj[name]) else None
  }

  datatype StoredValue =
    | DocumentList(docs: seq<DocumentRecord>)
    | HistoryList(entries: seq<HistoryEntry>)
    | UserObject(fields: map<string, Json>)
    | Text(text: string)

  /** Each key the views use holds the kind of value they write under it. */
  ghost predicate WellTyped(items: map<string, StoredValue>)
  {
    && (DocumentsKey in items ==> items[DocumentsKey].DocumentList?)
    && (HistoryKey in items ==> items[HistoryKey].HistoryList?)
    && (UserKey in items ==> items[UserKey].UserObject?)
    && (AccessTokenKey in items ==> items[AccessTokenKey].Text?)
  }

  /** The stored document list, if the `documents` key is present. */
  function StoredDocuments(items: map<string, StoredValue>): Option<seq<DocumentRecord>>
    requires WellTyped(items)
  {
    if DocumentsKey in items then Some(items[DocumentsKey].docs) else None
  }

  /** `JSON.parse(localStorage.getItem("documents") || "[]")`: an absent list reads as empty. */
  function DocumentsOrEmpty(items: map<string, StoredValue>): seq<DocumentRecord>
    requires WellTyped(items)
  {
    if DocumentsKey in items then items[DocumentsKey].docs else []
  }

  function StoredUser(items: map<string, StoredValue>): Option<map<string, Json>>
    requires WellTyped(items)
  {
    if UserKey in items then Some(items[UserKey].fields) else None
  }

  /**
   * The read-modify-write both upload flows perform: read the list (absent
   * counts as empty), append one record at the end, write the whole list back.
   */
  function AppendDocument(items: map<string, StoredValue>, rec: DocumentRecord): (r: map<string, StoredValue>)
    requires WellTyped(items)
    ensures WellTyped(r)
    ensures StoredDocuments(r) == Some(DocumentsOrEmpty(items) + [rec])
    ensures forall k :: k in items && k != DocumentsKey ==> k in r && r[k] == items[k]
    ensures r.Keys == items.Keys + {DocumentsKey}
  {
    items[DocumentsKey := DocumentList(DocumentsOrEmpty(items) + [rec])]
  }

  /** A series of appends, oldest first. */
  function AppendAll(items: map<string, StoredValue>, recs: seq<DocumentRecord>): (r: map<string, StoredValue>)
    requires WellTyped(items)
    ensures WellTyped(r)
    decreases recs
  {
    if recs == [] then items else AppendAll(AppendDocument(items, recs[0]), recs[1..])
  }

  /**
   * After any series of appends the stored list is the earlier list followed
   * by the appended records in call order, each exactly as supplied.
   */
  lemma {:induction false} AppendAllOrder(items: map<string, StoredValue>, recs: seq<DocumentRecord>)
    requires WellTyped(items)
    ensures DocumentsOrEmpty(AppendAll(items, recs)) == DocumentsOrEmpty(items) + recs
    ensures recs != [] ==> StoredDocuments(AppendAll(items, recs)) == Some(DocumentsOrEmpty(items) + recs)
    ensures forall k :: k in items && k != DocumentsKey ==>
              k in AppendAll(items, recs) && AppendAll(items, recs)[k] == items[k]
    decreases recs
  {
    if recs != [] {
      var next := AppendDocument(items, recs[0]);
      AppendAllOrder(next, recs[1..]);
      assert DocumentsOrEmpty(next) == DocumentsOrEmpty(items) + [recs[0]];
      assert recs == [recs[0]] + recs[1..];
      assert DocumentsOrEmpty(items) + [recs[0]] + recs[1..] == DocumentsOrEmpty(items) + recs;
    }
  }

  class LocalStorage {
    var items: map<string, StoredValue>

    ghost predicate Valid()
      reads this
    {
      WellTyped(items)
    }

    constructor (initial: map<string, StoredValue>)
      requires WellTyped(initial)
      ensures Valid() && items == initial
    {
      items := initial;
    }

    /** localStorage.setItem */
    method SetItem(key: string, value: StoredValue)
      requires Valid() && WellTyped(items[key := value])
      modifies this
      ensures Valid() && items == old(items)[key := value]
    {
      items := items[key := value];
    }

    /** localStorage.removeItem */
    method RemoveItem(key: string)
      requires Valid()
      modifies this
      ensures Valid() && items == old(items) - {key}
    {
      items := items - {key};
    }
  }
}
