/**
 * The backend's three tables as sequences of rows, kept in insertion order,
 * with the id counters an autoincrementing key draws from.
 */
module Database {
  import opened Common

  datatype UserRow = UserRow(
    id: nat,
    email: string,
    username: string,
    hashedPassword: string,
    fullName: Option<string>,
    isActive: bool,
    isVerified: bool)

  datatype DocumentRow = DocumentRow(
    id: nat,
    title: string,
    description: Option<string>,
    filePath: string,
    fileSize: nat,
    fileType: string,
    fileHash: string,
    ipfsHash: Option<string>,
    blockchainTxHash: Option<string>,
    isVerified: bool,
    ownerId: nat)

  datatype VerificationRow = VerificationRow(
    id: nat,
    documentId: nat,
    userId: nat,
    verificationType: string,
    status: string,
    blockchainTxHash: Option<string>,
    ipfsHash: Option<string>,
    metadata: Option<string>,
    createdAt: int)

  /** A handler's result: a value, or the HTTP error it raises. */
  datatype Response<T> = Ok(value: T) | HttpError(code: int, detail: string)

  /** Python truthiness of an optional string: None and "" are false. */
  predicate PyTruthy(s: Option<string>)
  {
    s.Some? && s.value != ""
  }

  /** The unique constraints on the users table, and unique keys. */
  predicate UniqueAccounts(users: seq<UserRow>)
  {
    forall i, j :: 0 <= i < j < |users| ==>
      users[i].id != users[j].id && users[i].email != users[j].email && users[i].username != users[j].username
  }

  predicate EmailTaken(users: seq<UserRow>, email: string)
  {
    exists i :: 0 <= i < |users| && users[i].email == email
  }

  predicate UsernameTaken(users: seq<UserRow>, username: string)
  {
    exists i :: 0 <= i < |users| && users[i].username == username
  }

  /** The table without its k-th row: what deleting that row leaves. */
  function Without<T>(s: seq<T>, k: nat): (r: seq<T>)
    requires k < |s|
    ensures |r| == |s| - 1
    ensures forall i :: 0 <= i < |r| ==> r[i] == s[if i < k then i else i + 1]
  {
    s[..k] + s[k + 1..]
  }

  /** The documents table's primary key. */
  predicate DistinctDocumentIds(docs: seq<DocumentRow>)
  {
    forall i, j :: 0 <= i < j < |docs| ==> docs[i].id != docs[j].id
  }

  /** One user's documents, in table order. */
  function OwnedBy(docs: seq<DocumentRow>, ownerId: nat): (r: seq<DocumentRow>)
    ensures forall i :: 0 <= i < |r| ==> r[i] in docs && r[i].ownerId == ownerId
    ensures forall i :: 0 <= i < |docs| && docs[i].ownerId == ownerId ==> docs[i] in r
    ensures forall x :: multiset(r)[x] == if x.ownerId == ownerId then multiset(docs)[x] else 0
  {
    FilterMultiplicity((d: DocumentRow) => d.ownerId == ownerId, docs);
    Filter((d: DocumentRow) => d.ownerId == ownerId, docs)
  }

  /** The first row of the documents table with this id and this owner. */
  function FindOwned(docs: seq<DocumentRow>, docId: int, ownerId: nat): (r: Option<nat>)
    ensures r.None? <==> forall i :: 0 <= i < |docs| ==> !(docs[i].id == docId && docs[i].ownerId == ownerId)
    ensures r.Some? ==> r.value < |docs| && docs[r.value].id == docId && docs[r.value].ownerId == ownerId
    ensures r.Some? ==> forall j :: 0 <= j < r.value ==> !(docs[j].id == docId && docs[j].ownerId == ownerId)
  {
    if docs == [] then None
    else if docs[0].id == docId && docs[0].ownerId == ownerId then Some(0)
    else
      var rest := FindOwned(docs[1..], docId, ownerId);
      if rest.None? then None else Some(rest.value + 1)
  }

  /** `.offset(skip).limit(limit)` over a query result. */
  function Page<T>(s: seq<T>, skip: nat, limit: nat): (r: seq<T>)
    ensures |r| == if skip >= |s| then 0 else Min(limit, |s| - skip)
    ensures forall i :: 0 <= i < |r| ==> r[i] == s[skip + i]
  {
    if skip >= |s| then [] else s[skip..skip + Min(limit, |s| - skip)]
  }

  function Min(a: int, b: int): int
  {
    if a <= b then a else b
  }

  /** A page is a contiguous stretch of the query result, never longer than the limit or the result. */
  lemma PageBounds<T>(s: seq<T>, skip: nat, limit: nat)
    ensures |Page(s, skip, limit)| <= limit && |Page(s, skip, limit)| <= |s|
    ensures IsSubsequence(Page(s, skip, limit), s)
  {
    if skip < |s| {
      var k := Min(limit, |s| - skip);
      SliceIsSubsequence(s, skip, skip + k);
    }
  }

  /** Consecutive pages tile the result: a page of a + b rows is a page of a rows followed by the next b. */
  lemma PagesTile<T>(s: seq<T>, skip: nat, a: nat, b: nat)
    ensures Page(s, skip, a) + Page(s, skip + a, b) == Page(s, skip, a + b)
  {
    var l := Page(s, skip, a) + Page(s, skip + a, b);
    var r := Page(s, skip, a + b);
    assert |l| == |r|;
    forall i | 0 <= i < |l| ensures l[i] == r[i] {
      if i < |Page(s, skip, a)| {
      } else {
        assert l[i] == Page(s, skip + a, b)[i - |Page(s, skip, a)|];
      }
    }
  }

  lemma {:induction false} SliceIsSubsequence<T>(s: seq<T>, lo: nat, hi: nat)
    requires lo <= hi <= |s|
    ensures IsSubsequence(s[lo..hi], s)
    decreases |s|
  {
    if lo > 0 {
      SliceIsSubsequence(s[1..], lo - 1, hi - 1);
      assert s[1..][lo - 1..hi - 1] == s[lo..hi];
    } else if hi > 0 {
      SliceIsSubsequence(s[1..], 0, hi - 1);
      assert s[1..][..hi - 1] == s[..hi][1..];
    }
  }

  class Db {
    var users: seq<UserRow>
    var documents: seq<DocumentRow>
    var verifications: seq<VerificationRow>
    var nextUserId: nat
    var nextDocumentId: nat
    var nextVerificationId: nat

    /** Unique accounts, and every key below the counter it was drawn from. */
    ghost predicate Valid()
      reads this
    {
      && UniqueAccounts(users)
      && DistinctDocumentIds(documents)
      && (forall i :: 0 <= i < |users| ==> users[i].id < nextUserId)
      && (forall i :: 0 <= i < |documents| ==> documents[i].id < nextDocumentId)
      && (forall i :: 0 <= i < |verifications| ==> verifications[i].id < nextVerificationId)
    }

    constructor ()
      ensures Valid() && users == [] && documents == [] && verifications == []
    {
      users, documents, verifications := [], [], [];
      nextUserId, nextDocumentId, nextVerificationId := 1, 1, 1;
    }

    /** The current user of a request: a row that exists and is active. */
    ghost predicate IsCurrentUser(u: nat)
      reads this
    {
      u < |users| && users[u].isActive
    }

    /** db.add of one document row (and its commit): the row gets the next id. */
    method AddDocument(row: DocumentRow) returns (stored: DocumentRow)
      requires Valid()
      modifies this
      ensures Valid()
      ensures stored == row.(id := old(nextDocumentId))
      ensures documents == old(documents) + [stored]
      ensures users == old(users) && verifications == old(verifications)
      ensures nextUserId == old(nextUserId) && nextVerificationId == old(nextVerificationId)
      ensures nextDocumentId == old(nextDocumentId) + 1
    {
      stored := row.(id := nextDocumentId);
      documents := documents + [stored];
      nextDocumentId := nextDocumentId + 1;
    }

    /** db.add of one verification row (and its commit). */
    method AddVerification(documentId: nat, userId: nat, verificationType: string, status: string,
                           blockchainTxHash: Option<string>, ipfsHash: Option<string>,
                           metadata: Option<string>, now: int) returns (row: VerificationRow)
      requires Valid()
      modifies this
      ensures Valid()
      ensures row == VerificationRow(old(nextVerificationId), documentId, userId, verificationType, status,
                                     blockchainTxHash, ipfsHash, metadata, now)
      ensures verifications == old(verifications) + [row]
      ensures users == old(users) && documents == old(documents)
      ensures nextUserId == old(nextUserId) && nextDocumentId == old(nextDocumentId)
      ensures nextVerificationId == old(nextVerificationId) + 1
    {
      row := VerificationRow(nextVerificationId, documentId, userId, verificationType, status,
                             blockchainTxHash, ipfsHash, metadata, now);
      verifications := verifications + [row];
      nextVerificationId := nextVerificationId + 1;
    }
  }
}
