/**
 * The document repository (repository/document_repository.go) over in-memory
 * tables: documents by id, the document/tag relation, versions, shares keyed
 * by (document, user), and the category and tag directories. Identifiers and
 * timestamps the database assigns come from counters and a `now` parameter.
 */
module DocumentRepository {
  import opened Wrappers
  import opened GoTime
  import opened Sorting
  import opened DocumentModels

  /**
   * A failure of one statement of a transaction: statement 0 is the document
   * insert, statement k + 1 the insert of the k-th tag relation.
   */
  datatype Fault = Fault(statement: nat, message: string)

  /** Which of the optional columns a getter's SELECT reads. */
  datatype Columns = Columns(rejectionReason: bool, mimeType: bool)

  const ThirtyDays: int := 30 * SecondsPerDay

  const NotFound: string := "document not found"

  const NoRows: string := "sql: no rows in result set"

  // ---------------------------------------------------------------- tags

  function TagName(t: Tag): string { t.name }

  function RowTagName(r: (int, Tag)): string { r.1.name }

  /** The relation rows that attaching tags to document id inserts. */
  function TagPairs(id: int, tags: seq<Tag>): set<(int, int)> {
    set i | 0 <= i < |tags| :: (id, tags[i].id)
  }

  lemma TagPairsStep(id: int, ts: seq<Tag>, i: int)
    requires 0 <= i < |ts|
    ensures TagPairs(id, ts[..i + 1]) == TagPairs(id, ts[..i]) + {(id, ts[i].id)}
  {
    assert forall j :: 0 <= j < i ==> ts[..i + 1][j] == ts[..i][j];
    assert ts[..i + 1][i] == ts[i];
  }

  /** The tags joined to document d: its relations whose tag exists in the tag directory. */
  function RelatedTags(relations: set<(int, int)>, tags: map<int, Tag>, d: int): set<Tag> {
    set k | k in tags && (d, k) in relations :: tags[k]
  }

  /** A tag list as the repository returns it: exactly the related tags, once each, by name. */
  ghost predicate TagListOf(ts: seq<Tag>, relations: set<(int, int)>, tags: map<int, Tag>, d: int) {
    && Sorted(ts, ByTextKey(TagName))
    && Distinct(ts)
    && (forall t :: t in ts <==> t in RelatedTags(relations, tags, d))
  }

  /** The tags of document d among the (document, tag) rows, in row order. */
  function TagsOfDoc(rows: seq<(int, Tag)>, d: int): (ts: seq<Tag>)
    ensures |ts| <= |rows|
  {
    if rows == [] then []
    else
      var last := rows[|rows| - 1];
      TagsOfDoc(rows[..|rows| - 1], d) + (if last.0 == d then [last.1] else [])
  }

  /** The tags of the first i + 1 rows: those of the first i, then the tag of row i when it is d's. */
  lemma TagsOfDocStep(rows: seq<(int, Tag)>, i: int, d: int)
    requires 0 <= i < |rows|
    ensures TagsOfDoc(rows[..i + 1], d) == TagsOfDoc(rows[..i], d) + (if rows[i].0 == d then [rows[i].1] else [])
  {
    assert rows[..i + 1][..i] == rows[..i];
  }

  /**
   * The scan loop of GetTagsForDocuments: appends each row's tag to its
   * document's list, so that every document with a row gets its tags in
   * row order and no other document gets an entry.
   */
  method GroupByDocument(rows: seq<(int, Tag)>) returns (result: map<int, seq<Tag>>)
    ensures forall d :: d in result ==> result[d] == TagsOfDoc(rows, d) && result[d] != []
    ensures forall d :: d !in result ==> TagsOfDoc(rows, d) == []
  {
    result := map[];
    for i := 0 to |rows|
      invariant forall d :: d in result ==> result[d] == TagsOfDoc(rows[..i], d) && result[d] != []
      invariant forall d :: d !in result ==> TagsOfDoc(rows[..i], d) == []
    {
      var d := rows[i].0;
      forall e ensures TagsOfDoc(rows[..i + 1], e) == TagsOfDoc(rows[..i], e) + (if rows[i].0 == e then [rows[i].1] else []) {
        TagsOfDocStep(rows, i, e);
      }
      result := result[d := (if d in result then result[d] else []) + [rows[i].1]];
    }
    assert rows[..|rows|] == rows;
  }

  lemma {:induction false} TagsOfDocMembers(rows: seq<(int, Tag)>, d: int)
    ensures forall t :: t in TagsOfDoc(rows, d) <==> (d, t) in rows
  {
    if rows != [] {
      TagsOfDocMembers(rows[..|rows| - 1], d);
      assert rows == rows[..|rows| - 1] + [rows[|rows| - 1]];
    }
  }

  lemma {:induction false} TagsOfDocDistinct(rows: seq<(int, Tag)>, d: int)
    requires Distinct(rows)
    ensures Distinct(TagsOfDoc(rows, d))
  {
    if rows != [] {
      var init := rows[..|rows| - 1];
      var last := rows[|rows| - 1];
      TagsOfDocDistinct(init, d);
      TagsOfDocMembers(init, d);
      if last.0 == d {
        assert (d, last.1) !in init by {
          assert rows == init + [last];
        }
      }
    }
  }

  lemma {:induction false} TagsOfDocSorted(rows: seq<(int, Tag)>, d: int)
    requires Sorted(rows, ByTextKey(RowTagName))
    ensures Sorted(TagsOfDoc(rows, d), ByTextKey(TagName))
  {
    if rows != [] {
      var init := rows[..|rows| - 1];
      var last := rows[|rows| - 1];
      TagsOfDocSorted(init, d);
      TagsOfDocMembers(init, d);
      var ts := TagsOfDoc(init, d);
      assert Sorted(init, ByTextKey(RowTagName));
      if last.0 == d {
        forall i | 0 <= i < |ts| ensures ByTextKey(TagName)(ts[i], last.1) {
          assert (d, ts[i]) in init;
          var j :| 0 <= j < |init| && init[j] == (d, ts[i]);
          assert rows[j] == init[j];
          assert ByTextKey(RowTagName)(rows[j], rows[|rows| - 1]);
          assert TextLe(RowTagName(rows[j]), RowTagName(rows[|rows| - 1]));
          assert TextLe(TagName(ts[i]), TagName(last.1));
        }
        SortedAppend(ts, last.1, ByTextKey(TagName));
      }
    }
  }

  // ---------------------------------------------------------------- versions

  function OfDocument(d: int): DocumentVersion -> bool {
    (v: DocumentVersion) => v.documentId == d
  }

  function NotOfDocument(d: int): DocumentVersion -> bool {
    (v: DocumentVersion) => v.documentId != d
  }

  /** Dropping a document's versions keeps every remaining id below the counter. */
  lemma FilterKeepsIds(vs: seq<DocumentVersion>, d: int, next: int)
    requires forall i :: 0 <= i < |vs| ==> vs[i].id < next
    ensures var r := Filter(vs, NotOfDocument(d));
      forall i :: 0 <= i < |r| ==> r[i].id < next
  {
    var r := Filter(vs, NotOfDocument(d));
    forall i | 0 <= i < |r| ensures r[i].id < next {
      assert r[i] in vs;
    }
  }

  predicate HasVersion(vs: seq<DocumentVersion>, d: int) {
    exists i :: 0 <= i < |vs| && vs[i].documentId == d
  }

  /** COALESCE(MAX(version_number), 0) over the versions of document d. */
  function LatestVersion(vs: seq<DocumentVersion>, d: int): (n: int)
    ensures forall i :: 0 <= i < |vs| && vs[i].documentId == d ==> vs[i].versionNumber <= n
    ensures !HasVersion(vs, d) ==> n == 0
    ensures HasVersion(vs, d) ==> exists i :: 0 <= i < |vs| && vs[i].documentId == d && vs[i].versionNumber == n
  {
    if vs == [] then 0
    else
      var init := vs[..|vs| - 1];
      var last := vs[|vs| - 1];
      var latest := LatestVersion(init, d);
      assert forall i :: 0 <= i < |init| ==> init[i] == vs[i];
      if last.documentId != d then latest
      else if HasVersion(init, d) && latest >= last.versionNumber then latest
      else last.versionNumber
  }

  /** The version numbers recorded for document d. */
  function VersionNumbers(vs: seq<DocumentVersion>, d: int): set<int> {
    set i | 0 <= i < |vs| && vs[i].documentId == d :: vs[i].versionNumber
  }

  predicate Between(lo: int, n: int, hi: int) { lo <= n <= hi }

  function Range(lo: int, hi: int): set<int> {
    set n | lo <= n <= hi && Between(lo, n, hi)
  }

  /**
   * Numbering by max + 1 keeps the versions of a document gap-free: when they
   * are 1..k, the latest is k and recording latest + 1 makes them 1..k + 1.
   */
  lemma NextVersionExtendsRange(vs: seq<DocumentVersion>, d: int, k: nat, v: DocumentVersion)
    requires VersionNumbers(vs, d) == Range(1, k)
    requires v.documentId == d && v.versionNumber == LatestVersion(vs, d) + 1
    ensures LatestVersion(vs, d) == k
    ensures VersionNumbers(vs + [v], d) == Range(1, k + 1)
  {
    var latest := LatestVersion(vs, d);
    if k > 0 {
      assert Between(1, k, k);
      assert k in VersionNumbers(vs, d);
      var i :| 0 <= i < |vs| && vs[i].documentId == d && vs[i].versionNumber == k;
      var j :| 0 <= j < |vs| && vs[j].documentId == d && vs[j].versionNumber == latest;
      assert vs[j].versionNumber in VersionNumbers(vs, d);
      assert Between(1, latest, k);
    } else {
      assert Range(1, 0) == {};
      assert forall i :: 0 <= i < |vs| && vs[i].documentId == d ==> vs[i].versionNumber in VersionNumbers(vs, d);
      assert !HasVersion(vs, d);
    }
    assert latest == k;
    var after := vs + [v];
    forall n | n in VersionNumbers(after, d) ensures n in Range(1, k + 1) {
      var i :| 0 <= i < |after| && after[i].documentId == d && after[i].versionNumber == n;
      if i < |vs| {
        assert vs[i] == after[i];
        assert n in VersionNumbers(vs, d);
      } else {
        assert after[i] == v;
      }
      assert Between(1, n, k + 1);
    }
    forall n | n in Range(1, k + 1) ensures n in VersionNumbers(after, d) {
      if n <= k {
        assert Between(1, n, k);
        assert n in VersionNumbers(vs, d);
        var i :| 0 <= i < |vs| && vs[i].documentId == d && vs[i].versionNumber == n;
        assert after[i] == vs[i];
      } else {
        assert after[|vs|] == v;
      }
    }
  }

  // ---------------------------------------------------------------- shares

  /** Every share is stored under its own (document, user) key. */
  predicate Keyed(shares: map<(int, int), DocumentShare>) {
    forall k :: k in shares ==> shares[k].documentId == k.0 && shares[k].sharedWith == k.1
  }

  /**
   * INSERT ... ON CONFLICT (document_id, shared_with) DO UPDATE: a new key
   * gets a fresh row; an existing one keeps its id, sharer and sharing time
   * and takes the new permission, notes and expiry.
   */
  function Upserted(shares: map<(int, int), DocumentShare>, share: DocumentShare, newId: int, now: int)
    : (r: map<(int, int), DocumentShare>)
    requires Keyed(shares)
    ensures Keyed(r)
    ensures r.Keys == shares.Keys + {(share.documentId, share.sharedWith)}
    ensures forall k :: k in shares && k != (share.documentId, share.sharedWith) ==> r[k] == shares[k]
    ensures var row := r[(share.documentId, share.sharedWith)];
      && row.documentId == share.documentId && row.sharedWith == share.sharedWith
      && row.permission == share.permission && row.notes == share.notes && row.expiresAt == share.expiresAt
    ensures var key := (share.documentId, share.sharedWith);
      key in shares ==> r[key].id == shares[key].id && r[key].sharedBy == shares[key].sharedBy && r[key].sharedAt == shares[key].sharedAt
    ensures var key := (share.documentId, share.sharedWith);
      key !in shares ==> r[key].id == newId && r[key].sharedBy == share.sharedBy && r[key].sharedAt == now
  {
    var key := (share.documentId, share.sharedWith);
    if key in shares then
      shares[key := shares[key].(permission := share.permission, notes := share.notes, expiresAt := share.expiresAt)]
    else
      shares[key := share.(id := newId, sharedAt := now)]
  }

  /** Sharing the same request again changes nothing, whatever id and time it would have been given. */
  lemma UpsertIdempotent(shares: map<(int, int), DocumentShare>, share: DocumentShare, id1: int, now1: int, id2: int, now2: int)
    requires Keyed(shares)
    ensures Upserted(Upserted(shares, share, id1, now1), share, id2, now2) == Upserted(shares, share, id1, now1)
  {
  }

  /** DELETE FROM document_shares WHERE document_id = $1 AND shared_with = $2. */
  function Unshared(shares: map<(int, int), DocumentShare>, documentId: int, userId: int)
    : (r: map<(int, int), DocumentShare>)
    ensures (documentId, userId) !in r
    ensures r.Keys == shares.Keys - {(documentId, userId)}
    ensures forall k :: k in r ==> r[k] == shares[k]
  {
    shares - {(documentId, userId)}
  }

  lemma UnshareIdempotent(shares: map<(int, int), DocumentShare>, documentId: int, userId: int)
    ensures Unshared(Unshared(shares, documentId, userId), documentId, userId) == Unshared(shares, documentId, userId)
  {
  }

  /** Unsharing right after sharing with a user who had no share leaves the table as it was. */
  lemma UnshareUndoesNewShare(shares: map<(int, int), DocumentShare>, share: DocumentShare, newId: int, now: int)
    requires Keyed(shares)
    requires (share.documentId, share.sharedWith) !in shares
    ensures Unshared(Upserted(shares, share, newId, now), share.documentId, share.sharedWith) == shares
  {
    var r := Unshared(Upserted(shares, share, newId, now), share.documentId, share.sharedWith);
    assert r.Keys == shares.Keys;
  }

  /** The shares of document d removed, as Delete does first. */
  function SharesWithout(shares: map<(int, int), DocumentShare>, d: int): (r: map<(int, int), DocumentShare>)
    ensures forall k :: k in r <==> k in shares && k.0 != d
    ensures forall k :: k in r ==> r[k] == shares[k]
  {
    map k | k in shares && k.0 != d :: shares[k]
  }

  // ---------------------------------------------------------------- review

  /**
   * UPDATE documents SET validation_status, validated_by, validated_at (and
   * for a rejection rejection_reason) WHERE id: no row changes when the id is
   * unknown, and only the reviewed columns of the matching row change.
   */
  function Reviewed(docs: map<int, DocumentRow>, id: int, status: ValidationStatus, adminId: int,
                    reason: Option<string>, now: int): (r: map<int, DocumentRow>)
    ensures r.Keys == docs.Keys
    ensures forall k :: k in docs && k != id ==> r[k] == docs[k]
    ensures id in docs ==>
      && r[id].status == status && r[id].validatedBy == Some(adminId) && r[id].validatedAt == Some(now)
      && r[id].rejectionReason == (if reason.Some? then reason.value else docs[id].rejectionReason)
      && r[id].(status := docs[id].status, validatedBy := docs[id].validatedBy,
                validatedAt := docs[id].validatedAt, rejectionReason := docs[id].rejectionReason) == docs[id]
  {
    if id !in docs then docs
    else
      var row := docs[id].(status := status, validatedBy := Some(adminId), validatedAt := Some(now));
      docs[id := if reason.Some? then row.(rejectionReason := reason.value) else row]
  }

  function PendingIds(docs: map<int, DocumentRow>): set<int> {
    set id | id in docs && docs[id].status == Pending
  }

  function AthleteIds(docs: map<int, DocumentRow>, athleteId: int): set<int> {
    set id | id in docs && docs[id].athleteId == athleteId
  }

  /** A reviewed document leaves the pending queue; every other document stays where it was. */
  lemma ReviewLeavesPending(docs: map<int, DocumentRow>, id: int, status: ValidationStatus, adminId: int,
                            reason: Option<string>, now: int)
    requires status != Pending
    ensures PendingIds(Reviewed(docs, id, status, adminId, reason, now)) == PendingIds(docs) - {id}
  {
  }

  // ---------------------------------------------------------------- expiry windows

  function ExpiryInstant(row: DocumentRow): int {
    if row.expiryDate.Some? then DateInstant(row.expiryDate.value) else 0
  }

  /** expiry_date IS NOT NULL AND expiry_date <= now + 30 days AND expiry_date >= now. */
  predicate Expiring(row: DocumentRow, now: int) {
    row.expiryDate.Some? && now <= ExpiryInstant(row) <= now + ThirtyDays
  }

  /** expiry_date IS NOT NULL AND expiry_date < now. */
  predicate Expired(row: DocumentRow, now: int) {
    row.expiryDate.Some? && ExpiryInstant(row) < now
  }

  /** No document is both expiring and expired, and one without expiry date is neither. */
  lemma ExpiryWindowsDisjoint(row: DocumentRow, now: int)
    ensures !(Expiring(row, now) && Expired(row, now))
    ensures row.expiryDate.None? ==> !Expiring(row, now) && !Expired(row, now)
  {
  }

  /** Every dated document is expired, expiring, or expires more than thirty days from now. */
  lemma ExpiryWindowsCover(row: DocumentRow, now: int)
    requires row.expiryDate.Some?
    ensures Expired(row, now) || Expiring(row, now) || ExpiryInstant(row) > now + ThirtyDays
  {
  }

  function ExpiringIds(docs: map<int, DocumentRow>, now: int): set<int> {
    set id | id in docs && Expiring(docs[id], now)
  }

  function ExpiredIds(docs: map<int, DocumentRow>, now: int): set<int> {
    set id | id in docs && Expired(docs[id], now)
  }

  // ---------------------------------------------------------------- projections

  /**
   * A row as a getter returns it. The category id column is scanned and then
   * overwritten by the joined category's id, so the result never carries a
   * category id, only the category itself when its row exists. Columns the
   * query does not select keep Go's zero values; tags come separately.
   */
  function Projected(id: int, row: DocumentRow, categories: map<int, Category>, cols: Columns): (d: Document)
    ensures d.id == id && d.categoryId.None? && d.tags == []
    ensures d.category.Some? <==> row.categoryId.Some? && row.categoryId.value in categories
    ensures d.validatedBy.None? && d.validatedAt.None? && d.fileSizeBytes == 0
    ensures d.status == row.status && d.expiryDate == row.expiryDate && d.uploadedAt == row.uploadedAt
    ensures d.athleteId == row.athleteId && d.fileUrl == row.fileUrl && d.fileName == row.fileName
    ensures d.notes == row.notes
    ensures d.rejectionReason == (if cols.rejectionReason then row.rejectionReason else "")
    ensures d.mimeType == (if cols.mimeType then row.mimeType else "")
  {
    Document(id, row.athleteId, row.documentType, None,
             if row.categoryId.Some? && row.categoryId.value in categories
             then Some(categories[row.categoryId.value]) else None,
             row.fileName, row.filePath, row.fileUrl, 0,
             if cols.mimeType then row.mimeType else "",
             row.status, row.expiryDate, row.uploadedAt, None, None,
             if cols.rejectionReason then row.rejectionReason else "",
             row.notes, [])
  }

  function IdsOf(docs: seq<Document>): (ids: seq<int>)
    ensures |ids| == |docs| && forall i :: 0 <= i < |docs| ==> ids[i] == docs[i].id
  {
    seq(|docs|, i requires 0 <= i < |docs| => docs[i].id)
  }

  function UploadedDesc(m: map<int, DocumentRow>): int -> int {
    (id: int) => if id in m then -m[id].uploadedAt else 0
  }

  function UploadedAsc(m: map<int, DocumentRow>): int -> int {
    (id: int) => if id in m then m[id].uploadedAt else 0
  }

  function ExpiryAsc(m: map<int, DocumentRow>): int -> int {
    (id: int) => if id in m then ExpiryInstant(m[id]) else 0
  }

  /** The (document, tag) rows the tag query joins for the documents in ids. */
  function TagRows(relations: set<(int, int)>, tags: map<int, Tag>, ids: set<int>): set<(int, Tag)> {
    set p | p in relations && p.0 in ids && p.1 in tags :: (p.0, tags[p.1])
  }

  lemma TagRowsMember(relations: set<(int, int)>, tags: map<int, Tag>, ids: set<int>, d: int, t: Tag)
    ensures (d, t) in TagRows(relations, tags, ids) <==> d in ids && t in RelatedTags(relations, tags, d)
  {
    if (d, t) in TagRows(relations, tags, ids) {
      var p :| p in relations && p.0 in ids && p.1 in tags && (p.0, tags[p.1]) == (d, t);
      var k := p.1;
      assert p == (d, k);
      assert k in tags && (d, k) in relations;
      assert tags[k] in RelatedTags(relations, tags, d);
    }
    if d in ids && t in RelatedTags(relations, tags, d) {
      var k :| k in tags && (d, k) in relations && tags[k] == t;
      assert (d, k) in relations;
    }
  }

  /**
   * Grouping the rows of the tag query, sorted by tag name, by document
   * gives each listed document with tags exactly its tag list.
   */
  lemma TagMapOfRows(rows: seq<(int, Tag)>, ids: set<int>, relations: set<(int, int)>, tags: map<int, Tag>,
                     result: map<int, seq<Tag>>)
    requires Sorted(rows, ByTextKey(RowTagName)) && multiset(rows) == multiset(TagRows(relations, tags, ids))
    requires forall d :: d in result ==> result[d] == TagsOfDoc(rows, d) && result[d] != []
    requires forall d :: d !in result ==> TagsOfDoc(rows, d) == []
    ensures forall d :: d in result <==> d in ids && RelatedTags(relations, tags, d) != {}
    ensures forall d :: d in result ==> TagListOf(result[d], relations, tags, d)
  {
    var rowSet := TagRows(relations, tags, ids);
    MultisetOfSet(rows, rowSet);
    forall d ensures d in result <==> d in ids && RelatedTags(relations, tags, d) != {} {
      TagsOfDocMembers(rows, d);
      if d in result {
        var t := result[d][0];
        TagRowsMember(relations, tags, ids, d, t);
      }
      if d in ids && RelatedTags(relations, tags, d) != {} {
        var t :| t in RelatedTags(relations, tags, d);
        TagRowsMember(relations, tags, ids, d, t);
        assert t in TagsOfDoc(rows, d);
      }
    }
    forall d | d in result ensures TagListOf(result[d], relations, tags, d) {
      TagsOfDocSorted(rows, d);
      TagsOfDocDistinct(rows, d);
      TagsOfDocMembers(rows, d);
      forall t ensures t in result[d] <==> t in RelatedTags(relations, tags, d) {
        TagRowsMember(relations, tags, ids, d, t);
      }
    }
  }

  class DocumentStore {
    var documents: map<int, DocumentRow>
    var categories: map<int, Category>
    var tags: map<int, Tag>
    var tagRelations: set<(int, int)>
    var versions: seq<DocumentVersion>
    var shares: map<(int, int), DocumentShare>
    var nextDocumentId: int
    var nextVersionId: int
    var nextShareId: int

    ghost predicate Valid()
      reads this
    {
      && (forall id :: id in documents ==> id < nextDocumentId)
      && (forall i :: 0 <= i < |versions| ==> versions[i].id < nextVersionId)
      && (forall k :: k in shares ==>
            shares[k].documentId == k.0 && shares[k].sharedWith == k.1 && shares[k].id < nextShareId)
      && (forall k :: k in tags ==> tags[k].id == k)
      && (forall k :: k in categories ==> categories[k].id == k)
    }

    /** Empty tables around the given category and tag directories. */
    constructor (categories: map<int, Category>, tags: map<int, Tag>)
      requires forall k :: k in tags ==> tags[k].id == k
      requires forall k :: k in categories ==> categories[k].id == k
      ensures Valid()
      ensures this.categories == categories && this.tags == tags
      ensures documents == map[] && tagRelations == {} && versions == [] && shares == map[]
    {
      this.categories := categories;
      this.tags := tags;
      documents := map[];
      tagRelations := {};
      versions := [];
      shares := map[];
      nextDocumentId := 1;
      nextVersionId := 1;
      nextShareId := 1;
    }

    /**
     * Create: in one transaction, insert the document (the store assigns id
     * and uploaded_at) and one relation per tag of doc.tags. A failing
     * statement rolls everything back.
     */
    method Create(doc: Document, now: int, fault: Option<Fault>) returns (r: Result<Document, string>)
      requires Valid()
      modifies this
      ensures Valid()
      ensures r.Success? <==> fault.None? || fault.value.statement > |doc.tags|
      ensures r.Failure? ==> r.error == fault.value.message
      ensures r.Failure? ==> documents == old(documents) && tagRelations == old(tagRelations)
                             && nextDocumentId == old(nextDocumentId)
      ensures r.Success? ==>
        && r.value == doc.(id := old(nextDocumentId), uploadedAt := now)
        && old(nextDocumentId) !in old(documents)
        && documents == old(documents)[r.value.id := InsertedRow(doc, now)]
        && tagRelations == old(tagRelations) + TagPairs(r.value.id, doc.tags)
        && nextDocumentId == old(nextDocumentId) + 1
      ensures categories == old(categories) && tags == old(tags) && versions == old(versions)
      ensures shares == old(shares) && nextVersionId == old(nextVersionId) && nextShareId == old(nextShareId)
    {
      var savedDocuments, savedRelations, savedNext := documents, tagRelations, nextDocumentId;
      if fault.Some? && fault.value.statement == 0 {
        return Failure(fault.value.message);
      }
      var id := nextDocumentId;
      documents := documents[id := InsertedRow(doc, now)];
      nextDocumentId := id + 1;
      var failed := LinkTags(id, doc.tags, fault);
      if failed {
        documents, tagRelations, nextDocumentId := savedDocuments, savedRelations, savedNext;
        return Failure(fault.value.message);
      }
      r := Success(doc.(id := id, uploadedAt := now));
    }

    /**
     * The tag loop of Create: one insert per tag, statement i + 1 for the
     * tag at i; the first failing statement stops the loop.
     */
    method LinkTags(id: int, ts: seq<Tag>, fault: Option<Fault>) returns (failed: bool)
      modifies this`tagRelations
      ensures failed <==> fault.Some? && 1 <= fault.value.statement <= |ts|
      ensures !failed ==> tagRelations == old(tagRelations) + TagPairs(id, ts)
    {
      for i := 0 to |ts|
        invariant tagRelations == old(tagRelations) + TagPairs(id, ts[..i])
        invariant fault.None? || fault.value.statement == 0 || fault.value.statement > i
      {
        if fault.Some? && fault.value.statement == i + 1 {
          return true;
        }
        TagPairsStep(id, ts, i);
        tagRelations := tagRelations + {(id, ts[i].id)};
      }
      assert ts[..|ts|] == ts;
      failed := false;
    }

    /** CreateVersion: insert a version row; the store assigns id and uploaded_at. */
    method CreateVersion(version: DocumentVersion, now: int, fault: Option<string>)
      returns (r: Result<DocumentVersion, string>)
      requires Valid()
      modifies this
      ensures Valid()
      ensures fault.Some? ==> r == Failure(fault.value) && versions == old(versions) && nextVersionId == old(nextVersionId)
      ensures fault.None? ==>
        && r == Success(version.(id := old(nextVersionId), uploadedAt := now))
        && versions == old(versions) + [r.value]
        && nextVersionId == old(nextVersionId) + 1
      ensures documents == old(documents) && tagRelations == old(tagRelations) && shares == old(shares)
      ensures categories == old(categories) && tags == old(tags)
      ensures nextDocumentId == old(nextDocumentId) && nextShareId == old(nextShareId)
    {
      if fault.Some? {
        return Failure(fault.value);
      }
      var stored := version.(id := nextVersionId, uploadedAt := now);
      versions := versions + [stored];
      nextVersionId := nextVersionId + 1;
      r := Success(stored);
    }

    /** GetLatestVersionNumber: the highest version number of the document, 0 when it has none. */
    method GetLatestVersionNumber(documentId: int) returns (n: int)
      ensures n == LatestVersion(versions, documentId)
      ensures !HasVersion(versions, documentId) ==> n == 0
      ensures forall i :: 0 <= i < |versions| && versions[i].documentId == documentId ==> versions[i].versionNumber <= n
    {
      n := LatestVersion(versions, documentId);
    }

    /** GetVersionsByDocument: that document's versions and no other, highest number first. */
    method GetVersionsByDocument(documentId: int) returns (vs: seq<DocumentVersion>)
      ensures forall v :: v in vs <==> v in versions && v.documentId == documentId
      ensures multiset(vs) == multiset(Filter(versions, OfDocument(documentId)))
      ensures forall i, j :: 0 <= i < j < |vs| ==> vs[i].versionNumber >= vs[j].versionNumber
    {
      var key := (v: DocumentVersion) => -v.versionNumber;
      IntKeyPreorder(key);
      vs := SortSeq(Filter(versions, OfDocument(documentId)), ByIntKey(key));
      assert forall v :: v in vs <==> v in multiset(vs);
    }

    /** GetTagsForDocument: the document's tags by name. */
    method GetTagsForDocument(documentId: int) returns (ts: seq<Tag>)
      ensures TagListOf(ts, tagRelations, tags, documentId)
    {
      TextKeyPreorder(TagName);
      ts := SortSet(RelatedTags(tagRelations, tags, documentId), ByTextKey(TagName));
      MultisetOfSet(ts, RelatedTags(tagRelations, tags, documentId));
    }

    /**
     * GetTagsForDocuments: for each listed document that has tags, its tags
     * by name; documents without tags get no entry, and an empty list of ids
     * gives an empty map.
     */
    method GetTagsForDocuments(ids: seq<int>) returns (result: map<int, seq<Tag>>)
      requires Valid()
      ensures ids == [] ==> result == map[]
      ensures forall d :: d in result <==> d in ids && RelatedTags(tagRelations, tags, d) != {}
      ensures forall d :: d in result ==> TagListOf(result[d], tagRelations, tags, d)
    {
      if |ids| == 0 {
        return map[];
      }
      var idSet := set i | 0 <= i < |ids| :: ids[i];
      var rowSet := TagRows(tagRelations, tags, idSet);
      TextKeyPreorder(RowTagName);
      var rows := SortSet(rowSet, ByTextKey(RowTagName));
      MultisetOfSet(rows, rowSet);
      result := GroupByDocument(rows);
      TagMapOfRows(rows, set i | 0 <= i < |ids| :: ids[i], tagRelations, tags, result);
    }

    /** A document as a getter returns it: the projected row with the document's tags. */
    ghost predicate Shown(doc: Document, cols: Columns)
      reads this
    {
      && doc.id in documents
      && doc == Projected(doc.id, documents[doc.id], categories, cols).(tags := doc.tags)
      && TagListOf(doc.tags, tagRelations, tags, doc.id)
    }

    /** The documents with the given ids, each once, ordered by key, each shown in full. */
    ghost predicate Listing(docs: seq<Document>, ids: set<int>, key: int -> int, cols: Columns)
      reads this
    {
      && multiset(IdsOf(docs)) == multiset(ids)
      && Sorted(IdsOf(docs), ByIntKey(key))
      && forall i :: 0 <= i < |docs| ==> Shown(docs[i], cols)
    }

    /** The tags a getter attaches to document id: the fetched list, or none when the map has no entry. */
    function TagsFrom(tagMap: map<int, seq<Tag>>, id: int): seq<Tag> {
      if id in tagMap then tagMap[id] else []
    }

    /**
     * The loop every listing getter runs: rows in ORDER BY order, each
     * projected, then one tag query for all of them and each row's tags
     * attached (none when the query found none).
     */
    method Load(ids: set<int>, key: int -> int, cols: Columns) returns (docs: seq<Document>)
      requires Valid() && ids <= documents.Keys
      ensures Listing(docs, ids, key, cols)
    {
      IntKeyPreorder(key);
      var order := SortSet(ids, ByIntKey(key));
      MultisetOfSet(order, ids);
      var rows := ProjectRows(order, cols);
      var tagMap := GetTagsForDocuments(order);
      docs := AttachTags(rows, tagMap);
      LoadedShown(order, rows, tagMap, docs, cols);
    }

    /** The first loop of a getter: each listed row projected onto the selected columns. */
    method ProjectRows(order: seq<int>, cols: Columns) returns (rows: seq<Document>)
      requires forall j :: 0 <= j < |order| ==> order[j] in documents
      ensures |rows| == |order|
      ensures forall j :: 0 <= j < |order| ==> rows[j] == Projected(order[j], documents[order[j]], categories, cols)
    {
      rows := [];
      for i := 0 to |order|
        invariant |rows| == i
        invariant forall j :: 0 <= j < i ==> rows[j] == Projected(order[j], documents[order[j]], categories, cols)
      {
        rows := rows + [Projected(order[i], documents[order[i]], categories, cols)];
      }
    }

    /** The second loop of a getter: each row gets the tags the tag query found for it. */
    method AttachTags(rows: seq<Document>, tagMap: map<int, seq<Tag>>) returns (docs: seq<Document>)
      ensures |docs| == |rows|
      ensures forall j :: 0 <= j < |rows| ==> docs[j] == rows[j].(tags := TagsFrom(tagMap, rows[j].id))
    {
      docs := [];
      for k := 0 to |rows|
        invariant |docs| == k
        invariant forall j :: 0 <= j < k ==> docs[j] == rows[j].(tags := TagsFrom(tagMap, rows[j].id))
      {
        docs := docs + [rows[k].(tags := TagsFrom(tagMap, rows[k].id))];
      }
    }

    /** Rows projected in order, with the fetched tags attached, are each shown in full. */
    lemma LoadedShown(order: seq<int>, rows: seq<Document>, tagMap: map<int, seq<Tag>>,
                      docs: seq<Document>, cols: Columns)
      requires forall j :: 0 <= j < |order| ==> order[j] in documents
      requires |rows| == |order| && |docs| == |rows|
      requires forall j :: 0 <= j < |order| ==> rows[j] == Projected(order[j], documents[order[j]], categories, cols)
      requires forall d :: d in tagMap <==> d in order && RelatedTags(tagRelations, tags, d) != {}
      requires forall d :: d in tagMap ==> TagListOf(tagMap[d], tagRelations, tags, d)
      requires forall j :: 0 <= j < |rows| ==> docs[j] == rows[j].(tags := TagsFrom(tagMap, rows[j].id))
      ensures IdsOf(docs) == order
      ensures forall j :: 0 <= j < |docs| ==> Shown(docs[j], cols)
    {
      forall j | 0 <= j < |docs| ensures Shown(docs[j], cols) {
        assert order[j] in order;
        if order[j] !in tagMap {
          assert RelatedTags(tagRelations, tags, order[j]) == {};
        }
      }
    }

    /** GetByAthlete: the athlete's documents, most recently uploaded first. */
    method GetByAthlete(athleteId: int) returns (docs: seq<Document>)
      requires Valid()
      ensures Listing(docs, AthleteIds(documents, athleteId),
                      UploadedDesc(documents), Columns(true, true))
    {
      docs := Load(AthleteIds(documents, athleteId),
                   UploadedDesc(documents), Columns(true, true));
    }

    /** GetPending: the documents awaiting review, oldest upload first. */
    method GetPending() returns (docs: seq<Document>)
      requires Valid()
      ensures Listing(docs, PendingIds(documents), UploadedAsc(documents), Columns(false, false))
    {
      docs := Load(PendingIds(documents), UploadedAsc(documents), Columns(false, false));
    }

    /** GetExpiringDocuments: expiry date within [now, now + 30 days], soonest first. */
    method GetExpiringDocuments(now: int) returns (docs: seq<Document>)
      requires Valid()
      ensures Listing(docs, ExpiringIds(documents, now),
                      ExpiryAsc(documents), Columns(true, false))
    {
      docs := Load(ExpiringIds(documents, now),
                   ExpiryAsc(documents), Columns(true, false));
    }

    /** GetExpiredDocuments: expiry date before now, oldest first. */
    method GetExpiredDocuments(now: int) returns (docs: seq<Document>)
      requires Valid()
      ensures Listing(docs, ExpiredIds(documents, now),
                      ExpiryAsc(documents), Columns(true, false))
    {
      docs := Load(ExpiredIds(documents, now),
                   ExpiryAsc(documents), Columns(true, false));
    }

    /** GetByID: the document with its tags, or the driver's no-rows error. */
    method GetByID(id: int) returns (r: Result<Document, string>)
      requires Valid()
      ensures r.Failure? <==> id !in documents
      ensures r.Failure? ==> r.error == NoRows
      ensures r.Success? ==> r.value.id == id && Shown(r.value, Columns(false, true))
    {
      if id !in documents {
        return Failure(NoRows);
      }
      var d := Projected(id, documents[id], categories, Columns(false, true));
      var ts := GetTagsForDocument(id);
      r := Success(d.(tags := ts));
    }

    /**
     * Delete: remove the document's shares and versions, then the document.
     * The statement meant to drop its tag relations names the tag directory,
     * which has no document_id column; it fails, its error is ignored, and
     * the relations stay. "document not found" exactly when no row existed.
     */
    method Delete(id: int) returns (r: Outcome<string>)
      requires Valid()
      modifies this
      ensures Valid()
      ensures r.Fail? <==> id !in old(documents)
      ensures r.Fail? ==> r.error == NotFound
      ensures documents == old(documents) - {id}
      ensures shares == SharesWithout(old(shares), id)
      ensures versions == Filter(old(versions), NotOfDocument(id))
      ensures tagRelations == old(tagRelations) && tags == old(tags) && categories == old(categories)
      ensures nextDocumentId == old(nextDocumentId) && nextVersionId == old(nextVersionId)
      ensures nextShareId == old(nextShareId)
    {
      r := if id in documents then Pass else Fail(NotFound);
      shares := SharesWithout(shares, id);
      FilterKeepsIds(versions, id, nextVersionId);
      versions := Filter(versions, NotOfDocument(id));
      documents := documents - {id};
    }

    /** Validate: approve; an unknown id is not an error. */
    method Validate(id: int, adminId: int, now: int) returns (r: Outcome<string>)
      requires Valid()
      modifies this
      ensures Valid()
      ensures r == Pass
      ensures documents == Reviewed(old(documents), id, Approved, adminId, None, now)
      ensures tagRelations == old(tagRelations) && versions == old(versions) && shares == old(shares)
      ensures tags == old(tags) && categories == old(categories)
      ensures nextDocumentId == old(nextDocumentId) && nextVersionId == old(nextVersionId)
      ensures nextShareId == old(nextShareId)
    {
      documents := Reviewed(documents, id, Approved, adminId, None, now);
      r := Pass;
    }

    /** Reject: reject with a reason; an unknown id is not an error. */
    method Reject(id: int, adminId: int, reason: string, now: int) returns (r: Outcome<string>)
      requires Valid()
      modifies this
      ensures Valid()
      ensures r == Pass
      ensures documents == Reviewed(old(documents), id, Rejected, adminId, Some(reason), now)
      ensures tagRelations == old(tagRelations) && versions == old(versions) && shares == old(shares)
      ensures tags == old(tags) && categories == old(categories)
      ensures nextDocumentId == old(nextDocumentId) && nextVersionId == old(nextVersionId)
      ensures nextShareId == old(nextShareId)
    {
      documents := Reviewed(documents, id, Rejected, adminId, Some(reason), now);
      r := Pass;
    }

    /**
     * ShareDocument: upsert on (document, user). The returned share is the
     * request with the stored row's id and sharing time.
     */
    method ShareDocument(share: DocumentShare, now: int) returns (stored: DocumentShare)
      requires Valid()
      modifies this
      ensures Valid()
      ensures shares == Upserted(old(shares), share, old(nextShareId), now)
      ensures var row := shares[(share.documentId, share.sharedWith)];
        stored == share.(id := row.id, sharedAt := row.sharedAt)
      ensures nextShareId == old(nextShareId) + (if (share.documentId, share.sharedWith) in old(shares) then 0 else 1)
      ensures documents == old(documents) && tagRelations == old(tagRelations) && versions == old(versions)
      ensures tags == old(tags) && categories == old(categories)
      ensures nextDocumentId == old(nextDocumentId) && nextVersionId == old(nextVersionId)
    {
      var key := (share.documentId, share.sharedWith);
      var isNew := key !in shares;
      shares := Upserted(shares, share, nextShareId, now);
      if isNew {
        nextShareId := nextShareId + 1;
      }
      stored := share.(id := shares[key].id, sharedAt := shares[key].sharedAt);
    }

    /** UnshareDocument: delete the share if there is one; never an error. */
    method UnshareDocument(documentId: int, userId: int)
      requires Valid()
      modifies this
      ensures Valid()
      ensures shares == Unshared(old(shares), documentId, userId)
      ensures documents == old(documents) && tagRelations == old(tagRelations) && versions == old(versions)
      ensures tags == old(tags) && categories == old(categories)
      ensures nextDocumentId == old(nextDocumentId) && nextVersionId == old(nextVersionId)
      ensures nextShareId == old(nextShareId)
    {
      shares := Unshared(shares, documentId, userId);
    }
  }
}
