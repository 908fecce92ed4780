/**
 * The request logic of the document handlers (handlers/document_handler.go)
 * over already-decoded inputs: comma-separated id lists, the storage file
 * names, the upload requests (single, bulk and new version), the download
 * and preview plans, share validation, deletion by the owning athlete and
 * the search filters. The storage service is a function parameter that
 * returns a URL or an error; the clock is a parameter.
 */
module DocumentHandler {
  import opened Wrappers
  import opened GoText
  import opened GoTime
  import opened DocumentModels
  import opened DocumentRepository
  import opened DocumentSearch
  import Sorting

  /** An error response: its HTTP status and message. */
  datatype HttpError = HttpError(status: int, message: string)

  const BadRequest: int := 400
  const Unauthorized: int := 401
  const Forbidden: int := 403
  const NotFoundStatus: int := 404
  const ServerError: int := 500

  /** A file of a multipart form: its name, declared content type and size. */
  datatype FileHeader = FileHeader(fileName: string, contentType: string, size: int)

  /** r.FormFile's error when the field is absent. */
  const NoSuchFile: string := "http: no such file"

  // ---------------------------------------------------------------- id lists

  /** One comma-separated piece read as an id, surrounding white space ignored. */
  function PieceId(piece: string): Option<int> {
    Atoi(TrimSpace(piece))
  }

  /** Every piece of a list read as an id. */
  function PieceIds(pieces: seq<string>): (r: seq<Option<int>>)
    ensures |r| == |pieces| && forall i :: 0 <= i < |pieces| ==> r[i] == PieceId(pieces[i])
  {
    seq(|pieces|, i requires 0 <= i < |pieces| => PieceId(pieces[i]))
  }

  predicate AllSome<T>(xs: seq<Option<T>>) {
    forall i :: 0 <= i < |xs| ==> xs[i].Some?
  }

  /** The values of a list of readings that all succeeded. */
  function Values<T>(xs: seq<Option<T>>): (r: seq<T>)
    requires AllSome(xs)
    ensures |r| == |xs| && forall i :: 0 <= i < |xs| ==> r[i] == xs[i].value
  {
    seq(|xs|, i requires 0 <= i < |xs| && AllSome(xs) => xs[i].value)
  }

  /** The first reading that failed. */
  function FirstNone<T>(xs: seq<Option<T>>): (k: nat)
    requires !AllSome(xs)
    ensures k < |xs| && xs[k].None?
    ensures forall j :: 0 <= j < k ==> xs[j].Some?
  {
    if xs[0].None? then 0
    else
      var rest := xs[1..];
      assert !AllSome(rest) by {
        var k :| 0 <= k < |xs| && xs[k].None?;
        assert rest[k - 1] == xs[k];
      }
      var k := FirstNone(rest);
      assert forall j :: 1 <= j <= k ==> xs[j] == rest[j - 1];
      k + 1
  }

  /** The values of the readings that succeeded, in order; the others are dropped. */
  function Somes<T>(xs: seq<Option<T>>): (r: seq<T>)
    ensures |r| <= |xs|
  {
    if xs == [] then []
    else
      var last := xs[|xs| - 1];
      Somes(xs[..|xs| - 1]) + (if last.Some? then [last.value] else [])
  }

  /** When every reading succeeded, dropping the failed ones drops nothing. */
  lemma {:induction false} AllSomeKept<T>(xs: seq<Option<T>>)
    requires AllSome(xs)
    ensures Somes(xs) == Values(xs)
  {
    if xs != [] {
      var init := xs[..|xs| - 1];
      assert AllSome(init) by {
        forall i | 0 <= i < |init| ensures init[i].Some? {
          assert init[i] == xs[i];
        }
      }
      AllSomeKept(init);
      assert Values(xs) == Values(init) + [xs[|xs| - 1].value];
    }
  }

  /** The kept values are exactly the successful readings. */
  lemma {:induction false} SomesMembers<T>(xs: seq<Option<T>>)
    ensures forall x :: x in Somes(xs) <==> Some(x) in xs
  {
    if xs != [] {
      var init := xs[..|xs| - 1];
      SomesMembers(init);
      assert xs == init + [xs[|xs| - 1]];
    }
  }

  predicate AllIds(pieces: seq<string>) {
    AllSome(PieceIds(pieces))
  }

  /** The strict reading of an id list: every piece must be an id. */
  function StrictIds(pieces: seq<string>): seq<int>
    requires AllIds(pieces)
  {
    Values(PieceIds(pieces))
  }

  /** The first piece that is not an id. */
  function FirstBad(pieces: seq<string>): nat
    requires !AllIds(pieces)
  {
    FirstNone(PieceIds(pieces))
  }

  /** The lenient reading of an id list: the pieces that are ids, in order. */
  function LenientIds(pieces: seq<string>): seq<int> {
    Somes(PieceIds(pieces))
  }

  /** When every piece is an id, the lenient reading agrees with the strict one. */
  lemma StrictIsLenient(pieces: seq<string>)
    requires AllIds(pieces)
    ensures LenientIds(pieces) == StrictIds(pieces)
  {
    AllSomeKept(PieceIds(pieces));
  }

  /** The lenient reading keeps exactly the ids among the pieces. */
  lemma LenientMembers(pieces: seq<string>, x: int)
    ensures x in LenientIds(pieces) <==> Some(x) in PieceIds(pieces)
  {
    SomesMembers(PieceIds(pieces));
  }

  /** A failed reading preceded only by successful ones is the first failure. */
  lemma FirstNoneAt<T>(xs: seq<Option<T>>, i: int)
    requires 0 <= i < |xs| && xs[i].None? && forall j :: 0 <= j < i ==> xs[j].Some?
    ensures !AllSome(xs) && FirstNone(xs) == i
  {
    var k := FirstNone(xs);
    assert !(k < i) && !(i < k);
  }

  /** Collects the values of the readings in order, stopping at the first failed one. */
  method ReadAll<T>(xs: seq<Option<T>>) returns (r: Result<seq<T>, nat>)
    ensures r.Success? <==> AllSome(xs)
    ensures r.Success? ==> r.value == Values(xs)
    ensures r.Failure? ==> !AllSome(xs) && r.error == FirstNone(xs)
  {
    var values: seq<T> := [];
    for i := 0 to |xs|
      invariant forall j :: 0 <= j < i ==> xs[j].Some?
      invariant |values| == i && forall j :: 0 <= j < i ==> values[j] == xs[j].value
    {
      if xs[i].None? {
        FirstNoneAt(xs, i);
        return Failure(i);
      }
      values := values + [xs[i].value];
    }
    r := Success(values);
  }

  /** Reads the pieces of an id list, stopping at the first that is not an id. */
  method ReadIdsStrict(pieces: seq<string>, prefix: string) returns (r: Result<seq<int>, HttpError>)
    ensures r.Success? <==> AllIds(pieces)
    ensures r.Success? ==> r.value == StrictIds(pieces)
    ensures r.Failure? ==> !AllIds(pieces) && r.error == HttpError(BadRequest, prefix + pieces[FirstBad(pieces)])
  {
    var read := ReadAll(PieceIds(pieces));
    if read.Failure? {
      return Failure(HttpError(BadRequest, prefix + pieces[read.error]));
    }
    r := Success(read.value);
  }

  /** Collects the values of the readings that succeeded, in order, skipping the others. */
  method KeepSome<T>(xs: seq<Option<T>>) returns (values: seq<T>)
    ensures values == Somes(xs)
  {
    values := [];
    for i := 0 to |xs|
      invariant values == Somes(xs[..i])
    {
      assert xs[..i + 1][..i] == xs[..i];
      if xs[i].Some? {
        values := values + [xs[i].value];
      }
    }
    assert xs[..|xs|] == xs;
  }

  /** Reads the pieces of an id list, skipping those that are not ids. */
  method ReadIdsLenient(pieces: seq<string>) returns (ids: seq<int>)
    ensures ids == LenientIds(pieces)
  {
    ids := KeepSome(PieceIds(pieces));
  }

  /**
   * The strict id-list parser of the upload handlers: every comma-separated
   * piece must be an id; the first that is not one is named in the 400.
   */
  method ParseIdsStrict(text: string, prefix: string) returns (r: Result<seq<int>, HttpError>)
    ensures r.Success? <==> AllIds(Split(text, ','))
    ensures r.Success? ==> r.value == StrictIds(Split(text, ','))
    ensures r.Failure? ==>
      var pieces := Split(text, ',');
      !AllIds(pieces) && r.error == HttpError(BadRequest, prefix + pieces[FirstBad(pieces)])
  {
    r := ReadIdsStrict(Split(text, ','), prefix);
  }

  /** The lenient id-list parser of the search handler: pieces that are not ids are skipped. */
  method ParseIdsLenient(text: string) returns (ids: seq<int>)
    ensures ids == LenientIds(Split(text, ','))
  {
    ids := ReadIdsLenient(Split(text, ','));
  }

  // ---------------------------------------------------------------- file names

  /** The file is taken for a PDF: declared so, or named so in any letter case. */
  predicate LooksLikePdf(file: FileHeader) {
    file.contentType == "application/pdf" || HasSuffix(ToLower(file.fileName), ".pdf")
  }

  /**
   * The name a file is stored under: a PDF gets ".txt" appended (the storage
   * service refuses PDFs), anything else keeps its name.
   */
  function StorageName(file: FileHeader): (name: string)
    ensures HasPrefix(name, file.fileName)
    ensures name == file.fileName + ".txt" <==> LooksLikePdf(file)
    ensures name == file.fileName <==> !LooksLikePdf(file)
    ensures !HasSuffix(ToLower(name), ".pdf")
  {
    if LooksLikePdf(file) then
      var name := file.fileName + ".txt";
      assert name[|name| - 3] == 't';
      LowerTNotPdf(name);
      PrefixOfAppend(file.fileName, ".txt");
      name
    else file.fileName
  }

  /** A name whose third character from the end is 't' does not end in ".pdf" in any letter case. */
  lemma LowerTNotPdf(name: string)
    requires |name| >= 3 && name[|name| - 3] == 't'
    ensures !HasSuffix(ToLower(name), ".pdf")
  {
    var lower := ToLower(name);
    assert lower[|lower| - 3] == 't';
    TNotPdf(lower);
  }

  lemma TNotPdf(s: string)
    requires |s| >= 3 && s[|s| - 3] == 't'
    ensures !HasSuffix(s, ".pdf")
  {
    if |s| >= 4 {
      assert s[|s| - 4..][1] == 't';
    }
  }

  /** "<stamp>_<name>": the stamp is the upload time in nanoseconds. */
  function UploadFileName(stamp: int, name: string): string {
    Itoa(stamp) + "_" + name
  }

  /** "<document>_v<n>_<name>". */
  function VersionFileName(documentId: int, n: int, name: string): string {
    Itoa(documentId) + ("_" + ("v" + Itoa(n) + ("_" + name)))
  }

  /** Splitting a version file name at '_' gives back the document id and the version tag first. */
  lemma VersionFileNameFields(documentId: int, n: int, name: string)
    ensures var parts := Split(VersionFileName(documentId, n, name), '_');
      |parts| >= 3 && parts[0] == Itoa(documentId) && parts[1] == "v" + Itoa(n)
      && Atoi(parts[0]) == (if MinInt64 <= documentId <= MaxInt64 then Some(documentId) else Atoi(parts[0]))
  {
    VersionFileNameSplit(documentId, n, name);
    if MinInt64 <= documentId <= MaxInt64 {
      AtoiItoa(documentId);
    }
  }

  lemma VersionFileNameSplit(documentId: int, n: int, name: string)
    ensures Split(VersionFileName(documentId, n, name), '_') == [Itoa(documentId), "v" + Itoa(n)] + Split(name, '_')
  {
    var a, tag := Itoa(documentId), "v" + Itoa(n);
    var rest := tag + ['_'] + name;
    calc {
      Split(VersionFileName(documentId, n, name), '_');
      { assert VersionFileName(documentId, n, name) == a + ['_'] + rest; }
      Split(a + ['_'] + rest, '_');
      { ItoaHasNo(documentId, '_'); SplitFirst(a, rest, '_'); }
      [a] + Split(rest, '_');
      { VersionTagHasNoUnderscore(n); SplitFirst(tag, name, '_'); }
      [a] + ([tag] + Split(name, '_'));
      [a, tag] + Split(name, '_');
    }
  }

  lemma VersionTagHasNoUnderscore(n: int)
    ensures '_' !in "v" + Itoa(n)
  {
    ItoaHasNo(n, '_');
    var tag := "v" + Itoa(n);
    assert forall k :: 1 <= k < |tag| ==> tag[k] == Itoa(n)[k - 1];
  }

  /** The stamp of an upload file name is everything before its first '_'. */
  lemma UploadFileNameStamp(stamp: int, name: string)
    ensures Split(UploadFileName(stamp, name), '_')[0] == Itoa(stamp)
  {
    ItoaHasNo(stamp, '_');
    assert UploadFileName(stamp, name) == Itoa(stamp) + ['_'] + name;
    SplitFirst(Itoa(stamp), name, '_');
  }

  /** Where a single upload is saved: "uploads/documents/athlete_<id>/<stamp>_<name>". */
  function LocalUploadPath(athleteId: int, stamp: int, name: string): string {
    "uploads/documents/athlete_" + (Itoa(athleteId) + "/" + UploadFileName(stamp, name))
  }

  /**
   * A saved upload's path is served from disk and removed from disk with its
   * document: it is under "uploads/" and is not an http URL.
   */
  lemma LocalUploadPathIsLocal(athleteId: int, stamp: int, name: string)
    ensures var path := LocalUploadPath(athleteId, stamp, name);
      HasPrefix(path, "uploads/") && !HasPrefix(path, "http") && path != ""
  {
    var path := LocalUploadPath(athleteId, stamp, name);
    UploadPathInDirectory(athleteId, stamp, name);
    UnderUploads(path);
    NotHttp(path);
  }

  lemma UploadPathInDirectory(athleteId: int, stamp: int, name: string)
    ensures HasPrefix(LocalUploadPath(athleteId, stamp, name), "uploads/documents/athlete_")
  {
    var dir, rest := "uploads/documents/athlete_", Itoa(athleteId) + "/" + UploadFileName(stamp, name);
    PrefixOfAppend(dir, rest);
  }

  lemma UnderUploads(path: string)
    requires HasPrefix(path, "uploads/documents/athlete_")
    ensures HasPrefix(path, "uploads/") && path[0] == 'u'
  {
    var dir := "uploads/documents/athlete_";
    assert HasPrefix(dir, "uploads/");
    PrefixOfPrefix(path, dir, "uploads/");
    assert path[0] == path[..8][0];
  }

  lemma NotHttp(path: string)
    requires path != [] && path[0] == 'u'
    ensures !HasPrefix(path, "http")
  {
    if |path| >= 4 {
      assert path[..4][0] == 'u';
    }
  }

  function StorageFolder(id: int): string {
    "east-eagles/documents/athlete_" + Itoa(id)
  }

  /** The message of a failed upload to the storage service. */
  function StorageError(e: string): string {
    "Error uploading file to cloud storage: " + e
  }

  // ---------------------------------------------------------------- upload requests

  /** The form fields of a single upload. */
  datatype UploadForm = UploadForm(
    athleteId: string,
    documentType: string,
    categoryId: string,
    tagIds: string,
    expiryDate: string,
    notes: string)

  /** The form fields of a bulk upload; the files are named after each athlete. */
  datatype BulkForm = BulkForm(
    athleteIds: string,
    documentType: string,
    categoryId: string,
    tagIds: string,
    expiryDate: string,
    notes: string)

  /** The local-disk step of a single upload that failed. */
  datatype SaveStep = MakeDirectory | CreateFile | CopyContent

  function SaveError(step: SaveStep): HttpError {
    match step
    case MakeDirectory => HttpError(ServerError, "Error creating upload directory")
    case CreateFile => HttpError(ServerError, "Error saving file")
    case CopyContent => HttpError(ServerError, "Error writing file")
  }

  /** An optional category id: absent when empty, a 400 when not an integer. */
  function ParseCategory(text: string): (r: Result<Option<int>, HttpError>)
    ensures r.Success? <==> text == "" || Atoi(text).Some?
    ensures r.Success? ==> r.value == (if text == "" then None else Atoi(text))
    ensures r.Failure? ==> r.error == HttpError(BadRequest, "Invalid category ID")
  {
    if text == "" then Success(None)
    else if Atoi(text).None? then Failure(HttpError(BadRequest, "Invalid category ID"))
    else Success(Atoi(text))
  }

  /** The tag ids of an upload form: none when empty, otherwise the strict reading. */
  function FormTagIds(text: string): (r: Result<seq<int>, HttpError>)
    ensures text == "" ==> r == Success([])
    ensures text != "" ==> (r.Success? <==> AllIds(Split(text, ',')))
    ensures text != "" && r.Success? ==> r.value == StrictIds(Split(text, ','))
    ensures r.Failure? ==>
      var pieces := Split(text, ',');
      !AllIds(pieces) && r.error == HttpError(BadRequest, "Invalid tag ID: " + pieces[FirstBad(pieces)])
  {
    if text == "" then Success([])
    else
      var pieces := Split(text, ',');
      if AllIds(pieces) then Success(StrictIds(pieces))
      else Failure(HttpError(BadRequest, "Invalid tag ID: " + pieces[FirstBad(pieces)]))
  }

  /** The expiry date of an upload: absent when empty, and silently absent when malformed. */
  function UploadExpiry(text: string): (d: Option<Date>)
    ensures d.Some? ==> ValidDate(d.value) && FormatDate(d.value) == text
  {
    if text == "" then None
    else
      var d := ParseDate(text);
      assert d.Some? ==> FormatDate(d.value) == text by {
        if d.Some? { FormatParseDate(text); }
      }
      d
  }

  /** Every valid date, written as YYYY-MM-DD, is kept as the upload's expiry date. */
  lemma UploadExpiryKeepsDates(x: Date)
    requires ValidDate(x)
    ensures UploadExpiry(FormatDate(x)) == Some(x)
  {
    ParseFormatDate(x);
  }

  function TagRefs(ids: seq<int>): (ts: seq<Tag>)
    ensures |ts| == |ids| && forall i :: 0 <= i < |ids| ==> ts[i] == TagRef(ids[i])
  {
    seq(|ids|, i requires 0 <= i < |ids| => TagRef(ids[i]))
  }

  /** The document record an upload hands to the repository. */
  function NewDocument(athleteId: int, documentType: string, categoryId: Option<int>, tagIds: seq<int>,
                       expiryDate: string, notes: string, file: FileHeader, url: string): Document
  {
    Document(0, athleteId, documentType, categoryId, None, file.fileName, "", url, file.size,
             file.contentType, Pending, UploadExpiry(expiryDate), 0, None, None, "", notes, TagRefs(tagIds))
  }

  /**
   * A single upload up to the repository call: the file, the athlete id,
   * the category and the tags are checked in that order, the file is saved
   * under the athlete's upload directory and its path is the URL.
   */
  function UploadRequest(files: map<string, FileHeader>, form: UploadForm, stamp: int, save: Option<SaveStep>)
    : (r: Result<Document, HttpError>)
    ensures "file" !in files ==> r == Failure(HttpError(BadRequest, "Error retrieving file"))
    ensures "file" in files && Atoi(form.athleteId).None? ==> r == Failure(HttpError(BadRequest, "Invalid athlete ID"))
    ensures "file" in files && Atoi(form.athleteId).Some? && ParseCategory(form.categoryId).Failure? ==>
      r == Failure(ParseCategory(form.categoryId).error)
    ensures "file" in files && Atoi(form.athleteId).Some? && ParseCategory(form.categoryId).Success?
            && FormTagIds(form.tagIds).Failure? ==>
      r == Failure(FormTagIds(form.tagIds).error)
    ensures "file" in files && Atoi(form.athleteId).Some? && ParseCategory(form.categoryId).Success?
            && FormTagIds(form.tagIds).Success? && save.Some? ==>
      r == Failure(SaveError(save.value))
    ensures r.Success? ==> save.None? && Atoi(form.athleteId).Some?
    ensures r.Success? ==> ParseCategory(form.categoryId).Success? && FormTagIds(form.tagIds).Success?
    ensures r.Success? ==>
      var file := files["file"];
      && r.value.athleteId == Atoi(form.athleteId).value
      && r.value.fileName == file.fileName && r.value.status == Pending
      && r.value.fileUrl == LocalUploadPath(r.value.athleteId, stamp, file.fileName)
      && r.value.expiryDate == UploadExpiry(form.expiryDate)
      && r.value.categoryId == ParseCategory(form.categoryId).value
      && r.value.tags == TagRefs(FormTagIds(form.tagIds).value)
      && r.value.documentType == form.documentType && r.value.notes == form.notes
      && r.value.fileSizeBytes == file.size && r.value.mimeType == file.contentType
      && r.value.filePath == "" && r.value.rejectionReason == ""
      && r.value.validatedBy.None? && r.value.validatedAt.None?
    ensures r.Failure? ==> r.error.status == BadRequest || r.error.status == ServerError
  {
    if "file" !in files then Failure(HttpError(BadRequest, "Error retrieving file"))
    else if Atoi(form.athleteId).None? then Failure(HttpError(BadRequest, "Invalid athlete ID"))
    else if ParseCategory(form.categoryId).Failure? then Failure(ParseCategory(form.categoryId).error)
    else if FormTagIds(form.tagIds).Failure? then Failure(FormTagIds(form.tagIds).error)
    else if save.Some? then Failure(SaveError(save.value))
    else
      var file := files["file"];
      var athleteId := Atoi(form.athleteId).value;
      var url := LocalUploadPath(athleteId, stamp, file.fileName);
      Success(NewDocument(athleteId, form.documentType, ParseCategory(form.categoryId).value,
                          FormTagIds(form.tagIds).value, form.expiryDate, form.notes, file, url))
  }

  /** A malformed expiry date does not fail an upload: the document is recorded without one. */
  lemma MalformedExpiryIgnored(files: map<string, FileHeader>, form: UploadForm, stamp: int, save: Option<SaveStep>)
    requires ParseDate(form.expiryDate).None?
    ensures UploadRequest(files, form, stamp, save) == UploadRequest(files, form.(expiryDate := ""), stamp, save)
  {
  }

  /** Whether a document insert with the given fault fails. */
  predicate CreateFails(fault: Option<Fault>, doc: Document) {
    fault.Some? && fault.value.statement <= |doc.tags|
  }

  /** Only the documents table, the tag relations and the document counter may have changed. */
  twostate predicate DocumentTablesOnly(store: DocumentStore)
    reads store
  {
    && store.versions == old(store.versions) && store.shares == old(store.shares)
    && store.tags == old(store.tags) && store.categories == old(store.categories)
    && store.nextVersionId == old(store.nextVersionId) && store.nextShareId == old(store.nextShareId)
  }

  /** Only the versions table and the version counter may have changed. */
  twostate predicate VersionTablesOnly(store: DocumentStore)
    reads store
  {
    && store.documents == old(store.documents) && store.tagRelations == old(store.tagRelations)
    && store.shares == old(store.shares) && store.tags == old(store.tags) && store.categories == old(store.categories)
    && store.nextDocumentId == old(store.nextDocumentId) && store.nextShareId == old(store.nextShareId)
  }

  /**
   * Upload: check the request, save the file (a failing step is given by
   * save), then create the document with its tags; a failing insert is a
   * 500 with the store's message.
   */
  method Upload(store: DocumentStore, files: map<string, FileHeader>, form: UploadForm, stamp: int,
                save: Option<SaveStep>, now: int, fault: Option<Fault>) returns (r: Result<Document, HttpError>)
    requires store.Valid()
    modifies store
    ensures store.Valid()
    ensures UploadRequest(files, form, stamp, save).Failure? ==>
      r == Failure(UploadRequest(files, form, stamp, save).error) && unchanged(store)
    ensures UploadRequest(files, form, stamp, save).Success? ==>
      var doc := UploadRequest(files, form, stamp, save).value;
      && DocumentTablesOnly(store)
      && (CreateFails(fault, doc) ==>
            && r == Failure(HttpError(ServerError, fault.value.message))
            && store.documents == old(store.documents) && store.tagRelations == old(store.tagRelations)
            && store.nextDocumentId == old(store.nextDocumentId))
      && (!CreateFails(fault, doc) ==>
            && r == Success(doc.(id := old(store.nextDocumentId), uploadedAt := now))
            && store.documents == old(store.documents)[r.value.id := InsertedRow(doc, now)]
            && store.tagRelations == old(store.tagRelations) + TagPairs(r.value.id, doc.tags)
            && store.nextDocumentId == old(store.nextDocumentId) + 1)
  {
    if "file" !in files {
      return Failure(HttpError(BadRequest, "Error retrieving file"));
    }
    var file := files["file"];
    var athleteId := Atoi(form.athleteId);
    if athleteId.None? {
      return Failure(HttpError(BadRequest, "Invalid athlete ID"));
    }
    var categoryId := ParseCategory(form.categoryId);
    if categoryId.Failure? {
      return Failure(categoryId.error);
    }
    var tagIds: seq<int> := [];
    if form.tagIds != "" {
      var parsed := ParseIdsStrict(form.tagIds, "Invalid tag ID: ");
      if parsed.Failure? {
        return Failure(parsed.error);
      }
      tagIds := parsed.value;
    }
    if save.Some? {
      return Failure(SaveError(save.value));
    }
    var url := LocalUploadPath(athleteId.value, stamp, file.fileName);
    var doc := NewDocument(athleteId.value, form.documentType, categoryId.value, tagIds,
                           form.expiryDate, form.notes, file, url);
    var created := store.Create(doc, now, fault);
    if created.Failure? {
      return Failure(HttpError(ServerError, created.error));
    }
    r := Success(created.value);
  }

  // ---------------------------------------------------------------- bulk upload

  /** One slot of the bulk response: the athlete and either the document or the error. */
  datatype BulkResult = Uploaded(athleteId: int, doc: Document) | UploadFailed(athleteId: int, error: string)

  /** What a bulk upload shares among its athletes, once the form passed its checks. */
  datatype BulkPlan = BulkPlan(categoryId: Option<int>, tagIds: seq<int>, athleteIds: seq<int>)

  /**
   * The checks that refuse a whole bulk upload before any file is touched:
   * no athlete ids, a bad category, a bad tag id, a bad athlete id.
   */
  function BulkRequest(form: BulkForm): (r: Result<BulkPlan, HttpError>)
    ensures r.Failure? ==> r.error.status == BadRequest
    ensures form.athleteIds == "" ==> r == Failure(HttpError(BadRequest, "Athlete IDs are required"))
    ensures ParseCategory(form.categoryId).Failure? || FormTagIds(form.tagIds).Failure? ==> r.Failure?
    ensures form.athleteIds != "" && ParseCategory(form.categoryId).Failure? ==>
      r == Failure(ParseCategory(form.categoryId).error)
    ensures form.athleteIds != "" && ParseCategory(form.categoryId).Success? && FormTagIds(form.tagIds).Failure? ==>
      r == Failure(FormTagIds(form.tagIds).error)
    ensures form.athleteIds != "" && ParseCategory(form.categoryId).Success? && FormTagIds(form.tagIds).Success? ==>
      var pieces := Split(form.athleteIds, ',');
      !AllIds(pieces) ==> r == Failure(HttpError(BadRequest, "Invalid athlete ID: " + pieces[FirstBad(pieces)]))
    ensures r.Success? ==>
      var pieces := Split(form.athleteIds, ',');
      && form.athleteIds != "" && AllIds(pieces) && r.value.athleteIds == StrictIds(pieces)
      && |r.value.athleteIds| >= 1
      && r.value.categoryId == ParseCategory(form.categoryId).value
      && r.value.tagIds == FormTagIds(form.tagIds).value
  {
    if form.athleteIds == "" then Failure(HttpError(BadRequest, "Athlete IDs are required"))
    else if ParseCategory(form.categoryId).Failure? then Failure(ParseCategory(form.categoryId).error)
    else if FormTagIds(form.tagIds).Failure? then Failure(FormTagIds(form.tagIds).error)
    else
      var pieces := Split(form.athleteIds, ',');
      if !AllIds(pieces) then Failure(HttpError(BadRequest, "Invalid athlete ID: " + pieces[FirstBad(pieces)]))
      else Success(BulkPlan(ParseCategory(form.categoryId).value, FormTagIds(form.tagIds).value, StrictIds(pieces)))
  }

  function FileField(athleteId: int): string {
    "file_" + Itoa(athleteId)
  }

  /**
   * One athlete's upload up to the repository call: its file, its storage
   * name and folder, and the storage call. It depends on this athlete's
   * inputs only.
   */
  function BulkSlot(form: BulkForm, plan: BulkPlan, athleteId: int, files: map<string, FileHeader>, stamp: int,
                    storage: (string, string) -> Result<string, string>): (r: Result<Document, string>)
    ensures FileField(athleteId) !in files ==> r == Failure("Error retrieving file: " + NoSuchFile)
    ensures FileField(athleteId) in files ==>
      var file := files[FileField(athleteId)];
      var stored := storage(UploadFileName(stamp, StorageName(file)), StorageFolder(athleteId));
      stored.Failure? ==> r == Failure(StorageError(stored.error))
    ensures r.Success? ==>
      var file := files[FileField(athleteId)];
      && r.value.athleteId == athleteId && r.value.fileName == file.fileName && r.value.status == Pending
      && storage(UploadFileName(stamp, StorageName(file)), StorageFolder(athleteId)) == Success(r.value.fileUrl)
      && r.value.documentType == form.documentType && r.value.notes == form.notes
      && r.value.categoryId == plan.categoryId && r.value.tags == TagRefs(plan.tagIds)
      && r.value.expiryDate == UploadExpiry(form.expiryDate)
      && r.value.fileSizeBytes == file.size && r.value.mimeType == file.contentType
      && r.value.filePath == "" && r.value.rejectionReason == ""
      && r.value.validatedBy.None? && r.value.validatedAt.None?
  {
    if FileField(athleteId) !in files then Failure("Error retrieving file: " + NoSuchFile)
    else
      var file := files[FileField(athleteId)];
      match storage(UploadFileName(stamp, StorageName(file)), StorageFolder(athleteId))
      case Failure(e) => Failure(StorageError(e))
      case Success(url) =>
        Success(NewDocument(athleteId, form.documentType, plan.categoryId, plan.tagIds,
                            form.expiryDate, form.notes, file, url))
  }

  /** The slot of athlete id agrees with its prepared upload and the insert's fault. */
  predicate SlotAgrees(result: BulkResult, athleteId: int, prepared: Result<Document, string>,
                       fault: Option<Fault>, now: int)
  {
    && result.athleteId == athleteId
    && match prepared
       case Failure(e) => result == UploadFailed(athleteId, e)
       case Success(doc) =>
         if CreateFails(fault, doc) then result == UploadFailed(athleteId, fault.value.message)
         else result.Uploaded? && result.doc == doc.(id := result.doc.id, uploadedAt := now)
  }

  /** The request checks of UploadBulk, in the handler's order. */
  method CheckBulkForm(form: BulkForm) returns (r: Result<BulkPlan, HttpError>)
    ensures r == BulkRequest(form)
  {
    if form.athleteIds == "" {
      return Failure(HttpError(BadRequest, "Athlete IDs are required"));
    }
    var categoryId := ParseCategory(form.categoryId);
    if categoryId.Failure? {
      return Failure(categoryId.error);
    }
    var tagIds: seq<int> := [];
    if form.tagIds != "" {
      var parsed := ParseIdsStrict(form.tagIds, "Invalid tag ID: ");
      if parsed.Failure? {
        return Failure(parsed.error);
      }
      tagIds := parsed.value;
    }
    var athleteIds := ParseIdsStrict(form.athleteIds, "Invalid athlete ID: ");
    if athleteIds.Failure? {
      return Failure(athleteIds.error);
    }
    r := Success(BulkPlan(categoryId.value, tagIds, athleteIds.value));
  }

  /** The ids of the documents the uploaded slots inserted. */
  function UploadedIds(slots: seq<BulkResult>): set<int> {
    if slots == [] then {}
    else
      var last := slots[|slots| - 1];
      UploadedIds(slots[..|slots| - 1]) + (if last.Uploaded? then {last.doc.id} else {})
  }

  /** The tag relations the uploaded slots inserted. */
  function UploadedPairs(slots: seq<BulkResult>): set<(int, int)> {
    if slots == [] then {}
    else
      var last := slots[|slots| - 1];
      UploadedPairs(slots[..|slots| - 1]) + (if last.Uploaded? then TagPairs(last.doc.id, last.doc.tags) else {})
  }

  /** UploadedIds holds exactly the ids of the uploaded slots' documents. */
  lemma {:induction false} UploadedIdsMembers(slots: seq<BulkResult>)
    ensures forall id :: id in UploadedIds(slots) <==>
      exists j :: 0 <= j < |slots| && slots[j].Uploaded? && slots[j].doc.id == id
  {
    if slots != [] {
      var init := slots[..|slots| - 1];
      UploadedIdsMembers(init);
      assert forall j :: 0 <= j < |init| ==> init[j] == slots[j];
    }
  }

  /** UploadedPairs holds exactly the tag relations of the uploaded slots' documents. */
  lemma {:induction false} UploadedPairsMembers(slots: seq<BulkResult>)
    ensures forall p :: p in UploadedPairs(slots) <==>
      exists j :: 0 <= j < |slots| && slots[j].Uploaded? && p in TagPairs(slots[j].doc.id, slots[j].doc.tags)
  {
    if slots != [] {
      var init := slots[..|slots| - 1];
      UploadedPairsMembers(init);
      assert forall j :: 0 <= j < |init| ==> init[j] == slots[j];
    }
  }

  /** One slot of UploadBulk: the prepared document, if any, is inserted with the slot's fault. */
  method UploadSlot(store: DocumentStore, athleteId: int, prepared: Result<Document, string>, now: int,
                    fault: Option<Fault>) returns (result: BulkResult)
    requires store.Valid()
    modifies store
    ensures store.Valid()
    ensures SlotAgrees(result, athleteId, prepared, fault, now)
    ensures old(store.nextDocumentId) <= store.nextDocumentId
    ensures forall d :: d in old(store.documents) ==> d in store.documents && store.documents[d] == old(store.documents)[d]
    ensures result.Uploaded? ==>
      && result.doc.id == old(store.nextDocumentId) < store.nextDocumentId
      && result.doc.id !in old(store.documents)
      && result.doc.id in store.documents && store.documents[result.doc.id] == InsertedRow(result.doc, now)
    ensures DocumentTablesOnly(store)
    ensures result.UploadFailed? ==>
      && store.documents == old(store.documents) && store.tagRelations == old(store.tagRelations)
      && store.nextDocumentId == old(store.nextDocumentId)
    ensures result.Uploaded? ==>
      && store.documents == old(store.documents)[result.doc.id := InsertedRow(result.doc, now)]
      && store.tagRelations == old(store.tagRelations) + TagPairs(result.doc.id, result.doc.tags)
  {
    if prepared.Failure? {
      return UploadFailed(athleteId, prepared.error);
    }
    var created := store.Create(prepared.value, now, fault);
    if created.Failure? {
      result := UploadFailed(athleteId, created.error);
    } else {
      result := Uploaded(athleteId, created.value);
    }
  }

  /**
   * The uploaded slots among done are in the table as inserted, under ids
   * below next, in increasing order.
   */
  ghost predicate Recorded(done: seq<BulkResult>, documents: map<int, DocumentRow>, next: int, now: int) {
    && (forall j :: 0 <= j < |done| && done[j].Uploaded? ==>
          && done[j].doc.id in documents && documents[done[j].doc.id] == InsertedRow(done[j].doc, now)
          && done[j].doc.id < next)
    && (forall j, k :: 0 <= j < k < |done| && done[j].Uploaded? && done[k].Uploaded? ==>
          done[j].doc.id < done[k].doc.id)
  }

  /** A slot whose insert takes the next id and keeps the existing rows keeps the record. */
  lemma RecordedStep(done: seq<BulkResult>, result: BulkResult, before: map<int, DocumentRow>, next: int,
                     after: map<int, DocumentRow>, next': int, now: int)
    requires Recorded(done, before, next, now)
    requires next <= next'
    requires forall d :: d in before ==> d in after && after[d] == before[d]
    requires result.Uploaded? ==>
      && result.doc.id == next < next'
      && result.doc.id in after && after[result.doc.id] == InsertedRow(result.doc, now)
    ensures Recorded(done + [result], after, next', now)
  {
    var all := done + [result];
    forall j | 0 <= j < |all| && all[j].Uploaded?
      ensures all[j].doc.id in after && after[all[j].doc.id] == InsertedRow(all[j].doc, now) && all[j].doc.id < next'
    {
      if j < |done| {
        assert all[j] == done[j];
      }
    }
    forall j, k | 0 <= j < k < |all| && all[j].Uploaded? && all[k].Uploaded?
      ensures all[j].doc.id < all[k].doc.id
    {
      assert all[j] == done[j];
      if k < |done| {
        assert all[k] == done[k];
      }
    }
  }

  /**
   * The per-athlete uploads of UploadBulk: slot i belongs to the i-th
   * athlete id; prepare(i, id) is that slot's file retrieval and storage
   * call, and faults(i) its insert fault.
   */
  method UploadEach(store: DocumentStore, ids: seq<int>, prepare: (int, int) -> Result<Document, string>,
                    now: int, faults: int -> Option<Fault>) returns (results: array<BulkResult>)
    requires store.Valid()
    modifies store
    ensures store.Valid()
    ensures fresh(results) && results.Length == |ids|
    ensures forall i :: 0 <= i < results.Length ==> SlotAgrees(results[i], ids[i], prepare(i, ids[i]), faults(i), now)
    ensures forall i :: 0 <= i < results.Length && results[i].Uploaded? ==>
      results[i].doc.id in store.documents && store.documents[results[i].doc.id] == InsertedRow(results[i].doc, now)
    ensures forall i, j :: 0 <= i < j < results.Length && results[i].Uploaded? && results[j].Uploaded? ==>
      results[i].doc.id != results[j].doc.id
    ensures SlotsInserted(results[..], old(store.documents), old(store.tagRelations), store.documents, store.tagRelations)
    ensures DocumentTablesOnly(store)
  {
    results := new BulkResult[|ids|](i => UploadFailed(0, ""));
    ghost var done: seq<BulkResult> := [];  // the slots filled so far
    for i := 0 to |ids|
      invariant store.Valid()
      invariant |done| == i && forall j :: 0 <= j < i ==> results[j] == done[j]
      invariant forall j :: 0 <= j < i ==> SlotAgrees(done[j], ids[j], prepare(j, ids[j]), faults(j), now)
      invariant Recorded(done, store.documents, store.nextDocumentId, now)
      invariant SlotsInserted(done, old(store.documents), old(store.tagRelations), store.documents, store.tagRelations)
      invariant DocumentTablesOnly(store)
    {
      done := FillSlot(store, results, ids, i, prepare, now, faults, done, old(store.documents), old(store.tagRelations));
    }
    assert results[..] == done;
  }

  /** Slot i of UploadEach: its upload goes into results[i], and the slots filled so far keep their records. */
  method FillSlot(store: DocumentStore, results: array<BulkResult>, ids: seq<int>, i: int,
                  prepare: (int, int) -> Result<Document, string>, now: int, faults: int -> Option<Fault>,
                  ghost done: seq<BulkResult>, ghost before: map<int, DocumentRow>, ghost relationsBefore: set<(int, int)>)
    returns (ghost done': seq<BulkResult>)
    requires store.Valid() && 0 <= i < |ids| == results.Length && |done| == i
    requires forall j :: 0 <= j < i ==> results[j] == done[j]
    requires forall j :: 0 <= j < i ==> SlotAgrees(done[j], ids[j], prepare(j, ids[j]), faults(j), now)
    requires Recorded(done, store.documents, store.nextDocumentId, now)
    requires SlotsInserted(done, before, relationsBefore, store.documents, store.tagRelations)
    modifies store, results
    ensures store.Valid()
    ensures |done'| == i + 1 && forall j :: 0 <= j < i + 1 ==> results[j] == done'[j]
    ensures forall j :: 0 <= j < i + 1 ==> SlotAgrees(done'[j], ids[j], prepare(j, ids[j]), faults(j), now)
    ensures Recorded(done', store.documents, store.nextDocumentId, now)
    ensures SlotsInserted(done', before, relationsBefore, store.documents, store.tagRelations)
    ensures DocumentTablesOnly(store)
  {
    ghost var documents, relations, next := store.documents, store.tagRelations, store.nextDocumentId;
    var result := UploadSlot(store, ids[i], prepare(i, ids[i]), now, faults(i));
    RecordedStep(done, result, documents, next, store.documents, store.nextDocumentId, now);
    SlotsInsertedStep(done, result, before, relationsBefore, documents, relations,
                      store.documents, store.tagRelations, now);
    AgreesStep(done, result, ids, prepare, faults, now);
    results[i] := result;
    done' := done + [result];
  }

  /** A slot that agrees with its own preparation extends the agreeing slots. */
  lemma AgreesStep(done: seq<BulkResult>, result: BulkResult, ids: seq<int>,
                   prepare: (int, int) -> Result<Document, string>, faults: int -> Option<Fault>, now: int)
    requires |done| < |ids|
    requires forall j :: 0 <= j < |done| ==> SlotAgrees(done[j], ids[j], prepare(j, ids[j]), faults(j), now)
    requires SlotAgrees(result, ids[|done|], prepare(|done|, ids[|done|]), faults(|done|), now)
    ensures forall j :: 0 <= j < |done| + 1 ==>
      SlotAgrees((done + [result])[j], ids[j], prepare(j, ids[j]), faults(j), now)
  {
  }

  /**
   * The documents and tag relations after the inserts of the slots, given
   * those before: the earlier rows are kept, the uploaded slots' rows and
   * tag relations are added, and nothing else.
   */
  ghost predicate SlotsInserted(slots: seq<BulkResult>, before: map<int, DocumentRow>, relationsBefore: set<(int, int)>,
                                documents: map<int, DocumentRow>, relations: set<(int, int)>)
  {
    && (forall d :: d in before ==> d in documents && documents[d] == before[d])
    && documents.Keys == before.Keys + UploadedIds(slots)
    && relations == relationsBefore + UploadedPairs(slots)
  }

  /** A slot that inserts its document and tag relations, or nothing when it failed, keeps SlotsInserted. */
  lemma SlotsInsertedStep(done: seq<BulkResult>, result: BulkResult, before: map<int, DocumentRow>,
                          relationsBefore: set<(int, int)>, documents: map<int, DocumentRow>, relations: set<(int, int)>,
                          documents': map<int, DocumentRow>, relations': set<(int, int)>, now: int)
    requires SlotsInserted(done, before, relationsBefore, documents, relations)
    requires result.UploadFailed? ==> documents' == documents && relations' == relations
    requires result.Uploaded? ==>
      && result.doc.id !in documents
      && documents' == documents[result.doc.id := InsertedRow(result.doc, now)]
      && relations' == relations + TagPairs(result.doc.id, result.doc.tags)
    ensures SlotsInserted(done + [result], before, relationsBefore, documents', relations')
  {
    assert (done + [result])[..|done|] == done;
  }

  /**
   * UploadBulk: after the request checks, one slot per athlete id in input
   * order, each filled by its own upload; a failing slot holds its error
   * and leaves the others alone.
   */
  method UploadBulk(store: DocumentStore, form: BulkForm, files: map<string, FileHeader>,
                    storage: (string, string) -> Result<string, string>, stamps: int -> int,
                    now: int, faults: int -> Option<Fault>) returns (r: Result<array<BulkResult>, HttpError>)
    requires store.Valid()
    modifies store
    ensures store.Valid()
    ensures BulkRequest(form).Failure? ==> r == Failure(BulkRequest(form).error) && unchanged(store)
    ensures BulkRequest(form).Success? ==>
      var plan := BulkRequest(form).value;
      && r.Success? && fresh(r.value) && r.value.Length == |plan.athleteIds|
      && (forall i :: 0 <= i < r.value.Length ==>
            SlotAgrees(r.value[i], plan.athleteIds[i],
                       BulkSlot(form, plan, plan.athleteIds[i], files, stamps(i), storage), faults(i), now))
      && (forall i :: 0 <= i < r.value.Length && r.value[i].Uploaded? ==>
            r.value[i].doc.id in store.documents
            && store.documents[r.value[i].doc.id] == InsertedRow(r.value[i].doc, now))
      && SlotsInserted(r.value[..], old(store.documents), old(store.tagRelations), store.documents, store.tagRelations)
      && DocumentTablesOnly(store)
  {
    var checked := CheckBulkForm(form);
    if checked.Failure? {
      return Failure(checked.error);
    }
    var plan := checked.value;
    var results := UploadEach(store, plan.athleteIds,
                              (i, id) => BulkSlot(form, plan, id, files, stamps(i), storage), now, faults);
    r := Success(results);
  }

  // ---------------------------------------------------------------- new version

  /**
   * UploadVersion: number the new version one past the document's latest,
   * store the file as "<document>_v<n>_<name>" (".txt" appended to a PDF),
   * and record the version with the original file name and the uploader.
   */
  method UploadVersion(store: DocumentStore, idText: string, files: map<string, FileHeader>, notes: string,
                       userId: int, storage: (string, string) -> Result<string, string>, now: int,
                       fault: Option<string>) returns (r: Result<DocumentVersion, HttpError>)
    requires store.Valid()
    modifies store
    ensures store.Valid()
    ensures Atoi(idText).None? ==> r == Failure(HttpError(BadRequest, "Invalid document ID")) && unchanged(store)
    ensures Atoi(idText).Some? && "file" !in files ==>
      r == Failure(HttpError(BadRequest, "Error retrieving file")) && unchanged(store)
    ensures Atoi(idText).Some? && "file" in files ==>
      var d, file := Atoi(idText).value, files["file"];
      var n := LatestVersion(old(store.versions), d) + 1;
      match storage(VersionFileName(d, n, StorageName(file)), StorageFolder(d))
      case Failure(e) =>
        r == Failure(HttpError(ServerError, StorageError(e))) && unchanged(store)
      case Success(url) =>
        && VersionTablesOnly(store)
        && if fault.Some? then
          && r == Failure(HttpError(ServerError, fault.value))
          && store.versions == old(store.versions) && store.nextVersionId == old(store.nextVersionId)
        else
          && r == Success(DocumentVersion(old(store.nextVersionId), d, n, file.fileName, "", url, file.size,
                                          file.contentType, notes, Some(userId), now))
          && store.versions == old(store.versions) + [r.value]
          && store.nextVersionId == old(store.nextVersionId) + 1
  {
    var documentId := Atoi(idText);
    if documentId.None? {
      return Failure(HttpError(BadRequest, "Invalid document ID"));
    }
    if "file" !in files {
      return Failure(HttpError(BadRequest, "Error retrieving file"));
    }
    var latest := store.GetLatestVersionNumber(documentId.value);
    r := StoreVersion(store, documentId.value, latest + 1, files["file"], notes, userId, storage, now, fault);
  }

  /** The second half of UploadVersion: stores the file as version n of document d and records the version. */
  method StoreVersion(store: DocumentStore, d: int, n: int, file: FileHeader, notes: string,
                      userId: int, storage: (string, string) -> Result<string, string>, now: int,
                      fault: Option<string>) returns (r: Result<DocumentVersion, HttpError>)
    requires store.Valid()
    modifies store
    ensures store.Valid()
    ensures
      match storage(VersionFileName(d, n, StorageName(file)), StorageFolder(d))
      case Failure(e) =>
        r == Failure(HttpError(ServerError, StorageError(e))) && unchanged(store)
      case Success(url) =>
        && VersionTablesOnly(store)
        && if fault.Some? then
          && r == Failure(HttpError(ServerError, fault.value))
          && store.versions == old(store.versions) && store.nextVersionId == old(store.nextVersionId)
        else
          && r == Success(DocumentVersion(old(store.nextVersionId), d, n, file.fileName, "", url, file.size,
                                          file.contentType, notes, Some(userId), now))
          && store.versions == old(store.versions) + [r.value]
          && store.nextVersionId == old(store.nextVersionId) + 1
  {
    var name, folder := VersionFileName(d, n, StorageName(file)), StorageFolder(d);
    var uploaded := storage(name, folder);
    if uploaded.Failure? {
      return Failure(HttpError(ServerError, StorageError(uploaded.error)));
    }
    var version := DocumentVersion(0, d, n, file.fileName, "", uploaded.value, file.size,
                                   file.contentType, notes, Some(userId), 0);
    var created := store.CreateVersion(version, now, fault);
    if created.Failure? {
      r := Failure(HttpError(ServerError, created.error));
    } else {
      r := Success(created.value);
    }
  }

  // ---------------------------------------------------------------- download and preview

  /** How a stored file is served. */
  datatype FilePlan =
    | NoFile(error: HttpError)
    | LocalFile(path: string, disposition: string)
    | RemoteFile(url: string, disposition: string)

  function Disposition(kind: string, fileName: string): string {
    kind + "; filename=\"" + fileName + "\""
  }

  /** A storage-service URL of an upload: it mentions the service and has an "/upload/" segment. */
  predicate IsStorageUpload(url: string) {
    Contains(url, "cloudinary.com") && Contains(url, "/upload/")
  }

  /** The URL a download fetches: the first "/upload/" of a storage URL gains the attachment flag. */
  function AttachmentUrl(url: string): string {
    if IsStorageUpload(url) then ReplaceFirst(url, "/upload/", "/upload/fl_attachment/") else url
  }

  function ServePlan(doc: Document, kind: string, remote: string): (p: FilePlan)
    ensures doc.fileUrl == "" <==> p.NoFile?
    ensures p.NoFile? ==> p.error == HttpError(NotFoundStatus, "Document file URL not found")
    ensures p.LocalFile? <==> doc.fileUrl != "" && !HasPrefix(doc.fileUrl, "http")
    ensures p.LocalFile? ==> p.path == doc.fileUrl
    ensures p.RemoteFile? ==> p.url == remote
    ensures !p.NoFile? ==> p.disposition == Disposition(kind, doc.fileName)
  {
    if doc.fileUrl == "" then NoFile(HttpError(NotFoundStatus, "Document file URL not found"))
    else if !HasPrefix(doc.fileUrl, "http") then LocalFile(doc.fileUrl, Disposition(kind, doc.fileName))
    else RemoteFile(remote, Disposition(kind, doc.fileName))
  }

  /** Download: as an attachment, a storage URL rewritten to force the download. */
  function DownloadPlan(doc: Document): FilePlan {
    ServePlan(doc, "attachment", AttachmentUrl(doc.fileUrl))
  }

  /** Preview: inline, the stored URL as it is. */
  function PreviewPlan(doc: Document): FilePlan {
    ServePlan(doc, "inline", doc.fileUrl)
  }

  /**
   * Download and preview serve the same documents from the same place; only
   * the disposition differs, and the download URL differs from the stored
   * one exactly when it is a storage upload URL.
   */
  lemma DownloadAndPreviewAgree(doc: Document)
    ensures DownloadPlan(doc).NoFile? <==> PreviewPlan(doc).NoFile?
    ensures DownloadPlan(doc).LocalFile? <==> PreviewPlan(doc).LocalFile?
    ensures DownloadPlan(doc).LocalFile? ==> DownloadPlan(doc).path == PreviewPlan(doc).path
    ensures PreviewPlan(doc).RemoteFile? ==> PreviewPlan(doc).url == doc.fileUrl
    ensures DownloadPlan(doc).RemoteFile? ==> (DownloadPlan(doc).url == doc.fileUrl <==> !IsStorageUpload(doc.fileUrl))
  {
    var url := doc.fileUrl;
    if IsStorageUpload(url) {
      var i := Index(url, "/upload/").value;
      assert |AttachmentUrl(url)| == |url| + 14;
    }
  }

  /**
   * The attachment rewrite loses nothing: replacing the first flagged
   * segment back gives the stored URL.
   */
  lemma AttachmentUrlInvertible(url: string)
    requires IsStorageUpload(url)
    ensures ReplaceFirst(AttachmentUrl(url), "/upload/fl_attachment/", "/upload/") == url
  {
    assert HasPrefix("/upload/fl_attachment/", "/upload/");
    ReplaceFirstUndone(url, "/upload/", "/upload/fl_attachment/");
  }

  // ---------------------------------------------------------------- sharing

  /** The body of a share request. */
  datatype ShareRequest = ShareRequest(sharedWith: int, permission: string, notes: string, expiresAt: string)

  /**
   * The checks of ShareDocument in order: the document id, the body, the
   * caller, the permission level (view, edit or manage), and the expiry date,
   * which must be YYYY-MM-DD when given.
   */
  function CheckShare(idText: string, body: Option<ShareRequest>, sharedBy: Option<int>)
    : (r: Result<DocumentShare, HttpError>)
    ensures r.Success? <==>
      && Atoi(idText).Some? && body.Some? && sharedBy.Some?
      && body.value.permission in {"view", "edit", "manage"}
      && (body.value.expiresAt == "" || ParseDate(body.value.expiresAt).Some?)
    ensures r.Success? ==>
      && r.value.documentId == Atoi(idText).value && r.value.sharedBy == sharedBy.value
      && r.value.sharedWith == body.value.sharedWith && r.value.notes == body.value.notes
      && PermissionText(r.value.permission) == body.value.permission
      && (r.value.expiresAt.Some? <==> body.value.expiresAt != "")
      && (r.value.expiresAt.Some? ==>
            ValidDate(r.value.expiresAt.value) && FormatDate(r.value.expiresAt.value) == body.value.expiresAt)
    ensures r.Failure? ==> r.error.status == BadRequest || (r.error == HttpError(Unauthorized, "Unauthorized"))
    ensures Atoi(idText).None? ==> r == Failure(HttpError(BadRequest, "Invalid document ID"))
    ensures Atoi(idText).Some? && body.None? ==> r == Failure(HttpError(BadRequest, "Invalid request body"))
    ensures Atoi(idText).Some? && body.Some? && sharedBy.None? ==> r == Failure(HttpError(Unauthorized, "Unauthorized"))
    ensures Atoi(idText).Some? && body.Some? && sharedBy.Some? && body.value.permission !in {"view", "edit", "manage"} ==>
      r == Failure(HttpError(BadRequest, "Invalid permission level"))
    ensures Atoi(idText).Some? && body.Some? && sharedBy.Some? && body.value.permission in {"view", "edit", "manage"}
            && body.value.expiresAt != "" && ParseDate(body.value.expiresAt).None? ==>
      r == Failure(HttpError(BadRequest, "Invalid expiration date format"))
  {
    if Atoi(idText).None? then Failure(HttpError(BadRequest, "Invalid document ID"))
    else if body.None? then Failure(HttpError(BadRequest, "Invalid request body"))
    else if sharedBy.None? then Failure(HttpError(Unauthorized, "Unauthorized"))
    else
      var req := body.value;
      match ParsePermission(req.permission)
      case None => Failure(HttpError(BadRequest, "Invalid permission level"))
      case Some(level) =>
        if req.expiresAt != "" && ParseDate(req.expiresAt).None? then
          Failure(HttpError(BadRequest, "Invalid expiration date format"))
        else
          var expires := if req.expiresAt == "" then None else ParseDate(req.expiresAt);
          assert expires.Some? ==> FormatDate(expires.value) == req.expiresAt by {
            if expires.Some? { FormatParseDate(req.expiresAt); }
          }
          Success(DocumentShare(0, Atoi(idText).value, sharedBy.value, req.sharedWith, level, req.notes, 0, expires))
  }

  /**
   * A malformed date is refused when sharing but silently dropped when
   * uploading.
   */
  lemma ExpiryStrictness(idText: string, body: ShareRequest, sharedBy: int)
    requires body.expiresAt != "" && ParseDate(body.expiresAt).None?
    ensures CheckShare(idText, Some(body), Some(sharedBy)).Failure?
    ensures UploadExpiry(body.expiresAt) == None
  {
  }

  /** ShareDocument: validate, then upsert the share on (document, user). */
  method ShareDocument(store: DocumentStore, idText: string, body: Option<ShareRequest>, sharedBy: Option<int>,
                       now: int) returns (r: Result<DocumentShare, HttpError>)
    requires store.Valid()
    modifies store
    ensures store.Valid()
    ensures CheckShare(idText, body, sharedBy).Failure? ==>
      r == Failure(CheckShare(idText, body, sharedBy).error) && unchanged(store)
    ensures CheckShare(idText, body, sharedBy).Success? ==>
      var share := CheckShare(idText, body, sharedBy).value;
      && store.shares == Upserted(old(store.shares), share, old(store.nextShareId), now)
      && r.Success? && r.value == share.(id := r.value.id, sharedAt := r.value.sharedAt)
  {
    var checked := CheckShare(idText, body, sharedBy);
    if checked.Failure? {
      return Failure(checked.error);
    }
    var stored := store.ShareDocument(checked.value, now);
    r := Success(stored);
  }

  // ---------------------------------------------------------------- deletion by the owner

  /**
   * DeleteMyDocument: the caller is mapped to an athlete through the email of
   * the user account; only that athlete's own document is deleted, and its
   * file on local disk (a path under "uploads/") is removed with it. The
   * result says whether a local file is removed.
   */
  method DeleteMyDocument(store: DocumentStore, idText: string, userId: Option<int>,
                          userEmails: map<int, string>, athleteByEmail: map<string, int>)
    returns (r: Result<bool, HttpError>)
    requires store.Valid()
    modifies store
    ensures store.Valid()
    ensures r.Success? <==>
      && Atoi(idText).Some? && userId.Some? && userId.value in userEmails
      && userEmails[userId.value] in athleteByEmail && Atoi(idText).value in old(store.documents)
      && old(store.documents)[Atoi(idText).value].athleteId == athleteByEmail[userEmails[userId.value]]
    ensures r.Failure? ==> unchanged(store)
    ensures r.Failure? && Atoi(idText).Some? && userId.Some? && userId.value in userEmails
            && userEmails[userId.value] in athleteByEmail && Atoi(idText).value in old(store.documents) ==>
      r.error == HttpError(Forbidden, "You can only delete your own documents")
    ensures Atoi(idText).None? ==> r == Failure(HttpError(BadRequest, "Invalid document ID"))
    ensures Atoi(idText).Some? && userId.None? ==> r == Failure(HttpError(Unauthorized, "Unauthorized"))
    ensures Atoi(idText).Some? && userId.Some? && userId.value !in userEmails ==>
      r == Failure(HttpError(NotFoundStatus, "User not found"))
    ensures Atoi(idText).Some? && userId.Some? && userId.value in userEmails
            && userEmails[userId.value] !in athleteByEmail ==>
      r == Failure(HttpError(NotFoundStatus, "Athlete not found"))
    ensures Atoi(idText).Some? && userId.Some? && userId.value in userEmails
            && userEmails[userId.value] in athleteByEmail && Atoi(idText).value !in old(store.documents) ==>
      r == Failure(HttpError(NotFoundStatus, "Document not found"))
    ensures r.Success? ==>
      var id := Atoi(idText).value;
      && store.documents == old(store.documents) - {id}
      && store.shares == SharesWithout(old(store.shares), id)
      && store.versions == Sorting.Filter(old(store.versions), NotOfDocument(id))
      && store.tagRelations == old(store.tagRelations)
      && store.tags == old(store.tags) && store.categories == old(store.categories)
      && store.nextDocumentId == old(store.nextDocumentId) && store.nextVersionId == old(store.nextVersionId)
      && store.nextShareId == old(store.nextShareId)
      && (r.value <==> HasPrefix(old(store.documents)[id].fileUrl, "uploads/"))
  {
    var id := Atoi(idText);
    if id.None? {
      return Failure(HttpError(BadRequest, "Invalid document ID"));
    }
    if userId.None? {
      return Failure(HttpError(Unauthorized, "Unauthorized"));
    }
    if userId.value !in userEmails {
      return Failure(HttpError(NotFoundStatus, "User not found"));
    }
    var email := userEmails[userId.value];
    if email !in athleteByEmail {
      return Failure(HttpError(NotFoundStatus, "Athlete not found"));
    }
    var athlete := athleteByEmail[email];
    var found := store.GetByID(id.value);
    if found.Failure? {
      return Failure(HttpError(NotFoundStatus, "Document not found"));
    }
    var doc := found.value;
    if doc.athleteId != athlete {
      return Failure(HttpError(Forbidden, "You can only delete your own documents"));
    }
    var removeLocal := doc.fileUrl != "" && HasPrefix(doc.fileUrl, "uploads/");
    // The row was just found, so the repository's "document not found"
    // (the handler's 500) cannot arise here.
    var _ := store.Delete(id.value);
    r := Success(removeLocal);
  }

  // ---------------------------------------------------------------- search filters

  /** A query parameter; an absent one reads as empty. */
  function Param(params: map<string, string>, key: string): string {
    if key in params then params[key] else ""
  }

  function Present(text: string): Option<string> {
    if text == "" then None else Some(text)
  }

  /**
   * The filters of the search handler: an athlete id or limit that is not an
   * integer is dropped; empty texts are absent; the tag list keeps the ids
   * among its pieces and is absent when none survives.
   */
  method SearchFilters(params: map<string, string>) returns (f: Filters)
    ensures f.athleteId == Atoi(Param(params, "athlete_id")) && f.limit == Atoi(Param(params, "limit"))
    ensures f.documentType == Present(Param(params, "document_type"))
    ensures f.categoryId == Present(Param(params, "category_id"))
    ensures f.status == Present(Param(params, "status"))
    ensures f.search == Present(Param(params, "search"))
    ensures f.sort == Present(Param(params, "sort"))
    ensures f.tagIds.Some? <==> Param(params, "tag_ids") != "" && LenientIds(Split(Param(params, "tag_ids"), ',')) != []
    ensures f.tagIds.Some? ==> f.tagIds.value == LenientIds(Split(Param(params, "tag_ids"), ','))
  {
    var athleteId: Option<int> := None;
    var text := Param(params, "athlete_id");
    if text != "" {
      athleteId := Atoi(text);
    }
    var tagIds: Option<seq<int>> := None;
    text := Param(params, "tag_ids");
    if text != "" {
      var ids := ParseIdsLenient(text);
      if |ids| > 0 {
        tagIds := Some(ids);
      }
    }
    var limit: Option<int> := None;
    text := Param(params, "limit");
    if text != "" {
      limit := Atoi(text);
    }
    f := Filters(athleteId, Present(Param(params, "document_type")), Present(Param(params, "category_id")),
                 Present(Param(params, "status")), Present(Param(params, "search")), tagIds,
                 Present(Param(params, "sort")), limit);
  }
}
