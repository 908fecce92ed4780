/**
 * The records of the document subsystem (models/document.go): documents,
 * their versions, shares, categories and tags. Instants are seconds since
 * the Unix epoch; dates without a time of day are GoTime dates.
 */
module DocumentModels {
  import opened Wrappers
  import opened GoTime

  /** validation_status: 'pending', 'approved' or 'rejected'. */
  datatype ValidationStatus = Pending | Approved | Rejected

  function StatusText(s: ValidationStatus): string {
    match s
    case Pending => "pending"
    case Approved => "approved"
    case Rejected => "rejected"
  }

  /** permission_level of a share: 'view', 'edit' or 'manage'. */
  datatype PermissionLevel = View | Edit | Manage

  function PermissionText(p: PermissionLevel): string {
    match p
    case View => "view"
    case Edit => "edit"
    case Manage => "manage"
  }

  /** The three spellings a share request may use, and nothing else. */
  function ParsePermission(text: string): (r: Option<PermissionLevel>)
    ensures r.Some? ==> PermissionText(r.value) == text
    ensures r.None? ==> text != "view" && text != "edit" && text != "manage"
  {
    if text == "view" then Some(View)
    else if text == "edit" then Some(Edit)
    else if text == "manage" then Some(Manage)
    else None
  }

  lemma ParsePermissionText(p: PermissionLevel)
    ensures ParsePermission(PermissionText(p)) == Some(p)
  {
  }

  datatype Category = Category(id: int, name: string, description: string, color: string, createdAt: int)

  datatype Tag = Tag(id: int, name: string, color: string, createdAt: int)

  /** A tag known only by its id, as the upload handlers attach them. */
  function TagRef(id: int): Tag {
    Tag(id, "", "", 0)
  }

  /** One row of the documents table; the id is the key it is stored under. */
  datatype DocumentRow = DocumentRow(
    athleteId: int,
    documentType: string,
    categoryId: Option<int>,
    fileName: string,
    filePath: string,
    fileUrl: string,
    fileSizeBytes: int,
    mimeType: string,
    status: ValidationStatus,
    expiryDate: Option<Date>,
    uploadedAt: int,
    validatedBy: Option<int>,
    validatedAt: Option<int>,
    rejectionReason: string,
    notes: string)

  /** models.Document: what the handlers build and the repository returns. */
  datatype Document = Document(
    id: int,
    athleteId: int,
    documentType: string,
    categoryId: Option<int>,
    category: Option<Category>,
    fileName: string,
    filePath: string,
    fileUrl: string,
    fileSizeBytes: int,
    mimeType: string,
    status: ValidationStatus,
    expiryDate: Option<Date>,
    uploadedAt: int,
    validatedBy: Option<int>,
    validatedAt: Option<int>,
    rejectionReason: string,
    notes: string,
    tags: seq<Tag>)

  /** models.DocumentVersion. */
  datatype DocumentVersion = DocumentVersion(
    id: int,
    documentId: int,
    versionNumber: int,
    fileName: string,
    filePath: string,
    fileUrl: string,
    fileSizeBytes: int,
    mimeType: string,
    notes: string,
    uploadedBy: Option<int>,
    uploadedAt: int)

  /** models.DocumentShare. */
  datatype DocumentShare = DocumentShare(
    id: int,
    documentId: int,
    sharedBy: int,
    sharedWith: int,
    permission: PermissionLevel,
    notes: string,
    sharedAt: int,
    expiresAt: Option<Date>)

  /** The row a document insert writes: the columns it names, with the table's defaults for the rest. */
  function InsertedRow(doc: Document, now: int): (row: DocumentRow)
    ensures row.validatedBy.None? && row.validatedAt.None? && row.rejectionReason == ""
    ensures row.uploadedAt == now
    ensures row.athleteId == doc.athleteId && row.categoryId == doc.categoryId
    ensures row.fileName == doc.fileName && row.fileUrl == doc.fileUrl && row.status == doc.status
    ensures row.expiryDate == doc.expiryDate && row.notes == doc.notes
  {
    DocumentRow(doc.athleteId, doc.documentType, doc.categoryId, doc.fileName, doc.filePath,
                doc.fileUrl, doc.fileSizeBytes, doc.mimeType, doc.status, doc.expiryDate, now,
                None, None, "", doc.notes)
  }
}
