# East Eagles club back office — a Dafny model of its core

East Eagles is a sports club's management application: a Go HTTP back end over
PostgreSQL and a React front end. This project models, in Dafny, the parts of it
that make decisions:

- the **document subsystem**: the document tables (documents, tag relations,
  versions, shares) as a class `DocumentStore` with maps and sequences; the
  SQL query builder of the document search; and the request logic of the
  document handlers (id lists, upload naming, bulk upload, versions, download
  and preview, sharing, deletion by the owner, search filters);
- the **athlete approval** table (`AthleteStore`), the **training sessions and
  attendance** tables (`TrainingStore`) and the **weekly schedule** table with
  its start-time normalisation (`ScheduleStore`);
- the HTTP **middleware**: the role gates, the Bearer-token authentication and
  the CORS headers;
- two pieces of front-end logic: the conflict check and calendar grouping of
  the weekly planning page (`Schedule.js`) and the form validators
  (`validation.js`).

Database tables become maps keyed by their primary or unique keys; a SERIAL
column becomes a `next…Id` counter. Clocks (`time.Now`, `CURRENT_TIMESTAMP`),
the cloud storage upload, token validation and the `ENV` variable are
parameters. A failing SQL statement is modelled where the code reacts to it
(document and version inserts) by a fault parameter. Go's `time.Parse` layouts,
`strconv.Atoi`/`Itoa`, `strings.Split` and `strings.Replace` are modelled in
`GoTime` and `GoText`; JavaScript numbers are `Option<int>` with `None` for NaN.

The model follows the code where it behaves surprisingly:

- `DocumentStore.Delete` keeps the document's tag relations. The statement at
  `document_repository.go:538` deletes from `document_tags`, which has no
  `document_id` column, and its error is ignored.
- `Validate` and `Reject` of documents succeed for an unknown id. The athlete
  `Approve`/`Reject`/`Delete` report "not found" instead.
- The schedule's `Create`/`Update` answer with the first five characters of
  the stored start time, while `GetAll` reads the clock out of an RFC 3339 text
  (`ScheduleRepository.WriteAndReadDisagree`).
- Line 20 of `validation.js` reads `ph oneRegex.test(…)`, which does not
  parse. `Validation.ValidatePhone` models the evident `phoneRegex.test(…)`.

## Model

| member | source | states |
|---|---|---|
| DocumentModels.ParsePermission | Backend/project/internal/handlers/document_handler.go:983-985 | only "view", "edit" and "manage" are permission levels; a parsed level prints back as the text it came from |
| DocumentModels.ParsePermissionText | Backend/project/internal/models/document.go:50 | every permission level's text parses back to that level |
| DocumentModels.InsertedRow | Backend/project/internal/repository/document_repository.go:28-43 | an inserted document row carries the request's fields, `uploaded_at` = now, and no validator, validation time or rejection reason |
| DocumentRepository.TagsOfDocMembers | Backend/project/internal/repository/document_repository.go:656-662 | the tags collected for a document are exactly the tags of the rows carrying its id |
| DocumentRepository.TagsOfDocDistinct | Backend/project/internal/repository/document_repository.go:656-662 | distinct rows give a document a tag list without repetition |
| DocumentRepository.TagsOfDocSorted | Backend/project/internal/repository/document_repository.go:640-662 | rows ordered by tag name give every document a tag list ordered by name |
| DocumentRepository.LatestVersion | Backend/project/internal/repository/document_repository.go:131-145 | COALESCE(MAX(version_number), 0): 0 without versions, otherwise a version number that exists and bounds every other |
| DocumentRepository.NextVersionExtendsRange | Backend/project/internal/handlers/document_handler.go:891-892 | numbering a new version latest+1 keeps a document's versions numbered 1..k without gaps |
| DocumentRepository.Upserted | Backend/project/internal/repository/document_repository.go:585-604 | ON CONFLICT (document_id, shared_with): one row per key; a re-share keeps id and shared_by and takes the new permission, notes and expiry; other rows unchanged |
| DocumentRepository.UpsertIdempotent | Backend/project/internal/repository/document_repository.go:585-604 | sharing the same request twice leaves the shares as after the first |
| DocumentRepository.Unshared | Backend/project/internal/repository/document_repository.go:795-802 | unsharing removes exactly the (document, user) row, present or not |
| DocumentRepository.UnshareIdempotent | Backend/project/internal/repository/document_repository.go:795-802 | unsharing twice equals unsharing once |
| DocumentRepository.UnshareUndoesNewShare | Backend/project/internal/repository/document_repository.go:585-604 | a new share followed by its unshare restores the shares |
| DocumentRepository.SharesWithout | Backend/project/internal/repository/document_repository.go:526-530 | the document's shares are removed and every other share kept |
| DocumentRepository.Reviewed | Backend/project/internal/repository/document_repository.go:562-582 | status, validated_by and validated_at change together (and rejection_reason on reject) on the one row; the other rows and an absent id leave the table as it was |
| DocumentRepository.ReviewLeavesPending | Backend/project/internal/repository/document_repository.go:230-238 | after a review the pending set loses exactly the reviewed id |
| DocumentRepository.ExpiryWindowsDisjoint | Backend/project/internal/repository/document_repository.go:313-315 | no document is both expiring and expired; one without expiry date is neither |
| DocumentRepository.ExpiryWindowsCover | Backend/project/internal/repository/document_repository.go:398-399 | a dated document is expired, expiring, or expires after the 30-day window |
| DocumentRepository.Projected | Backend/project/internal/repository/document_repository.go:160-203 | a listed document: the row's columns, the category only when the joined row exists, `CategoryID` always nil, reason and MIME type only where the query selects them |
| DocumentRepository.TagRowsMember | Backend/project/internal/repository/document_repository.go:640-645 | the tag join yields (d, t) exactly when d is asked for and t is related to d |
| DocumentRepository.TagMapOfRows | Backend/project/internal/repository/document_repository.go:635-666 | grouping the joined rows gives every asked document that has tags exactly its tags, ordered by name |
| DocumentRepository.DocumentStore.Create | Backend/project/internal/repository/document_repository.go:23-73 | all or nothing: success inserts the row and one relation per tag; any failing statement rolls back and leaves the tables unchanged |
| DocumentRepository.DocumentStore.CreateVersion | Backend/project/internal/repository/document_repository.go:76-97 | the version is appended with a fresh id and the upload time, or nothing changes on failure |
| DocumentRepository.DocumentStore.GetLatestVersionNumber | Backend/project/internal/repository/document_repository.go:131-145 | the result is LatestVersion: 0 without versions, else the maximum |
| DocumentRepository.DocumentStore.GetVersionsByDocument | Backend/project/internal/repository/document_repository.go:100-128 | exactly the document's versions, a permutation of them, in descending version number |
| DocumentRepository.DocumentStore.GetTagsForDocument | Backend/project/internal/repository/document_repository.go:607-632 | exactly the related tags, without repetition, ordered by name |
| DocumentRepository.DocumentStore.GetTagsForDocuments | Backend/project/internal/repository/document_repository.go:635-666 | an empty id list gives an empty map; otherwise each asked document with tags maps to exactly its tags by name |
| DocumentRepository.DocumentStore.Load | Backend/project/internal/repository/document_repository.go:160-224 | a listing: one projected document per selected id, ordered by the query's key, each with its tags attached |
| DocumentRepository.DocumentStore.GetByAthlete | Backend/project/internal/repository/document_repository.go:148-227 | the athlete's documents, newest upload first, with reason, MIME type and tags |
| DocumentRepository.DocumentStore.GetPending | Backend/project/internal/repository/document_repository.go:230-303 | the pending documents, oldest upload first |
| DocumentRepository.DocumentStore.GetExpiringDocuments | Backend/project/internal/repository/document_repository.go:306-388 | documents whose expiry lies in [now, now + 30 days], by expiry ascending |
| DocumentRepository.DocumentStore.GetExpiredDocuments | Backend/project/internal/repository/document_repository.go:391-471 | documents whose expiry is before now, by expiry ascending |
| DocumentRepository.DocumentStore.GetByID | Backend/project/internal/repository/document_repository.go:474-521 | sql.ErrNoRows exactly for an absent id; otherwise that document as shown by the query |
| DocumentRepository.DocumentStore.Delete | Backend/project/internal/repository/document_repository.go:524-559 | shares and versions of the document go, tag relations stay (line 538), the row goes; "document not found" exactly when no row existed |
| DocumentRepository.DocumentStore.Validate | Backend/project/internal/repository/document_repository.go:562-570 | approved with validator and time set; no error even for an unknown id; nothing else changes |
| DocumentRepository.DocumentStore.Reject | Backend/project/internal/repository/document_repository.go:573-582 | rejected with validator, time and reason set; no error even for an unknown id; nothing else changes |
| DocumentRepository.DocumentStore.ShareDocument | Backend/project/internal/repository/document_repository.go:585-604 | the shares become Upserted; the answer is the request with the stored row's id and shared_at (a re-share keeps the stored shared_by while the answer keeps the request's); a new id is used only for a new key |
| DocumentRepository.DocumentStore.UnshareDocument | Backend/project/internal/repository/document_repository.go:795-802 | the shares become Unshared and nothing else changes, whether or not the row existed |
| DocumentSearch.ArgumentCount | Backend/project/internal/repository/document_repository.go:869-910 | the number of arguments equals the final argIndex - 1 |
| DocumentSearch.PlaceholdersBindArguments | Backend/project/internal/repository/document_repository.go:869-910 | the placeholders $first.. of each condition bind exactly that condition's arguments |
| DocumentSearch.PlaceholdersDisjoint | Backend/project/internal/repository/document_repository.go:869-910 | the conditions use consecutive, non-overlapping placeholder ranges in filter order |
| DocumentSearch.OrderBy | Backend/project/internal/repository/document_repository.go:920-941 | an absent or unknown sort key falls back to uploaded_at DESC; the result is one of the six orders |
| DocumentSearch.OrderByDistinct | Backend/project/internal/repository/document_repository.go:925-939 | different recognised sort keys give different orders |
| DocumentSearch.Condition | Backend/project/internal/repository/document_repository.go:871-899 | one filter step appends its condition and arguments exactly when the filter applies, keeping the numbering invariant |
| DocumentSearch.TagArgs | Backend/project/internal/repository/document_repository.go:904-909 | k tag ids become k integer arguments in order |
| DocumentSearch.BuildSearchQuery | Backend/project/internal/repository/document_repository.go:857-946 | the conditions are those of the active filters in order ("all" category/status and empty search add none), numbered from $1, with one argument per placeholder; the tag relation is joined iff tag ids are given; order and limit as asked |
| DocumentHandler.SomesMembers | Backend/project/internal/handlers/document_handler.go:553-560 | the lenient list keeps exactly the pieces that parse |
| DocumentHandler.StrictIsLenient | Backend/project/internal/handlers/document_handler.go:78-89 | when every piece parses, strict and lenient parsing agree |
| DocumentHandler.LenientMembers | Backend/project/internal/handlers/document_handler.go:553-560 | an id is kept iff some piece parses to it |
| DocumentHandler.ReadAll | Backend/project/internal/handlers/document_handler.go:206-215 | the readings are collected in order until the first failed one, which is reported by position |
| DocumentHandler.ReadIdsStrict | Backend/project/internal/handlers/document_handler.go:206-215 | success iff every piece is an integer (the ids in order); otherwise 400 naming the first bad piece |
| DocumentHandler.ReadIdsLenient | Backend/project/internal/handlers/document_handler.go:553-560 | the ids of the pieces that parse, in order |
| DocumentHandler.ParseIdsStrict | Backend/project/internal/handlers/document_handler.go:80-88 | strict parsing of a comma-separated list, as ReadIdsStrict on its pieces |
| DocumentHandler.ParseIdsLenient | Backend/project/internal/handlers/document_handler.go:553-562 | lenient parsing of a comma-separated list |
| DocumentHandler.StorageName | Backend/project/internal/handlers/document_handler.go:247-251 | ".txt" is appended iff the content type is application/pdf or the lowercased name ends in ".pdf"; the result never ends in ".pdf" |
| DocumentHandler.VersionFileNameFields | Backend/project/internal/handlers/document_handler.go:904 | "<doc>_v<n>_<name>" splits back into the document id and "v<n>" |
| DocumentHandler.UploadFileNameStamp | Backend/project/internal/handlers/document_handler.go:92 | the stamp is the text before the first '_' |
| DocumentHandler.LocalUploadPathIsLocal | Backend/project/internal/handlers/document_handler.go:95-102 | a saved upload path starts with "uploads/" and not "http" |
| DocumentHandler.ParseCategory | Backend/project/internal/handlers/document_handler.go:67-73 | empty means no category, an integer is the category, anything else is 400 "Invalid category ID" |
| DocumentHandler.FormTagIds | Backend/project/internal/handlers/document_handler.go:77-88 | empty text is no tags; otherwise accepted iff every trimmed piece is an integer, giving them in order, else 400 "Invalid tag ID: " and the first bad piece |
| DocumentHandler.UploadExpiry | Backend/project/internal/handlers/document_handler.go:136-141 | the expiry is kept only when it is a valid YYYY-MM-DD date that prints back as given |
| DocumentHandler.UploadExpiryKeepsDates | Backend/project/internal/handlers/document_handler.go:136-141 | every valid date written as YYYY-MM-DD is kept as the expiry |
| DocumentHandler.TagRefs | Backend/project/internal/handlers/document_handler.go:80-88 | one tag reference per id, in order |
| DocumentHandler.UploadRequest | Backend/project/internal/handlers/document_handler.go:40-137 | 400 for a missing file, then a bad athlete id, then the category's error, then the tag list's error, then a failing save's 500, each under the earlier checks passing; on success the document carries the athlete, type, category, tags, expiry, notes, file name, size, MIME type and local path, pending and unreviewed |
| DocumentHandler.MalformedExpiryIgnored | Backend/project/internal/handlers/document_handler.go:136-141 | a malformed expiry date is dropped rather than refused |
| DocumentHandler.Upload | Backend/project/internal/handlers/document_handler.go:40-158 | a refused request leaves the store alone; a failing Create is a 500 with documents, tag relations and counter unchanged; a successful one inserts the row and its tag relations under the next id; the other tables never change |
| DocumentHandler.BulkRequest | Backend/project/internal/handlers/document_handler.go:174-215 | the whole request is refused with 400 for empty athlete ids, then a bad category, then a bad tag id, then a bad athlete id, each with its message; otherwise the plan holds the parsed category, tag ids and athlete ids in order |
| DocumentHandler.BulkSlot | Backend/project/internal/handlers/document_handler.go:233-290 | a missing "file_<id>" and a failing storage call give their messages; otherwise the document carries the athlete, the stored URL, the plan's category and tags, the form's type, expiry and notes, and the file's name, size and MIME type |
| DocumentHandler.CheckBulkForm | Backend/project/internal/handlers/document_handler.go:174-215 | the request checks equal BulkRequest |
| DocumentHandler.UploadEach | Backend/project/internal/handlers/document_handler.go:224-307 | one result per id in input order, each agreeing with its own slot and insert; the earlier rows are kept, exactly the uploaded slots' rows and tag relations are added under distinct ids, and no other table changes |
| DocumentHandler.UploadedIdsMembers | Backend/project/internal/handlers/document_handler.go:224-307 | the ids added are exactly those of the slots that uploaded |
| DocumentHandler.UploadedPairsMembers | Backend/project/internal/handlers/document_handler.go:224-307 | the tag relations added are exactly those of the documents the slots uploaded |
| DocumentHandler.SlotsInsertedStep | Backend/project/internal/handlers/document_handler.go:292-304 | a slot that inserts its row and relations, or nothing when it failed, extends the record of the slots before it |
| DocumentHandler.UploadBulk | Backend/project/internal/handlers/document_handler.go:161-311 | a refused request changes nothing; otherwise results[i] belongs to ids[i] and holds its document or its own error, the uploaded rows and tag relations are added and nothing else, and the other tables are unchanged |
| DocumentHandler.UploadVersion | Backend/project/internal/handlers/document_handler.go:867-935 | the version is numbered latest+1, stored as "<doc>_v<n>_<name>", recorded with the original name, size, type, notes and uploader under the next version id and time; a failure leaves the versions alone; no other table changes |
| DocumentHandler.StoreVersion | Backend/project/internal/handlers/document_handler.go:899-934 | the storage call decides: its error is a 500 with nothing changed; otherwise the insert appends exactly the answered version or, on a fault, changes nothing |
| DocumentHandler.ServePlan | Backend/project/internal/handlers/document_handler.go:686-755 | empty URL gives 404; a URL not starting with "http" is a local file; otherwise the remote URL is fetched |
| DocumentHandler.DownloadAndPreviewAgree | Backend/project/internal/handlers/document_handler.go:725-733 | download and preview classify alike; preview never rewrites; download rewrites exactly storage upload URLs |
| DocumentHandler.AttachmentUrlInvertible | Backend/project/internal/handlers/document_handler.go:730-731 | only the first "/upload/" becomes "/upload/fl_attachment/", and undoing it gives the URL back |
| DocumentHandler.CheckShare | Backend/project/internal/handlers/document_handler.go:959-998 | 400 "Invalid document ID", 400 "Invalid request body", 401 "Unauthorized", 400 "Invalid permission level" and 400 "Invalid expiration date format" in the handler's order; accepted iff every check passes, with the request's fields |
| DocumentHandler.ExpiryStrictness | Backend/project/internal/handlers/document_handler.go:991-994 | a malformed date is refused when sharing, silently dropped when uploading |
| DocumentHandler.ShareDocument | Backend/project/internal/handlers/document_handler.go:957-1017 | a refused request changes nothing; an accepted one upserts the share |
| DocumentHandler.DeleteMyDocument | Backend/project/internal/handlers/document_handler.go:432-500 | 400, 401, 404 (user, athlete, document) and 403 in the handler's order, each with its message and nothing changed; otherwise the row, its shares and versions go, tag relations stay, and the local file is removed iff the URL starts with "uploads/" |
| DocumentHandler.SearchFilters | Backend/project/internal/handlers/document_handler.go:527-574 | non-integer athlete id or limit is dropped, empty texts are absent, tag ids are kept only when one survives |
| AthleteRepository.RegisteredRow | Backend/project/internal/repository/athlete_repository.go:135-170 | a registration is pending, unreviewed, created now, with the request's fields |
| AthleteRepository.Reviewed | Backend/project/internal/repository/athlete_repository.go:173-225 | status, approved_by and approved_at set together on the one row (reason only on reject); other rows unchanged |
| AthleteRepository.ApprovalKeepsReason | Backend/project/internal/repository/athlete_repository.go:173-197 | approving after a rejection keeps the old rejection reason |
| AthleteRepository.ReviewOverrides | Backend/project/internal/repository/athlete_repository.go:173-225 | a later review overrides an earlier one |
| AthleteRepository.MatchesCaseInsensitive | Backend/project/internal/repository/athlete_repository.go:282-294 | the search is insensitive to the query's letter case |
| AthleteRepository.EmptyQueryMatchesAll | Backend/project/internal/repository/athlete_repository.go:282-294 | an empty query matches every athlete |
| AthleteRepository.StatsOf | Backend/project/internal/repository/athlete_repository.go:318-343 | total is the row count; pending + approved + rejected <= total; active <= approved |
| AthleteRepository.RegistrationCounts | Backend/project/internal/repository/athlete_repository.go:135-170 | a registration adds one to total and pending only |
| AthleteRepository.AthleteStore.Create | Backend/project/internal/repository/athlete_repository.go:135-170 | inserts the pending row under a fresh id; the answer is the row as RETURNING reads it back (Summary: no descriptive or review columns) |
| AthleteRepository.Summary | Backend/project/internal/repository/athlete_repository.go:146-148 | the columns RETURNING and Search read are kept; details, approver, approval time and rejection reason are empty |
| AthleteRepository.RegisteredSummary | Backend/project/internal/repository/athlete_repository.go:135-170 | the answer of Create is the stored row without its details |
| AthleteRepository.AthleteStore.Approve | Backend/project/internal/repository/athlete_repository.go:173-197 | "athlete not found" iff the id is absent; otherwise the row is Reviewed as approved |
| AthleteRepository.AthleteStore.Reject | Backend/project/internal/repository/athlete_repository.go:200-225 | "athlete not found" iff the id is absent; otherwise Reviewed as rejected with the reason |
| AthleteRepository.AthleteStore.Delete | Backend/project/internal/repository/athlete_repository.go:228-245 | sql.ErrNoRows iff the id is absent; the row is removed |
| AthleteRepository.AthleteStore.GetAll | Backend/project/internal/repository/athlete_repository.go:18-57 | every athlete once, newest first |
| AthleteRepository.AthleteStore.GetPending | Backend/project/internal/repository/athlete_repository.go:60-100 | exactly the pending athletes, oldest first |
| AthleteRepository.AthleteStore.Search | Backend/project/internal/repository/athlete_repository.go:282-315 | exactly the summaries of the athletes whose first name, last name or email contains the query, case aside, one per id, newest first |
| AthleteRepository.SummaryMatches | Backend/project/internal/repository/athlete_repository.go:282-315 | the search condition reads only columns a summary keeps |
| AthleteRepository.AthleteStore.GetStats | Backend/project/internal/repository/athlete_repository.go:318-343 | the counts of StatsOf |
| GoTime.ParseFormatDate | Backend/project/internal/handlers/document_handler.go:137 | time.Parse("2006-01-02") reads back every date it prints |
| GoTime.FormatParseDate | Backend/project/internal/handlers/document_handler.go:991-994 | a text that parses as a date is exactly the printed date |
| GoTime.ParseFormatDateTime | Backend/project/internal/repository/training_repository.go:31-34 | time.Parse("2006-01-02 15:04") reads back every printed date-time |
| GoTime.OneDigitHour | Backend/project/internal/repository/training_repository.go:31-34 | the hour field "15" also accepts a one-digit hour |
| TrainingRepository.SessionDate | Backend/project/internal/repository/training_repository.go:31-34 | accepted iff the text parses as "YYYY-MM-DD HH:MM"; the error names the text |
| TrainingRepository.NewSessionRow | Backend/project/internal/repository/training_repository.go:36-54 | the caller is recorded as coach, with the parsed date and the request's fields |
| TrainingRepository.UpdatedRow | Backend/project/internal/repository/training_repository.go:143-185 | an update replaces the request's fields and keeps coach and creation time |
| TrainingRepository.Marked | Backend/project/internal/repository/training_repository.go:195-211 | one row per (session, athlete): a re-mark keeps the id and overwrites attended, notes, marked_by and marked_at |
| TrainingRepository.RemarkOverwrites | Backend/project/internal/repository/training_repository.go:195-211 | marking twice is marking once with the second request and the first id |
| TrainingRepository.RemarkIdempotent | Backend/project/internal/repository/training_repository.go:195-211 | repeating the same mark changes nothing but the time |
| TrainingRepository.Upcoming | Backend/project/internal/repository/training_repository.go:95-101 | exactly the sessions on or after now |
| TrainingRepository.OfSession | Backend/project/internal/repository/training_repository.go:214-219 | exactly the attendance rows of the session, as scanned (marked_by zero) |
| TrainingRepository.Scanned | Backend/project/internal/repository/training_repository.go:216 | a scanned attendance row keeps every selected column and has marked_by zero |
| TrainingRepository.HistoryMember | Backend/project/internal/repository/training_repository.go:243-251 | an athlete's history holds exactly that athlete's rows, as scanned, whose session exists, with its title and date |
| TrainingRepository.TrainingStore.Create | Backend/project/internal/repository/training_repository.go:19-64 | a malformed date is refused before the store is touched; otherwise a new session under a fresh id |
| TrainingRepository.TrainingStore.Update | Backend/project/internal/repository/training_repository.go:143-185 | malformed date refused; absent id gives sql.ErrNoRows; otherwise the row becomes UpdatedRow |
| TrainingRepository.TrainingStore.Delete | Backend/project/internal/repository/training_repository.go:188-192 | removes the id, succeeding when absent |
| TrainingRepository.TrainingStore.GetAll | Backend/project/internal/repository/training_repository.go:67-92 | every session once, latest first |
| TrainingRepository.TrainingStore.GetUpcoming | Backend/project/internal/repository/training_repository.go:95-121 | the sessions on or after now, earliest first |
| TrainingRepository.TrainingStore.MarkAttendance | Backend/project/internal/repository/training_repository.go:195-211 | the attendance becomes Marked; a new id is used only for a new pair |
| TrainingRepository.TrainingStore.GetAttendance | Backend/project/internal/repository/training_repository.go:214-240 | only and all of the session's rows, each without marked_by, which the SELECT does not read |
| TrainingRepository.TrainingStore.GetAttendanceByAthlete | Backend/project/internal/repository/training_repository.go:243-273 | only and all of the athlete's rows joined to an existing session, by session date descending |
| ScheduleRepository.ReadStartTime | Backend/project/internal/repository/schedule_repository.go:93-123 | NULL reads ""; RFC 3339 text its clock; otherwise "HH:MM:SS" and any "HH:MM..." text their first five characters and other text itself |
| ScheduleRepository.WriteStartTime | Backend/project/internal/repository/schedule_repository.go:53-69 | NULL gives "", otherwise a prefix of the input; "HH:MM" is kept |
| ScheduleRepository.WriteTruncates | Backend/project/internal/repository/schedule_repository.go:57-62 | a text of 5 or more characters is cut to its first 5 |
| ScheduleRepository.ReadIdempotent | Backend/project/internal/repository/schedule_repository.go:99-119 | normalising a normalised start time changes nothing |
| ScheduleRepository.ReadAfterWrite | Backend/project/internal/repository/schedule_repository.go:57-62 | reading a written start time changes nothing |
| ScheduleRepository.WriteAndReadDisagree | Backend/project/internal/repository/schedule_repository.go:57-62 | for an RFC 3339 value the write path answers its year prefix while the read path answers its clock |
| ScheduleRepository.EighteenHundred | Backend/project/internal/repository/schedule_repository.go:99-104 | "0000-01-01T18:00:00Z" reads "18:00" and writes "0000-" |
| ScheduleRepository.ReadRow | Backend/project/internal/repository/schedule_repository.go:93-126 | a listed row carries its id, its day and its normalised start time |
| ScheduleRepository.WrittenRow | Backend/project/internal/repository/schedule_repository.go:53-71 | the row a write answers differs from a listed one only in its start time |
| ScheduleRepository.ScheduleStore.Create | Backend/project/internal/repository/schedule_repository.go:18-72 | inserts under a fresh id and answers WrittenRow |
| ScheduleRepository.ScheduleStore.Update | Backend/project/internal/repository/schedule_repository.go:137-193 | an absent id gives sql.ErrNoRows and no change; otherwise the row is replaced and answered as WrittenRow |
| ScheduleRepository.ScheduleStore.Delete | Backend/project/internal/repository/schedule_repository.go:131-135 | the id is removed |
| ScheduleRepository.ScheduleStore.GetAll | Backend/project/internal/repository/schedule_repository.go:74-129 | every row once, read through ReadRow, ordered by day |
| SchedulePage.JsNumber | frontend/src/pages/admin/Schedule.js:96-97 | Number("") is 0 and a digit string is its decimal value |
| SchedulePage.ClockMinutes | frontend/src/pages/admin/Schedule.js:95-98 | with a minutes field below 60, the hours and minutes are read back by division and remainder by 60 |
| SchedulePage.ClockOrder | frontend/src/pages/admin/Schedule.js:95-98 | minutes since midnight order clocks by hour, then minute |
| SchedulePage.ParseClock | frontend/src/pages/admin/Schedule.js:95-98 | parseTime("HH:MM") = hours*60 + minutes |
| SchedulePage.ParseIgnoresSeconds | frontend/src/pages/admin/Schedule.js:95-98 | a seconds field is ignored |
| SchedulePage.CheckTimeConflict | frontend/src/pages/admin/Schedule.js:81-93 | true iff some slot on the same day, not the excluded one, overlaps on half-open minute intervals |
| SchedulePage.ConflictSymmetric | frontend/src/pages/admin/Schedule.js:91 | the overlap test is symmetric |
| SchedulePage.BackToBack | frontend/src/pages/admin/Schedule.js:91 | a slot starting when another ends, or ending when it starts, does not conflict |
| SchedulePage.ConflictsWithItself | frontend/src/pages/admin/Schedule.js:81-93 | an unexcluded non-empty slot conflicts with itself |
| SchedulePage.ConflictMembers | frontend/src/pages/admin/Schedule.js:85-92 | a conflict is reported iff some slot of the schedule conflicts, wherever it stands |
| SchedulePage.ExcludedIgnored | frontend/src/pages/admin/Schedule.js:86 | slots with the excluded id play no part in the conflict test |
| SchedulePage.EditAloneNoConflict | frontend/src/pages/admin/Schedule.js:104-109 | editing a slot never conflicts with itself |
| SchedulePage.Grouped | frontend/src/pages/admin/Schedule.js:186-194 | one entry per day of the week, holding a permutation of exactly that day's slots sorted by start minutes |
| SchedulePage.GroupedShowsEach | frontend/src/pages/admin/Schedule.js:186-194 | a slot appears under its own day and under no other |
| Rbac.RequireAdmin | Backend/project/internal/middleware/rbac.go:10-19 | passes iff the role is admin; otherwise 403 "Forbidden: Admin access required" |
| Rbac.RequireCoach | Backend/project/internal/middleware/rbac.go:22-31 | passes iff the role is coach or admin; otherwise 403 "Forbidden: Coach access required" |
| Rbac.RequireAthlete | Backend/project/internal/middleware/rbac.go:34-50 | passes iff the role is athlete, coach or admin; no role gives "Authentication required", another role "Athlete access required" |
| Rbac.GatesNested | Backend/project/internal/middleware/rbac.go:12-47 | admin passes ⊆ coach passes ⊆ athlete passes |
| Rbac.NoRoleForbidden | Backend/project/internal/middleware/rbac.go:12-39 | a missing role gives 403 under every gate |
| Rbac.GatesStrict | Backend/project/internal/middleware/rbac.go:24-47 | the nesting is strict |
| Auth.BearerToken | Backend/project/internal/middleware/auth.go:28-32 | an accepted header is "Bearer " followed by a token holding no space |
| Auth.BearerTokenIff | Backend/project/internal/middleware/auth.go:28-32 | a header is accepted iff it is "Bearer " and a space-free token |
| Auth.MalformedHeaders | Backend/project/internal/middleware/auth.go:28-32 | "Bearer", "bearer x" and "Bearer a b" are refused |
| Auth.NotBearer | Backend/project/internal/middleware/auth.go:28-32 | a header shorter than "Bearer " or not starting with 'B' is refused |
| Auth.TwoTokens | Backend/project/internal/middleware/auth.go:28-32 | "Bearer " and two space-separated pieces, whatever they are, is refused |
| Auth.Authenticate | Backend/project/internal/middleware/auth.go:22-45 | empty header, malformed header and refused token give 401 with their messages; otherwise next runs once with the claims' user id, role and email |
| Auth.AuthenticatedCoach | Backend/project/internal/middleware/auth.go:40-45 | behind authentication the coach gate passes iff the token's role is coach or admin |
| Cors.AllowedOrigin | Backend/project/internal/middleware/cors.go:12-37 | in production only a listed origin is echoed; elsewhere a non-empty origin is echoed and an empty one gets "*" |
| Cors.HandleCors | Backend/project/internal/middleware/cors.go:10-54 | Allow-Origin as AllowedOrigin; the three fixed headers always and no others; a preflight gets 200 without next, every other request calls next |
| Cors.PlainOptionsPasses | Backend/project/internal/middleware/cors.go:45-51 | OPTIONS without Access-Control-Request-Method is not a preflight |
| Cors.ProductionRefusesStrangers | Backend/project/internal/middleware/cors.go:32-37 | in production an unlisted origin gets no Allow-Origin at all |
| Validation.RemoveSpaces | frontend/src/utils/validation.js:19 | the result has no white space, is no longer, and is the input when it had none |
| Validation.RemoveSpacesKeeps | frontend/src/utils/validation.js:19 | the result holds exactly the characters of the input that are not white space |
| Validation.RemoveSpacesAppend | frontend/src/utils/validation.js:19 | removing white space distributes over concatenation |
| Validation.RemoveOneSpace | frontend/src/utils/validation.js:19 | a white-space character anywhere is dropped and nothing else changes |
| Validation.Trim | frontend/src/utils/validation.js:31 | trimming gives "" iff the text is white space only |
| Validation.ValidatePhone | frontend/src/utils/validation.js:17-21 | a valid number is ten digits once spaces are removed; without spaces it is valid iff "0", one of 5-7, eight digits |
| Validation.PhoneIgnoresSpace | frontend/src/utils/validation.js:17-21 | inserting white space anywhere does not change validity, so with the space-free iff a number is valid iff its cleaned form has the mobile shape |
| Validation.PhoneIff | frontend/src/utils/validation.js:17-21 | a number is valid exactly when its white-space-free form is |
| Validation.FormatPhone | frontend/src/utils/validation.js:45-51 | ten cleaned characters become five pairs separated by spaces, giving the cleaned text back when the spaces are removed; any other length is returned unchanged |
| Validation.PairsRejoin | frontend/src/utils/validation.js:48 | the five pairs rejoin to the cleaned number |
| Validation.FormatPhoneIdempotent | frontend/src/utils/validation.js:45-51 | formatting a formatted number changes nothing |
| Validation.FormatPhoneKeepsValidity | frontend/src/utils/validation.js:45-51 | formatting keeps a number valid or invalid |
| Validation.ExampleNumberValid | frontend/src/utils/validation.js:66 | the example 0655443322 is valid |
| Validation.ValidateEmail | frontend/src/utils/validation.js:24-27 | valid iff the address is part "@" part "." part, each part non-empty without white space or '@' |
| Validation.EmailSound | frontend/src/utils/validation.js:25 | an address of that form passes the scan |
| Validation.EmailWitness | frontend/src/utils/validation.js:25 | an address that passes the scan has that form |
| Validation.ValidateRequired | frontend/src/utils/validation.js:30-32 | false exactly for null, undefined and texts of white space only |
| Validation.NumbersAndBooleansFilled | frontend/src/utils/validation.js:30-32 | numbers and booleans always count as filled |
| Validation.FieldError | frontend/src/utils/validation.js:61-69 | a missing required value gets the required message; a falsy optional value gets none; the check throws exactly when a truthy number or boolean reaches the phone check, with the TypeError |
| Validation.FieldErrorNone | frontend/src/utils/validation.js:61-69 | no error iff every check the rule names passes, the e-mail check on the value's text and the phone check only on text |
| Validation.FieldErrorExplained | frontend/src/utils/validation.js:61-69 | every message a field gets belongs to a check its rule names and its value fails |
| Validation.PhoneBeforeMin | frontend/src/utils/validation.js:61-69 | a malformed number that passed the required and email checks gets the phone message, before the minimum |
| Validation.MinLast | frontend/src/utils/validation.js:61-69 | a too-short value that passed every other check gets the minimum message with the label and the minimum |
| Validation.EmailBeforePhone | frontend/src/utils/validation.js:63-66 | a truthy value whose text is no address gets the e-mail message, before phone and minimum length |
| Validation.NumberIsNoEmail | frontend/src/utils/validation.js:63-64 | a non-zero number in an e-mail field gets the e-mail message |
| Validation.PhoneThrowsOnNonText | frontend/src/utils/validation.js:17-19 | a truthy number or boolean that reaches the phone check makes it throw |
| Validation.FormValuesNeverThrow | frontend/src/utils/validation.js:61-69 | text and undefined values never throw |
| Validation.NonTextOutcomes | frontend/src/utils/validation.js:61-69 | a number or boolean gets the e-mail message, throws, or passes: never the required or minimum message |
| Validation.ValidateForm | frontend/src/utils/validation.js:54-73 | one error per field of the rules whose text or missing value fails, with the first failing check's message, and no other entries |

## Left out

- Concurrency: the goroutines and WaitGroup of UploadBulk are a sequential loop writing results by index; the read-then-write race of UploadVersion's version number is not modelled.
- File and network I/O: MkdirAll, Create, Copy and os.Remove are not performed (a failing save step is a parameter; DeleteMyDocument reports whether the local file is removed); the http.Get proxying of remote files is not modelled beyond choosing the URL.
- The cloud storage upload (`services/cloudinary.go`) is a function parameter that returns a URL or an error; `services/cloudinary.go` is not part of this model.
- The SQL text of SearchDocuments (the clause strings, the `$n` spelling, the one search placeholder both ILIKE columns share, the base SELECT): the query is modelled by its structure (which conditions, their placeholder ranges, the arguments, the join, the order and the limit), not as a string.
- SQL execution of SearchDocuments: the model builds the conditions, arguments, join, order and limit, not the rows; the tag LEFT JOIN can return a document once per matching tag, and nothing here promises de-duplication.
- ILIKE and LOWER: the athlete search lowers ASCII letters only; LIKE wildcards in the query (`%`, `_`) are taken literally; collation and NULLS LAST ordering beyond the chosen ORDER BY text are not modelled.
- Database faults: only the document and version inserts take a fault parameter; every other statement is taken to succeed.
- SERIAL gaps, time zones and the database clock: ids are consecutive counters, times are integer seconds given by the caller.
- DocumentHandler.DeleteMyDocument: the repository Delete cannot fail once the row is found, so its 500 path is not modelled.
- DocumentHandler.UploadVersion: the user id is a plain integer; the handler panics when the context holds none, which is not modelled.
- The handlers that only call the repository (GetByAthlete, GetMyDocuments, GetPending, admin Delete, Validate, Reject, Download/Preview I/O, GetVersions, GetShares, UnshareDocument, GetSharedDocuments) are covered by the repository members and ServePlan; their JSON encoding is not modelled.
- GetSharesByDocument, GetSharedDocumentsForUser, GetAllCategories and GetAllTags of the document repository are plain SELECTs outside this model.
- The database schema's own cascades and constraints beyond the keys used here are not modelled.
- AthleteRepository: GetByID and Update are plain reads and writes outside this model; the default of is_active is a parameter of Create.
- TrainingRepository: GetByID is outside this model; the joined session title and date are taken from the sessions map, so rows of deleted sessions disappear from the history as under the inner join.
- ScheduleRepository.ScheduleStore.GetAll: ordered by day text only; the secondary ORDER BY start_time is not stated.
- ScheduleRepository: the text PostgreSQL returns for a TIME column is a parameter (`stored`) of Create and Update.
- SchedulePage.JsNumber: only empty and signed-decimal texts are numbers; white space, decimals, hexadecimal and exponents read as NaN.
- SchedulePage.Grouped: a start time that reads as NaN sorts as minute 0; the JavaScript comparator's behaviour with NaN is not modelled.
- Validation.FieldError: a number value is an integer; NaN, fractions, objects and arrays as field values are not modelled, and validateForm itself only ever sees form text or a missing field.
- Validation: string lengths are counted in characters, not UTF-16 code units; handleApiError and validateDate are left out (error-message plumbing and the current date).
- Auth: JWT signature and expiry checks are a parameter; the differing import paths of the models package in auth.go and rbac.go are read as one role type.
- Cors: the ENV variable is a parameter.
