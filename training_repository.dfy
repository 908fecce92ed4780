/**
 * The training sessions and attendance tables
 * (repository/training_repository.go). A session date arrives as text in
 * the "2006-01-02 15:04" layout and is checked before the store is touched;
 * attendance is one row per (session, athlete), written by an upsert.
 * Instants are seconds since the Unix epoch.
 */
module TrainingRepository {
  import opened Wrappers
  import opened GoTime
  import opened Sorting

  /** One row of training_sessions; the id is the key it is stored under. */
  datatype SessionRow = SessionRow(
    title: string,
    description: string,
    sessionDate: DateTime,
    durationMinutes: int,
    location: string,
    coachId: Option<int>,
    maxParticipants: int,
    level: string,
    createdAt: int)

  /** A session as the getters return it. */
  datatype Session = Session(id: int, row: SessionRow)

  /** The body of a create or update request. */
  datatype SessionRequest = SessionRequest(
    title: string,
    description: string,
    sessionDate: string,
    durationMinutes: int,
    location: string,
    maxParticipants: int,
    level: string)

  /** The errors of the session operations: a date time.Parse refuses, or no row to update. */
  datatype TrainingError = BadSessionDate(text: string) | NoRows

  /** One row of attendance. */
  datatype AttendanceRow = AttendanceRow(
    id: int,
    sessionId: int,
    athleteId: int,
    attended: bool,
    notes: string,
    markedBy: int,
    markedAt: int)

  datatype AttendanceRequest = AttendanceRequest(sessionId: int, athleteId: int, attended: bool, notes: string)

  /** An attendance row of an athlete's history, with its session's title and date. */
  datatype AttendanceView = AttendanceView(row: AttendanceRow, sessionTitle: string, sessionDate: DateTime)

  /** The session date of a request, as time.Parse reads the "2006-01-02 15:04" layout. */
  function SessionDate(req: SessionRequest): (r: Result<DateTime, TrainingError>)
    ensures r.Success? <==> ParseDateTime(req.sessionDate).Some?
    ensures r.Success? ==> ValidDateTime(r.value)
    ensures r.Success? ==> ParseDate(req.sessionDate[..10]) == Some(r.value.date)
    ensures r.Failure? ==> r.error == BadSessionDate(req.sessionDate)
  {
    match ParseDateTime(req.sessionDate)
    case None => Failure(BadSessionDate(req.sessionDate))
    case Some(t) => Success(t)
  }

  /** The row a create writes: the request's columns, its date, the caller as coach. */
  function NewSessionRow(req: SessionRequest, date: DateTime, coachId: int, now: int): (row: SessionRow)
    ensures row.coachId == Some(coachId) && row.sessionDate == date && row.createdAt == now
    ensures row.title == req.title && row.level == req.level && row.location == req.location
  {
    SessionRow(req.title, req.description, date, req.durationMinutes, req.location, Some(coachId),
               req.maxParticipants, req.level, now)
  }

  /** An update rewrites the request's columns and keeps the coach and the creation time. */
  function UpdatedRow(row: SessionRow, req: SessionRequest, date: DateTime): (r: SessionRow)
    ensures r.coachId == row.coachId && r.createdAt == row.createdAt
    ensures r == NewSessionRow(req, date, 0, row.createdAt).(coachId := row.coachId)
  {
    row.(title := req.title, description := req.description, sessionDate := date,
         durationMinutes := req.durationMinutes, location := req.location,
         maxParticipants := req.maxParticipants, level := req.level)
  }

  // ---------------------------------------------------------------- attendance upsert

  function Key(req: AttendanceRequest): (int, int) { (req.sessionId, req.athleteId) }

  /** Every attendance row is stored under its own (session, athlete) pair: one row per pair. */
  predicate Keyed(rows: map<(int, int), AttendanceRow>) {
    forall k :: k in rows ==> rows[k].sessionId == k.0 && rows[k].athleteId == k.1
  }

  /**
   * The attendance upsert: a new pair gets a row with the next id; an
   * existing pair keeps its row's id and has attended, notes, marked_by and
   * marked_at overwritten.
   */
  function Marked(rows: map<(int, int), AttendanceRow>, req: AttendanceRequest, markedBy: int,
                  newId: int, now: int): (r: map<(int, int), AttendanceRow>)
    ensures r.Keys == rows.Keys + {Key(req)}
    ensures r[Key(req)] == AttendanceRow(if Key(req) in rows then rows[Key(req)].id else newId,
                                         req.sessionId, req.athleteId, req.attended, req.notes, markedBy, now)
    ensures forall k :: k in rows && k != Key(req) ==> r[k] == rows[k]
    ensures Keyed(rows) ==> Keyed(r)
  {
    var key := Key(req);
    var id := if key in rows then rows[key].id else newId;
    rows[key := AttendanceRow(id, req.sessionId, req.athleteId, req.attended, req.notes, markedBy, now)]
  }

  /** Marking the same pair twice leaves the second marking, under the first marking's row id. */
  lemma RemarkOverwrites(rows: map<(int, int), AttendanceRow>, a: AttendanceRequest, b: AttendanceRequest,
                         m1: int, m2: int, id1: int, id2: int, t1: int, t2: int)
    requires Key(a) == Key(b)
    ensures Marked(Marked(rows, a, m1, id1, t1), b, m2, id2, t2) == Marked(rows, b, m2, id1, t2)
  {
    var once := Marked(rows, a, m1, id1, t1);
    var x := Marked(once, b, m2, id2, t2);
    var y := Marked(rows, b, m2, id1, t2);
    assert x.Keys == y.Keys;
    assert x[Key(b)] == y[Key(b)];
  }

  /** Marking is idempotent: repeating a marking with the same values changes nothing. */
  lemma RemarkIdempotent(rows: map<(int, int), AttendanceRow>, req: AttendanceRequest, markedBy: int,
                         id1: int, id2: int, now: int)
    ensures var once := Marked(rows, req, markedBy, id1, now);
      Marked(once, req, markedBy, id2, now) == once
  {
    var once := Marked(rows, req, markedBy, id1, now);
    assert Marked(once, req, markedBy, id2, now).Keys == once.Keys;
  }

  // ---------------------------------------------------------------- orders

  function SessionInstant(s: Session): int { DateTimeInstant(s.row.sessionDate) }

  /** session_date DESC. */
  function LatestFirst(s: Session): int { -DateTimeInstant(s.row.sessionDate) }

  /** t.session_date DESC of an attendance history. */
  function HistoryOrder(v: AttendanceView): int { -DateTimeInstant(v.sessionDate) }

  function Sessions(rows: map<int, SessionRow>): (s: set<Session>)
    ensures forall x :: x in s <==> x.id in rows && rows[x.id] == x.row
  {
    set id | id in rows :: Session(id, rows[id])
  }

  /** The sessions at or after now. */
  function Upcoming(rows: map<int, SessionRow>, now: int): (s: set<Session>)
    ensures forall x :: x in s <==> x.id in rows && rows[x.id] == x.row && SessionInstant(x) >= now
  {
    set id | id in rows && DateTimeInstant(rows[id].sessionDate) >= now :: Session(id, rows[id])
  }

  /**
   * An attendance row as both readers scan it: marked_by is not in their
   * SELECT lists and comes back as zero; every other column is read.
   */
  function Scanned(a: AttendanceRow): (r: AttendanceRow)
    ensures r.markedBy == 0
    ensures r.id == a.id && r.sessionId == a.sessionId && r.athleteId == a.athleteId
    ensures r.attended == a.attended && r.notes == a.notes && r.markedAt == a.markedAt
  {
    a.(markedBy := 0)
  }

  /** The attendance rows of one session, as read. */
  function OfSession(rows: map<(int, int), AttendanceRow>, sessionId: int): (s: set<AttendanceRow>)
    ensures forall a :: a in s <==> exists k :: k in rows && k.0 == sessionId && Scanned(rows[k]) == a
  {
    set k | k in rows && k.0 == sessionId :: Scanned(rows[k])
  }

  /** The attendance history of one athlete: the rows whose session still exists, with that session. */
  function History(rows: map<(int, int), AttendanceRow>, sessions: map<int, SessionRow>, athleteId: int)
    : set<AttendanceView>
  {
    set k | k in rows && k.1 == athleteId && k.0 in sessions
      :: AttendanceView(Scanned(rows[k]), sessions[k.0].title, sessions[k.0].sessionDate)
  }

  lemma HistoryMember(rows: map<(int, int), AttendanceRow>, sessions: map<int, SessionRow>, athleteId: int,
                      v: AttendanceView)
    requires Keyed(rows)
    ensures v in History(rows, sessions, athleteId) <==>
      && (v.row.sessionId, athleteId) in rows && Scanned(rows[(v.row.sessionId, athleteId)]) == v.row
      && v.row.sessionId in sessions
      && v.sessionTitle == sessions[v.row.sessionId].title && v.sessionDate == sessions[v.row.sessionId].sessionDate
  {
    var k := (v.row.sessionId, athleteId);
    if k in rows && Scanned(rows[k]) == v.row && v.row.sessionId in sessions
       && v.sessionTitle == sessions[v.row.sessionId].title && v.sessionDate == sessions[v.row.sessionId].sessionDate {
      assert v == AttendanceView(Scanned(rows[k]), sessions[k.0].title, sessions[k.0].sessionDate);
    }
  }

  // ---------------------------------------------------------------- the tables

  class TrainingStore {
    var sessions: map<int, SessionRow>
    var attendance: map<(int, int), AttendanceRow>
    var nextSessionId: int
    var nextAttendanceId: int

    ghost predicate Valid()
      reads this
    {
      && (forall id :: id in sessions ==> id < nextSessionId)
      && Keyed(attendance)
      && (forall k :: k in attendance ==> attendance[k].id < nextAttendanceId)
    }

    constructor ()
      ensures Valid() && sessions == map[] && attendance == map[]
    {
      sessions := map[];
      attendance := map[];
      nextSessionId := 1;
      nextAttendanceId := 1;
    }

    /** Create: a date outside the layout is refused before the insert; the caller is recorded as coach. */
    method Create(req: SessionRequest, coachId: int, now: int) returns (r: Result<Session, TrainingError>)
      requires Valid()
      modifies this
      ensures Valid()
      ensures SessionDate(req).Failure? ==> r == Failure(SessionDate(req).error) && sessions == old(sessions)
      ensures SessionDate(req).Success? ==>
        && r.Success? && r.value.id == old(nextSessionId) && r.value.id !in old(sessions)
        && r.value.row == NewSessionRow(req, SessionDate(req).value, coachId, now)
        && sessions == old(sessions)[r.value.id := r.value.row]
      ensures attendance == old(attendance)
    {
      var date := SessionDate(req);
      if date.Failure? {
        return Failure(date.error);
      }
      var row := NewSessionRow(req, date.value, coachId, now);
      r := Success(Session(nextSessionId, row));
      sessions := sessions[nextSessionId := row];
      nextSessionId := nextSessionId + 1;
    }

    /** Update: the date check first, then sql.ErrNoRows when no row has the id. */
    method Update(id: int, req: SessionRequest) returns (r: Result<Session, TrainingError>)
      requires Valid()
      modifies this
      ensures Valid()
      ensures SessionDate(req).Failure? ==> r == Failure(SessionDate(req).error) && sessions == old(sessions)
      ensures SessionDate(req).Success? && id !in old(sessions) ==> r == Failure(NoRows) && sessions == old(sessions)
      ensures SessionDate(req).Success? && id in old(sessions) ==>
        && r == Success(Session(id, UpdatedRow(old(sessions)[id], req, SessionDate(req).value)))
        && sessions == old(sessions)[id := r.value.row]
      ensures attendance == old(attendance) && nextSessionId == old(nextSessionId)
    {
      var date := SessionDate(req);
      if date.Failure? {
        return Failure(date.error);
      }
      if id !in sessions {
        return Failure(NoRows);
      }
      var row := UpdatedRow(sessions[id], req, date.value);
      sessions := sessions[id := row];
      r := Success(Session(id, row));
    }

    /** Delete: removes the session if there is one; never an error. */
    method Delete(id: int)
      requires Valid()
      modifies this
      ensures Valid()
      ensures sessions == old(sessions) - {id}
      ensures attendance == old(attendance) && nextSessionId == old(nextSessionId)
    {
      sessions := sessions - {id};
    }

    /** GetAll: every session, latest first. */
    method GetAll() returns (list: seq<Session>)
      ensures multiset(list) == multiset(Sessions(sessions))
      ensures Sorted(list, ByIntKey(LatestFirst))
    {
      IntKeyPreorder(LatestFirst);
      list := SortSet(Sessions(sessions), ByIntKey(LatestFirst));
    }

    /** GetUpcoming: the sessions at or after now and no other, soonest first. */
    method GetUpcoming(now: int) returns (list: seq<Session>)
      ensures multiset(list) == multiset(Upcoming(sessions, now))
      ensures forall i :: 0 <= i < |list| ==> SessionInstant(list[i]) >= now
      ensures forall i, j :: 0 <= i < j < |list| ==> SessionInstant(list[i]) <= SessionInstant(list[j])
    {
      IntKeyPreorder(SessionInstant);
      list := SortSet(Upcoming(sessions, now), ByIntKey(SessionInstant));
      forall i | 0 <= i < |list| ensures SessionInstant(list[i]) >= now {
        assert list[i] in multiset(list);
      }
    }

    /** MarkAttendance: the upsert on (session, athlete). */
    method MarkAttendance(req: AttendanceRequest, markedBy: int, now: int)
      requires Valid()
      modifies this
      ensures Valid()
      ensures attendance == Marked(old(attendance), req, markedBy, old(nextAttendanceId), now)
      ensures nextAttendanceId == old(nextAttendanceId) + (if Key(req) in old(attendance) then 0 else 1)
      ensures sessions == old(sessions) && nextSessionId == old(nextSessionId)
    {
      var isNew := Key(req) !in attendance;
      attendance := Marked(attendance, req, markedBy, nextAttendanceId, now);
      if isNew {
        nextAttendanceId := nextAttendanceId + 1;
      }
    }

    /** GetAttendance: the session's rows and no other, in no particular order. */
    method GetAttendance(sessionId: int) returns (list: seq<AttendanceRow>)
      requires Valid()
      ensures multiset(list) == multiset(OfSession(attendance, sessionId))
      ensures forall i :: 0 <= i < |list| ==> list[i].sessionId == sessionId && list[i].markedBy == 0
    {
      list := ListSet(OfSession(attendance, sessionId));
      forall i | 0 <= i < |list| ensures list[i].sessionId == sessionId && list[i].markedBy == 0 {
        assert list[i] in multiset(list);
      }
    }

    /** GetAttendanceByAthlete: the athlete's rows joined with their sessions, latest session first. */
    method GetAttendanceByAthlete(athleteId: int) returns (list: seq<AttendanceView>)
      requires Valid()
      ensures multiset(list) == multiset(History(attendance, sessions, athleteId))
      ensures forall i :: 0 <= i < |list| ==> list[i].row.athleteId == athleteId && list[i].row.sessionId in sessions
      ensures forall i, j :: 0 <= i < j < |list| ==>
        DateTimeInstant(list[i].sessionDate) >= DateTimeInstant(list[j].sessionDate)
    {
      IntKeyPreorder(HistoryOrder);
      list := SortSet(History(attendance, sessions, athleteId), ByIntKey(HistoryOrder));
      forall i | 0 <= i < |list| ensures list[i].row.athleteId == athleteId && list[i].row.sessionId in sessions {
        assert list[i] in multiset(list);
        HistoryMember(attendance, sessions, athleteId, list[i]);
      }
      forall i, j | 0 <= i < j < |list|
        ensures DateTimeInstant(list[i].sessionDate) >= DateTimeInstant(list[j].sessionDate)
      {
        assert ByIntKey(HistoryOrder)(list[i], list[j]);
        assert HistoryOrder(list[i]) <= HistoryOrder(list[j]);
      }
    }
  }
}
