/**
 * The weekly training_schedules table (repository/schedule_repository.go).
 * The start_time column is a PostgreSQL TIME; the driver hands it back as
 * text whose shape varies ("18:00:00", "0000-01-01T18:00:00Z", ...), and
 * every read cuts it down to "HH:MM". Create and Update use a simpler cut
 * than GetAll, so the two disagree on RFC 3339 shaped text.
 */
module ScheduleRepository {
  import opened Wrappers
  import opened GoText
  import opened Sorting

  /** One stored row; startTime is the driver's text for the TIME value, None for NULL. */
  datatype ScheduleRow = ScheduleRow(
    dayOfWeek: string,
    startTime: Option<string>,
    durationMinutes: int,
    title: string,
    location: string,
    description: string,
    createdAt: int)

  /** models.TrainingSchedule: a row as the repository returns it, start time as text. */
  datatype TrainingSchedule = TrainingSchedule(
    id: int,
    dayOfWeek: string,
    startTime: string,
    durationMinutes: int,
    title: string,
    location: string,
    description: string,
    createdAt: int)

  /** models.CreateScheduleRequest. */
  datatype ScheduleRequest = ScheduleRequest(
    dayOfWeek: string,
    startTime: string,
    durationMinutes: int,
    title: string,
    location: string,
    description: string)

  /** sql.ErrNoRows from an update whose WHERE matched nothing. */
  datatype ScheduleError = NoRows

  /** A wall-clock time "HH:MM". */
  predicate IsClock(t: string) {
    |t| == 5 && t[2] == ':' && IsDigit(t[0]) && IsDigit(t[1]) && IsDigit(t[3]) && IsDigit(t[4])
  }

  /** Text laid out like an RFC 3339 timestamp: a date, then 'T' at index 10. */
  predicate Rfc3339Shaped(t: string) {
    |t| >= 20 && t[4] == '-' && t[7] == '-' && t[10] == 'T'
  }

  /** Text laid out like "HH:MM:SS". */
  predicate SecondsShaped(t: string) {
    |t| >= 8 && t[2] == ':' && t[5] == ':'
  }

  /**
   * The start time GetAll returns: the clock part of an RFC 3339 text, the
   * first five characters of "HH:MM:SS" or "HH:MM...", other text as it is,
   * and "" for NULL.
   */
  function ReadStartTime(raw: Option<string>): (r: string)
    ensures raw.None? ==> r == ""
    ensures raw.Some? ==> exists i :: OccursAt(raw.value, r, i)
    ensures raw.Some? ==> |r| <= 5 || r == raw.value
    ensures raw.Some? && IsClock(raw.value) ==> r == raw.value
    ensures raw.Some? && Rfc3339Shaped(raw.value) ==> r == raw.value[11..16]
    ensures raw.Some? && !Rfc3339Shaped(raw.value) && SecondsShaped(raw.value) ==> r == raw.value[..5]
    ensures raw.Some? && !Rfc3339Shaped(raw.value) ==>
      r == (if |raw.value| >= 5 && raw.value[2] == ':' then raw.value[..5] else raw.value)
  {
    match raw
    case None => ""
    case Some(t) =>
      if Rfc3339Shaped(t) then
        // the length test is already implied by the shape test
        if |t| >= 16 then
          assert OccursAt(t, t[11..16], 11);
          t[11..16]
        else t
      else if SecondsShaped(t) then
        assert OccursAt(t, t[..5], 0);
        t[..5]
      else if |t| >= 5 && t[2] == ':' then
        assert OccursAt(t, t[..5], 0);
        t[..5]
      else
        assert OccursAt(t, t, 0);
        t
  }

  /** The start time Create and Update return: any text of five or more characters is cut to five. */
  function WriteStartTime(raw: Option<string>): (r: string)
    ensures raw.None? ==> r == ""
    ensures raw.Some? ==> HasPrefix(raw.value, r)
    ensures raw.Some? && IsClock(raw.value) ==> r == raw.value
  {
    match raw
    case None => ""
    case Some(t) =>
      if SecondsShaped(t) then t[..5]
      else if |t| >= 5 then t[..5]
      else t
  }

  /** The "HH:MM:SS" branch of Create and Update is subsumed: they simply cut to five characters. */
  lemma WriteTruncates(t: string)
    ensures WriteStartTime(Some(t)) == if |t| >= 5 then t[..5] else t
  {
  }

  /** Reading a start time twice gives what reading it once gave. */
  lemma ReadIdempotent(t: string)
    ensures ReadStartTime(Some(ReadStartTime(Some(t)))) == ReadStartTime(Some(t))
  {
    var r := ReadStartTime(Some(t));
    if r != t {
      assert |r| <= 5;
      assert !Rfc3339Shaped(r) && !SecondsShaped(r);
      if |r| >= 5 && r[2] == ':' {
        assert r[..5] == r;
      }
    }
  }

  /** Reading a start time written by Create or Update leaves it as it is. */
  lemma ReadAfterWrite(t: string)
    ensures ReadStartTime(Some(WriteStartTime(Some(t)))) == WriteStartTime(Some(t))
  {
    var w := WriteStartTime(Some(t));
    assert |w| <= 5 || w == t;
    if w == t {
      ReadIdempotentOnShort(t);
    } else {
      ReadIdempotentOnShort(w);
    }
  }

  /** Text of at most five characters, or text the write cut leaves alone, is read unchanged. */
  lemma ReadIdempotentOnShort(t: string)
    requires |t| <= 5 || WriteStartTime(Some(t)) == t
    ensures ReadStartTime(Some(t)) == t
  {
    if |t| >= 5 && t[2] == ':' {
      assert |t| == 5;
      assert t[..5] == t;
    }
  }

  /**
   * On an RFC 3339 text whose clock part is "HH:MM", GetAll returns that
   * clock while Create and Update return the first five characters of the
   * date, which is not a clock.
   */
  lemma WriteAndReadDisagree(t: string)
    requires Rfc3339Shaped(t) && AllDigits(t[..4]) && IsClock(t[11..16])
    ensures ReadStartTime(Some(t)) == t[11..16]
    ensures WriteStartTime(Some(t)) == t[..5]
    ensures !IsClock(WriteStartTime(Some(t)))
    ensures WriteStartTime(Some(t)) != ReadStartTime(Some(t))
  {
    assert IsDigit(t[..4][2]);
    var w := WriteStartTime(Some(t));
    assert w[2] == t[2];
  }

  /** The start of the year-zero timestamp the driver may give for 18:00. */
  lemma EighteenHundred()
    ensures ReadStartTime(Some("0000-01-01T18:00:00Z")) == "18:00"
    ensures WriteStartTime(Some("0000-01-01T18:00:00Z")) == "0000-"
  {
    var t := "0000-01-01T18:00:00Z";
    assert Rfc3339Shaped(t);
    assert t[11..16] == "18:00";
    assert t[..5] == "0000-";
  }

  // ---------------------------------------------------------------- rows

  /** A stored row as GetAll scans it. */
  function ReadRow(id: int, row: ScheduleRow): (s: TrainingSchedule)
    ensures s.id == id && s.dayOfWeek == row.dayOfWeek && s.startTime == ReadStartTime(row.startTime)
  {
    TrainingSchedule(id, row.dayOfWeek, ReadStartTime(row.startTime), row.durationMinutes,
                     row.title, row.location, row.description, row.createdAt)
  }

  /** The row a Create or Update returns, with the write cut of the start time. */
  function WrittenRow(id: int, row: ScheduleRow): (s: TrainingSchedule)
    ensures s == ReadRow(id, row).(startTime := WriteStartTime(row.startTime))
  {
    TrainingSchedule(id, row.dayOfWeek, WriteStartTime(row.startTime), row.durationMinutes,
                     row.title, row.location, row.description, row.createdAt)
  }

  function Listed(rows: map<int, ScheduleRow>): set<(int, ScheduleRow)> {
    set id | id in rows :: (id, rows[id])
  }

  function DayOf(p: (int, ScheduleRow)): string { p.1.dayOfWeek }

  /** A listed row is a row of the table under its own id. */
  lemma ListedMember(rows: map<int, ScheduleRow>, p: (int, ScheduleRow))
    ensures p in Listed(rows) <==> p.0 in rows && rows[p.0] == p.1
  {
    if p.0 in rows && rows[p.0] == p.1 {
      var id := p.0;
      assert (id, rows[id]) in Listed(rows);
      assert p == (id, rows[id]);
    }
  }

  /** Reading every row of the table once gives every id once, each with its own row. */
  lemma ScanListed(rows: map<int, ScheduleRow>, scanned: seq<(int, ScheduleRow)>, list: seq<TrainingSchedule>)
    requires forall p :: p in scanned <==> p in Listed(rows)
    requires forall i, j :: 0 <= i < j < |scanned| ==> scanned[i] != scanned[j]
    requires |list| == |scanned| && forall i :: 0 <= i < |list| ==> list[i] == ReadRow(scanned[i].0, scanned[i].1)
    ensures forall i :: 0 <= i < |list| ==> list[i].id in rows && list[i] == ReadRow(list[i].id, rows[list[i].id])
    ensures forall id :: id in rows ==> exists i :: 0 <= i < |list| && list[i].id == id
    ensures forall i, j :: 0 <= i < j < |list| ==> list[i].id != list[j].id
  {
    forall i | 0 <= i < |list|
      ensures list[i].id in rows && list[i] == ReadRow(list[i].id, rows[list[i].id])
    {
      ListedMember(rows, scanned[i]);
    }
    forall id | id in rows ensures exists i :: 0 <= i < |list| && list[i].id == id {
      ListedMember(rows, (id, rows[id]));
      var i :| 0 <= i < |scanned| && scanned[i] == (id, rows[id]);
      assert list[i].id == id;
    }
    forall i, j | 0 <= i < j < |list| ensures list[i].id != list[j].id {
      ListedMember(rows, scanned[i]);
      ListedMember(rows, scanned[j]);
    }
  }

  /** Reading rows keeps their order by day. */
  lemma ScanOrdered(scanned: seq<(int, ScheduleRow)>, list: seq<TrainingSchedule>)
    requires Sorted(scanned, ByTextKey(DayOf))
    requires |list| == |scanned| && forall i :: 0 <= i < |list| ==> list[i] == ReadRow(scanned[i].0, scanned[i].1)
    ensures forall i, j :: 0 <= i < j < |list| ==> TextLe(list[i].dayOfWeek, list[j].dayOfWeek)
  {
    forall i, j | 0 <= i < j < |list| ensures TextLe(list[i].dayOfWeek, list[j].dayOfWeek) {
      assert ByTextKey(DayOf)(scanned[i], scanned[j]);
      assert DayOf(scanned[i]) == list[i].dayOfWeek && DayOf(scanned[j]) == list[j].dayOfWeek;
    }
  }

  class ScheduleStore {
    var rows: map<int, ScheduleRow>
    var nextId: int

    ghost predicate Valid()
      reads this
    {
      forall id :: id in rows ==> id < nextId
    }

    constructor ()
      ensures Valid() && rows == map[]
    {
      rows := map[];
      nextId := 1;
    }

    /**
     * Create: inserts the request; stored is the driver's text for the TIME
     * value the database kept (None for NULL), since the TIME conversion
     * happens inside the database.
     */
    method Create(req: ScheduleRequest, stored: Option<string>, now: int) returns (s: TrainingSchedule)
      requires Valid()
      modifies this
      ensures Valid()
      ensures s.id == old(nextId) && s.id !in old(rows)
      ensures rows == old(rows)[s.id := ScheduleRow(req.dayOfWeek, stored, req.durationMinutes,
                                                    req.title, req.location, req.description, now)]
      ensures s == WrittenRow(s.id, rows[s.id])
    {
      var row := ScheduleRow(req.dayOfWeek, stored, req.durationMinutes, req.title, req.location, req.description, now);
      s := WrittenRow(nextId, row);
      rows := rows[nextId := row];
      nextId := nextId + 1;
    }

    /** Update: rewrites every column but the creation time; sql.ErrNoRows when no row has the id. */
    method Update(id: int, req: ScheduleRequest, stored: Option<string>) returns (r: Result<TrainingSchedule, ScheduleError>)
      requires Valid()
      modifies this
      ensures Valid() && nextId == old(nextId)
      ensures id !in old(rows) ==> r == Failure(NoRows) && rows == old(rows)
      ensures id in old(rows) ==>
        && rows == old(rows)[id := ScheduleRow(req.dayOfWeek, stored, req.durationMinutes,
                                               req.title, req.location, req.description, old(rows)[id].createdAt)]
        && r == Success(WrittenRow(id, rows[id]))
    {
      if id !in rows {
        return Failure(NoRows);
      }
      var row := ScheduleRow(req.dayOfWeek, stored, req.durationMinutes, req.title, req.location,
                             req.description, rows[id].createdAt);
      rows := rows[id := row];
      r := Success(WrittenRow(id, row));
    }

    /** Delete: removes the row if there is one; never an error. */
    method Delete(id: int)
      requires Valid()
      modifies this
      ensures Valid() && nextId == old(nextId)
      ensures rows == old(rows) - {id}
    {
      rows := rows - {id};
    }

    /**
     * GetAll: every row once, as ReadRow normalises it, ordered by day of
     * week; the rows are scanned and appended one by one.
     */
    method GetAll() returns (list: seq<TrainingSchedule>)
      ensures forall i :: 0 <= i < |list| ==> list[i].id in rows && list[i] == ReadRow(list[i].id, rows[list[i].id])
      ensures forall id :: id in rows ==> exists i :: 0 <= i < |list| && list[i].id == id
      ensures forall i, j :: 0 <= i < j < |list| ==> list[i].id != list[j].id
      ensures forall i, j :: 0 <= i < j < |list| ==> TextLe(list[i].dayOfWeek, list[j].dayOfWeek)
    {
      TextKeyPreorder(DayOf);
      var scanned := SortSet(Listed(rows), ByTextKey(DayOf));
      MultisetOfSet(scanned, Listed(rows));
      list := [];
      var k := 0;
      while k < |scanned|
        invariant 0 <= k <= |scanned|
        invariant |list| == k
        invariant forall i :: 0 <= i < k ==> list[i] == ReadRow(scanned[i].0, scanned[i].1)
      {
        list := list + [ReadRow(scanned[k].0, scanned[k].1)];
        k := k + 1;
      }
      ScanListed(rows, scanned, list);
      ScanOrdered(scanned, list);
    }
  }
}
