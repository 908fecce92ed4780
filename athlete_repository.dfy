/**
 * The athletes table and its approval workflow
 * (repository/athlete_repository.go): registration inserts a pending row,
 * an administrator approves or rejects it, and the listings, the search and
 * the dashboard counts read it. Instants are seconds since the Unix epoch.
 */
module AthleteRepository {
  import opened Wrappers
  import opened GoText
  import opened Sorting

  const PendingStatus: string := "pending"
  const ApprovedStatus: string := "approved"
  const RejectedStatus: string := "rejected"

  /** "athlete not found": Approve and Reject when no row matched. */
  const AthleteNotFound: string := "athlete not found"
  /** sql.ErrNoRows: Delete when no row was removed. */
  const NoRows: string := "sql: no rows in result set"

  /**
   * One row of the athletes table. approval_status is text: the workflow
   * writes "pending", "approved" and "rejected", and the table may hold
   * others. The descriptive columns the workflow never reads (birth date,
   * weight, address, emergency contact, medical details) travel as details.
   */
  datatype AthleteRow = AthleteRow(
    firstName: string,
    lastName: string,
    email: string,
    phone: string,
    details: seq<string>,
    isActive: bool,
    createdAt: int,
    approvalStatus: string,
    approvedBy: Option<int>,
    approvedAt: Option<int>,
    rejectionReason: Option<string>)

  /** An athlete as the getters return it: the row with its id. */
  datatype Athlete = Athlete(id: int, row: AthleteRow)

  /** A registration: the columns an insert names. */
  datatype AthleteRequest = AthleteRequest(
    firstName: string, lastName: string, email: string, phone: string, details: seq<string>)

  /** The dashboard counts. */
  datatype AthleteStats = AthleteStats(total: nat, pending: nat, approved: nat, rejected: nat, active: nat)

  /** The row an insert writes: the request's columns, approval status "pending", nothing reviewed yet. */
  function RegisteredRow(req: AthleteRequest, active: bool, now: int): (row: AthleteRow)
    ensures row.approvalStatus == PendingStatus
    ensures row.approvedBy.None? && row.approvedAt.None? && row.rejectionReason.None?
    ensures row.firstName == req.firstName && row.lastName == req.lastName
    ensures row.email == req.email && row.phone == req.phone && row.createdAt == now
  {
    AthleteRow(req.firstName, req.lastName, req.email, req.phone, req.details, active, now, PendingStatus,
               None, None, None)
  }

  /**
   * A review of row id: the status, the reviewer and the time are set
   * together; a rejection also sets its reason, an approval leaves the
   * reason column as it was.
   */
  function Reviewed(rows: map<int, AthleteRow>, id: int, status: string, adminId: int,
                    reason: Option<string>, now: int): (r: map<int, AthleteRow>)
    requires id in rows
    ensures r.Keys == rows.Keys
    ensures r[id].approvalStatus == status && r[id].approvedBy == Some(adminId) && r[id].approvedAt == Some(now)
    ensures r[id].rejectionReason == (if reason.Some? then reason else rows[id].rejectionReason)
    ensures r[id].(approvalStatus := rows[id].approvalStatus, approvedBy := rows[id].approvedBy,
                   approvedAt := rows[id].approvedAt, rejectionReason := rows[id].rejectionReason) == rows[id]
    ensures forall k :: k in rows && k != id ==> r[k] == rows[k]
  {
    var row := rows[id].(approvalStatus := status, approvedBy := Some(adminId), approvedAt := Some(now));
    rows[id := if reason.Some? then row.(rejectionReason := reason) else row]
  }

  /** An athlete approved after a rejection still carries the rejection's reason. */
  lemma ApprovalKeepsReason(rows: map<int, AthleteRow>, id: int, admin1: int, reason: string, t1: int,
                            admin2: int, t2: int)
    requires id in rows
    ensures var rejected := Reviewed(rows, id, RejectedStatus, admin1, Some(reason), t1);
      var approved := Reviewed(rejected, id, ApprovedStatus, admin2, None, t2);
      approved[id].approvalStatus == ApprovedStatus && approved[id].rejectionReason == Some(reason)
  {
    var rejected := Reviewed(rows, id, RejectedStatus, admin1, Some(reason), t1);
    assert id in rejected;
  }

  /** A second review overrides the first entirely, except for a rejection reason the second does not set. */
  lemma ReviewOverrides(rows: map<int, AthleteRow>, id: int, s1: string, a1: int, t1: int,
                        s2: string, a2: int, reason: string, t2: int)
    requires id in rows
    ensures var first := Reviewed(rows, id, s1, a1, None, t1);
      Reviewed(first, id, s2, a2, Some(reason), t2) == Reviewed(rows, id, s2, a2, Some(reason), t2)
  {
    var first := Reviewed(rows, id, s1, a1, None, t1);
    assert id in first;
    var x := Reviewed(first, id, s2, a2, Some(reason), t2);
    var y := Reviewed(rows, id, s2, a2, Some(reason), t2);
    assert x[id] == y[id];
  }

  // ---------------------------------------------------------------- search

  /** LOWER(column) LIKE LOWER('%' + q + '%'): the query occurs in the column, letter case aside. */
  predicate MatchesText(column: string, q: string) {
    Contains(ToLower(column), ToLower(q))
  }

  /** The search's WHERE clause: the first name, the last name or the email matches. */
  predicate Matches(row: AthleteRow, q: string) {
    MatchesText(row.firstName, q) || MatchesText(row.lastName, q) || MatchesText(row.email, q)
  }

  /** Letter case does not matter to the search. */
  lemma MatchesCaseInsensitive(row: AthleteRow, q: string)
    ensures Matches(row, q) <==> Matches(row, ToLower(q))
  {
    assert ToLower(ToLower(q)) == ToLower(q) by {
      forall i | 0 <= i < |q| ensures ToLower(ToLower(q))[i] == ToLower(q)[i] {
        var c := q[i];
        assert ToLower(q)[i] == LowerChar(c);
      }
    }
  }

  /** The empty query matches every athlete. */
  lemma EmptyQueryMatchesAll(row: AthleteRow)
    ensures Matches(row, "")
  {
    assert OccursAt(ToLower(row.firstName), "", 0);
    ContainsIff(ToLower(row.firstName), ToLower(""));
  }

  // ---------------------------------------------------------------- selections

  function Athletes(rows: map<int, AthleteRow>): (s: set<Athlete>)
    ensures forall a :: a in s <==> a.id in rows && rows[a.id] == a.row
  {
    set id | id in rows :: Athlete(id, rows[id])
  }

  function Where(rows: map<int, AthleteRow>, p: AthleteRow -> bool): (s: set<Athlete>)
    ensures forall a :: a in s <==> a.id in rows && rows[a.id] == a.row && p(a.row)
  {
    set id | id in rows && p(rows[id]) :: Athlete(id, rows[id])
  }

  /**
   * A row as the short column lists read it back (the RETURNING list of
   * Create, the SELECT list of Search): names, email, phone, is_active,
   * created_at and approval_status. The descriptive columns and the review
   * columns are not in those lists and come back as zero values.
   */
  function Summary(row: AthleteRow): (r: AthleteRow)
    ensures r.firstName == row.firstName && r.lastName == row.lastName
    ensures r.email == row.email && r.phone == row.phone
    ensures r.isActive == row.isActive && r.createdAt == row.createdAt
    ensures r.approvalStatus == row.approvalStatus
    ensures r.details == [] && r.approvedBy.None? && r.approvedAt.None? && r.rejectionReason.None?
  {
    row.(details := [], approvedBy := None, approvedAt := None, rejectionReason := None)
  }

  /** The summaries of a set of athletes, each under its own id. */
  function Summaries(s: set<Athlete>): (r: set<Athlete>)
    ensures forall a :: a in r <==> exists b :: b in s && a == Athlete(b.id, Summary(b.row))
  {
    set b | b in s :: Athlete(b.id, Summary(b.row))
  }

  /** A summary matches a query exactly when the full row does: the searched columns are kept. */
  lemma SummaryMatches(row: AthleteRow, q: string)
    ensures Matches(Summary(row), q) <==> Matches(row, q)
  {
  }

  /** A freshly registered row reads back in full except for its descriptive columns. */
  lemma RegisteredSummary(req: AthleteRequest, active: bool, now: int)
    ensures Summary(RegisteredRow(req, active, now)) == RegisteredRow(req, active, now).(details := [])
  {
  }

  function IsPending(row: AthleteRow): bool { row.approvalStatus == PendingStatus }

  function Matching(q: string): AthleteRow -> bool { row => Matches(row, q) }

  /** Oldest first. */
  function CreatedAsc(a: Athlete): int { a.row.createdAt }

  /** Newest first. */
  function CreatedDesc(a: Athlete): int { -a.row.createdAt }

  // ---------------------------------------------------------------- counts

  /** The ids of the rows with the given approval status. */
  function WithStatus(rows: map<int, AthleteRow>, status: string): set<int> {
    set id | id in rows && rows[id].approvalStatus == status
  }

  /** The ids of the approved rows that are active. */
  function ActiveApproved(rows: map<int, AthleteRow>): set<int> {
    set id | id in rows && rows[id].isActive && rows[id].approvalStatus == ApprovedStatus
  }

  lemma {:induction false} SubsetSize<T>(a: set<T>, b: set<T>)
    requires a <= b
    ensures |a| <= |b|
    decreases |a|
  {
    if a != {} {
      var x :| x in a;
      SubsetSize(a - {x}, b - {x});
    }
  }

  /**
   * The dashboard counts: every row, the rows of each workflow status, and
   * the approved rows that are active. A row with another status counts
   * only in the total.
   */
  function StatsOf(rows: map<int, AthleteRow>): (s: AthleteStats)
    ensures s.total == |rows|
    ensures s.pending + s.approved + s.rejected <= s.total
    ensures s.active <= s.approved
  {
    var p := WithStatus(rows, PendingStatus);
    var a := WithStatus(rows, ApprovedStatus);
    var r := WithStatus(rows, RejectedStatus);
    assert |rows.Keys| == |rows|;
    assert p !! a && (p + a) !! r;
    SubsetSize(p + a + r, rows.Keys);
    SubsetSize(ActiveApproved(rows), a);
    AthleteStats(|rows|, |p|, |a|, |r|, |ActiveApproved(rows)|)
  }

  /** Adding a row adds its id to the ids of its status and to no other status. */
  lemma WithStatusInsert(rows: map<int, AthleteRow>, id: int, row: AthleteRow, status: string)
    requires id !in rows
    ensures WithStatus(rows[id := row], status)
         == WithStatus(rows, status) + (if row.approvalStatus == status then {id} else {})
  {
  }

  /** A registration adds one to the total and to the pending count, and leaves the other counts alone. */
  lemma RegistrationCounts(rows: map<int, AthleteRow>, id: int, row: AthleteRow)
    requires id !in rows && row.approvalStatus == PendingStatus
    ensures var before, after := StatsOf(rows), StatsOf(rows[id := row]);
      after.total == before.total + 1 && after.pending == before.pending + 1
      && after.approved == before.approved && after.rejected == before.rejected && after.active == before.active
  {
    var grown := rows[id := row];
    StatsFields(rows);
    StatsFields(grown);
    WithStatusInsert(rows, id, row, PendingStatus);
    assert id !in WithStatus(rows, PendingStatus);
    WithStatusInsert(rows, id, row, ApprovedStatus);
    WithStatusInsert(rows, id, row, RejectedStatus);
    assert ActiveApproved(grown) == ActiveApproved(rows);
  }

  lemma StatsFields(rows: map<int, AthleteRow>)
    ensures StatsOf(rows) == AthleteStats(|rows|, |WithStatus(rows, PendingStatus)|,
      |WithStatus(rows, ApprovedStatus)|, |WithStatus(rows, RejectedStatus)|, |ActiveApproved(rows)|)
  {
  }

  // ---------------------------------------------------------------- the table

  class AthleteStore {
    var athletes: map<int, AthleteRow>
    var nextId: int

    ghost predicate Valid()
      reads this
    {
      forall id :: id in athletes ==> id < nextId
    }

    constructor ()
      ensures Valid() && athletes == map[]
    {
      athletes := map[];
      nextId := 1;
    }

    /**
     * Create: insert a registration as pending; the store assigns the id and
     * created_at, and is_active takes the table's default, given as active.
     */
    method Create(req: AthleteRequest, active: bool, now: int) returns (a: Athlete)
      requires Valid()
      modifies this
      ensures Valid()
      ensures a.id == old(nextId) && a.id !in old(athletes)
      ensures athletes == old(athletes)[a.id := RegisteredRow(req, active, now)]
      ensures a.row == Summary(athletes[a.id])
    {
      var row := RegisteredRow(req, active, now);
      a := Athlete(nextId, Summary(row));
      athletes := athletes[nextId := row];
      nextId := nextId + 1;
    }

    /** Approve: "athlete not found" when no row has the id; otherwise the review is recorded. */
    method Approve(id: int, adminId: int, now: int) returns (r: Outcome<string>)
      requires Valid()
      modifies this
      ensures Valid()
      ensures r.Fail? <==> id !in old(athletes)
      ensures r.Fail? ==> r.error == AthleteNotFound && athletes == old(athletes)
      ensures r.Pass? ==> athletes == Reviewed(old(athletes), id, ApprovedStatus, adminId, None, now)
      ensures nextId == old(nextId)
    {
      if id !in athletes {
        return Fail(AthleteNotFound);
      }
      athletes := Reviewed(athletes, id, ApprovedStatus, adminId, None, now);
      r := Pass;
    }

    /** Reject: as Approve, and the reason is recorded. */
    method Reject(id: int, adminId: int, reason: string, now: int) returns (r: Outcome<string>)
      requires Valid()
      modifies this
      ensures Valid()
      ensures r.Fail? <==> id !in old(athletes)
      ensures r.Fail? ==> r.error == AthleteNotFound && athletes == old(athletes)
      ensures r.Pass? ==> athletes == Reviewed(old(athletes), id, RejectedStatus, adminId, Some(reason), now)
      ensures nextId == old(nextId)
    {
      if id !in athletes {
        return Fail(AthleteNotFound);
      }
      athletes := Reviewed(athletes, id, RejectedStatus, adminId, Some(reason), now);
      r := Pass;
    }

    /** Delete: sql.ErrNoRows when no row was removed. */
    method Delete(id: int) returns (r: Outcome<string>)
      requires Valid()
      modifies this
      ensures Valid()
      ensures r.Fail? <==> id !in old(athletes)
      ensures r.Fail? ==> r.error == NoRows
      ensures athletes == old(athletes) - {id} && nextId == old(nextId)
    {
      if id !in athletes {
        return Fail(NoRows);
      }
      athletes := athletes - {id};
      r := Pass;
    }

    /** GetAll: every athlete, newest first. */
    method GetAll() returns (list: seq<Athlete>)
      ensures multiset(list) == multiset(Athletes(athletes))
      ensures Sorted(list, ByIntKey(CreatedDesc))
    {
      IntKeyPreorder(CreatedDesc);
      list := SortSet(Athletes(athletes), ByIntKey(CreatedDesc));
    }

    /** GetPending: the athletes awaiting approval and no other, oldest first. */
    method GetPending() returns (list: seq<Athlete>)
      ensures multiset(list) == multiset(Where(athletes, IsPending))
      ensures forall i :: 0 <= i < |list| ==> list[i].row.approvalStatus == PendingStatus
      ensures Sorted(list, ByIntKey(CreatedAsc))
    {
      IntKeyPreorder(CreatedAsc);
      list := SortSet(Where(athletes, IsPending), ByIntKey(CreatedAsc));
      forall i | 0 <= i < |list| ensures list[i].row.approvalStatus == PendingStatus {
        assert list[i] in multiset(list);
      }
    }

    /** Search: the athletes whose first name, last name or email contains the query, newest first. */
    method Search(q: string) returns (list: seq<Athlete>)
      ensures multiset(list) == multiset(Summaries(Where(athletes, Matching(q))))
      ensures forall a :: a in list <==>
        a.id in athletes && a.row == Summary(athletes[a.id]) && Matches(athletes[a.id], q)
      ensures forall i, j :: 0 <= i < j < |list| ==> list[i].id != list[j].id
      ensures Sorted(list, ByIntKey(CreatedDesc))
    {
      IntKeyPreorder(CreatedDesc);
      var found := Summaries(Where(athletes, Matching(q)));
      list := SortSet(found, ByIntKey(CreatedDesc));
      MultisetOfSet(list, found);
      SearchListed(q, found, list);
    }

    /** The listed summaries are those of the matching rows, one per id. */
    lemma SearchListed(q: string, found: set<Athlete>, list: seq<Athlete>)
      requires found == Summaries(Where(athletes, Matching(q)))
      requires forall a :: a in list <==> a in found
      requires forall i, j :: 0 <= i < j < |list| ==> list[i] != list[j]
      ensures forall a :: a in list <==>
        a.id in athletes && a.row == Summary(athletes[a.id]) && Matches(athletes[a.id], q)
      ensures forall i, j :: 0 <= i < j < |list| ==> list[i].id != list[j].id
    {
      forall a ensures a in found <==>
        a.id in athletes && a.row == Summary(athletes[a.id]) && Matches(athletes[a.id], q)
      {
        if a.id in athletes && a.row == Summary(athletes[a.id]) && Matches(athletes[a.id], q) {
          var b := Athlete(a.id, athletes[a.id]);
          assert b in Where(athletes, Matching(q));
        }
      }
      forall i, j | 0 <= i < j < |list| ensures list[i].id != list[j].id {
        assert list[i] in found && list[j] in found;
      }
    }

    /** GetStats: the dashboard counts of the table. */
    method GetStats() returns (s: AthleteStats)
      ensures s == StatsOf(athletes)
      ensures s.pending + s.approved + s.rejected <= s.total && s.active <= s.approved
    {
      s := StatsOf(athletes);
    }
  }
}
