/**
 * The role gates of the HTTP routes (middleware/rbac.go). Each gate reads
 * the role the authentication middleware put into the request context and
 * either calls the next handler or answers 403.
 */
module Rbac {
  import opened Wrappers

  const RoleAdmin: string := "admin"
  const RoleCoach: string := "coach"
  const RoleAthlete: string := "athlete"

  const Forbidden: int := 403

  /** The role in the request context; None when there is none, or it is not a models.UserRole. */
  type ContextRole = Option<string>

  /** What a gate does: call the next handler, or answer with a status and message. */
  datatype GateOutcome = Next | Refused(status: int, message: string)

  /** RequireAdmin: only the admin role passes. */
  function RequireAdmin(role: ContextRole): (r: GateOutcome)
    ensures r.Next? <==> role == Some(RoleAdmin)
    ensures r.Refused? ==> r == Refused(Forbidden, "Forbidden: Admin access required")
  {
    if role.None? || role.value != RoleAdmin then Refused(Forbidden, "Forbidden: Admin access required")
    else Next
  }

  /** RequireCoach: coaches and admins pass. */
  function RequireCoach(role: ContextRole): (r: GateOutcome)
    ensures r.Next? <==> role == Some(RoleCoach) || role == Some(RoleAdmin)
    ensures r.Refused? ==> r == Refused(Forbidden, "Forbidden: Coach access required")
  {
    if role.None? || (role.value != RoleCoach && role.value != RoleAdmin) then
      Refused(Forbidden, "Forbidden: Coach access required")
    else Next
  }

  /** RequireAthlete: any of the three roles passes; no role at all gets its own message. */
  function RequireAthlete(role: ContextRole): (r: GateOutcome)
    ensures r.Next? <==> role.Some? && role.value in {RoleAthlete, RoleCoach, RoleAdmin}
    ensures role.None? ==> r == Refused(Forbidden, "Forbidden: Authentication required")
    ensures role.Some? && r.Refused? ==> r == Refused(Forbidden, "Forbidden: Athlete access required")
  {
    if role.None? then Refused(Forbidden, "Forbidden: Authentication required")
    else if role.value != RoleAthlete && role.value != RoleCoach && role.value != RoleAdmin then
      Refused(Forbidden, "Forbidden: Athlete access required")
    else Next
  }

  /** The admitted roles are nested: whoever passes the admin gate passes the coach gate, and so on. */
  lemma GatesNested(role: ContextRole)
    ensures RequireAdmin(role).Next? ==> RequireCoach(role).Next?
    ensures RequireCoach(role).Next? ==> RequireAthlete(role).Next?
  {
  }

  /** A request without a role is refused with 403 by every gate. */
  lemma NoRoleForbidden()
    ensures RequireAdmin(None).Refused? && RequireAdmin(None).status == Forbidden
    ensures RequireCoach(None).Refused? && RequireCoach(None).status == Forbidden
    ensures RequireAthlete(None).Refused? && RequireAthlete(None).status == Forbidden
  {
  }

  /** The nesting is strict: a coach is no admin, an athlete no coach. */
  lemma GatesStrict()
    ensures RequireCoach(Some(RoleCoach)).Next? && RequireAdmin(Some(RoleCoach)).Refused?
    ensures RequireAthlete(Some(RoleAthlete)).Next? && RequireCoach(Some(RoleAthlete)).Refused?
  {
  }
}
