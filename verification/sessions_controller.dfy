/**
 * The web controller of training sessions (BeFit/Controllers/TrainingSessionsController.cs).
 * Every action reads and writes only the caller's sessions; the caller is the
 * optional user id of the authenticated principal, and the context is the
 * EF Core database the action works on.
 */
module TrainingSessionsController {
  import opened Wrappers
  import opened Tables
  import opened Time
  import Annotations
  import opened WebModels
  import opened WebStore

  /** `Index`: the caller's sessions, in table order; NotFound without a user. */
  method Index(ctx: AppDbContext, userId: Option<string>) returns (r: ActionResult<seq<TrainingSession>>)
    ensures userId.None? <==> r == NotFound
    ensures userId.Some? ==> r.Page? && forall s :: s in r.model <==> s in ctx.sessions && s.UserId == userId.value
    ensures userId.Some? ==> r.model == OwnedRows(ctx.sessions, SessionOwner, userId.value)
  {
    if userId.None? {
      return NotFound;
    }
    r := Page(OwnedRows(ctx.sessions, SessionOwner, userId.value));
  }

  /**
   * `Details` (and the lookups of the `Edit` and `Delete` pages): the caller's
   * session with that id. A missing id and another owner's id give the same
   * NotFound.
   */
  method Details(ctx: AppDbContext, userId: Option<string>, id: Option<int>) returns (r: ActionResult<TrainingSession>)
    ensures r.NotFound? || r.Page?
    ensures id.None? || userId.None? ==> r == NotFound
    ensures id.Some? && userId.Some? ==>
      (r == NotFound <==> forall s :: s in ctx.sessions && s.Id == id.value ==> s.UserId != userId.value)
    ensures r.Page? ==> r.model in ctx.sessions && r.model.Id == id.value && r.model.UserId == userId.value
  {
    if id.None? || userId.None? {
      return NotFound;
    }
    match FindOwned(ctx.sessions, SessionKey, SessionOwner, id.value, userId.value)
    case None =>
      r := NotFound;
      forall s | s in ctx.sessions && s.Id == id.value ensures s.UserId != userId.value {
        var i :| 0 <= i < |ctx.sessions| && ctx.sessions[i] == s;
      }
    case Some(s) =>
      r := Page(s);
  }

  /**
   * The Create page's initial form: the current instant with seconds and
   * fractions dropped, and an end one hour later. It passes the web ordering
   * check.
   */
  function CreateForm(now: Instant): (dto: TrainingSessionCreateDto)
    ensures dto.StartedAt <= now < dto.StartedAt + TicksPerMinute && dto.StartedAt % TicksPerMinute == 0
    ensures dto.EndedAt - dto.StartedAt == TicksPerHour
    ensures forall id, uid :: Validate(TrainingSession(id, uid, dto.StartedAt, dto.EndedAt)) == []
  {
    var start := TruncateToMinute(now);
    TrainingSessionCreateDto(start, AddHours(start, 1))
  }

  /**
   * `Create` POST: stores a new session of the caller with the submitted times.
   * The form has no checks, so the times are stored in any order; the insert
   * fails only if the caller's user row is gone.
   */
  method Create(ctx: AppDbContext, userId: Option<string>, dto: TrainingSessionCreateDto)
    returns (r: ActionResult<TrainingSessionCreateDto>)
    requires ctx.Valid()
    modifies ctx
    ensures ctx.Valid()
    ensures ctx.users == old(ctx.users) && ctx.exerciseTypes == old(ctx.exerciseTypes) && ctx.entries == old(ctx.entries)
    ensures r != RedirectToIndex ==> ctx.sessions == old(ctx.sessions)
    ensures userId.None? <==> r == NotFound
    ensures userId.Some? && userId.value !in ctx.users ==> r == ServerError
    ensures userId.Some? && userId.value in ctx.users ==>
      r == RedirectToIndex
      && ctx.sessions == old(ctx.sessions) + [TrainingSession(old(ctx.nextSessionId), userId.value, dto.StartedAt, dto.EndedAt)]
  {
    if userId.None? {
      return NotFound;
    }
    var ok, _ := ctx.AddSession(userId.value, dto.StartedAt, dto.EndedAt);
    r := if ok then RedirectToIndex else ServerError;
  }

  /** The session the Edit form binds: `Id`, `StartedAt` and `EndedAt` are set, `UserId` keeps its initial value. */
  function BoundSession(formId: int, startedAt: Instant, endedAt: Instant): (s: TrainingSession)
    ensures s.Id == formId && s.StartedAt == startedAt && s.EndedAt == endedAt
    ensures s.UserId == NewTrainingSession().UserId
  {
    TrainingSession(formId, "", startedAt, endedAt)
  }

  /**
   * `ModelState.IsValid` for the Edit form as the action computes it: MVC
   * validates every property of the bound object, bound or not, and calls
   * `Validate` only when those pass.
   */
  predicate EditModelStateAsWritten(s: TrainingSession) {
    Annotations.RequiredAccepts(s.UserId) && Validate(s) == []
  }

  /** As written, no Edit form is valid: the unbound `UserId` is empty and fails `[Required]`. */
  lemma EditModelStateNeverValid(formId: int, startedAt: Instant, endedAt: Instant)
    ensures !EditModelStateAsWritten(BoundSession(formId, startedAt, endedAt))
  {
  }

  /**
   * The intended check of the Edit form: the constraints of the properties it
   * binds, then `Validate`. It accepts exactly the forms whose session does
   * not end before it starts.
   */
  predicate EditModelStateValid(s: TrainingSession) {
    Validate(s) == []
  }

  lemma EditModelStateValidIff(formId: int, startedAt: Instant, endedAt: Instant)
    ensures EditModelStateValid(BoundSession(formId, startedAt, endedAt)) <==> startedAt <= endedAt
    ensures EditModelStateValid(BoundSession(formId, startedAt, endedAt)) ==> !EditModelStateAsWritten(BoundSession(formId, startedAt, endedAt))
  {
  }

  /** Replacing a stored session by an edited copy of itself keeps every id and every owner. */
  lemma EditedCopyKeepsIdsAndOwners(sessions: seq<TrainingSession>, existing: TrainingSession, startedAt: Instant, endedAt: Instant)
    requires UniqueKeys(sessions, SessionKey) && existing in sessions
    ensures var r := ReplaceWithKey(sessions, SessionKey, existing.(StartedAt := startedAt, EndedAt := endedAt));
      |r| == |sessions|
      && forall i :: 0 <= i < |r| ==>
        r[i].Id == sessions[i].Id && r[i].UserId == sessions[i].UserId
        && (sessions[i].Id != existing.Id ==> r[i] == sessions[i])
  {
    var j :| 0 <= j < |sessions| && sessions[j] == existing;
    forall i | 0 <= i < |sessions| && sessions[i].Id == existing.Id ensures sessions[i] == existing {
      assert i == j;
    }
  }

  /**
   * `Edit` POST as written: NotFound when the route id differs from the form's
   * id or the session is not the caller's; otherwise the form is shown again.
   * `ModelState.IsValid` never holds for this form (`EditModelStateNeverValid`),
   * so the branch that saves is never taken and the action changes nothing.
   * `EditCorrected` is the action with the intended check.
   */
  method Edit(ctx: AppDbContext, userId: Option<string>, id: int, formId: int, startedAt: Instant, endedAt: Instant)
    returns (r: ActionResult<TrainingSession>)
    ensures r == NotFound <==> id != formId || userId.None? || !OwnsSession(ctx.sessions, id, userId.value)
    ensures r != NotFound ==> r == Page(BoundSession(formId, startedAt, endedAt))
  {
    if id != formId || userId.None? {
      return NotFound;
    }
    var existing := FindOwned(ctx.sessions, SessionKey, SessionOwner, id, userId.value);
    if existing.None? {
      return NotFound;
    }
    var form := BoundSession(formId, startedAt, endedAt);
    if EditModelStateAsWritten(form) {
      assert false;
    }
    r := Page(form);
  }

  /**
   * `Edit` POST, with the intended form check: NotFound, without change, when
   * the route id differs from the form's id or the session is not the caller's;
   * an invalid form is shown again without change; otherwise only `StartedAt`
   * and `EndedAt` of the caller's session are replaced.
   */
  method EditCorrected(ctx: AppDbContext, userId: Option<string>, id: int, formId: int, startedAt: Instant, endedAt: Instant)
    returns (r: ActionResult<TrainingSession>)
    requires ctx.Valid()
    modifies ctx
    ensures ctx.Valid()
    ensures ctx.users == old(ctx.users) && ctx.exerciseTypes == old(ctx.exerciseTypes) && ctx.entries == old(ctx.entries)
    ensures r != RedirectToIndex ==> ctx.sessions == old(ctx.sessions)
    ensures r != ServerError
    ensures r == NotFound <==> id != formId || userId.None? || !OwnsSession(old(ctx.sessions), id, userId.value)
    ensures r != NotFound ==> (r == RedirectToIndex <==> startedAt <= endedAt)
    ensures r.Page? ==> r.model == BoundSession(formId, startedAt, endedAt)
    ensures r == RedirectToIndex ==>
      ctx.sessions == ReplaceWithKey(old(ctx.sessions), SessionKey, TrainingSession(id, userId.value, startedAt, endedAt))
    ensures r == RedirectToIndex ==>
      |ctx.sessions| == |old(ctx.sessions)|
      && forall i :: 0 <= i < |ctx.sessions| ==>
        ctx.sessions[i].Id == old(ctx.sessions)[i].Id && ctx.sessions[i].UserId == old(ctx.sessions)[i].UserId
        && (old(ctx.sessions)[i].Id != id ==> ctx.sessions[i] == old(ctx.sessions)[i])
  {
    if id != formId || userId.None? {
      return NotFound;
    }
    var existing := FindOwned(ctx.sessions, SessionKey, SessionOwner, id, userId.value);
    if existing.None? {
      return NotFound;
    }
    var form := BoundSession(formId, startedAt, endedAt);
    EditModelStateValidIff(formId, startedAt, endedAt);
    if !EditModelStateValid(form) {
      return Page(form);
    }
    var updated := existing.value.(StartedAt := form.StartedAt, EndedAt := form.EndedAt);
    assert HasKey(ctx.sessions, SessionKey, updated.Id) by {
      var i :| 0 <= i < |ctx.sessions| && ctx.sessions[i] == existing.value;
    }
    EditedCopyKeepsIdsAndOwners(ctx.sessions, existing.value, startedAt, endedAt);
    var _ := ctx.UpdateSession(updated);
    r := RedirectToIndex;
  }

  /**
   * `DeleteConfirmed`: deletes the caller's session with that id, and with it
   * every entry of the session; any other id changes nothing.
   */
  method DeleteConfirmed(ctx: AppDbContext, userId: Option<string>, id: int) returns (r: ActionResult<TrainingSession>)
    requires ctx.Valid()
    modifies ctx
    ensures ctx.Valid()
    ensures ctx.users == old(ctx.users) && ctx.exerciseTypes == old(ctx.exerciseTypes)
    ensures userId.None? <==> r == NotFound
    ensures userId.Some? ==> r == RedirectToIndex
    ensures userId.Some? && OwnsSession(old(ctx.sessions), id, userId.value) ==>
      ctx.sessions == RemoveWithKey(old(ctx.sessions), SessionKey, id)
      && ctx.entries == RemoveWithKey(old(ctx.entries), EntrySessionKey, id)
    ensures !(userId.Some? && OwnsSession(old(ctx.sessions), id, userId.value)) ==>
      ctx.sessions == old(ctx.sessions) && ctx.entries == old(ctx.entries)
  {
    if userId.None? {
      return NotFound;
    }
    if OwnsSession(ctx.sessions, id, userId.value) {
      ctx.RemoveSession(id);
    }
    r := RedirectToIndex;
  }
}
