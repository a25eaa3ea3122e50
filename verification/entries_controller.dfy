/**
 * The web controller of training entries (BeFit/Controllers/TrainingEntriesController.cs).
 * Every action reads and writes only the caller's entries, and an entry may
 * only be placed in a session the caller owns.
 */
module TrainingEntriesController {
  import opened Wrappers
  import opened Tables
  import Annotations
  import opened WebModels
  import opened WebStore

  /** `Index`: the caller's entries, in table order; NotFound without a user. */
  method Index(ctx: AppDbContext, userId: Option<string>) returns (r: ActionResult<seq<TrainingEntry>>)
    ensures userId.None? <==> r == NotFound
    ensures userId.Some? ==> r.Page? && forall e :: e in r.model <==> e in ctx.entries && e.UserId == userId.value
    ensures userId.Some? ==> r.model == OwnedRows(ctx.entries, EntryOwner, userId.value)
  {
    if userId.None? {
      return NotFound;
    }
    r := Page(OwnedRows(ctx.entries, EntryOwner, userId.value));
  }

  /**
   * `Details` (and the lookups of the `Edit` and `Delete` pages): the caller's
   * entry with that id. A missing id and another owner's id give the same
   * NotFound.
   */
  method Details(ctx: AppDbContext, userId: Option<string>, id: Option<int>) returns (r: ActionResult<TrainingEntry>)
    ensures r.NotFound? || r.Page?
    ensures id.None? || userId.None? ==> r == NotFound
    ensures id.Some? && userId.Some? ==>
      (r == NotFound <==> forall e :: e in ctx.entries && e.Id == id.value ==> e.UserId != userId.value)
    ensures r.Page? ==> r.model in ctx.entries && r.model.Id == id.value && r.model.UserId == userId.value
  {
    if id.None? || userId.None? {
      return NotFound;
    }
    match FindOwned(ctx.entries, EntryKey, EntryOwner, id.value, userId.value)
    case None =>
      r := NotFound;
      forall e | e in ctx.entries && e.Id == id.value ensures e.UserId != userId.value {
        var i :| 0 <= i < |ctx.entries| && ctx.entries[i] == e;
      }
    case Some(e) =>
      r := Page(e);
  }

  /**
   * `ModelState.IsValid` of the Create form: its three ranges, plus the error
   * the action adds when the chosen session is not the caller's.
   */
  predicate CreateModelStateValid(dto: TrainingEntryCreateDto, sessionOwned: bool) {
    DtoDeclaredValid(dto) && sessionOwned
  }

  /**
   * `Create` POST: stores a new entry of the caller with the submitted
   * values, provided the form passes its ranges and the chosen session is the
   * caller's; otherwise the form is shown again and nothing is stored. The
   * insert fails when the chosen exercise type does not exist.
   */
  method Create(ctx: AppDbContext, userId: Option<string>, dto: TrainingEntryCreateDto)
    returns (r: ActionResult<TrainingEntryCreateDto>)
    requires ctx.Valid()
    modifies ctx
    ensures ctx.Valid()
    ensures ctx.users == old(ctx.users) && ctx.exerciseTypes == old(ctx.exerciseTypes) && ctx.sessions == old(ctx.sessions)
    ensures r != RedirectToIndex ==> ctx.entries == old(ctx.entries)
    ensures userId.None? <==> r == NotFound
    ensures r.Page? <==>
      userId.Some? && !(OwnsSession(ctx.sessions, dto.TrainingSessionId, userId.value) && DtoDeclaredValid(dto))
    ensures r.Page? ==> r.model == dto
    ensures r == ServerError <==>
      userId.Some? && OwnsSession(ctx.sessions, dto.TrainingSessionId, userId.value) && DtoDeclaredValid(dto)
      && !HasKey(ctx.exerciseTypes, ExerciseTypeKey, dto.ExerciseTypeId)
    ensures r == RedirectToIndex ==>
      ctx.entries == old(ctx.entries) + [TrainingEntry(old(ctx.nextEntryId), dto.TrainingSessionId, dto.ExerciseTypeId,
                                                       userId.value, dto.Weight, dto.Sets, dto.Repetitions)]
  {
    if userId.None? {
      return NotFound;
    }
    var uid := userId.value;
    var selected := FindOwned(ctx.sessions, SessionKey, SessionOwner, dto.TrainingSessionId, uid);
    if !CreateModelStateValid(dto, selected.Some?) {
      return Page(dto);
    }
    assert HasKey(ctx.sessions, SessionKey, dto.TrainingSessionId) && uid in ctx.users by {
      var i :| 0 <= i < |ctx.sessions| && ctx.sessions[i] == selected.value;
    }
    var ok, _ := ctx.AddEntry(dto.TrainingSessionId, dto.ExerciseTypeId, uid, dto.Weight, dto.Sets, dto.Repetitions);
    r := if ok then RedirectToIndex else ServerError;
  }

  /**
   * The entry the Edit form binds: the six listed properties are set, `UserId`
   * keeps its initial value.
   */
  function BoundEntry(formId: int, sessionId: int, typeId: int, weight: real, sets: int, repetitions: int): (e: TrainingEntry)
    ensures e.Id == formId && e.TrainingSessionId == sessionId && e.ExerciseTypeId == typeId
    ensures e.Weight == weight && e.Sets == sets && e.Repetitions == repetitions
    ensures e.UserId == NewTrainingEntry().UserId
  {
    TrainingEntry(formId, sessionId, typeId, "", weight, sets, repetitions)
  }

  /**
   * `ModelState.IsValid` for the Edit form as the action computes it: MVC
   * validates every property of the bound object, bound or not.
   */
  predicate EditModelStateAsWritten(e: TrainingEntry) {
    Annotations.RequiredAccepts(e.UserId) && EntryDeclaredValid(e)
  }

  /** As written, no Edit form is valid: the unbound `UserId` is empty and fails `[Required]`. */
  lemma EditModelStateNeverValid(formId: int, sessionId: int, typeId: int, weight: real, sets: int, repetitions: int)
    ensures !EditModelStateAsWritten(BoundEntry(formId, sessionId, typeId, weight, sets, repetitions))
  {
  }

  /** The intended check of the Edit form: the constraints of the properties it binds. */
  predicate EditModelStateValid(e: TrainingEntry) {
    EntryDeclaredValid(e)
  }

  /**
   * The intended check accepts exactly the forms whose sets and repetitions
   * lie in 1..100 and whose weight passes its range, all of which the check
   * as written refuses.
   */
  lemma EditModelStateValidIff(formId: int, sessionId: int, typeId: int, weight: real, sets: int, repetitions: int)
    ensures EditModelStateValid(BoundEntry(formId, sessionId, typeId, weight, sets, repetitions)) <==>
      -0.5 <= weight <= 1000.5 && 1 <= sets <= 100 && 1 <= repetitions <= 100
    ensures EditModelStateValid(BoundEntry(formId, sessionId, typeId, weight, sets, repetitions)) ==>
      !EditModelStateAsWritten(BoundEntry(formId, sessionId, typeId, weight, sets, repetitions))
  {
    WeightCheckBounds(weight);
  }

  /** Replacing a stored entry by an edited copy of itself keeps every id and every owner. */
  lemma EditedCopyKeepsIdsAndOwners(entries: seq<TrainingEntry>, existing: TrainingEntry, updated: TrainingEntry)
    requires UniqueKeys(entries, EntryKey) && existing in entries
    requires updated.Id == existing.Id && updated.UserId == existing.UserId
    ensures var r := ReplaceWithKey(entries, EntryKey, updated);
      |r| == |entries|
      && forall i :: 0 <= i < |r| ==>
        r[i].Id == entries[i].Id && r[i].UserId == entries[i].UserId
        && (entries[i].Id != existing.Id ==> r[i] == entries[i])
  {
    var j :| 0 <= j < |entries| && entries[j] == existing;
    forall i | 0 <= i < |entries| && entries[i].Id == existing.Id ensures entries[i] == existing {
      assert i == j;
    }
  }

  /**
   * `Edit` POST as written: NotFound when the route id differs from the form's
   * id or the entry is not the caller's; otherwise the form is shown again,
   * both when the chosen session is not the caller's and when it is, since
   * `ModelState.IsValid` never holds for this form (`EditModelStateNeverValid`).
   * The action changes nothing. `EditCorrected` is the action with the
   * intended check.
   */
  method Edit(ctx: AppDbContext, userId: Option<string>, id: int,
              formId: int, sessionId: int, typeId: int, weight: real, sets: int, repetitions: int)
    returns (r: ActionResult<TrainingEntry>)
    ensures r == NotFound <==> id != formId || userId.None? || !OwnsEntry(ctx.entries, id, userId.value)
    ensures r != NotFound ==> r == Page(BoundEntry(formId, sessionId, typeId, weight, sets, repetitions))
  {
    if id != formId || userId.None? {
      return NotFound;
    }
    var uid := userId.value;
    var existing := FindOwned(ctx.entries, EntryKey, EntryOwner, id, uid);
    if existing.None? {
      return NotFound;
    }
    var form := BoundEntry(formId, sessionId, typeId, weight, sets, repetitions);
    var selected := FindOwned(ctx.sessions, SessionKey, SessionOwner, sessionId, uid);
    if selected.None? {
      return Page(form);
    }
    if EditModelStateAsWritten(form) {
      assert false;
    }
    r := Page(form);
  }

  /**
   * `Edit` POST, with the intended form check: NotFound, without change, when
   * the route id differs from the form's id or the entry is not the caller's;
   * the form is shown again without change when the chosen session is not the
   * caller's or a range fails; otherwise the five editable fields of the
   * caller's entry are replaced, keeping its id and owner. The update fails
   * when the chosen exercise type does not exist.
   */
  method EditCorrected(ctx: AppDbContext, userId: Option<string>, id: int,
                       formId: int, sessionId: int, typeId: int, weight: real, sets: int, repetitions: int)
    returns (r: ActionResult<TrainingEntry>)
    requires ctx.Valid()
    modifies ctx
    ensures ctx.Valid()
    ensures ctx.users == old(ctx.users) && ctx.exerciseTypes == old(ctx.exerciseTypes) && ctx.sessions == old(ctx.sessions)
    ensures r != RedirectToIndex ==> ctx.entries == old(ctx.entries)
    ensures r == NotFound <==> id != formId || userId.None? || !OwnsEntry(old(ctx.entries), id, userId.value)
    ensures r != NotFound && !OwnsSession(ctx.sessions, sessionId, userId.value) ==> r.Page?
    ensures r != NotFound && OwnsSession(ctx.sessions, sessionId, userId.value) ==>
      (r.Page? <==> !EditModelStateValid(BoundEntry(formId, sessionId, typeId, weight, sets, repetitions)))
    ensures r.Page? ==> r.model == BoundEntry(formId, sessionId, typeId, weight, sets, repetitions)
    ensures !r.NotFound? && !r.Page? ==> (r == ServerError <==> !HasKey(ctx.exerciseTypes, ExerciseTypeKey, typeId))
    ensures r == RedirectToIndex ==>
      OwnsSession(ctx.sessions, sessionId, userId.value)
      && ctx.entries == ReplaceWithKey(old(ctx.entries), EntryKey,
                                       TrainingEntry(id, sessionId, typeId, userId.value, weight, sets, repetitions))
    ensures r == RedirectToIndex ==>
      |ctx.entries| == |old(ctx.entries)|
      && forall i :: 0 <= i < |ctx.entries| ==>
        ctx.entries[i].Id == old(ctx.entries)[i].Id && ctx.entries[i].UserId == old(ctx.entries)[i].UserId
        && (old(ctx.entries)[i].Id != id ==> ctx.entries[i] == old(ctx.entries)[i])
  {
    if id != formId || userId.None? {
      return NotFound;
    }
    var uid := userId.value;
    var existing := FindOwned(ctx.entries, EntryKey, EntryOwner, id, uid);
    if existing.None? {
      return NotFound;
    }
    var form := BoundEntry(formId, sessionId, typeId, weight, sets, repetitions);
    var selected := FindOwned(ctx.sessions, SessionKey, SessionOwner, sessionId, uid);
    if selected.None? || !EditModelStateValid(form) {
      return Page(form);
    }
    var updated := existing.value.(TrainingSessionId := form.TrainingSessionId, ExerciseTypeId := form.ExerciseTypeId,
                                   Weight := form.Weight, Sets := form.Sets, Repetitions := form.Repetitions);
    assert HasKey(ctx.entries, EntryKey, updated.Id) && updated.UserId in ctx.users by {
      var i :| 0 <= i < |ctx.entries| && ctx.entries[i] == existing.value;
    }
    assert HasKey(ctx.sessions, SessionKey, sessionId) by {
      var i :| 0 <= i < |ctx.sessions| && ctx.sessions[i] == selected.value;
    }
    EditedCopyKeepsIdsAndOwners(ctx.entries, existing.value, updated);
    var ok := ctx.UpdateEntry(updated);
    r := if ok then RedirectToIndex else ServerError;
  }

  /**
   * `DeleteConfirmed`: deletes the caller's entry with that id; any other id
   * changes nothing.
   */
  method DeleteConfirmed(ctx: AppDbContext, userId: Option<string>, id: int) returns (r: ActionResult<TrainingEntry>)
    requires ctx.Valid()
    modifies ctx
    ensures ctx.Valid()
    ensures ctx.users == old(ctx.users) && ctx.exerciseTypes == old(ctx.exerciseTypes) && ctx.sessions == old(ctx.sessions)
    ensures userId.None? <==> r == NotFound
    ensures userId.Some? ==> r == RedirectToIndex
    ensures userId.Some? && OwnsEntry(old(ctx.entries), id, userId.value) ==>
      forall e :: e in ctx.entries <==> e in old(ctx.entries) && e.Id != id
    ensures !(userId.Some? && OwnsEntry(old(ctx.entries), id, userId.value)) ==> ctx.entries == old(ctx.entries)
  {
    if userId.None? {
      return NotFound;
    }
    if OwnsEntry(ctx.entries, id, userId.value) {
      ctx.RemoveEntry(id);
    }
    r := RedirectToIndex;
  }
}
