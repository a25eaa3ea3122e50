/**
 * The web application's data access through `ApplicationDbContext`: the three
 * domain tables plus the set of user ids, changed only as EF Core and SQLite
 * change them under the model configuration (unique names, foreign keys that
 * must resolve, cascading and restricted deletes). Also the owner-scoped lookups
 * the controllers build their queries from, and the result of an MVC action.
 */
module WebStore {
  import opened Wrappers
  import opened Tables
  import opened WebModels
  import EfModel

  /**
   * What an action returns: `NotFound()`, a rendered view of a model,
   * `RedirectToAction(nameof(Index))`, or an unhandled database error (a
   * `DbUpdateException` from `SaveChangesAsync`, which no action catches).
   */
  datatype ActionResult<T> = NotFound | Page(model: T) | RedirectToIndex | ServerError

  function SessionOwner(s: TrainingSession): string { s.UserId }
  function EntryOwner(e: TrainingEntry): string { e.UserId }
  function EntrySessionKey(e: TrainingEntry): int { e.TrainingSessionId }

  // ---- Owner scoping ----

  /** `Where(r => r.UserId == userId)`: the caller's rows, in table order. */
  function OwnedRows<T(!new)>(rows: seq<T>, owner: T -> string, uid: string): (r: seq<T>)
    ensures forall x :: x in r <==> x in rows && owner(x) == uid
    ensures |r| <= |rows|
  {
    Where(rows, x => owner(x) == uid)
  }

  /**
   * A row of another owner is invisible to the caller's listing wherever it is
   * stored.
   */
  lemma {:induction false} OwnedRowsIgnoreForeign<T(!new)>(rows: seq<T>, i: nat, x: T, owner: T -> string, uid: string)
    requires i <= |rows| && owner(x) != uid
    ensures OwnedRows(rows[..i] + [x] + rows[i..], owner, uid) == OwnedRows(rows, owner, uid)
  {
    if i == 0 {
      assert rows[..0] + [x] + rows[0..] == [x] + rows;
      assert ([x] + rows)[1..] == rows;
    } else {
      var tail := rows[1..];
      OwnedRowsIgnoreForeign(tail, i - 1, x, owner, uid);
      assert rows[..i] + [x] + rows[i..] == [rows[0]] + (tail[..i - 1] + [x] + tail[i - 1..]);
      assert rows == [rows[0]] + tail;
    }
  }

  /** `FirstOrDefault(m => m.Id == id && m.UserId == userId)`. */
  function FindOwned<T>(rows: seq<T>, key: T -> int, owner: T -> string, id: int, uid: string): (r: Option<T>)
    ensures r.Some? ==> r.value in rows && key(r.value) == id && owner(r.value) == uid
    ensures r.None? <==> forall i :: 0 <= i < |rows| ==> !(key(rows[i]) == id && owner(rows[i]) == uid)
  {
    if rows == [] then None
    else if key(rows[0]) == id && owner(rows[0]) == uid then Some(rows[0])
    else
      var r := FindOwned(rows[1..], key, owner, id, uid);
      assert forall i :: 0 < i < |rows| ==> rows[i] == rows[1..][i - 1];
      r
  }

  /**
   * With unique ids, the owner-scoped lookup fails exactly when the id is
   * missing or belongs to someone else, and otherwise finds the row with that
   * id: a caller cannot tell another owner's id from a missing one.
   */
  lemma FindOwnedIsScopedLookup<T>(rows: seq<T>, key: T -> int, owner: T -> string, id: int, uid: string)
    requires UniqueKeys(rows, key)
    ensures FindOwned(rows, key, owner, id, uid).None? <==>
      FirstWithKey(rows, key, id).None? || owner(FirstWithKey(rows, key, id).value) != uid
    ensures FindOwned(rows, key, owner, id, uid).Some? ==> FindOwned(rows, key, owner, id, uid) == FirstWithKey(rows, key, id)
  {
    match FindOwned(rows, key, owner, id, uid)
    case Some(x) =>
      FirstWithKeyUnique(rows, key, x);
    case None =>
      if FirstWithKey(rows, key, id).Some? {
        var y := FirstWithKey(rows, key, id).value;
        var i :| 0 <= i < |rows| && rows[i] == y;
        assert owner(y) != uid;
      }
  }

  /** The caller owns a session with this id. */
  predicate OwnsSession(sessions: seq<TrainingSession>, id: int, uid: string) {
    FindOwned(sessions, SessionKey, SessionOwner, id, uid).Some?
  }

  /** The caller owns an entry with this id. */
  predicate OwnsEntry(entries: seq<TrainingEntry>, id: int, uid: string) {
    FindOwned(entries, EntryKey, EntryOwner, id, uid).Some?
  }

  // ---- The context ----

  /** No two exercise types share a name (the unique index on `Name`). */
  ghost predicate UniqueNames(types: seq<ExerciseType>) {
    forall i, j :: 0 <= i < j < |types| ==> types[i].Name != types[j].Name
  }

  /** Every foreign key of these tables resolves. */
  ghost predicate Resolves(users: set<string>, types: seq<ExerciseType>, sessions: seq<TrainingSession>, entries: seq<TrainingEntry>) {
    (forall s :: s in sessions ==> s.UserId in users)
    && (forall e :: e in entries ==>
          e.UserId in users && HasKey(sessions, SessionKey, e.TrainingSessionId)
          && HasKey(types, ExerciseTypeKey, e.ExerciseTypeId))
  }

  /** Sessions and entries each have unique primary keys below the next ones handed out. */
  ghost predicate SessionsAndEntriesValid(sessions: seq<TrainingSession>, entries: seq<TrainingEntry>, nextSessionId: int, nextEntryId: int) {
    UniqueKeys(sessions, SessionKey) && KeysBelow(sessions, SessionKey, nextSessionId)
    && UniqueKeys(entries, EntryKey) && KeysBelow(entries, EntryKey, nextEntryId)
  }

  /** Deleting a session together with its entries keeps the keys unique and within bounds. */
  lemma KeysAfterRemoveSession(sessions: seq<TrainingSession>, entries: seq<TrainingEntry>, nextSessionId: int, nextEntryId: int, id: int)
    requires SessionsAndEntriesValid(sessions, entries, nextSessionId, nextEntryId)
    ensures SessionsAndEntriesValid(RemoveWithKey(sessions, SessionKey, id), RemoveWithKey(entries, EntrySessionKey, id), nextSessionId, nextEntryId)
  {
    RemoveWithKeyUnique(entries, EntrySessionKey, id, EntryKey);
    KeysBelowRemove(entries, EntrySessionKey, id, EntryKey, nextEntryId);
    RemoveWithKeyUnique(sessions, SessionKey, id, SessionKey);
    KeysBelowRemove(sessions, SessionKey, id, SessionKey, nextSessionId);
  }

  /** Deleting a session together with its entries leaves no dangling reference. */
  lemma ResolvesAfterRemoveSession(users: set<string>, types: seq<ExerciseType>, sessions: seq<TrainingSession>,
                                   entries: seq<TrainingEntry>, id: int)
    requires Resolves(users, types, sessions, entries)
    ensures Resolves(users, types, RemoveWithKey(sessions, SessionKey, id), RemoveWithKey(entries, EntrySessionKey, id))
  {
    var entries' := RemoveWithKey(entries, EntrySessionKey, id);
    forall e | e in entries' ensures HasKey(RemoveWithKey(sessions, SessionKey, id), SessionKey, e.TrainingSessionId) {
      HasKeyAfterRemove(sessions, SessionKey, id, e.TrainingSessionId);
    }
  }

  /** Replacing an entry by one whose keys resolve leaves no dangling reference. */
  lemma ResolvesAfterReplaceEntry(users: set<string>, types: seq<ExerciseType>, sessions: seq<TrainingSession>,
                                  entries: seq<TrainingEntry>, e: TrainingEntry)
    requires Resolves(users, types, sessions, entries)
    requires e.UserId in users && HasKey(sessions, SessionKey, e.TrainingSessionId) && HasKey(types, ExerciseTypeKey, e.ExerciseTypeId)
    ensures Resolves(users, types, sessions, ReplaceWithKey(entries, EntryKey, e))
  {
    var entries' := ReplaceWithKey(entries, EntryKey, e);
    forall x | x in entries'
      ensures x.UserId in users && HasKey(sessions, SessionKey, x.TrainingSessionId) && HasKey(types, ExerciseTypeKey, x.ExerciseTypeId)
    {
      var k :| 0 <= k < |entries'| && entries'[k] == x;
      assert entries[k] in entries;
    }
  }

  /** Replacing a session by one of an existing user, under the same id, leaves no dangling reference. */
  lemma ResolvesAfterReplaceSession(users: set<string>, types: seq<ExerciseType>, sessions: seq<TrainingSession>,
                                    entries: seq<TrainingEntry>, s: TrainingSession)
    requires Resolves(users, types, sessions, entries)
    requires s.UserId in users && HasKey(sessions, SessionKey, s.Id)
    ensures Resolves(users, types, ReplaceWithKey(sessions, SessionKey, s), entries)
  {
    var sessions' := ReplaceWithKey(sessions, SessionKey, s);
    forall x | x in sessions' ensures x.UserId in users {
      var k :| 0 <= k < |sessions'| && sessions'[k] == x;
      assert sessions[k] in sessions;
    }
    forall e | e in entries ensures HasKey(sessions', SessionKey, e.TrainingSessionId) {
      var k :| 0 <= k < |sessions| && sessions[k].Id == e.TrainingSessionId;
      assert sessions'[k].Id == sessions[k].Id;
    }
  }

  /**
   * Dropping a user, the user's sessions, and every entry of the user or of
   * those sessions leaves no dangling reference.
   */
  lemma ResolvesAfterRemoveUser(users: set<string>, types: seq<ExerciseType>, sessions: seq<TrainingSession>,
                                entries: seq<TrainingEntry>, uid: string, sessions': seq<TrainingSession>, entries': seq<TrainingEntry>)
    requires Resolves(users, types, sessions, entries)
    requires forall s :: s in sessions' <==> s in sessions && s.UserId != uid
    requires forall e :: e in entries' ==>
      e in entries && e.UserId != uid && !(exists s :: s in sessions && s.Id == e.TrainingSessionId && s.UserId == uid)
    ensures Resolves(users - {uid}, types, sessions', entries')
  {
    forall e | e in entries' ensures HasKey(sessions', SessionKey, e.TrainingSessionId) {
      var k :| 0 <= k < |sessions| && sessions[k].Id == e.TrainingSessionId;
      assert sessions[k] in sessions;
      var j :| 0 <= j < |sessions'| && sessions'[j] == sessions[k];
    }
  }

  class AppDbContext {
    /** Ids of the Identity users (`AspNetUsers`). */
    var users: set<string>
    var exerciseTypes: seq<ExerciseType>
    var sessions: seq<TrainingSession>
    var entries: seq<TrainingEntry>
    /** The id `AUTOINCREMENT` gives the next inserted row of each table. */
    var nextExerciseTypeId: int
    var nextSessionId: int
    var nextEntryId: int

    /** Every foreign key resolves: sessions to users, entries to sessions, exercise types and users. */
    ghost predicate ReferencesResolve()
      reads this
    {
      Resolves(users, exerciseTypes, sessions, entries)
    }

    ghost predicate Valid()
      reads this
    {
      nextExerciseTypeId > 0 && nextSessionId > 0 && nextEntryId > 0
      && UniqueKeys(exerciseTypes, ExerciseTypeKey) && KeysBelow(exerciseTypes, ExerciseTypeKey, nextExerciseTypeId)
      && SessionsAndEntriesValid(sessions, entries, nextSessionId, nextEntryId)
      && UniqueNames(exerciseTypes)
      && ReferencesResolve()
    }

    /** A database with the given users and no other rows. */
    constructor (accounts: set<string>)
      ensures Valid() && users == accounts
      ensures exerciseTypes == [] && sessions == [] && entries == []
    {
      users := accounts;
      exerciseTypes, sessions, entries := [], [], [];
      nextExerciseTypeId, nextSessionId, nextEntryId := 1, 1, 1;
    }

    // ---- Exercise types ----

    /** `Add` + `SaveChanges` of a new type: refused by the unique index when the name is taken. */
    method AddExerciseType(name: string) returns (ok: bool, saved: ExerciseType)
      requires Valid()
      modifies this
      ensures Valid()
      ensures users == old(users) && sessions == old(sessions) && entries == old(entries)
      ensures nextSessionId == old(nextSessionId) && nextEntryId == old(nextEntryId)
      ensures ok <==> forall t :: t in old(exerciseTypes) ==> t.Name != name
      ensures ok ==> saved == ExerciseType(old(nextExerciseTypeId), name)
      ensures ok ==> exerciseTypes == old(exerciseTypes) + [saved] && nextExerciseTypeId == old(nextExerciseTypeId) + 1
      ensures !ok ==> exerciseTypes == old(exerciseTypes) && nextExerciseTypeId == old(nextExerciseTypeId)
    {
      saved := ExerciseType(nextExerciseTypeId, name);
      ok := forall i :: 0 <= i < |exerciseTypes| ==> exerciseTypes[i].Name != name;
      if !ok {
        return;
      }
      KeysAfterAppend(exerciseTypes, ExerciseTypeKey, saved, nextExerciseTypeId);
      ghost var before := exerciseTypes;
      exerciseTypes := exerciseTypes + [saved];
      nextExerciseTypeId := nextExerciseTypeId + 1;
      forall e | e in entries ensures HasKey(exerciseTypes, ExerciseTypeKey, e.ExerciseTypeId) {
        var k :| 0 <= k < |before| && before[k].Id == e.ExerciseTypeId;
        assert exerciseTypes[k] == before[k];
      }
      assert UniqueNames(exerciseTypes) by {
        forall i, j | 0 <= i < j < |exerciseTypes| ensures exerciseTypes[i].Name != exerciseTypes[j].Name {
          if j == |before| {
            assert exerciseTypes[i] == before[i];
          } else {
            assert exerciseTypes[i] == before[i] && exerciseTypes[j] == before[j];
          }
        }
      }
    }

    /**
     * `Remove` + `SaveChanges` of a type: the restricted relationship refuses it
     * while any entry refers to the type; otherwise the row is deleted.
     */
    method RemoveExerciseType(id: int) returns (ok: bool)
      requires Valid()
      modifies this
      ensures Valid()
      ensures users == old(users) && sessions == old(sessions) && entries == old(entries)
      ensures nextExerciseTypeId == old(nextExerciseTypeId) && nextSessionId == old(nextSessionId) && nextEntryId == old(nextEntryId)
      ensures ok <==> forall e :: e in old(entries) ==> e.ExerciseTypeId != id
      ensures ok ==> exerciseTypes == RemoveWithKey(old(exerciseTypes), ExerciseTypeKey, id)
      ensures !ok ==> exerciseTypes == old(exerciseTypes)
    {
      ok := forall i :: 0 <= i < |entries| ==> entries[i].ExerciseTypeId != id;
      if !ok {
        return;
      }
      ghost var before := exerciseTypes;
      RemoveWithKeyUnique(exerciseTypes, ExerciseTypeKey, id, ExerciseTypeKey);
      KeysBelowRemove(exerciseTypes, ExerciseTypeKey, id, ExerciseTypeKey, nextExerciseTypeId);
      exerciseTypes := RemoveWithKey(exerciseTypes, ExerciseTypeKey, id);
      RemoveKeepsNamesUnique(before, id);
      forall e | e in entries ensures HasKey(exerciseTypes, ExerciseTypeKey, e.ExerciseTypeId) {
        HasKeyAfterRemove(before, ExerciseTypeKey, id, e.ExerciseTypeId);
      }
    }

    // ---- Sessions ----

    /** `Add` + `SaveChanges` of a new session; the user foreign key must resolve. */
    method AddSession(userId: string, startedAt: int, endedAt: int) returns (ok: bool, saved: TrainingSession)
      requires Valid()
      modifies this
      ensures Valid()
      ensures users == old(users) && exerciseTypes == old(exerciseTypes) && entries == old(entries)
      ensures nextExerciseTypeId == old(nextExerciseTypeId) && nextEntryId == old(nextEntryId)
      ensures ok <==> userId in users
      ensures ok ==> saved == TrainingSession(old(nextSessionId), userId, startedAt, endedAt)
      ensures ok ==> sessions == old(sessions) + [saved] && nextSessionId == old(nextSessionId) + 1
      ensures !ok ==> sessions == old(sessions) && nextSessionId == old(nextSessionId)
    {
      saved := TrainingSession(nextSessionId, userId, startedAt, endedAt);
      ok := userId in users;
      if !ok {
        return;
      }
      KeysAfterAppend(sessions, SessionKey, saved, nextSessionId);
      ghost var before := sessions;
      sessions := sessions + [saved];
      nextSessionId := nextSessionId + 1;
      forall e | e in entries ensures HasKey(sessions, SessionKey, e.TrainingSessionId) {
        var k :| 0 <= k < |before| && before[k].Id == e.TrainingSessionId;
        assert sessions[k] == before[k];
      }
    }

    /**
     * `Update` + `SaveChanges` of a loaded session: the row with its id takes
     * the new values. The row exists, since it has just been read.
     */
    method UpdateSession(s: TrainingSession) returns (ok: bool)
      requires Valid() && HasKey(sessions, SessionKey, s.Id)
      modifies this
      ensures Valid()
      ensures users == old(users) && exerciseTypes == old(exerciseTypes) && entries == old(entries)
      ensures nextExerciseTypeId == old(nextExerciseTypeId) && nextSessionId == old(nextSessionId) && nextEntryId == old(nextEntryId)
      ensures ok <==> s.UserId in users
      ensures ok ==> sessions == ReplaceWithKey(old(sessions), SessionKey, s)
      ensures !ok ==> sessions == old(sessions)
    {
      ok := s.UserId in users;
      if !ok {
        return;
      }
      KeysAfterReplace(sessions, SessionKey, s, nextSessionId);
      ResolvesAfterReplaceSession(users, exerciseTypes, sessions, entries, s);
      sessions := ReplaceWithKey(sessions, SessionKey, s);
    }

    /**
     * `Remove` + `SaveChanges` of a session: the cascading relationship deletes
     * every entry of the session with it; nothing else changes.
     */
    method RemoveSession(id: int)
      requires Valid()
      modifies this
      ensures Valid()
      ensures users == old(users) && exerciseTypes == old(exerciseTypes)
      ensures nextExerciseTypeId == old(nextExerciseTypeId) && nextSessionId == old(nextSessionId) && nextEntryId == old(nextEntryId)
      ensures sessions == RemoveWithKey(old(sessions), SessionKey, id)
      ensures entries == RemoveWithKey(old(entries), EntrySessionKey, id)
      ensures forall e :: e in entries <==> e in old(entries) && e.TrainingSessionId != id
    {
      KeysAfterRemoveSession(sessions, entries, nextSessionId, nextEntryId, id);
      ResolvesAfterRemoveSession(users, exerciseTypes, sessions, entries, id);
      entries := RemoveWithKey(entries, EntrySessionKey, id);
      sessions := RemoveWithKey(sessions, SessionKey, id);
    }

    // ---- Entries ----

    /** The foreign keys of an entry with these values resolve. */
    predicate EntryReferencesResolve(sessionId: int, typeId: int, userId: string)
      reads this
    {
      HasKey(sessions, SessionKey, sessionId) && HasKey(exerciseTypes, ExerciseTypeKey, typeId) && userId in users
    }

    /** `Add` + `SaveChanges` of a new entry; its session, exercise type and user must exist. */
    method AddEntry(sessionId: int, typeId: int, userId: string, weight: real, sets: int, repetitions: int)
      returns (ok: bool, saved: TrainingEntry)
      requires Valid()
      modifies this
      ensures Valid()
      ensures users == old(users) && exerciseTypes == old(exerciseTypes) && sessions == old(sessions)
      ensures nextExerciseTypeId == old(nextExerciseTypeId) && nextSessionId == old(nextSessionId)
      ensures ok <==> old(EntryReferencesResolve(sessionId, typeId, userId))
      ensures ok ==> saved == TrainingEntry(old(nextEntryId), sessionId, typeId, userId, weight, sets, repetitions)
      ensures ok ==> entries == old(entries) + [saved] && nextEntryId == old(nextEntryId) + 1
      ensures !ok ==> entries == old(entries) && nextEntryId == old(nextEntryId)
    {
      saved := TrainingEntry(nextEntryId, sessionId, typeId, userId, weight, sets, repetitions);
      ok := EntryReferencesResolve(sessionId, typeId, userId);
      if !ok {
        return;
      }
      KeysAfterAppend(entries, EntryKey, saved, nextEntryId);
      entries := entries + [saved];
      nextEntryId := nextEntryId + 1;
    }

    /**
     * `Update` + `SaveChanges` of a loaded entry: the row with its id takes the
     * new values, provided its foreign keys resolve.
     */
    method UpdateEntry(e: TrainingEntry) returns (ok: bool)
      requires Valid() && HasKey(entries, EntryKey, e.Id)
      modifies this
      ensures Valid()
      ensures users == old(users) && exerciseTypes == old(exerciseTypes) && sessions == old(sessions)
      ensures nextExerciseTypeId == old(nextExerciseTypeId) && nextSessionId == old(nextSessionId) && nextEntryId == old(nextEntryId)
      ensures ok <==> old(EntryReferencesResolve(e.TrainingSessionId, e.ExerciseTypeId, e.UserId))
      ensures ok ==> entries == ReplaceWithKey(old(entries), EntryKey, e)
      ensures !ok ==> entries == old(entries)
    {
      ok := EntryReferencesResolve(e.TrainingSessionId, e.ExerciseTypeId, e.UserId);
      if !ok {
        return;
      }
      KeysAfterReplace(entries, EntryKey, e, nextEntryId);
      ResolvesAfterReplaceEntry(users, exerciseTypes, sessions, entries, e);
      entries := ReplaceWithKey(entries, EntryKey, e);
    }

    /** `Remove` + `SaveChanges` of an entry: nothing refers to entries, so only that row goes. */
    method RemoveEntry(id: int)
      requires Valid()
      modifies this
      ensures Valid()
      ensures users == old(users) && exerciseTypes == old(exerciseTypes) && sessions == old(sessions)
      ensures nextExerciseTypeId == old(nextExerciseTypeId) && nextSessionId == old(nextSessionId) && nextEntryId == old(nextEntryId)
      ensures entries == RemoveWithKey(old(entries), EntryKey, id)
      ensures forall e :: e in entries <==> e in old(entries) && e.Id != id
    {
      RemoveWithKeyUnique(entries, EntryKey, id, EntryKey);
      KeysBelowRemove(entries, EntryKey, id, EntryKey, nextEntryId);
      entries := RemoveWithKey(entries, EntryKey, id);
    }

    // ---- Users ----

    /**
     * Deleting a user: both user relationships cascade, so the user's sessions
     * go, and so do the user's entries and the entries of the deleted sessions.
     */
    method RemoveUser(uid: string)
      requires Valid()
      modifies this
      ensures Valid()
      ensures users == old(users) - {uid} && exerciseTypes == old(exerciseTypes)
      ensures nextExerciseTypeId == old(nextExerciseTypeId) && nextSessionId == old(nextSessionId) && nextEntryId == old(nextEntryId)
      ensures forall s :: s in sessions <==> s in old(sessions) && s.UserId != uid
      ensures forall e :: e in entries <==>
        e in old(entries) && e.UserId != uid
        && !(exists s :: s in old(sessions) && s.Id == e.TrainingSessionId && s.UserId == uid)
    {
      var kept := Where(sessions, (s: TrainingSession) => s.UserId != uid);
      var removedIds := set s | s in sessions && s.UserId == uid :: s.Id;
      WhereUnique(sessions, (s: TrainingSession) => s.UserId != uid, SessionKey);
      WhereKeysBelow(sessions, (s: TrainingSession) => s.UserId != uid, SessionKey, nextSessionId);
      var keep := (e: TrainingEntry) => e.UserId != uid && e.TrainingSessionId !in removedIds;
      WhereUnique(entries, keep, EntryKey);
      WhereKeysBelow(entries, keep, EntryKey, nextEntryId);
      ResolvesAfterRemoveUser(users, exerciseTypes, sessions, entries, uid, kept, Where(entries, keep));
      entries := Where(entries, keep);
      sessions := kept;
      users := users - {uid};
    }
  }

  /** Deleting types keeps names unique. */
  lemma RemoveKeepsNamesUnique(types: seq<ExerciseType>, id: int)
    requires UniqueNames(types) && UniqueKeys(types, ExerciseTypeKey)
    ensures UniqueNames(RemoveWithKey(types, ExerciseTypeKey, id))
  {
    var r := RemoveWithKey(types, ExerciseTypeKey, id);
    RemoveWithKeyUnique(types, ExerciseTypeKey, id, ExerciseTypeKey);
    forall i, j | 0 <= i < j < |r| ensures r[i].Name != r[j].Name {
      assert r[i] in types && r[j] in types;
      var a :| 0 <= a < |types| && types[a] == r[i];
      var b :| 0 <= b < |types| && types[b] == r[j];
      assert ExerciseTypeKey(r[i]) != ExerciseTypeKey(r[j]);
    }
  }
}
