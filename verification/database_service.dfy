/**
 * The mobile application's local store (BeFit.Mobile/Services/DatabaseService.cs):
 * three SQLite tables created on first use, with insert-or-update by `Id`, sorted
 * listings, the manual join that attaches sessions and exercise types to entries,
 * and the cascade that deletes a session's entries with it.
 *
 * The query semantics are pure functions over the table contents; the class
 * methods run them against the current state, after opening the connection.
 */
module MobileStore {
  import opened Wrappers
  import opened Tables
  import Sorting
  import Text
  import opened MobileModels

  /** sqlite-net names each table after its record class. */
  const ExerciseTypeTable := "ExerciseType"
  const SessionTable := "TrainingSession"
  const EntryTable := "TrainingEntry"

  function TableNames(): set<string> {
    {ExerciseTypeTable, SessionTable, EntryTable}
  }

  /** Foreign keys of an entry, as key functions. */
  function EntrySessionKey(e: TrainingEntry): int { e.TrainingSessionId }
  function EntryTypeKey(e: TrainingEntry): int { e.ExerciseTypeId }

  // ---- Listings ----

  /** `OrderBy(e => e.Name)`: ascending by name in the BINARY collation. */
  predicate NameLeq(a: ExerciseType, b: ExerciseType) {
    Text.OrdinalLeq(a.Name, b.Name)
  }

  lemma NameLeqTotal()
    ensures Sorting.Total(NameLeq) && Sorting.Transitive(NameLeq)
  {
    forall a: ExerciseType, b: ExerciseType ensures NameLeq(a, b) || NameLeq(b, a) {
      Text.OrdinalTotal(a.Name, b.Name);
    }
    forall a: ExerciseType, b: ExerciseType, c: ExerciseType | NameLeq(a, b) && NameLeq(b, c)
      ensures NameLeq(a, c)
    {
      Text.OrdinalTransitive(a.Name, b.Name, c.Name);
    }
  }

  /** `GetExerciseTypesAsync`: every stored type once, ascending by name. */
  function ExerciseTypesByName(rows: seq<ExerciseType>): (r: seq<ExerciseType>)
    ensures multiset(r) == multiset(rows)
    ensures forall i, j :: 0 <= i < j < |r| ==> Text.OrdinalLeq(r[i].Name, r[j].Name)
  {
    NameLeqTotal();
    var r := Sorting.Sort(rows, NameLeq);
    Sorting.SortedPairwise(r, NameLeq);
    r
  }

  /** `OrderByDescending(s => s.StartedAt)`. */
  predicate StartedNoEarlier(a: TrainingSession, b: TrainingSession) {
    a.StartedAt >= b.StartedAt
  }

  /** `GetTrainingSessionsAsync`: every stored session once, latest start first. */
  function SessionsByStartDescending(rows: seq<TrainingSession>): (r: seq<TrainingSession>)
    ensures multiset(r) == multiset(rows)
    ensures forall i, j :: 0 <= i < j < |r| ==> r[i].StartedAt >= r[j].StartedAt
  {
    var r := Sorting.Sort(rows, StartedNoEarlier);
    Sorting.SortedPairwise(r, StartedNoEarlier);
    r
  }

  // ---- Entry queries ----

  /** `Count()` of the entries whose exercise type is `typeId`. */
  function CountUsing(entries: seq<TrainingEntry>, typeId: int): (n: nat)
    ensures n <= |entries|
    ensures n > 0 <==> exists i :: 0 <= i < |entries| && entries[i].ExerciseTypeId == typeId
  {
    if entries == [] then 0
    else
      var rest := CountUsing(entries[1..], typeId);
      assert forall i :: 0 < i < |entries| ==> entries[i] == entries[1..][i - 1];
      (if entries[0].ExerciseTypeId == typeId then 1 else 0) + rest
  }

  /** `Where(e => e.TrainingSessionId == sid)`: those entries, each as often as stored, in table order. */
  function EntriesOfSession(entries: seq<TrainingEntry>, sid: int): (r: seq<TrainingEntry>)
    ensures forall x :: multiset(r)[x] == if x.TrainingSessionId == sid then multiset(entries)[x] else 0
  {
    if entries == [] then []
    else
      assert entries == [entries[0]] + entries[1..];
      var rest := EntriesOfSession(entries[1..], sid);
      if entries[0].TrainingSessionId == sid then [entries[0]] + rest else rest
  }

  /**
   * The navigation fields the store attaches to an entry: the first type and
   * the first session in the given lists whose id matches, or none when no row
   * has that id.
   */
  function Attach(e: TrainingEntry, types: seq<ExerciseType>, sessions: seq<TrainingSession>): (l: LoadedEntry)
    ensures l.Row == e
    ensures l.ExerciseType.Some? ==> l.ExerciseType.value in types && l.ExerciseType.value.Id == e.ExerciseTypeId
    ensures l.ExerciseType.None? <==> !HasKey(types, ExerciseTypeKey, e.ExerciseTypeId)
    ensures l.TrainingSession.Some? ==> l.TrainingSession.value in sessions && l.TrainingSession.value.Id == e.TrainingSessionId
    ensures l.TrainingSession.None? <==> !HasKey(sessions, SessionKey, e.TrainingSessionId)
  {
    LoadedEntry(e, FirstWithKey(sessions, SessionKey, e.TrainingSessionId), FirstWithKey(types, ExerciseTypeKey, e.ExerciseTypeId))
  }

  function AttachAll(entries: seq<TrainingEntry>, types: seq<ExerciseType>, sessions: seq<TrainingSession>): (r: seq<LoadedEntry>)
    ensures |r| == |entries|
    ensures forall i :: 0 <= i < |entries| ==> r[i] == Attach(entries[i], types, sessions)
  {
    if entries == [] then []
    else [Attach(entries[0], types, sessions)] + AttachAll(entries[1..], types, sessions)
  }

  /**
   * Looking the ids up in reordered copies of the type and session tables
   * attaches the same rows as looking them up in the tables.
   */
  lemma AttachFromListings(e: TrainingEntry, types: seq<ExerciseType>, sessions: seq<TrainingSession>,
                           typeListing: seq<ExerciseType>, sessionListing: seq<TrainingSession>)
    requires UniqueKeys(types, ExerciseTypeKey) && multiset(typeListing) == multiset(types)
    requires UniqueKeys(sessions, SessionKey) && multiset(sessionListing) == multiset(sessions)
    ensures LoadedEntry(e, FirstWithKey(sessionListing, SessionKey, e.TrainingSessionId),
                        FirstWithKey(typeListing, ExerciseTypeKey, e.ExerciseTypeId)) == Attach(e, types, sessions)
  {
    FirstWithKeyPermutation(types, typeListing, ExerciseTypeKey, e.ExerciseTypeId);
    FirstWithKeyPermutation(sessions, sessionListing, SessionKey, e.TrainingSessionId);
  }

  /** A list holding, at each position, the entry there with its navigation data is `AttachAll`. */
  lemma AttachAllByIndex(entries: seq<TrainingEntry>, types: seq<ExerciseType>, sessions: seq<TrainingSession>, loaded: seq<LoadedEntry>)
    requires |loaded| == |entries|
    requires forall k :: 0 <= k < |entries| ==> loaded[k] == Attach(entries[k], types, sessions)
    ensures loaded == AttachAll(entries, types, sessions)
  {
  }

  /** Attaching navigation data neither drops nor duplicates an entry. */
  lemma {:induction false} AttachAllCounts(entries: seq<TrainingEntry>, types: seq<ExerciseType>, sessions: seq<TrainingSession>, e: TrainingEntry)
    ensures multiset(AttachAll(entries, types, sessions))[Attach(e, types, sessions)] == multiset(entries)[e]
  {
    if entries != [] {
      assert entries == [entries[0]] + entries[1..];
      AttachAllCounts(entries[1..], types, sessions, e);
    }
  }

  /**
   * `OrderByDescending(e => e.TrainingSession?.StartedAt)`: later sessions
   * first; an entry without a session compares as null, below every value.
   */
  predicate LaterSessionFirst(a: LoadedEntry, b: LoadedEntry) {
    b.TrainingSession.None?
    || (a.TrainingSession.Some? && a.TrainingSession.value.StartedAt >= b.TrainingSession.value.StartedAt)
  }

  /**
   * In a listing sorted that way, entries without a session come after all
   * entries with one, and the entries with one are in descending start order.
   */
  lemma {:induction false} SessionlessLast(r: seq<LoadedEntry>)
    requires Sorting.SortedBy(r, LaterSessionFirst)
    ensures forall i, j :: 0 <= i < j < |r| && r[j].TrainingSession.Some? ==>
      r[i].TrainingSession.Some? && r[i].TrainingSession.value.StartedAt >= r[j].TrainingSession.value.StartedAt
  {
    if |r| > 1 {
      var p := r[..|r| - 1];
      assert forall i :: 0 <= i < |p| ==> p[i] == r[i];
      SessionlessLast(p);
      forall i, j | 0 <= i < j < |r| && r[j].TrainingSession.Some?
        ensures r[i].TrainingSession.Some? && r[i].TrainingSession.value.StartedAt >= r[j].TrainingSession.value.StartedAt
      {
        if j == |r| - 1 {
          assert LaterSessionFirst(r[j - 1], r[j]);
          if i < j - 1 {
            assert p[i].TrainingSession.value.StartedAt >= p[j - 1].TrainingSession.value.StartedAt;
          }
        } else {
          assert r[i] == p[i] && r[j] == p[j];
        }
      }
    }
  }

  /** `GetTrainingEntriesAsync` as a value: every entry once, with its navigation data, in session order. */
  function EntriesBySessionStart(entries: seq<TrainingEntry>, types: seq<ExerciseType>, sessions: seq<TrainingSession>): (r: seq<LoadedEntry>)
    ensures multiset(r) == multiset(AttachAll(entries, types, sessions))
    ensures Sorting.SortedBy(r, LaterSessionFirst)
  {
    assert Sorting.Total(LaterSessionFirst);
    Sorting.Sort(AttachAll(entries, types, sessions), LaterSessionFirst)
  }

  /** Sessions and entries each have unique primary keys below the next ones handed out. */
  ghost predicate SessionsAndEntriesValid(sessions: seq<TrainingSession>, entries: seq<TrainingEntry>, nextSessionId: int, nextEntryId: int) {
    UniqueKeys(sessions, SessionKey) && KeysBelow(sessions, SessionKey, nextSessionId)
    && UniqueKeys(entries, EntryKey) && KeysBelow(entries, EntryKey, nextEntryId)
  }

  /** Deleting a session together with its entries keeps the keys unique and within bounds. */
  lemma KeysAfterRemoveSession(sessions: seq<TrainingSession>, entries: seq<TrainingEntry>, nextSessionId: int, nextEntryId: int, id: int)
    requires SessionsAndEntriesValid(sessions, entries, nextSessionId, nextEntryId)
    ensures SessionsAndEntriesValid(RemoveWithKey(sessions, SessionKey, id), RemoveWithKey(entries, EntrySessionKey, id), nextSessionId, nextEntryId)
  {
    RemoveWithKeyUnique(entries, EntrySessionKey, id, EntryKey);
    KeysBelowRemove(entries, EntrySessionKey, id, EntryKey, nextEntryId);
    RemoveWithKeyUnique(sessions, SessionKey, id, SessionKey);
    KeysBelowRemove(sessions, SessionKey, id, SessionKey, nextSessionId);
  }

  /** Deleting an exercise type no entry uses leaves every other entry's type in place. */
  lemma UnusedTypeRemovalKeepsReferences(types: seq<ExerciseType>, entries: seq<TrainingEntry>, id: int)
    requires forall i :: 0 <= i < |entries| ==> entries[i].ExerciseTypeId != id
    ensures forall e :: e in entries && HasKey(types, ExerciseTypeKey, e.ExerciseTypeId) ==>
      HasKey(RemoveWithKey(types, ExerciseTypeKey, id), ExerciseTypeKey, e.ExerciseTypeId)
  {
    forall e | e in entries && HasKey(types, ExerciseTypeKey, e.ExerciseTypeId)
      ensures HasKey(RemoveWithKey(types, ExerciseTypeKey, id), ExerciseTypeKey, e.ExerciseTypeId)
    {
      var i :| 0 <= i < |entries| && entries[i] == e;
      HasKeyAfterRemove(types, ExerciseTypeKey, id, e.ExerciseTypeId);
    }
  }

  // ---- The store ----

  class DatabaseService {
    /** `_database is not null`. */
    var connected: bool
    /** The tables present in the database file. */
    var tables: set<string>
    var exerciseTypes: seq<ExerciseType>
    var sessions: seq<TrainingSession>
    var entries: seq<TrainingEntry>
    /** The id `AUTOINCREMENT` gives the next inserted row of each table. */
    var nextExerciseTypeId: int
    var nextSessionId: int
    var nextEntryId: int

    ghost predicate Valid()
      reads this
    {
      (connected ==> TableNames() <= tables)
      && nextExerciseTypeId > 0 && nextSessionId > 0 && nextEntryId > 0
      && UniqueKeys(exerciseTypes, ExerciseTypeKey) && KeysBelow(exerciseTypes, ExerciseTypeKey, nextExerciseTypeId)
      && SessionsAndEntriesValid(sessions, entries, nextSessionId, nextEntryId)
    }

    /** No row and no id counter changed. */
    twostate predicate RowsUnchanged()
      reads this
    {
      exerciseTypes == old(exerciseTypes) && sessions == old(sessions) && entries == old(entries)
      && nextExerciseTypeId == old(nextExerciseTypeId) && nextSessionId == old(nextSessionId)
      && nextEntryId == old(nextEntryId)
    }

    /** The connection is open and the three tables exist. */
    twostate predicate Opened()
      reads this
    {
      connected && tables == old(tables) + TableNames()
    }

    /** A service over a new, empty database file. */
    constructor ()
      ensures Valid() && !connected && tables == {}
      ensures exerciseTypes == [] && sessions == [] && entries == []
    {
      connected := false;
      tables := {};
      exerciseTypes, sessions, entries := [], [], [];
      nextExerciseTypeId, nextSessionId, nextEntryId := 1, 1, 1;
    }

    /** `InitAsync`: the first call opens the connection and creates the tables; later calls do nothing. */
    method Init()
      requires Valid()
      modifies this
      ensures Valid() && Opened() && RowsUnchanged()
      ensures old(connected) ==> tables == old(tables)
    {
      if connected {
        return;
      }
      connected := true;
      tables := tables + {ExerciseTypeTable};
      tables := tables + {SessionTable};
      tables := tables + {EntryTable};
    }

    // ---- ExerciseType ----

    method GetExerciseTypes() returns (r: seq<ExerciseType>)
      requires Valid()
      modifies this
      ensures Valid() && Opened() && RowsUnchanged()
      ensures r == ExerciseTypesByName(exerciseTypes)
    {
      Init();
      r := ExerciseTypesByName(exerciseTypes);
    }

    method GetExerciseType(id: int) returns (r: Option<ExerciseType>)
      requires Valid()
      modifies this
      ensures Valid() && Opened() && RowsUnchanged()
      ensures r == FirstWithKey(exerciseTypes, ExerciseTypeKey, id)
    {
      Init();
      r := FirstWithKey(exerciseTypes, ExerciseTypeKey, id);
    }

    /**
     * `SaveExerciseTypeAsync`: a non-zero id updates the row with that id (1 if
     * there was one, else 0 and nothing changes); id 0 inserts the row under a
     * fresh id and returns 1. `saved` is the object as it stands afterwards.
     */
    method SaveExerciseType(t: ExerciseType) returns (n: int, saved: ExerciseType)
      requires Valid()
      modifies this
      ensures Valid() && Opened()
      ensures sessions == old(sessions) && entries == old(entries)
      ensures nextSessionId == old(nextSessionId) && nextEntryId == old(nextEntryId)
      ensures t.Id != 0 ==>
        saved == t && n == (if HasKey(old(exerciseTypes), ExerciseTypeKey, t.Id) then 1 else 0)
        && exerciseTypes == ReplaceWithKey(old(exerciseTypes), ExerciseTypeKey, t)
        && nextExerciseTypeId == old(nextExerciseTypeId)
      ensures t.Id == 0 ==>
        saved == t.(Id := old(nextExerciseTypeId)) && n == 1 && !HasKey(old(exerciseTypes), ExerciseTypeKey, saved.Id)
        && exerciseTypes == old(exerciseTypes) + [saved]
        && nextExerciseTypeId == old(nextExerciseTypeId) + 1
    {
      Init();
      if t.Id != 0 {
        n := if HasKey(exerciseTypes, ExerciseTypeKey, t.Id) then 1 else 0;
        KeysAfterReplace(exerciseTypes, ExerciseTypeKey, t, nextExerciseTypeId);
        exerciseTypes := ReplaceWithKey(exerciseTypes, ExerciseTypeKey, t);
        saved := t;
      } else {
        saved := t.(Id := nextExerciseTypeId);
        assert !HasKey(exerciseTypes, ExerciseTypeKey, saved.Id) by {
          forall i | 0 <= i < |exerciseTypes| ensures exerciseTypes[i].Id != saved.Id {
            assert exerciseTypes[i] in exerciseTypes;
          }
        }
        KeysAfterAppend(exerciseTypes, ExerciseTypeKey, saved, nextExerciseTypeId);
        exerciseTypes := exerciseTypes + [saved];
        nextExerciseTypeId := nextExerciseTypeId + 1;
        n := 1;
      }
    }

    /** `DeleteExerciseTypeAsync`: deletes the row with that id whether or not entries use it. */
    method DeleteExerciseType(t: ExerciseType) returns (n: int)
      requires Valid()
      modifies this
      ensures Valid() && Opened()
      ensures sessions == old(sessions) && entries == old(entries)
      ensures nextExerciseTypeId == old(nextExerciseTypeId) && nextSessionId == old(nextSessionId) && nextEntryId == old(nextEntryId)
      ensures n == if HasKey(old(exerciseTypes), ExerciseTypeKey, t.Id) then 1 else 0
      ensures forall x :: x in exerciseTypes <==> x in old(exerciseTypes) && x.Id != t.Id
      ensures exerciseTypes == RemoveWithKey(old(exerciseTypes), ExerciseTypeKey, t.Id)
    {
      Init();
      n := if HasKey(exerciseTypes, ExerciseTypeKey, t.Id) then 1 else 0;
      RemoveWithKeyUnique(exerciseTypes, ExerciseTypeKey, t.Id, ExerciseTypeKey);
      KeysBelowRemove(exerciseTypes, ExerciseTypeKey, t.Id, ExerciseTypeKey, nextExerciseTypeId);
      exerciseTypes := RemoveWithKey(exerciseTypes, ExerciseTypeKey, t.Id);
    }

    /** `IsExerciseTypeInUseAsync`: whether any entry refers to the type. */
    method IsExerciseTypeInUse(typeId: int) returns (b: bool)
      requires Valid()
      modifies this
      ensures Valid() && Opened() && RowsUnchanged()
      ensures b <==> exists i :: 0 <= i < |entries| && entries[i].ExerciseTypeId == typeId
    {
      Init();
      var count := CountUsing(entries, typeId);
      b := count > 0;
    }

    /**
     * The guarded delete of the exercise-type list page: a type that entries
     * use is kept; otherwise it is deleted when the user confirms. Either way no
     * entry loses the type it refers to.
     */
    method DeleteExerciseTypeIfUnused(t: ExerciseType, confirm: bool) returns (deleted: bool)
      requires Valid()
      modifies this
      ensures Valid() && Opened()
      ensures sessions == old(sessions) && entries == old(entries)
      ensures deleted <==> confirm && forall i :: 0 <= i < |entries| ==> entries[i].ExerciseTypeId != t.Id
      ensures deleted ==> exerciseTypes == RemoveWithKey(old(exerciseTypes), ExerciseTypeKey, t.Id)
      ensures !deleted ==> exerciseTypes == old(exerciseTypes)
      ensures forall e :: e in entries && HasKey(old(exerciseTypes), ExerciseTypeKey, e.ExerciseTypeId) ==>
        HasKey(exerciseTypes, ExerciseTypeKey, e.ExerciseTypeId)
    {
      var inUse := IsExerciseTypeInUse(t.Id);
      if inUse || !confirm {
        deleted := false;
        return;
      }
      UnusedTypeRemovalKeepsReferences(exerciseTypes, entries, t.Id);
      var _ := DeleteExerciseType(t);
      deleted := true;
    }

    // ---- TrainingSession ----

    method GetTrainingSessions() returns (r: seq<TrainingSession>)
      requires Valid()
      modifies this
      ensures Valid() && Opened() && RowsUnchanged()
      ensures r == SessionsByStartDescending(sessions)
    {
      Init();
      r := SessionsByStartDescending(sessions);
    }

    method GetTrainingSession(id: int) returns (r: Option<TrainingSession>)
      requires Valid()
      modifies this
      ensures Valid() && Opened() && RowsUnchanged()
      ensures r == FirstWithKey(sessions, SessionKey, id)
    {
      Init();
      r := FirstWithKey(sessions, SessionKey, id);
    }

    /** `SaveTrainingSessionAsync`: update by a non-zero id, insert under a fresh id for id 0. */
    method SaveTrainingSession(s: TrainingSession) returns (n: int, saved: TrainingSession)
      requires Valid()
      modifies this
      ensures Valid() && Opened()
      ensures exerciseTypes == old(exerciseTypes) && entries == old(entries)
      ensures nextExerciseTypeId == old(nextExerciseTypeId) && nextEntryId == old(nextEntryId)
      ensures s.Id != 0 ==>
        saved == s && n == (if HasKey(old(sessions), SessionKey, s.Id) then 1 else 0)
        && sessions == ReplaceWithKey(old(sessions), SessionKey, s)
        && nextSessionId == old(nextSessionId)
      ensures s.Id == 0 ==>
        saved == s.(Id := old(nextSessionId)) && n == 1 && !HasKey(old(sessions), SessionKey, saved.Id)
        && sessions == old(sessions) + [saved]
        && nextSessionId == old(nextSessionId) + 1
    {
      Init();
      if s.Id != 0 {
        n := if HasKey(sessions, SessionKey, s.Id) then 1 else 0;
        KeysAfterReplace(sessions, SessionKey, s, nextSessionId);
        sessions := ReplaceWithKey(sessions, SessionKey, s);
        saved := s;
      } else {
        saved := s.(Id := nextSessionId);
        assert !HasKey(sessions, SessionKey, saved.Id) by {
          forall i | 0 <= i < |sessions| ensures sessions[i].Id != saved.Id {
            assert sessions[i] in sessions;
          }
        }
        KeysAfterAppend(sessions, SessionKey, saved, nextSessionId);
        sessions := sessions + [saved];
        nextSessionId := nextSessionId + 1;
        n := 1;
      }
    }

    /**
     * `DeleteTrainingSessionAsync`: first deletes exactly the entries of the
     * session, then the session itself; exercise types are untouched.
     */
    method DeleteTrainingSession(s: TrainingSession) returns (n: int)
      requires Valid()
      modifies this
      ensures Valid() && Opened()
      ensures exerciseTypes == old(exerciseTypes)
      ensures nextExerciseTypeId == old(nextExerciseTypeId) && nextSessionId == old(nextSessionId) && nextEntryId == old(nextEntryId)
      ensures n == if HasKey(old(sessions), SessionKey, s.Id) then 1 else 0
      ensures forall x :: x in sessions <==> x in old(sessions) && x.Id != s.Id
      ensures forall e :: e in entries <==> e in old(entries) && e.TrainingSessionId != s.Id
      ensures sessions == RemoveWithKey(old(sessions), SessionKey, s.Id)
      ensures entries == RemoveWithKey(old(entries), EntrySessionKey, s.Id)
    {
      KeysAfterRemoveSession(sessions, entries, nextSessionId, nextEntryId, s.Id);
      Init();
      n := if HasKey(sessions, SessionKey, s.Id) then 1 else 0;
      entries := RemoveWithKey(entries, EntrySessionKey, s.Id);
      sessions := RemoveWithKey(sessions, SessionKey, s.Id);
    }

    // ---- TrainingEntry ----

    /**
     * `GetTrainingEntriesAsync`: reads every entry, attaches the first matching
     * type of the name-sorted listing and the first matching session of the
     * start-sorted listing, and sorts by the attached session's start, latest
     * first, entries without a session last.
     */
    method GetTrainingEntries() returns (r: seq<LoadedEntry>)
      requires Valid()
      modifies this
      ensures Valid() && Opened() && RowsUnchanged()
      ensures r == EntriesBySessionStart(entries, exerciseTypes, sessions)
    {
      Init();
      var rows := entries;
      var types := GetExerciseTypes();
      var list := GetTrainingSessions();
      ghost var stored, started := exerciseTypes, sessions;
      assert UniqueKeys(stored, ExerciseTypeKey) && UniqueKeys(started, SessionKey);
      var loaded: seq<LoadedEntry> := [];
      var i := 0;
      while i < |rows|
        modifies {}
        invariant 0 <= i <= |rows| && |loaded| == i
        invariant forall k :: 0 <= k < i ==> loaded[k] == Attach(rows[k], stored, started)
      {
        var e := rows[i];
        AttachFromListings(e, stored, started, types, list);
        var attached := LoadedEntry(e, FirstWithKey(list, SessionKey, e.TrainingSessionId), FirstWithKey(types, ExerciseTypeKey, e.ExerciseTypeId));
        loaded := loaded + [attached];
        i := i + 1;
      }
      AttachAllByIndex(rows, stored, started, loaded);
      assert Sorting.Total(LaterSessionFirst);
      r := Sorting.Sort(loaded, LaterSessionFirst);
    }

    /**
     * `GetTrainingEntriesForSessionAsync`: the entries of one session in table
     * order, each with its exercise type attached; the session field stays empty.
     */
    method GetTrainingEntriesForSession(sid: int) returns (r: seq<LoadedEntry>)
      requires Valid()
      modifies this
      ensures Valid() && Opened() && RowsUnchanged()
      ensures |r| == |EntriesOfSession(entries, sid)|
      ensures forall k :: 0 <= k < |r| ==>
        r[k].Row == EntriesOfSession(entries, sid)[k] && r[k].TrainingSession.None?
        && r[k].ExerciseType == FirstWithKey(exerciseTypes, ExerciseTypeKey, r[k].Row.ExerciseTypeId)
    {
      Init();
      var rows := EntriesOfSession(entries, sid);
      var types := GetExerciseTypes();
      var loaded: seq<LoadedEntry> := [];
      var i := 0;
      while i < |rows|
        modifies {}
        invariant 0 <= i <= |rows| && |loaded| == i
        invariant forall k :: 0 <= k < i ==>
          loaded[k].Row == rows[k] && loaded[k].TrainingSession.None?
          && loaded[k].ExerciseType == FirstWithKey(exerciseTypes, ExerciseTypeKey, rows[k].ExerciseTypeId)
      {
        var e := rows[i];
        FirstWithKeyPermutation(exerciseTypes, types, ExerciseTypeKey, e.ExerciseTypeId);
        loaded := loaded + [LoadedEntry(e, None, FirstWithKey(types, ExerciseTypeKey, e.ExerciseTypeId))];
        i := i + 1;
      }
      r := loaded;
    }

    /** `GetTrainingEntryAsync`: the entry with that id, with its type and session attached, or none. */
    method GetTrainingEntry(id: int) returns (r: Option<LoadedEntry>)
      requires Valid()
      modifies this
      ensures Valid() && Opened() && RowsUnchanged()
      ensures FirstWithKey(entries, EntryKey, id).None? ==> r.None?
      ensures FirstWithKey(entries, EntryKey, id).Some? ==>
        r == Some(Attach(FirstWithKey(entries, EntryKey, id).value, exerciseTypes, sessions))
    {
      Init();
      var row := FirstWithKey(entries, EntryKey, id);
      if row.None? {
        return None;
      }
      var e := row.value;
      var t := GetExerciseType(e.ExerciseTypeId);
      var s := GetTrainingSession(e.TrainingSessionId);
      r := Some(LoadedEntry(e, s, t));
    }

    /** `SaveTrainingEntryAsync`: update by a non-zero id, insert under a fresh id for id 0. */
    method SaveTrainingEntry(e: TrainingEntry) returns (n: int, saved: TrainingEntry)
      requires Valid()
      modifies this
      ensures Valid() && Opened()
      ensures exerciseTypes == old(exerciseTypes) && sessions == old(sessions)
      ensures nextExerciseTypeId == old(nextExerciseTypeId) && nextSessionId == old(nextSessionId)
      ensures e.Id != 0 ==>
        saved == e && n == (if HasKey(old(entries), EntryKey, e.Id) then 1 else 0)
        && entries == ReplaceWithKey(old(entries), EntryKey, e)
        && nextEntryId == old(nextEntryId)
      ensures e.Id == 0 ==>
        saved == e.(Id := old(nextEntryId)) && n == 1 && !HasKey(old(entries), EntryKey, saved.Id)
        && entries == old(entries) + [saved]
        && nextEntryId == old(nextEntryId) + 1
    {
      Init();
      if e.Id != 0 {
        n := if HasKey(entries, EntryKey, e.Id) then 1 else 0;
        KeysAfterReplace(entries, EntryKey, e, nextEntryId);
        entries := ReplaceWithKey(entries, EntryKey, e);
        saved := e;
      } else {
        saved := e.(Id := nextEntryId);
        assert !HasKey(entries, EntryKey, saved.Id) by {
          forall i | 0 <= i < |entries| ensures entries[i].Id != saved.Id {
            assert entries[i] in entries;
          }
        }
        KeysAfterAppend(entries, EntryKey, saved, nextEntryId);
        entries := entries + [saved];
        nextEntryId := nextEntryId + 1;
        n := 1;
      }
    }

    /** `DeleteTrainingEntryAsync`: deletes the row with that id. */
    method DeleteTrainingEntry(e: TrainingEntry) returns (n: int)
      requires Valid()
      modifies this
      ensures Valid() && Opened()
      ensures exerciseTypes == old(exerciseTypes) && sessions == old(sessions)
      ensures nextExerciseTypeId == old(nextExerciseTypeId) && nextSessionId == old(nextSessionId) && nextEntryId == old(nextEntryId)
      ensures n == if HasKey(old(entries), EntryKey, e.Id) then 1 else 0
      ensures forall x :: x in entries <==> x in old(entries) && x.Id != e.Id
      ensures entries == RemoveWithKey(old(entries), EntryKey, e.Id)
    {
      Init();
      n := if HasKey(entries, EntryKey, e.Id) then 1 else 0;
      RemoveWithKeyUnique(entries, EntryKey, e.Id, EntryKey);
      KeysBelowRemove(entries, EntryKey, e.Id, EntryKey, nextEntryId);
      entries := RemoveWithKey(entries, EntryKey, e.Id);
    }
  }
}
