/**
 * The three records of the mobile application (BeFit.Mobile/Models), each a row of
 * its own SQLite table, with the constraints declared on them and their derived
 * members. Navigation fields marked `[Ignore]` are not part of a row: they live in
 * `LoadedEntry`, which only queries build.
 */
module MobileModels {
  import opened Wrappers
  import opened Time
  import Text
  import Annotations

  datatype ExerciseType = ExerciseType(Id: int, Name: string) {
    /** `ToString()` shows the name (used by pickers). */
    function ToString(): string {
      Name
    }
  }

  datatype TrainingSession = TrainingSession(Id: int, StartedAt: Instant, EndedAt: Instant)

  datatype TrainingEntry = TrainingEntry(
    Id: int,
    TrainingSessionId: int,
    ExerciseTypeId: int,
    Weight: real,
    Sets: int,
    Repetitions: int)

  /** An entry as the store's queries return it: the row plus the two navigation fields. */
  datatype LoadedEntry = LoadedEntry(Row: TrainingEntry, TrainingSession: Option<TrainingSession>, ExerciseType: Option<ExerciseType>)

  /** Primary keys, as key functions for the table operations. */
  function ExerciseTypeKey(t: ExerciseType): int { t.Id }
  function SessionKey(s: TrainingSession): int { s.Id }
  function EntryKey(e: TrainingEntry): int { e.Id }

  // ---- ExerciseType ----

  const NameMaxLength: nat := 80

  /** `[Required]` and `[SQLite.MaxLength(80)]` on `Name`. */
  predicate NameDeclaredValid(name: string) {
    Annotations.RequiredAccepts(name) && Annotations.MaxLengthAccepts(NameMaxLength, name)
  }

  /** `new ExerciseType()`: id 0 (not yet stored) and the empty name, which `[Required]` refuses. */
  function NewExerciseType(): (t: ExerciseType)
    ensures t.Id == 0 && !NameDeclaredValid(t.Name)
  {
    ExerciseType(0, "")
  }

  // ---- TrainingSession ----

  const EndedAtMessage := "Data zakończenia musi być późniejsza niż data rozpoczęcia."

  /**
   * `TrainingSession.Validate`: one result, on `EndedAt`, exactly when the
   * session does not end strictly after it starts (equal times are refused).
   */
  function Validate(s: TrainingSession): (r: seq<Annotations.ValidationResult>)
    ensures |r| <= 1
    ensures r != [] <==> s.EndedAt <= s.StartedAt
    ensures forall v :: v in r ==> v.MemberNames == ["EndedAt"]
  {
    if s.EndedAt <= s.StartedAt then [Annotations.ValidationResult(EndedAtMessage, ["EndedAt"])] else []
  }

  /** `Duration` (not stored): positive exactly for the sessions `Validate` accepts. */
  function Duration(s: TrainingSession): (d: Span)
    ensures s.StartedAt + d == s.EndedAt
    ensures d > 0 <==> Validate(s) == []
  {
    s.EndedAt - s.StartedAt
  }

  /**
   * `new TrainingSession()`: the two initialisers read the clock one after the
   * other, at `now1` and then `now2`, and the end is one hour after the second
   * reading. The session passes `Validate` unless the clock went back by an
   * hour or more between the readings; when it did not go back at all, the
   * session lasts at least an hour.
   */
  function NewTrainingSession(now1: Instant, now2: Instant): (s: TrainingSession)
    ensures s.Id == 0 && s.StartedAt == now1 && s.EndedAt == AddHours(now2, 1)
    ensures Validate(s) == [] <==> now1 < now2 + TicksPerHour
    ensures now1 <= now2 ==> Validate(s) == [] && Duration(s) >= TicksPerHour
  {
    TrainingSession(0, now1, AddHours(now2, 1))
  }

  // ---- TrainingEntry ----

  predicate WeightDeclaredValid(w: real) { Annotations.RangeAcceptsReal(0, 1000, w) }
  predicate SetsDeclaredValid(n: int) { Annotations.RangeAcceptsInt(1, 100, n) }
  predicate RepetitionsDeclaredValid(n: int) { Annotations.RangeAcceptsInt(1, 100, n) }

  /** The three `[Range]` attributes of `TrainingEntry`. */
  predicate EntryDeclaredValid(e: TrainingEntry) {
    WeightDeclaredValid(e.Weight) && SetsDeclaredValid(e.Sets) && RepetitionsDeclaredValid(e.Repetitions)
  }

  /** `new TrainingEntry()`: weight 0, one set of one repetition, which all three ranges accept. */
  function NewTrainingEntry(): (e: TrainingEntry)
    ensures e.Id == 0 && e.Sets == 1 && e.Repetitions == 1 && e.Weight == 0.0
    ensures EntryDeclaredValid(e)
  {
    TrainingEntry(0, 0, 0, 0.0, 1, 1)
  }

  const UnnamedExercisePrefix := "Ćwiczenie #"

  /**
   * The part of `DisplayText` before the colon: the attached type's name, or,
   * when no type is attached, the prefix followed by the type id in decimal, from
   * which the id can be read back.
   */
  function DisplayLabel(e: LoadedEntry): (s: string)
    ensures e.ExerciseType.Some? ==> s == e.ExerciseType.value.ToString()
    ensures e.ExerciseType.None? ==>
      |s| > |UnnamedExercisePrefix| && s[..|UnnamedExercisePrefix|] == UnnamedExercisePrefix
      && Text.IsIntegerText(s[|UnnamedExercisePrefix|..])
      && Text.ParseInt(s[|UnnamedExercisePrefix|..]) == e.Row.ExerciseTypeId
  {
    match e.ExerciseType
    case Some(t) => t.Name
    case None =>
      var digits := Text.IntToString(e.Row.ExerciseTypeId);
      Text.IntRoundTrip(e.Row.ExerciseTypeId);
      assert (UnnamedExercisePrefix + digits)[|UnnamedExercisePrefix|..] == digits;
      UnnamedExercisePrefix + digits
  }
}
