/**
 * The records of the web application (BeFit/Models): the three entities, the two
 * form inputs (create DTOs) and the statistics row, with their declared
 * constraints. Sessions and entries carry the owning user's id.
 */
module WebModels {
  import opened Time
  import Annotations
  import MobileModels

  datatype ExerciseType = ExerciseType(Id: int, Name: string)

  datatype TrainingSession = TrainingSession(Id: int, UserId: string, StartedAt: Instant, EndedAt: Instant)

  datatype TrainingEntry = TrainingEntry(
    Id: int,
    TrainingSessionId: int,
    ExerciseTypeId: int,
    UserId: string,
    Weight: real,
    Sets: int,
    Repetitions: int)

  /** The Create form of an entry: no `Id` and no `UserId`, so the client chooses neither. */
  datatype TrainingEntryCreateDto = TrainingEntryCreateDto(
    TrainingSessionId: int,
    ExerciseTypeId: int,
    Weight: real,
    Sets: int,
    Repetitions: int)

  /** The Create form of a session: two instants and no validation of their order. */
  datatype TrainingSessionCreateDto = TrainingSessionCreateDto(StartedAt: Instant, EndedAt: Instant)

  /** One row of the statistics page. */
  datatype ExerciseStatistics = ExerciseStatistics(
    ExerciseTypeName: string,
    TimesPerformed: int,
    TotalRepetitions: int,
    AverageWeight: real,
    MaxWeight: real)

  function ExerciseTypeKey(t: ExerciseType): int { t.Id }
  function SessionKey(s: TrainingSession): int { s.Id }
  function EntryKey(e: TrainingEntry): int { e.Id }

  // ---- ExerciseType ----

  const NameMaxLength: nat := 80

  /** `[Required]` and `[MaxLength(80)]` on `Name`. */
  predicate NameDeclaredValid(name: string) {
    Annotations.RequiredAccepts(name) && Annotations.MaxLengthAccepts(NameMaxLength, name)
  }

  /** `new ExerciseType()`: the empty name, which `[Required]` refuses. */
  function NewExerciseType(): (t: ExerciseType)
    ensures t.Id == 0 && !NameDeclaredValid(t.Name)
  {
    ExerciseType(0, "")
  }

  // ---- TrainingSession ----

  /**
   * `TrainingSession.Validate`: one result, on `EndedAt`, exactly when the
   * session ends strictly before it starts; equal times are accepted.
   */
  function Validate(s: TrainingSession): (r: seq<Annotations.ValidationResult>)
    ensures |r| <= 1
    ensures r != [] <==> s.EndedAt < s.StartedAt
    ensures forall v :: v in r ==> v.MemberNames == ["EndedAt"]
  {
    if s.EndedAt < s.StartedAt then [Annotations.ValidationResult(MobileModels.EndedAtMessage, ["EndedAt"])] else []
  }

  /** `[Required] UserId`, initialised to the empty string (which `[Required]` refuses). */
  function NewTrainingSession(): (s: TrainingSession)
    ensures s.Id == 0 && s.UserId == "" && !Annotations.RequiredAccepts(s.UserId)
  {
    TrainingSession(0, "", 0, 0)
  }

  /**
   * The two front ends disagree on a session that ends when it starts: the
   * mobile check refuses it, the web check accepts it.
   */
  lemma ZeroLengthSessionChecksDisagree(id: int, t: Instant)
    ensures MobileModels.Validate(MobileModels.TrainingSession(id, t, t)) != []
    ensures Validate(TrainingSession(id, "", t, t)) == []
  {
  }

  // ---- TrainingEntry and its Create form ----

  predicate WeightDeclaredValid(w: real) { Annotations.RangeAcceptsReal(0, 1000, w) }
  predicate SetsDeclaredValid(n: int) { Annotations.RangeAcceptsInt(1, 100, n) }
  predicate RepetitionsDeclaredValid(n: int) { Annotations.RangeAcceptsInt(1, 100, n) }

  /** The three `[Range]` attributes of `TrainingEntry`. */
  predicate EntryDeclaredValid(e: TrainingEntry) {
    WeightDeclaredValid(e.Weight) && SetsDeclaredValid(e.Sets) && RepetitionsDeclaredValid(e.Repetitions)
  }

  /** The same three `[Range]` attributes on the Create form. */
  predicate DtoDeclaredValid(d: TrainingEntryCreateDto) {
    WeightDeclaredValid(d.Weight) && SetsDeclaredValid(d.Sets) && RepetitionsDeclaredValid(d.Repetitions)
  }

  /**
   * `new TrainingEntry()`: `Sets` and `Repetitions` have no initialiser, so they
   * are 0 and a fresh instance fails both ranges; `UserId` is the empty string.
   */
  function NewTrainingEntry(): (e: TrainingEntry)
    ensures e.Id == 0 && e.UserId == ""
    ensures !SetsDeclaredValid(e.Sets) && !RepetitionsDeclaredValid(e.Repetitions)
  {
    TrainingEntry(0, 0, 0, "", 0.0, 0, 0)
  }

  /**
   * Because `[Range(0, 1000)]` converts a `double` with `Convert.ToInt32`, the
   * weight check accepts every weight from 0 to 1000, and also those within one
   * half outside that interval.
   */
  lemma WeightCheckBounds(w: real)
    ensures WeightDeclaredValid(w) <==> -0.5 <= w <= 1000.5
  {
    Annotations.RangeAcceptsRealEvenBounds(0, 1000, w);
  }
}
