/**
 * The mobile page that creates or edits one training entry
 * (BeFit.Mobile/ViewModels/TrainingEntryDetailViewModel.cs): the form's fields,
 * its five error messages, the check run before saving, and the save itself,
 * which inserts for id 0 and updates otherwise.
 */
module TrainingEntryDetail {
  import opened Wrappers
  import opened Tables
  import opened MobileModels
  import Annotations
  import MobileStore

  const NewTitle := "Nowy wpis treningowy"
  const EditTitle := "Edytuj wpis treningowy"

  /** The messages the form can show, each under one field. */
  datatype Message = SessionRequired | ExerciseTypeRequired | WeightOutOfRange | SetsOutOfRange | RepetitionsOutOfRange {
    /** The text shown to the user. */
    function Text(): string {
      match this
      case SessionRequired => "Sesja treningowa jest wymagana"
      case ExerciseTypeRequired => "Typ ćwiczenia jest wymagany"
      case WeightOutOfRange => "Obciążenie musi być w zakresie od 0 do 1000 kg"
      case SetsOutOfRange => "Liczba serii musi być w zakresie od 1 do 100"
      case RepetitionsOutOfRange => "Liczba powtórzeń musi być w zakresie od 1 do 100"
    }
  }

  /** The page's own weight check: 0 to 1000 kg, both ends included, compared exactly. */
  predicate WeightInRange(w: real) {
    0.0 <= w <= 1000.0
  }

  /** The page's check of sets and of repetitions: 1 to 100, both ends included. */
  predicate CountInRange(n: int) {
    1 <= n <= 100
  }

  /** The form passes every check. */
  predicate InputValid(session: Option<TrainingSession>, exerciseType: Option<ExerciseType>, weight: real, sets: int, repetitions: int) {
    session.Some? && exerciseType.Some? && WeightInRange(weight) && CountInRange(sets) && CountInRange(repetitions)
  }

  /** The five error messages of the form; `None` is a cleared message. */
  datatype FormErrors = FormErrors(
    Session: Option<Message>,
    ExerciseType: Option<Message>,
    Weight: Option<Message>,
    Sets: Option<Message>,
    Repetitions: Option<Message>)

  const NoErrors := FormErrors(None, None, None, None, None)

  /**
   * The messages `ValidateInput` leaves: every check runs, and each one that
   * fails sets the message of its own field, so the form is valid exactly when
   * no message is set.
   */
  function Errors(session: Option<TrainingSession>, exerciseType: Option<ExerciseType>, weight: real, sets: int, repetitions: int)
    : (e: FormErrors)
    ensures e.Session.Some? <==> session.None?
    ensures e.ExerciseType.Some? <==> exerciseType.None?
    ensures e.Weight.Some? <==> !WeightInRange(weight)
    ensures e.Sets.Some? <==> !CountInRange(sets)
    ensures e.Repetitions.Some? <==> !CountInRange(repetitions)
    ensures e == NoErrors <==> InputValid(session, exerciseType, weight, sets, repetitions)
  {
    FormErrors(
      if session.None? then Some(SessionRequired) else None,
      if exerciseType.None? then Some(ExerciseTypeRequired) else None,
      if !WeightInRange(weight) then Some(WeightOutOfRange) else None,
      if !CountInRange(sets) then Some(SetsOutOfRange) else None,
      if !CountInRange(repetitions) then Some(RepetitionsOutOfRange) else None)
  }

  /**
   * The entry a valid form saves, under the page's id. Whatever passes the
   * page's checks also passes the `[Range]` attributes of the record.
   */
  function FormEntry(id: int, session: Option<TrainingSession>, exerciseType: Option<ExerciseType>, weight: real, sets: int, repetitions: int)
    : (e: TrainingEntry)
    requires InputValid(session, exerciseType, weight, sets, repetitions)
    ensures e.Id == id && e.TrainingSessionId == session.value.Id && e.ExerciseTypeId == exerciseType.value.Id
    ensures e.Weight == weight && e.Sets == sets && e.Repetitions == repetitions
    ensures EntryDeclaredValid(e)
  {
    Annotations.RangeAcceptsRealEvenBounds(0, 1000, weight);
    TrainingEntry(id, session.value.Id, exerciseType.value.Id, weight, sets, repetitions)
  }

  /**
   * The page is stricter than the record's attributes on weight, which round
   * before comparing: 1000.25 kg passes `[Range(0, 1000)]` but not the page.
   * On sets and repetitions the two agree.
   */
  lemma PageStricterOnWeight(n: int)
    ensures WeightDeclaredValid(1000.25) && !WeightInRange(1000.25)
    ensures WeightDeclaredValid(-0.25) && !WeightInRange(-0.25)
    ensures CountInRange(n) <==> SetsDeclaredValid(n) && RepetitionsDeclaredValid(n)
  {
    Annotations.RangeAcceptsRealEvenBounds(0, 1000, 1000.25);
    Annotations.RangeAcceptsRealEvenBounds(0, 1000, -0.25);
  }

  /** The stored entry a page with id `id` edits: the row with that id, for a positive id. */
  function EditedRow(entries: seq<TrainingEntry>, id: int): (r: Option<TrainingEntry>)
    ensures r.Some? ==> id > 0 && r.value in entries && r.value.Id == id
    ensures r.None? <==> id <= 0 || !HasKey(entries, EntryKey, id)
  {
    if id > 0 then FirstWithKey(entries, EntryKey, id) else None
  }

  /** The form's own values: the two picks, the weight, the sets and the repetitions. */
  datatype FormValues = FormValues(
    Session: Option<TrainingSession>,
    ExerciseType: Option<ExerciseType>,
    Weight: real,
    Sets: int,
    Repetitions: int)

  /**
   * The form `LoadData` leaves a page with id `id` that showed `prior`: for a
   * stored entry with that id, its weight, sets and repetitions, and the
   * pickers on its own session and type where those rows still exist (on
   * nothing otherwise); with no such entry, the form it had.
   */
  function LoadedForm(sessions: seq<TrainingSession>, types: seq<ExerciseType>, entries: seq<TrainingEntry>, id: int, prior: FormValues)
    : (f: FormValues)
    ensures EditedRow(entries, id).None? ==> f == prior
    ensures EditedRow(entries, id).Some? ==>
      var row := EditedRow(entries, id).value;
      && f.Weight == row.Weight && f.Sets == row.Sets && f.Repetitions == row.Repetitions
      && (f.Session.Some? <==> HasKey(sessions, SessionKey, row.TrainingSessionId))
      && (f.Session.Some? ==> f.Session.value in sessions && f.Session.value.Id == row.TrainingSessionId)
      && (f.ExerciseType.Some? <==> HasKey(types, ExerciseTypeKey, row.ExerciseTypeId))
      && (f.ExerciseType.Some? ==> f.ExerciseType.value in types && f.ExerciseType.value.Id == row.ExerciseTypeId)
  {
    match EditedRow(entries, id)
    case Some(row) =>
      FormValues(
        FirstWithKey(sessions, SessionKey, row.TrainingSessionId),
        FirstWithKey(types, ExerciseTypeKey, row.ExerciseTypeId),
        row.Weight, row.Sets, row.Repetitions)
    case None => prior
  }

  class TrainingEntryDetailViewModel {
    const store: MobileStore.DatabaseService

    var entryId: int
    var trainingSessions: seq<TrainingSession>
    var exerciseTypes: seq<ExerciseType>
    var selectedSession: Option<TrainingSession>
    var selectedExerciseType: Option<ExerciseType>
    var weight: real
    var sets: int
    var repetitions: int
    var pageTitle: string
    var sessionError: Option<Message>
    var exerciseTypeError: Option<Message>
    var weightError: Option<Message>
    var setsError: Option<Message>
    var repetitionsError: Option<Message>
    var isEditing: bool

    /** The five messages the page shows. */
    function ShownErrors(): FormErrors
      reads this`sessionError, this`exerciseTypeError, this`weightError, this`setsError, this`repetitionsError
    {
      FormErrors(sessionError, exerciseTypeError, weightError, setsError, repetitionsError)
    }

    /** The form's values as they stand. */
    function Form(): FormValues
      reads this`selectedSession, this`selectedExerciseType, this`weight, this`sets, this`repetitions
    {
      FormValues(selectedSession, selectedExerciseType, weight, sets, repetitions)
    }

    /** A new page: no id, nothing selected, weight 0, one set of one repetition. */
    constructor (store: MobileStore.DatabaseService)
      ensures this.store == store
      ensures entryId == 0 && trainingSessions == [] && exerciseTypes == []
      ensures selectedSession == None && selectedExerciseType == None
      ensures weight == 0.0 && sets == 1 && repetitions == 1
      ensures pageTitle == NewTitle && ShownErrors() == NoErrors && !isEditing
    {
      this.store := store;
      entryId := 0;
      trainingSessions, exerciseTypes := [], [];
      selectedSession, selectedExerciseType := None, None;
      weight, sets, repetitions := 0.0, 1, 1;
      pageTitle := NewTitle;
      sessionError, exerciseTypeError, weightError, setsError, repetitionsError := None, None, None, None, None;
      isEditing := false;
    }

    /** The pickers hold every stored session and type, in the store's listing order. */
    predicate PickersLoaded()
      reads this`trainingSessions, this`exerciseTypes, store
    {
      && trainingSessions == MobileStore.SessionsByStartDescending(store.sessions)
      && exerciseTypes == MobileStore.ExerciseTypesByName(store.exerciseTypes)
    }

    /**
     * Setting `EntryId` from the route: a new value is stored and then
     * `OnEntryIdChanged` runs, which marks a positive id as editing and loads
     * the page; the same value again changes nothing.
     */
    method SetEntryId(value: int)
      requires store.Valid()
      modifies this`entryId, this`isEditing, this`pageTitle, store, this`trainingSessions, this`exerciseTypes
      modifies this`selectedSession, this`selectedExerciseType, this`weight, this`sets, this`repetitions
      ensures store.Valid() && store.RowsUnchanged()
      ensures entryId == value && ShownErrors() == old(ShownErrors())
      ensures value == old(entryId) ==> unchanged(this)
      ensures value != old(entryId) ==>
        isEditing == (old(isEditing) || value > 0) && pageTitle == (if value > 0 then EditTitle else old(pageTitle))
        && PickersLoaded()
        && Form() == LoadedForm(store.sessions, store.exerciseTypes, store.entries, value, old(Form()))
    {
      if value == entryId {
        return;
      }
      entryId := value;
      OnEntryIdChanged(value);
    }

    method OnEntryIdChanged(value: int)
      requires store.Valid() && value == entryId
      modifies this`isEditing, this`pageTitle, store, this`trainingSessions, this`exerciseTypes
      modifies this`selectedSession, this`selectedExerciseType, this`weight, this`sets, this`repetitions
      ensures store.Valid() && store.RowsUnchanged()
      ensures entryId == value
      ensures isEditing == (old(isEditing) || value > 0) && pageTitle == (if value > 0 then EditTitle else old(pageTitle))
      ensures PickersLoaded()
      ensures Form() == LoadedForm(store.sessions, store.exerciseTypes, store.entries, value, old(Form()))
    {
      if value > 0 {
        isEditing := true;
        pageTitle := EditTitle;
      }
      LoadData();
    }

    /** `LoadDataAsync`: fills both pickers and, when editing a stored entry, the form. */
    method LoadData()
      requires store.Valid()
      modifies store, this`trainingSessions, this`exerciseTypes
      modifies this`selectedSession, this`selectedExerciseType, this`weight, this`sets, this`repetitions
      ensures store.Valid() && store.RowsUnchanged()
      ensures PickersLoaded()
      ensures Form() == LoadedForm(store.sessions, store.exerciseTypes, store.entries, entryId, old(Form()))
    {
      var sessions := store.GetTrainingSessions();
      var types := store.GetExerciseTypes();
      trainingSessions := sessions;
      exerciseTypes := types;
      if entryId > 0 {
        var entry := store.GetTrainingEntry(entryId);
        if entry.Some? {
          ShowEntry(entry.value.Row);
        }
      }
    }

    /** Puts a stored entry into the form, the pickers on its session and type. */
    method ShowEntry(row: TrainingEntry)
      requires store.Valid()
      requires trainingSessions == MobileStore.SessionsByStartDescending(store.sessions)
      requires exerciseTypes == MobileStore.ExerciseTypesByName(store.exerciseTypes)
      modifies this`selectedSession, this`selectedExerciseType, this`weight, this`sets, this`repetitions
      ensures Form() == FormValues(
        FirstWithKey(store.sessions, SessionKey, row.TrainingSessionId),
        FirstWithKey(store.exerciseTypes, ExerciseTypeKey, row.ExerciseTypeId),
        row.Weight, row.Sets, row.Repetitions)
    {
      FirstWithKeyPermutation(store.sessions, trainingSessions, SessionKey, row.TrainingSessionId);
      FirstWithKeyPermutation(store.exerciseTypes, exerciseTypes, ExerciseTypeKey, row.ExerciseTypeId);
      selectedSession := FirstWithKey(trainingSessions, SessionKey, row.TrainingSessionId);
      selectedExerciseType := FirstWithKey(exerciseTypes, ExerciseTypeKey, row.ExerciseTypeId);
      weight := row.Weight;
      sets := row.Sets;
      repetitions := row.Repetitions;
    }

    /** `ValidateInput`: clears the five messages, runs all five checks and sets the message of each that fails. */
    method ValidateInput() returns (isValid: bool)
      modifies this`sessionError, this`exerciseTypeError, this`weightError, this`setsError, this`repetitionsError
      ensures ShownErrors() == Errors(selectedSession, selectedExerciseType, weight, sets, repetitions)
      ensures isValid <==> InputValid(selectedSession, selectedExerciseType, weight, sets, repetitions)
    {
      sessionError := None;
      exerciseTypeError := None;
      weightError := None;
      setsError := None;
      repetitionsError := None;
      isValid := true;
      if selectedSession.None? {
        sessionError := Some(SessionRequired);
        isValid := false;
      }
      if selectedExerciseType.None? {
        exerciseTypeError := Some(ExerciseTypeRequired);
        isValid := false;
      }
      if weight < 0.0 || weight > 1000.0 {
        weightError := Some(WeightOutOfRange);
        isValid := false;
      }
      if sets < 1 || sets > 100 {
        setsError := Some(SetsOutOfRange);
        isValid := false;
      }
      if repetitions < 1 || repetitions > 100 {
        repetitionsError := Some(RepetitionsOutOfRange);
        isValid := false;
      }
    }

    /**
     * `SaveAsync`: after a failed check nothing is stored and the page stays
     * open; otherwise the form's entry is saved under the page's id (inserted
     * under a fresh id for 0, else replacing the row with that id) and the page
     * closes.
     */
    method SaveAsync() returns (closed: bool)
      requires store.Valid()
      modifies this`sessionError, this`exerciseTypeError, this`weightError, this`setsError, this`repetitionsError, store
      ensures store.Valid()
      ensures ShownErrors() == Errors(selectedSession, selectedExerciseType, weight, sets, repetitions)
      ensures Form() == old(Form()) && entryId == old(entryId) && isEditing == old(isEditing) && pageTitle == old(pageTitle)
      ensures trainingSessions == old(trainingSessions) && exerciseTypes == old(exerciseTypes)
      ensures closed <==> InputValid(selectedSession, selectedExerciseType, weight, sets, repetitions)
      ensures store.exerciseTypes == old(store.exerciseTypes) && store.sessions == old(store.sessions)
      ensures !closed ==> store.entries == old(store.entries)
      ensures closed ==>
        var e := FormEntry(entryId, selectedSession, selectedExerciseType, weight, sets, repetitions);
        store.entries == if entryId != 0 then ReplaceWithKey(old(store.entries), EntryKey, e)
                         else old(store.entries) + [e.(Id := old(store.nextEntryId))]
    {
      var ok := ValidateInput();
      if !ok {
        return false;
      }
      var entry := FormEntry(entryId, selectedSession, selectedExerciseType, weight, sets, repetitions);
      var _, _ := store.SaveTrainingEntry(entry);
      closed := true;
    }
  }
}
