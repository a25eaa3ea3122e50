/**
 * The mobile page that creates or renames one exercise type
 * (BeFit.Mobile/ViewModels/ExerciseTypeDetailViewModel.cs): the name field, its
 * one error message, the check run before saving and the save, which stores the
 * trimmed name under the page's id.
 */
module ExerciseTypeDetail {
  import opened Wrappers
  import opened Tables
  import opened MobileModels
  import Text
  import MobileStore

  const NewTitle := "Nowy typ ćwiczenia"
  const EditTitle := "Edytuj typ ćwiczenia"

  /** The messages shown under the name. */
  datatype Message = NameRequired | NameTooLong {
    /** The text shown to the user. */
    function Text(): string {
      match this
      case NameRequired => "Nazwa ćwiczenia jest wymagana"
      case NameTooLong => "Nazwa ćwiczenia może mieć maksymalnie 80 znaków"
    }
  }

  /**
   * The message `ValidateInput` leaves for a name: the blank check comes first
   * and stops the check, so a blank name never reports its length. A name
   * passes exactly when it passes `[Required]` and `[MaxLength(80)]` of the
   * record, compared before trimming. Length is `string.Length`, in UTF-16
   * code units: 80 are accepted, and a character beyond U+FFFF counts two.
   */
  function NameError(name: string): (m: Option<Message>)
    ensures m == Some(NameRequired) <==> Text.IsBlank(name)
    ensures m == Some(NameTooLong) <==> !Text.IsBlank(name) && Text.Utf16Length(name) > NameMaxLength
    ensures m.None? <==> NameDeclaredValid(name)
  {
    if Text.IsBlank(name) then Some(NameRequired)
    else if Text.Utf16Length(name) > NameMaxLength then Some(NameTooLong)
    else None
  }

  /**
   * The exercise type a valid page saves: the page's id and the trimmed name,
   * which is never blank and never longer than the name that was checked.
   */
  function SavedType(id: int, name: string): (t: ExerciseType)
    requires NameError(name).None?
    ensures t.Id == id && t.Name == Text.Trim(name)
    ensures NameDeclaredValid(t.Name) && Text.Utf16Length(t.Name) <= Text.Utf16Length(name)
  {
    var trimmed := Text.Trim(name);
    Text.TrimUtf16Length(name);
    assert trimmed != [] && !Text.IsWhiteSpace(trimmed[0]);
    ExerciseType(id, trimmed)
  }

  /** A name of 41 characters beyond U+FFFF is 82 code units long, and too long. */
  lemma AstralNameTooLong()
    ensures NameError(seq(41, _ => '\U{1F4AA}')) == Some(NameTooLong)
  {
    var name := seq(41, _ => '\U{1F4AA}');
    Text.Utf16LengthAstral(name);
    assert !Text.IsWhiteSpace(name[0]);
  }

  /**
   * Loading a saved type and saving it again stores the same name: a trimmed
   * name is its own trim.
   */
  lemma ResaveKeepsName(name: string)
    ensures Text.Trim(Text.Trim(name)) == Text.Trim(name)
  {
    var r := Text.Trim(name);
    if r != [] {
      assert Text.LeadingWhiteSpace(r) == 0;
      assert r[0..] == r;
      assert Text.TrailingWhiteSpace(r) == 0;
    }
  }

  class ExerciseTypeDetailViewModel {
    const store: MobileStore.DatabaseService

    var exerciseTypeId: int
    var name: string
    var pageTitle: string
    var nameError: Option<Message>
    var isEditing: bool

    /** A new page: no id and an empty name. */
    constructor (store: MobileStore.DatabaseService)
      ensures this.store == store
      ensures exerciseTypeId == 0 && name == "" && pageTitle == NewTitle && nameError == None && !isEditing
    {
      this.store := store;
      exerciseTypeId := 0;
      name := "";
      pageTitle := NewTitle;
      nameError := None;
      isEditing := false;
    }

    /**
     * Setting `ExerciseTypeId` from the route: a new value is stored and then
     * `OnExerciseTypeIdChanged` runs; the same value again changes nothing.
     */
    method SetExerciseTypeId(value: int)
      requires store.Valid()
      modifies this, store
      ensures store.Valid() && store.RowsUnchanged()
      ensures exerciseTypeId == value && nameError == old(nameError)
      ensures value == old(exerciseTypeId) ==> unchanged(this)
      ensures value <= 0 ==> isEditing == old(isEditing) && pageTitle == old(pageTitle) && name == old(name)
      ensures value != old(exerciseTypeId) && value > 0 ==>
        isEditing && pageTitle == EditTitle
        && name == match FirstWithKey(store.exerciseTypes, ExerciseTypeKey, value)
                   case Some(t) => t.Name
                   case None => old(name)
    {
      if value == exerciseTypeId {
        return;
      }
      exerciseTypeId := value;
      OnExerciseTypeIdChanged(value);
    }

    /**
     * `OnExerciseTypeIdChanged`: a positive id switches the page to editing
     * and loads that type's name; any other id changes nothing.
     */
    method OnExerciseTypeIdChanged(value: int)
      requires store.Valid() && value == exerciseTypeId
      modifies this`isEditing, this`pageTitle, this`name, store
      ensures store.Valid() && store.RowsUnchanged()
      ensures value <= 0 ==> isEditing == old(isEditing) && pageTitle == old(pageTitle) && name == old(name)
      ensures value > 0 ==>
        isEditing && pageTitle == EditTitle
        && name == match FirstWithKey(store.exerciseTypes, ExerciseTypeKey, value)
                   case Some(t) => t.Name
                   case None => old(name)
    {
      if value > 0 {
        isEditing := true;
        pageTitle := EditTitle;
        LoadExerciseType();
      }
    }

    /** `LoadExerciseTypeAsync`: the name of the stored type with the page's id; none stored keeps the name. */
    method LoadExerciseType()
      requires store.Valid()
      modifies this`name, store
      ensures store.Valid() && store.RowsUnchanged()
      ensures name == match FirstWithKey(store.exerciseTypes, ExerciseTypeKey, exerciseTypeId)
                      case Some(t) => t.Name
                      case None => old(name)
    {
      var exerciseType := store.GetExerciseType(exerciseTypeId);
      if exerciseType.Some? {
        name := exerciseType.value.Name;
      }
    }

    /**
     * `ValidateInput`: clears the message, then stops at the first check that
     * fails, blank before too long, and sets its message.
     */
    method ValidateInput() returns (isValid: bool)
      modifies this`nameError
      ensures nameError == NameError(name)
      ensures isValid <==> nameError.None?
    {
      nameError := None;
      if Text.IsBlank(name) {
        nameError := Some(NameRequired);
        return false;
      }
      if Text.Utf16Length(name) > NameMaxLength {
        nameError := Some(NameTooLong);
        return false;
      }
      return true;
    }

    /**
     * `SaveAsync`: after a failed check nothing is stored and the page stays
     * open; otherwise the trimmed name is saved under the page's id (inserted
     * under a fresh id for 0, else replacing the type with that id) and the
     * page closes.
     */
    method SaveAsync() returns (closed: bool)
      requires store.Valid()
      modifies this`nameError, store
      ensures store.Valid()
      ensures nameError == NameError(name)
      ensures closed <==> NameDeclaredValid(name)
      ensures store.sessions == old(store.sessions) && store.entries == old(store.entries)
      ensures !closed ==> store.exerciseTypes == old(store.exerciseTypes)
      ensures closed ==>
        var t := SavedType(exerciseTypeId, name);
        store.exerciseTypes == if exerciseTypeId != 0 then ReplaceWithKey(old(store.exerciseTypes), ExerciseTypeKey, t)
                               else old(store.exerciseTypes) + [t.(Id := old(store.nextExerciseTypeId))]
    {
      var ok := ValidateInput();
      if !ok {
        return false;
      }
      var exerciseType := SavedType(exerciseTypeId, name);
      var _, _ := store.SaveExerciseType(exerciseType);
      closed := true;
    }
  }
}
