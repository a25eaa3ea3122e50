/**
 * The mobile page that creates or edits one training session
 * (BeFit.Mobile/ViewModels/TrainingSessionDetailViewModel.cs): a start and an
 * end, each entered as a date and a time of day, the one date message, the
 * check run before saving and the save, which inserts for id 0 and updates
 * otherwise.
 */
module TrainingSessionDetail {
  import opened Wrappers
  import opened Tables
  import opened Time
  import opened MobileModels
  import MobileStore

  const NewTitle := "Nowa sesja treningowa"
  const EditTitle := "Edytuj sesję treningową"
  const DateMessage := "Data zakończenia musi być późniejsza niż data rozpoczęcia"

  /** The four pickers of the form. */
  datatype SessionForm = SessionForm(StartDate: Instant, StartTime: Span, EndDate: Instant, EndTime: Span) {
    /** `StartDate.Add(StartTime)`. */
    function Start(): Instant {
      StartDate + StartTime
    }

    /** `EndDate.Add(EndTime)`. */
    function End(): Instant {
      EndDate + EndTime
    }
  }

  /** The page's check: the end lies strictly after the start. */
  predicate FormValid(f: SessionForm) {
    f.Start() < f.End()
  }

  /**
   * The session a form saves under the page's id. The page's check accepts
   * exactly the forms whose session the record's own `Validate` accepts.
   */
  function FormSession(id: int, f: SessionForm): (s: TrainingSession)
    ensures s.Id == id && s.StartedAt == f.Start() && s.EndedAt == f.End()
    ensures Validate(s) == [] <==> FormValid(f)
  {
    TrainingSession(id, f.Start(), f.End())
  }

  /**
   * The form a stored session loads into: each instant split into its date
   * and its time of day. Saving that form stores the session unchanged.
   */
  function SplitSession(s: TrainingSession): (f: SessionForm)
    ensures f.StartDate % TicksPerDay == 0 && 0 <= f.StartTime < TicksPerDay
    ensures f.EndDate % TicksPerDay == 0 && 0 <= f.EndTime < TicksPerDay
    ensures f.Start() == s.StartedAt && f.End() == s.EndedAt
    ensures FormSession(s.Id, f) == s
  {
    DatePlusTimeOfDay(s.StartedAt);
    DatePlusTimeOfDay(s.EndedAt);
    SessionForm(Date(s.StartedAt), TimeOfDay(s.StartedAt), Date(s.EndedAt), TimeOfDay(s.EndedAt))
  }

  /**
   * The form of a new page as its field initialisers build it, from four
   * readings of the clock in field order: `Today`, `Now.TimeOfDay`, `Today`
   * again and `Now.AddHours(1).TimeOfDay`. The end keeps today's date even
   * when the hour added crosses midnight.
   */
  function InitialFormAsWritten(today1: Instant, now1: Instant, today2: Instant, now2: Instant): (f: SessionForm)
    ensures f.StartDate == Date(today1) && f.EndDate == Date(today2)
    ensures f.StartTime == TimeOfDay(now1) && f.EndTime == TimeOfDay(AddHours(now2, 1))
  {
    SessionForm(Date(today1), TimeOfDay(now1), Date(today2), TimeOfDay(AddHours(now2, 1)))
  }

  /**
   * Opened at the instant `now`, the new page as written passes its own check
   * exactly when `now` is before 23:00; from 23:00 on, the end it proposes
   * lies 23 hours before the start.
   */
  lemma {:induction false} InitialFormAsWrittenValidIff(now: Instant)
    ensures FormValid(InitialFormAsWritten(now, now, now, now)) <==> TimeOfDay(now) < 23 * TicksPerHour
    ensures TimeOfDay(now) >= 23 * TicksPerHour ==>
      InitialFormAsWritten(now, now, now, now).End() == now + TicksPerHour - TicksPerDay
  {
    var f := InitialFormAsWritten(now, now, now, now);
    DatePlusTimeOfDay(now);
    assert f.Start() == now;
    if TimeOfDay(now) < 23 * TicksPerHour {
      SplitMidnightPlus(Date(now), TimeOfDay(now) + TicksPerHour);
      assert f.End() == now + TicksPerHour;
    } else {
      SplitMidnightPlus(Date(now) + TicksPerDay, TimeOfDay(now) + TicksPerHour - TicksPerDay);
      assert f.End() == now + TicksPerHour - TicksPerDay;
    }
  }

  /**
   * The form of a new page opened at `now`, read once: the start is `now` and
   * the end one hour later, each split into its own date and time of day, so
   * the end moves to the next day when the hour crosses midnight. Every such
   * form passes the page's check.
   */
  function InitialForm(now: Instant): (f: SessionForm)
    ensures f.Start() == now && f.End() == AddHours(now, 1)
    ensures FormValid(f)
    ensures TimeOfDay(now) < 23 * TicksPerHour ==> f == InitialFormAsWritten(now, now, now, now)
  {
    var s := TrainingSession(0, now, AddHours(now, 1));
    if TimeOfDay(now) < 23 * TicksPerHour then
      SameDayAfter(now, TicksPerHour);
      SplitSession(s)
    else
      SplitSession(s)
  }

  class TrainingSessionDetailViewModel {
    const store: MobileStore.DatabaseService

    var sessionId: int
    var startDate: Instant
    var startTime: Span
    var endDate: Instant
    var endTime: Span
    var pageTitle: string
    var dateError: Option<string>
    var isEditing: bool

    /** The four pickers as they stand. */
    function Form(): SessionForm
      reads this
    {
      SessionForm(startDate, startTime, endDate, endTime)
    }

    /**
     * A new page, its field initialisers run in order with the four clock
     * readings they take: no id, the form as written (which from 23:00 on
     * ends before it starts, see `InitialFormAsWrittenValidIff`), the
     * new-session title and no message.
     */
    constructor (store: MobileStore.DatabaseService, today1: Instant, now1: Instant, today2: Instant, now2: Instant)
      ensures this.store == store
      ensures sessionId == 0 && Form() == InitialFormAsWritten(today1, now1, today2, now2)
      ensures pageTitle == NewTitle && dateError == None && !isEditing
    {
      this.store := store;
      sessionId := 0;
      var f := InitialFormAsWritten(today1, now1, today2, now2);
      startDate, startTime, endDate, endTime := f.StartDate, f.StartTime, f.EndDate, f.EndTime;
      pageTitle := NewTitle;
      dateError := None;
      isEditing := false;
    }

    /**
     * Setting `SessionId` from the route: a new value is stored and then
     * `OnSessionIdChanged` runs; the same value again changes nothing.
     */
    method SetSessionId(value: int)
      requires store.Valid()
      modifies this, store
      ensures store.Valid() && store.RowsUnchanged()
      ensures sessionId == value && dateError == old(dateError)
      ensures value == old(sessionId) ==> unchanged(this)
      ensures value <= 0 ==> isEditing == old(isEditing) && pageTitle == old(pageTitle) && Form() == old(Form())
      ensures value != old(sessionId) && value > 0 ==>
        isEditing && pageTitle == EditTitle
        && Form() == match FirstWithKey(store.sessions, SessionKey, value)
                     case Some(s) => SplitSession(s)
                     case None => old(Form())
    {
      if value == sessionId {
        return;
      }
      sessionId := value;
      OnSessionIdChanged(value);
    }

    /**
     * `OnSessionIdChanged`: a positive id switches the page to editing and
     * loads that session; any other id changes nothing.
     */
    method OnSessionIdChanged(value: int)
      requires store.Valid() && value == sessionId
      modifies this`isEditing, this`pageTitle, this`startDate, this`startTime, this`endDate, this`endTime, store
      ensures store.Valid() && store.RowsUnchanged()
      ensures value <= 0 ==> isEditing == old(isEditing) && pageTitle == old(pageTitle) && Form() == old(Form())
      ensures value > 0 ==>
        isEditing && pageTitle == EditTitle
        && Form() == match FirstWithKey(store.sessions, SessionKey, value)
                     case Some(s) => SplitSession(s)
                     case None => old(Form())
    {
      if value > 0 {
        isEditing := true;
        pageTitle := EditTitle;
        LoadTrainingSession();
      }
    }

    /**
     * `LoadTrainingSessionAsync`: the stored session with the page's id,
     * split into the four pickers; none stored keeps the form.
     */
    method LoadTrainingSession()
      requires store.Valid()
      modifies this`startDate, this`startTime, this`endDate, this`endTime, store
      ensures store.Valid() && store.RowsUnchanged()
      ensures Form() == match FirstWithKey(store.sessions, SessionKey, sessionId)
                        case Some(s) => SplitSession(s)
                        case None => old(Form())
    {
      var session := store.GetTrainingSession(sessionId);
      if session.Some? {
        startDate := Date(session.value.StartedAt);
        startTime := TimeOfDay(session.value.StartedAt);
        endDate := Date(session.value.EndedAt);
        endTime := TimeOfDay(session.value.EndedAt);
      }
    }

    /**
     * `ValidateInput`: clears the message, then sets it and fails when the
     * end does not lie after the start.
     */
    method ValidateInput() returns (isValid: bool)
      modifies this`dateError
      ensures isValid <==> FormValid(Form())
      ensures dateError == if isValid then None else Some(DateMessage)
    {
      dateError := None;
      var startDateTime := startDate + startTime;
      var endDateTime := endDate + endTime;
      if endDateTime <= startDateTime {
        dateError := Some(DateMessage);
        return false;
      }
      return true;
    }

    /**
     * `SaveAsync`: after a failed check nothing is stored and the page stays
     * open; otherwise the form's session, which passes `Validate`, is saved
     * under the page's id (inserted under a fresh id for 0, else replacing the
     * session with that id) and the page closes.
     */
    method SaveAsync() returns (closed: bool)
      requires store.Valid()
      modifies this`dateError, store
      ensures store.Valid()
      ensures closed <==> FormValid(Form())
      ensures dateError == if closed then None else Some(DateMessage)
      ensures store.exerciseTypes == old(store.exerciseTypes) && store.entries == old(store.entries)
      ensures !closed ==> store.sessions == old(store.sessions)
      ensures closed ==>
        var s := FormSession(sessionId, Form());
        Validate(s) == []
        && store.sessions == if sessionId != 0 then ReplaceWithKey(old(store.sessions), SessionKey, s)
                             else old(store.sessions) + [s.(Id := old(store.nextSessionId))]
    {
      var ok := ValidateInput();
      if !ok {
        return false;
      }
      var session := FormSession(sessionId, Form());
      var _, _ := store.SaveTrainingSession(session);
      closed := true;
    }
  }
}
