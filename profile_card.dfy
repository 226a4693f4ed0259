/**
 * The view/edit state machine of the ProfileCard component: the state cells
 * `mode`, `data` and `errors`, and the four event handlers that update them.
 *
 * Browser inputs are parameters: the values of the three inputs when Save is
 * clicked, the parsed `valueAsDate` of the date input (None for `null`), the
 * clock reading `Date.now()` and the Unicode letter property `\p{L}` of the
 * email pattern.  Dates are millisecond counts, as `getTime()` returns them.
 */
module Profile {
  import opened Wrappers
  import EmailPattern

  datatype Mode = View | Edit

  /** The keys of ProfileCardData, which also key the error record. */
  datatype Field = Name | Email | Dob

  /** ProfileCardData; `dob` is the millisecond count of the stored Date. */
  datatype ProfileData = ProfileData(name: string, email: string, dob: int)

  /** ProfileCardErrors: per field, a message or `undefined` (None). */
  type Errors = map<Field, Option<string>>

  /** DEFAULT_DATA; `new Date("2000-01-01")` is midnight UTC, 946684800000 ms after the epoch. */
  const DefaultData := ProfileData("John Doe", "john.doe@example.com", 946_684_800_000)

  /** Milliseconds in a UTC day. */
  const MsPerDay := 86_400_000

  const InvalidEmail := "Invalid email"
  const InvalidDob := "Invalid date of birth"

  /** The initial error record: every key of DEFAULT_DATA mapped to `undefined`. */
  const NoErrors: Errors := map[Name := None, Email := None, Dob := None]

  /** One snapshot of the component's three state cells. */
  datatype CardState = CardState(mode: Mode, data: ProfileData, errors: Errors)

  function Initial(): (s: CardState) {
    CardState(View, DefaultData, NoErrors)
  }

  /** JavaScript truthiness of a `string | undefined`: defined and non-empty. */
  predicate Truthy(m: Option<string>) {
    m.Some? && m.value != ""
  }

  /** `Object.values(errors).some((error) => error)`: the save guard. */
  predicate HasError(errors: Errors) {
    exists m | m in errors.Values :: Truthy(m)
  }

  /** Every field's error is absent. */
  predicate AllClear(errors: Errors) {
    && Name in errors && errors[Name] == None
    && Email in errors && errors[Email] == None
    && Dob in errors && errors[Dob] == None
  }

  // ---------------------------------------------------------------------------
  // The handlers as transitions on a snapshot
  // ---------------------------------------------------------------------------

  /** The Edit/Save button. */
  function AfterToggle(s: CardState, nameValue: string, emailValue: string, dobValue: Option<int>): (r: CardState) {
    if s.mode == View then s.(mode := Edit)
    else if HasError(s.errors) then s
    else
      var newData := ProfileData(
        if nameValue != "" then nameValue else s.data.name,
        if emailValue != "" then emailValue else s.data.email,
        if dobValue.Some? then dobValue.value else s.data.dob);
      s.(data := newData, mode := View)
  }

  /** Leaving the email input: flag the value if the pattern rejects it. */
  function AfterEmailBlur(isLetter: char -> bool, s: CardState, value: string): (r: CardState) {
    if !EmailPattern.Accepts(isLetter, value) then s.(errors := s.errors[Email := Some(InvalidEmail)])
    else s
  }

  /** Typing in the email input: withdraw its error until the next blur. */
  function AfterEmailChange(s: CardState): (r: CardState) {
    s.(errors := s.errors[Email := None])
  }

  /** Picking a date: a date not before `now` is flagged, an earlier one clears the flag. */
  function AfterDobChange(s: CardState, date: Option<int>, now: int): (r: CardState) {
    match date
    case None => s
    case Some(t) =>
      if t >= now then s.(errors := s.errors[Dob := Some(InvalidDob)])
      else s.(errors := s.errors[Dob := None])
  }

  // ---------------------------------------------------------------------------
  // Traces of events
  // ---------------------------------------------------------------------------

  datatype Event =
    | Clicked(nameValue: string, emailValue: string, dobValue: Option<int>)
    | EmailBlurred(value: string)
    | EmailChanged
    | DobChanged(date: Option<int>, now: int)

  /** What the date input's `valueAsDate` can be: `null`, or midnight UTC of the
      picked day. */
  predicate FromDateInput(date: Option<int>) {
    date.None? || date.value % MsPerDay == 0
  }

  /** The button is on screen in both modes; the inputs, and so their events, only
      in edit mode.  Dates come from the date input. */
  predicate CanOccur(s: CardState, e: Event) {
    match e
    case Clicked(_, _, d) => FromDateInput(d)
    case DobChanged(d, _) => s.mode == Edit && FromDateInput(d)
    case _ => s.mode == Edit
  }

  function Step(isLetter: char -> bool, s: CardState, e: Event): (r: CardState) {
    match e
    case Clicked(n, m, d) => AfterToggle(s, n, m, d)
    case EmailBlurred(v) => AfterEmailBlur(isLetter, s, v)
    case EmailChanged => AfterEmailChange(s)
    case DobChanged(d, now) => AfterDobChange(s, d, now)
  }

  /** The state after handling `events` one at a time from `s`, or None when one
      of them could not occur (its input was not on screen). */
  function Run(isLetter: char -> bool, s: CardState, events: seq<Event>): (r: Option<CardState>)
    decreases |events|
  {
    if events == [] then Some(s)
    else if !CanOccur(s, events[0]) then None
    else Run(isLetter, Step(isLetter, s, events[0]), events[1..])
  }

  /** What holds in every state the component can reach. */
  ghost predicate Invariant(s: CardState) {
    && Name in s.errors && Email in s.errors && Dob in s.errors
    && s.errors[Name] == None
    && (s.errors[Email] == None || s.errors[Email] == Some(InvalidEmail))
    && (s.errors[Dob] == None || s.errors[Dob] == Some(InvalidDob))
    && (s.mode == View ==> AllClear(s.errors))
  }

  // ---------------------------------------------------------------------------
  // Properties
  // ---------------------------------------------------------------------------

  /** The initial state shows the default data in view mode with every error absent. */
  lemma InitialState()
    ensures Initial().mode == View && Initial().data == DefaultData
    ensures AllClear(Initial().errors) && !HasError(Initial().errors)
    ensures Invariant(Initial())
  {
    forall m | m in NoErrors.Values ensures !Truthy(m) {
      var f :| f in NoErrors && NoErrors[f] == m;
    }
  }

  /** In a reachable state the save guard fires exactly when the email or the date
      of birth carries a message. */
  lemma HasErrorIffFlagged(s: CardState)
    requires Invariant(s)
    ensures HasError(s.errors) <==> (s.errors[Email].Some? || s.errors[Dob].Some?)
  {
    assert s.errors[Email] in s.errors.Values;
    assert s.errors[Dob] in s.errors.Values;
    if HasError(s.errors) {
      var m :| m in s.errors.Values && Truthy(m);
      var f :| f in s.errors && s.errors[f] == m;
      assert f != Name;
    }
  }

  /** Every event that can occur keeps the invariant. */
  lemma StepKeepsInvariant(isLetter: char -> bool, s: CardState, e: Event)
    requires Invariant(s) && CanOccur(s, e)
    ensures Invariant(Step(isLetter, s, e))
  {
    if e.Clicked? && s.mode == Edit {
      HasErrorIffFlagged(s);
    }
  }

  lemma {:induction false} RunKeepsInvariant(isLetter: char -> bool, s: CardState, events: seq<Event>)
    requires Invariant(s)
    ensures Run(isLetter, s, events).Some? ==> Invariant(Run(isLetter, s, events).value)
    decreases |events|
  {
    if events != [] && CanOccur(s, events[0]) {
      StepKeepsInvariant(isLetter, s, events[0]);
      RunKeepsInvariant(isLetter, Step(isLetter, s, events[0]), events[1..]);
    }
  }

  /** The stored date of birth stays a UTC midnight: Save stores only what the date
      input yields. */
  lemma {:induction false} RunKeepsDobAligned(isLetter: char -> bool, s: CardState, events: seq<Event>)
    requires s.data.dob % MsPerDay == 0
    ensures Run(isLetter, s, events).Some? ==> Run(isLetter, s, events).value.data.dob % MsPerDay == 0
    decreases |events|
  {
    if events != [] && CanOccur(s, events[0]) {
      RunKeepsDobAligned(isLetter, Step(isLetter, s, events[0]), events[1..]);
    }
  }

  /** No handler sets the name error, so it is absent in every reachable state; in
      view mode no error is present at all; the stored date is a UTC midnight. */
  lemma ReachableStates(isLetter: char -> bool, events: seq<Event>)
    ensures Run(isLetter, Initial(), events).Some? ==>
      var s := Run(isLetter, Initial(), events).value;
      && Name in s.errors && s.errors[Name] == None
      && (s.mode == View ==> AllClear(s.errors) && !HasError(s.errors))
      && s.data.dob % MsPerDay == 0
  {
    InitialState();
    RunKeepsInvariant(isLetter, Initial(), events);
    RunKeepsDobAligned(isLetter, Initial(), events);
    if Run(isLetter, Initial(), events).Some? {
      HasErrorIffFlagged(Run(isLetter, Initial(), events).value);
    }
  }

  /** Entering edit mode and saving with the inputs untouched gives back the state
      one started from.  The inputs are taken to read back the stored name and
      address unchanged.  That holds because every stored string was itself read
      from an input, which the browser sanitizes: a text input drops line breaks, and
      an email input also trims leading and trailing ASCII white space.  The default
      name and address have neither.  The browser's sanitizing is not modelled, so
      this is a premise here.  The date input shows the UTC day of the stored date
      and yields that day's midnight; in a reachable state that is the stored date
      itself. */
  lemma EditThenSaveUnchanged(s: CardState)
    requires Invariant(s) && s.mode == View && s.data.dob % MsPerDay == 0
    ensures
      var shown := Some(s.data.dob / MsPerDay * MsPerDay);
      var e := AfterToggle(s, s.data.name, s.data.email, shown);
      AfterToggle(e, s.data.name, s.data.email, shown) == s
  {
    HasErrorIffFlagged(s);
  }

  /** The check compares midnight UTC of the picked day with the current instant, so
      the current UTC day, picked at any later moment of it, passes the check. */
  lemma TodayIsAccepted(s: CardState, now: int)
    requires now % MsPerDay != 0
    ensures var today := now / MsPerDay * MsPerDay;
      AfterDobChange(s, Some(today), now).errors[Dob] == None
  {
  }

  /** The day after the current UTC day is flagged.  Where the local date runs ahead
      of the UTC date (east of UTC, early in the local day) that day is the local
      "today"; where it runs behind, the local "tomorrow" can be the current UTC day
      and pass. */
  lemma NextUtcDayFlagged(s: CardState, now: int)
    ensures var tomorrow := now / MsPerDay * MsPerDay + MsPerDay;
      AfterDobChange(s, Some(tomorrow), now).errors[Dob] == Some(InvalidDob)
  {
  }

  /** An address without `@` blocks the save until it is corrected: the data stays
      as it was and the card stays in edit mode; after typing and leaving a valid
      address the save goes through. */
  lemma InvalidEmailBlocksSave(isLetter: char -> bool)
    ensures
      var blocked := [Clicked("", "", None), EmailChanged, EmailBlurred("not-an-email"),
                      Clicked("Jane Roe", "not-an-email", None)];
      var fixed := blocked + [EmailChanged, EmailBlurred("a@b.co"), Clicked("Jane Roe", "a@b.co", None)];
      && Run(isLetter, Initial(), blocked) ==
           Some(CardState(Edit, DefaultData, NoErrors[Email := Some(InvalidEmail)]))
      && Run(isLetter, Initial(), fixed) ==
           Some(CardState(View, ProfileData("Jane Roe", "a@b.co", DefaultData.dob), NoErrors))
  {
    var blocked := [Clicked("", "", None), EmailChanged, EmailBlurred("not-an-email"),
                    Clicked("Jane Roe", "not-an-email", None)];
    var repair := [EmailChanged, EmailBlurred("a@b.co"), Clicked("Jane Roe", "a@b.co", None)];
    BlockedSave(isLetter, blocked);
    RepairedSave(isLetter, repair);
    RunAppend(isLetter, Initial(), blocked, repair);
  }

  /** The first half of the trace: the save with "not-an-email" is refused. */
  lemma BlockedSave(isLetter: char -> bool, blocked: seq<Event>)
    requires blocked == [Clicked("", "", None), EmailChanged, EmailBlurred("not-an-email"),
                         Clicked("Jane Roe", "not-an-email", None)]
    ensures Run(isLetter, Initial(), blocked) ==
              Some(CardState(Edit, DefaultData, NoErrors[Email := Some(InvalidEmail)]))
  {
    EmailPattern.RejectsWithoutAt(isLetter, "not-an-email");
    var s0 := Initial();
    var s1 := CardState(Edit, DefaultData, NoErrors);
    var s3 := CardState(Edit, DefaultData, NoErrors[Email := Some(InvalidEmail)]);
    assert s3.errors[Email] in s3.errors.Values;
    assert Step(isLetter, s0, blocked[0]) == s1;
    assert Step(isLetter, s1, blocked[1]).errors == NoErrors;
    assert Step(isLetter, s1, blocked[2]) == s3;
    assert Step(isLetter, s3, blocked[3]) == s3;
    assert Run(isLetter, s3, []) == Some(s3);
    assert blocked[3..] == [blocked[3]];
    assert Run(isLetter, s3, blocked[3..]) == Some(s3);
    assert blocked[2..][1..] == blocked[3..];
    assert Run(isLetter, s1, blocked[2..]) == Some(s3);
  }

  /** The second half: editing the field, leaving "a@b.co" and saving goes through. */
  lemma RepairedSave(isLetter: char -> bool, repair: seq<Event>)
    requires repair == [EmailChanged, EmailBlurred("a@b.co"), Clicked("Jane Roe", "a@b.co", None)]
    ensures Run(isLetter, CardState(Edit, DefaultData, NoErrors[Email := Some(InvalidEmail)]), repair) ==
              Some(CardState(View, ProfileData("Jane Roe", "a@b.co", DefaultData.dob), NoErrors))
  {
    EmailPattern.AcceptsShortAddress(isLetter);
    var s1 := CardState(Edit, DefaultData, NoErrors);
    var s3 := CardState(Edit, DefaultData, NoErrors[Email := Some(InvalidEmail)]);
    assert Step(isLetter, s3, repair[0]) == s1;
    assert Step(isLetter, s1, repair[1]) == s1;
    forall m | m in NoErrors.Values ensures !Truthy(m) {
      var f :| f in NoErrors && NoErrors[f] == m;
    }
    var s7 := CardState(View, ProfileData("Jane Roe", "a@b.co", DefaultData.dob), NoErrors);
    assert Step(isLetter, s1, repair[2]) == s7;
    assert repair[2..] == [repair[2]];
    assert Run(isLetter, s1, repair[2..]) == Some(s7);
    assert repair[1..][1..] == repair[2..];
    assert Run(isLetter, s1, repair[1..]) == Some(s7);
  }

  /** Handling two traces one after the other is handling their concatenation. */
  lemma {:induction false} RunAppend(isLetter: char -> bool, s: CardState, xs: seq<Event>, ys: seq<Event>)
    ensures Run(isLetter, s, xs + ys) ==
      match Run(isLetter, s, xs)
      case None => None
      case Some(t) => Run(isLetter, t, ys)
    decreases |xs|
  {
    if xs == [] {
      assert xs + ys == ys;
    } else {
      assert (xs + ys)[0] == xs[0];
      assert (xs + ys)[1..] == xs[1..] + ys;
      if CanOccur(s, xs[0]) {
        RunAppend(isLetter, Step(isLetter, s, xs[0]), xs[1..], ys);
      }
    }
  }

  // ---------------------------------------------------------------------------
  // The component
  // ---------------------------------------------------------------------------

  class ProfileCard {
    var mode: Mode
    var data: ProfileData
    var errors: Errors

    function State(): (s: CardState)
      reads this
    {
      CardState(mode, data, errors)
    }

    ghost predicate Valid()
      reads this
    {
      Invariant(State())
    }

    /** Mounting the component: view mode, the default data, every error absent. */
    constructor ()
      ensures mode == View && data == DefaultData && errors == NoErrors
      ensures State() == Initial()
      ensures Valid()
    {
      mode := View;
      data := DefaultData;
      errors := NoErrors;
    }

    /** The Edit/Save button, given what the three inputs hold when it is clicked. */
    method Toggle(nameValue: string, emailValue: string, dobValue: Option<int>)
      requires Valid()
      modifies this
      ensures Valid()
      ensures State() == AfterToggle(old(State()), nameValue, emailValue, dobValue)
      ensures old(mode) == View ==> mode == Edit && data == old(data) && errors == old(errors)
      ensures old(mode) == Edit && HasError(old(errors)) ==>
        mode == Edit && data == old(data) && errors == old(errors)
      ensures old(mode) == Edit && !HasError(old(errors)) ==>
        && mode == View && errors == old(errors)
        && data.name == (if nameValue != "" then nameValue else old(data.name))
        && data.email == (if emailValue != "" then emailValue else old(data.email))
        && data.dob == (if dobValue.Some? then dobValue.value else old(data.dob))
    {
      HasErrorIffFlagged(State());
      if mode == View {
        mode := Edit;
      } else {
        if HasError(errors) {
          return;
        }
        var newData := ProfileData(
          if nameValue != "" then nameValue else data.name,
          if emailValue != "" then emailValue else data.email,
          if dobValue.Some? then dobValue.value else data.dob);
        data := newData;
        mode := View;
      }
    }

    /** Leaving the email input holding `value`. */
    method EmailBlur(isLetter: char -> bool, value: string)
      requires Valid() && mode == Edit
      modifies this
      ensures Valid()
      ensures State() == AfterEmailBlur(isLetter, old(State()), value)
      ensures mode == old(mode) && data == old(data)
      ensures !EmailPattern.Accepts(isLetter, value) ==> errors == old(errors)[Email := Some(InvalidEmail)]
      ensures EmailPattern.Accepts(isLetter, value) ==> errors == old(errors)
    {
      if !EmailPattern.Accepts(isLetter, value) {
        errors := errors[Email := Some(InvalidEmail)];
      }
    }

    /** Any edit of the email input. */
    method EmailChange()
      requires Valid() && mode == Edit
      modifies this
      ensures Valid()
      ensures State() == AfterEmailChange(old(State()))
      ensures mode == old(mode) && data == old(data)
      ensures errors == old(errors)[Email := None]
      ensures errors[Name] == old(errors[Name]) && errors[Dob] == old(errors[Dob])
    {
      errors := errors[Email := None];
    }

    /** A change of the date input, whose `valueAsDate` is `date`, at time `now`. */
    method DobChange(date: Option<int>, now: int)
      requires Valid() && mode == Edit
      modifies this
      ensures Valid()
      ensures State() == AfterDobChange(old(State()), date, now)
      ensures mode == old(mode) && data == old(data)
      ensures errors[Name] == old(errors[Name]) && errors[Email] == old(errors[Email])
      ensures date.None? ==> errors == old(errors)
      ensures date.Some? && date.value >= now ==> errors == old(errors)[Dob := Some(InvalidDob)]
      ensures date.Some? && date.value < now ==> errors == old(errors)[Dob := None]
    {
      if date.None? {
        return;
      }
      if date.value >= now {
        errors := errors[Dob := Some(InvalidDob)];
      } else {
        errors := errors[Dob := None];
      }
    }
  }
}
