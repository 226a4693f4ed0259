# ProfileCard state machine

A model of the `ProfileCard` React component. The component shows a person's name,
email address and date of birth. One button switches it between a read-only view
mode and an inline edit mode, and the same button saves the edits. In edit mode,
the email field is checked against a Unicode-aware pattern when it loses focus. Its
error is withdrawn as soon as the field is edited. The date of birth is checked on
every change: a date that is not before the current time is flagged. Save does
nothing while any field carries an error.

The project has three files:

- `wrappers.dfy`: `Option`, which stands for JavaScript's `null` / `undefined`.
- `email_pattern.dfy` (module `EmailPattern`): the email pattern.
  - `Matches` is the language of the anchored regular expression, written as its
    concatenation of parts.
  - `Accepts` is a recognizer that tries the single split at the last `@`.
  - `AcceptsIffMatches` proves that the two agree on every string.
  - `\p{L}` is the parameter `isLetter`, and every property holds for any choice of it.
  - The unescaped `.` of the repeated group is kept as written. It matches `@` too, so
    `"a@b@cc"` is accepted.
- `profile_card.dfy` (module `Profile`):
  - the data model (`Mode`, `Field`, `ProfileData`, `Errors`, `DefaultData`);
  - one function per event handler, giving the state after the event;
  - a trace model (`Step`, `Run`), used to prove what holds in every reachable state;
  - the class `ProfileCard`. Its fields `mode`, `data` and `errors` are the component's
    three state cells, and it has one method per handler. Each method's contract states
    the new state case by case. It also ties that state to the handler's function and
    keeps the invariant `Valid()`.

The inputs the browser supplies are parameters:

- the three input values at the moment Save is clicked;
- the date input's `valueAsDate`, as an `Option<int>` millisecond count;
- `Date.now()`;
- the letter property.

Dates are the integer millisecond counts that `getTime()` returns. The default date
of birth is `new Date("2000-01-01")`, which is midnight UTC: 946684800000.

Two behaviours of the handlers that are easy to misread:

- A valid address does not clear the email error when the field loses focus. The blur
  handler only ever sets the error; it is editing the field that clears it.
  `InvalidEmailBlocksSave` shows the sequence that does clear it: edit, then blur.
- The date check compares midnight UTC of the picked day with the current instant.
  So the current UTC day is not rejected (`TodayIsAccepted`), and the next UTC day is
  (`NextUtcDayFlagged`). Which local day that is depends on the user's time zone.
  East of UTC, early in the local day, the local "today" is already the next UTC day
  and is flagged. West of UTC, late in the local day, the local "tomorrow" is still
  the current UTC day and passes.

The email pattern has a quirk besides `"a@b@cc"`. Each repeated group `(.[...])` ends
in exactly one class character. So a character outside the class (a `.`, say) that is
followed by an even number of characters in the local part cannot be matched
(`RejectsEvenTail`). "john.doe@example.com" is accepted, but "john.do@example.com" is
rejected (`RejectsShortenedDefaultAddress`).

The three input handlers require `mode == Edit`. The inputs that carry them are
rendered only in edit mode (components/ProfileCard.tsx:99-109, 115-149 and 160-184),
so they cannot fire in view mode. The trace model says the same through `CanOccur`.
`CanOccur` also says that a date from the date input is `null` or a UTC midnight, which
is what `valueAsDate` yields. From that, `ReachableStates` proves that the stored date
of birth is always a UTC midnight, so the date input reads it back unchanged
(`EditThenSaveUnchanged`).

The handlers are stated twice, on purpose:

- The methods of the class are the component's handlers, which update its state cells
  in place.
- The `After*` functions give the same transitions on a snapshot of the state. This lets
  lemmas reason about sequences of events (`Step`, `Run`), which a lemma cannot do by
  calling methods.
- Each method's contract ties its new state to its function: `State() == After...(old(State()))`.
  The constructor ties its state to `Initial()`.
- The class invariant `Valid()` is the same predicate `Invariant` that `StepKeepsInvariant`
  proves for traces.

## Model

| member | source | states |
|---|---|---|
| `EmailPattern.AcceptsIffMatches` | components/ProfileCard.tsx:16-17 | Trying only the split at the last `@` accepts exactly the strings in the language of the anchored pattern. The domain part holds no `@`, so no other split can succeed. |
| `EmailPattern.LastIndexOf` | components/ProfileCard.tsx:17 | The result is the position of the last occurrence of the character: that position holds it and no later position does. The result is None exactly when the character does not occur. |
| `EmailPattern.AcceptedHasDomainSuffix` | components/ProfileCard.tsx:17 | Every accepted string has a last `@` with at least one character before it and at least two after it. None of the characters after it is `@` or white space. |
| `EmailPattern.RejectsWithoutAt` | components/ProfileCard.tsx:17 | A string without `@`, such as "not-an-email", is rejected. |
| `EmailPattern.AcceptsDefaultAddress` | components/ProfileCard.tsx:16-21 | The default address "john.doe@example.com" is accepted, whatever the letter property is. |
| `EmailPattern.AcceptsRepeatedAt` | components/ProfileCard.tsx:17 | "a@b@cc" is accepted, because the unescaped `.` of the repeated group matches `@`. |
| `EmailPattern.AcceptsShortAddress` | components/ProfileCard.tsx:17 | "a@b.co" is accepted: one class character before `@` is enough. |
| `EmailPattern.RejectsEvenTail` | components/ProfileCard.tsx:17 | A local part is rejected when it has a character outside the class followed by an even number of characters. That character is not in the leading run, and in the repeated groups it would fall on a pair's class position. |
| `EmailPattern.PairsShape` | components/ProfileCard.tsx:17 | Whatever `(.[...])*` matches has even length and a class character at every odd position. |
| `EmailPattern.RejectsShortenedDefaultAddress` | components/ProfileCard.tsx:17 | "john.do@example.com" is rejected when `.` is not a letter, although "john.doe@example.com" is accepted. |
| `EmailPattern.RejectsLeadingDot` | components/ProfileCard.tsx:17 | A string that starts with `.` is rejected, since `.` is not in the local-part class. |
| `Profile.InitialState` | components/ProfileCard.tsx:19-40 | The initial state is in view mode and holds `DEFAULT_DATA`. Every error field is absent, so the save guard does not fire and the reachable-state invariant holds. |
| `Profile.HasErrorIffFlagged` | components/ProfileCard.tsx:70 | In a reachable state, the save guard `Object.values(errors).some(...)` fires exactly when the email error or the date-of-birth error is set. |
| `Profile.StepKeepsInvariant` | components/ProfileCard.tsx:66-182 | Every event that can occur preserves the invariant. Under that invariant, the name error is absent, each other error is absent or holds its one message, and view mode has no error. |
| `Profile.RunKeepsInvariant` | components/ProfileCard.tsx:66-182 | Any sequence of events that can occur, handled one at a time, preserves the invariant. |
| `Profile.RunKeepsDobAligned` | components/ProfileCard.tsx:73-79 | Save stores only the date input's value, a UTC midnight, or keeps the stored date. So a stored date that is a UTC midnight stays one along any trace. |
| `Profile.ReachableStates` | components/ProfileCard.tsx:34-182 | No handler sets the name error, so it is absent in every reachable state. In view mode every error is absent. The stored date of birth is always a UTC midnight. |
| `Profile.EditThenSaveUnchanged` | components/ProfileCard.tsx:66-82 | Entering edit mode and saving with the inputs untouched returns the card to the state it started from. The premise is that the inputs show the stored name and address unchanged. That holds because those values were already sanitized by the inputs they came from. The date input yields midnight UTC of the stored date's day, and a reachable state's stored date is such a midnight. |
| `Profile.TodayIsAccepted` | components/ProfileCard.tsx:168-181 | Midnight UTC of the current UTC day, picked at any later moment of that day, clears the date-of-birth error. |
| `Profile.NextUtcDayFlagged` | components/ProfileCard.tsx:168-181 | Midnight UTC of the next UTC day sets the date-of-birth error, whatever the moment. |
| `Profile.InvalidEmailBlocksSave` | components/ProfileCard.tsx:66-145 | After entering edit mode and leaving "not-an-email" in the email field, Save keeps edit mode and the old data. After editing the field and leaving "a@b.co", Save stores the new name and address and returns to view mode with no errors. |
| `Profile.ProfileCard.constructor` | components/ProfileCard.tsx:34-40 | Mounting gives view mode, `DEFAULT_DATA`, and an error record with every key of `DEFAULT_DATA` mapped to absent. This is the state `Initial()` that `InitialState` describes. |
| `Profile.ProfileCard.Toggle` | components/ProfileCard.tsx:66-82 | In view mode: switch to edit mode and change nothing else. In edit mode with an error: change nothing. In edit mode without errors: each field takes its input value if non-empty (the date if non-null), else its stored value; mode becomes view; errors are unchanged. |
| `Profile.ProfileCard.EmailBlur` | components/ProfileCard.tsx:132-139 | A value the pattern rejects sets the email error to "Invalid email". An accepted value leaves the errors as they were, including an email error already set. Mode and data are unchanged. |
| `Profile.ProfileCard.EmailChange` | components/ProfileCard.tsx:140-145 | Clears only the email error. The name and date-of-birth errors, the data and the mode are unchanged. |
| `Profile.ProfileCard.DobChange` | components/ProfileCard.tsx:168-182 | A null date changes nothing. A date at or after `now` sets the date-of-birth error to "Invalid date of birth". An earlier date clears it. The email and name errors, the data and the mode are unchanged. |

## Left out

- Rendering: the JSX, styling, the image, the icons and the `Error` component (components/Errors.tsx). None of them holds state or logic.
- The page shell pages/index.tsx, which only mounts the component.
- The `mailto:` navigation of the view-mode button, a browser side effect.
- The date text shown by `toISOString().split("T")[0]`, and how the browser parses the date input into `valueAsDate`. The parsed value is a parameter.
- `Date.now()` is a parameter, not a clock.
- The Unicode table behind `\p{L}`. It is the parameter `isLetter`.
- React's scheduling of state updates. Events are handled one at a time against the current state. The date handler reads the `errors` captured at render time instead of using an updater; the model does not capture a lost update between two events handled in the same render.
- The input attributes `maxLength={100}` and `type="email"`. `maxLength={100}` stops the user typing more than 100 characters into the name. `type="email"` does not restrict typing. It sanitizes the input's value by removing line breaks and leading or trailing ASCII white space. Neither changes a handler. Both handler functions and the recognizer take any string of Unicode scalar values, so they cover every value a browser can pass them except a string with an unpaired surrogate (see the last line). `EditThenSaveUnchanged` takes as a premise that each input shows the stored name and address unchanged. This holds because those values were sanitized when they were first read, and the defaults need no sanitizing.
- The case where an input's ref is still unmounted when Save is clicked (`current?.value` gives `undefined`). In edit mode all three inputs are mounted. An empty input value gives the same fallback to the stored value.
- Strings are sequences of Unicode scalar values. A DOM string can hold an unpaired surrogate, and the `u`-flag pattern reads one as a code point of its own. Such a string cannot be represented, so no contract covers it.
