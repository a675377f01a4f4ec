# Session notes of the AC 209 notes page, in Dafny

The page keeps a list of note records in the user's session. The list is seeded
once with a sample note. When the form is submitted with a question, the question
goes to a language model. If a usable reply comes back, a new note goes in front
of the list. A sidebar selector offers `"All"` and every distinct note date, newest
first, and the page shows the notes of the chosen date with two counts.

The project has three modules:

- `StrOrder` (`strorder.dfy`): Python's `<` on strings, strictly descending lists
  of distinct strings, and the `YYYY-MM-DD` date format.
- `Notes` (`notes.dfy`): the `Note` record, the form's outcome, and the pure
  expressions the page evaluates: the date options, the date filter and the counts.
- `Session` (`session.dfy`): the class `NoteStore`, the session's list, with the
  seeding step and the insertion at the front. It also holds three whole-page
  scenarios.

The outside world appears as parameters:

- `apiKey` is the password held in session state. `""` stands for "none entered".
- `call` is what the model request produced once parsed: `None` when it raised,
  otherwise the JSON object as a map from keys to strings.
- `today` is the day the clock reports, already formatted.

Three details of the form shape the model:

- A reply missing `reasoning` or `answer` gets no placeholder. Indexing the missing
  key raises `KeyError`, the run stops and nothing is stored (`MissingField`).
- An empty reply object is falsy, so it stores nothing (`EmptyReply`).
- The page has only a text question; there is no image upload.

`sorted(set(dates), reverse=True)` is modelled by inserting each date into a
strictly descending list. `DescendingUnique` shows that only one strictly descending
list holds a given set of strings, so the two give the same result.

## Model

| member | source | states |
|---|---|---|
| `Notes.Title` | app.py:72 | The title is `"Q: "`, then the first `min(50, len)` characters of the question, then `"..."`. So it is at most 56 characters long. |
| `Notes.Submit` | app.py:43-78 | A note is built exactly when the form was submitted, the question is non-empty, a key is set, the call succeeded and the reply has both `reasoning` and `answer`. Without a key nothing is built. The new note has the question's title, the given day, category `"Data Science"`, the question verbatim, and the reply's reasoning and answer. |
| `Notes.Response` | app.py:43-60 | A reply reaches the note-building code exactly when a key is set and the request succeeded. It is then the request's own reply. |
| `Notes.Apply` | app.py:79 | After an add, the new note is at index 0. Every earlier note moves up exactly one index and the length grows by one. A skipped submission leaves the list equal to what it was. |
| `Session.NoteStore.constructor` | app.py:29-30 | A fresh session holds no note list. |
| `Session.NoteStore.Init` | app.py:29-40 | Seeds `[SampleNote]` only when no list exists. An existing list is left untouched. Afterwards the list exists and the sample note is its oldest element. |
| `Session.NoteStore.AddNote` | app.py:68-79 | The list becomes `Apply(old list, Submit(...))`. On success the new note is first and the old list follows unchanged. On every other outcome the list is unchanged. The sample note stays last. |
| `Session.RenderTwice` | app.py:30-40 | Seeding twice in one session leaves exactly one note, the sample dated `"2024-12-10"`. |
| `Session.SubmitWithoutKey` | app.py:43-70 | With no password, a submitted question stores nothing, whatever the model would reply. The list stays `[SampleNote]`. |
| `Session.BaggingScenario` | app.py:68-125 | Asking "What is bagging?" on 2025-01-01 and getting R1/A1 back gives these results. Filtering by that day shows exactly that note. The options are `["All", "2025-01-01", "2024-12-10"]`. The counts are 2 total and 1 filtered. |
| `Notes.Dates` | app.py:86 | The date list is strictly descending, and a string is in it exactly when it is some note's date. |
| `StrOrder.Insert` | app.py:89 | Inserting a date into a strictly descending list keeps it strictly descending. The result holds exactly the old elements plus the date. |
| `StrOrder.DescendingUnique` | app.py:89 | Two strictly descending lists with the same elements are equal. So the date list is the sorted-in-reverse set. |
| `Notes.DatesAreSortedSet` | app.py:86-89 | Any strictly descending list of exactly the note dates equals `Dates`. |
| `Notes.Options` | app.py:86-89 | The options are `"All"` followed by strictly descending, pairwise distinct dates. An option after the first is a note's date exactly when some note carries it. There are `1 + |distinct dates|` options. |
| `Notes.DatesAreNoteDates` | app.py:86 | The date list has no repeats. A string is in it exactly when some note carries that date. Its length is the number of distinct dates. |
| `StrOrder.Less` | app.py:89 | Python's string `<` holds exactly when `a` is a proper prefix of `b`, or when `a` has the smaller code point at the first position where the two differ. |
| `StrOrder.LessIrreflexive` | app.py:89 | No string sorts before itself. |
| `StrOrder.LessAsymmetric` | app.py:89 | If `a < b`, then `b < a` is false. |
| `StrOrder.LessTransitive` | app.py:89 | String order is transitive. |
| `StrOrder.LessTotal` | app.py:89 | Two different strings are always ordered one way or the other, so `sorted` has a single answer. |
| `StrOrder.IsoDateOrder` | app.py:73 | On `YYYY-MM-DD` strings, string order is calendar order (year, then month, then day). |
| `Notes.DatesNewestFirst` | app.py:86-89 | When every note has a `YYYY-MM-DD` date, the offered dates run from the newest calendar day to the oldest. |
| `Notes.OnDate` | app.py:95 | The comprehension keeps exactly the notes with the given date. Each such note keeps its multiplicity and every other note is dropped. The result is an order-preserving subsequence of the list and is no longer than it. |
| `Notes.Filter` | app.py:93-95 | With `"All"` the filter gives the stored list unchanged. With any other value it gives exactly the notes of that date, as an order-preserving subsequence. |
| `Notes.OfferedOptionNonEmpty` | app.py:86-95 | Choosing any offered option gives an empty view only when there are no notes at all. |
| `Notes.DatesPartitionNotes` | app.py:86-95 | The views of the offered dates, taken one after the other, hold every stored note exactly as often as it is stored, and no other note. So every note is shown under exactly one offered date, and the view lengths add up to the total. |
| `Notes.ViewsMultiset` | app.py:93-95 | Filtering by each date of a repeat-free list in turn yields every note dated in that list exactly as often as it is stored, and no other note. |
| `Session.LaterDayFirst` | app.py:86-89 | With two notes, where the second note's date sorts before the first's, the options are `["All", first date, second date]`. |
| `Session.OnlyFirstShown` | app.py:93-95 | With two notes on different days, choosing the first note's day shows only that note. |
| `Notes.Stats` | app.py:124-125 | The filtered count never exceeds the total. The two are equal when the filter is `"All"`. |

## Left out

- Page layout and widgets: page configuration, sidebar, text inputs, the form,
  expanders, and the markdown and success/error messages (app.py:7-27, 62-66,
  80-84, 97-123). The model keeps only the list those widgets read and write,
  and the two counts.
- The password field (app.py:14-24) is represented by the `apiKey` parameter.
  Constructing the client is not modelled. The client only exists in a run whose
  password field is non-empty. If the field is cleared after a key was stored,
  the request raises inside the `try` and is a `CallFailed` outcome.
- The chat-completion request and `json.loads` (app.py:48-57) are foreign network
  and library calls. They are represented by the abstract `call` parameter. Replies
  that are not JSON objects, and values that are not strings, are not modelled.
- The `KeyError` on a missing reply field stops the rest of that page run. The
  model records only that nothing is stored. What the page would have shown in
  that run is not modelled.
- `datetime.now()` (app.py:73) is a clock read, so the formatted day is a
  parameter.
- Persistence of `st.session_state` across reruns is framework plumbing. One
  `NoteStore` object stands for one session.
- boostingInfo.py is a constant dictionary of display text. It has no behaviour.
