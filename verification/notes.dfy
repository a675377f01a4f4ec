/** The session's note records and everything the page computes from the note list:
    building a note from a submitted question, the date selector's options, the date
    filter and the two counts in the statistics panel. */
module Notes {
  import opened StrOrder

  datatype Option<T> = None | Some(value: T)

  /** One note record; every field is a string. */
  datatype Note = Note(
    title: string,
    date: string,
    category: string,
    question: string,
    reasoning: string,
    answer: string)

  const Category: string := "Data Science"

  /** The selector's sentinel that switches the filter off. */
  const All: string := "All"

  /** The note every session starts with. */
  const SampleNote: Note := Note(
    "Sample Data Science Note",
    "2024-12-10",
    Category,
    "What is the difference between bias and variance?",
    "This is a fundamental concept in machine learning that helps understand model performance.",
    "Bias is the error due to oversimplified assumptions in the learning algorithm. "
    + "Variance is the error due to too much complexity in the learning algorithm.")

  /** The JSON object the language model replies with, once parsed. */
  type Reply = map<string, string>

  /** Why a submission stored nothing. */
  datatype Skip =
    | NotSubmitted             // the form button was not pressed
    | EmptyQuestion            // the text area was empty
    | NoApiKey                 // no password entered: no request is sent
    | CallFailed               // the request or the JSON parsing raised
    | EmptyReply               // the parsed object is empty, hence falsy
    | MissingField(key: string) // the reply lacks a key: indexing it raises

  datatype Outcome = Added(note: Note) | Skipped(reason: Skip)

  /** The display title: `"Q: "`, the first 50 characters of the question, `"..."`. */
  function Title(question: string): (t: string)
    ensures |t| <= 56
    ensures |t| == 6 + (if |question| < 50 then |question| else 50)
    ensures t[..3] == "Q: " && t[|t| - 3..] == "..."
    ensures question[..|t| - 6] == t[3..|t| - 3]
  {
    var cut := if |question| < 50 then |question| else 50;
    "Q: " + question[..cut] + "..."
  }

  /** The reply that reaches the note-building code: nothing without a key, otherwise
      whatever the request produced (`None` when it raised). */
  function Response(apiKey: string, call: Option<Reply>): (r: Option<Reply>)
    ensures r.Some? <==> apiKey != "" && call.Some?
    ensures r.Some? ==> r.value == call.value
  {
    if apiKey == "" then None else call
  }

  /** One run of the form: what it stores, or why it stores nothing. `today` is the
      day the clock reports, already formatted. */
  function Submit(submitted: bool, question: string, apiKey: string, call: Option<Reply>, today: string)
    : (o: Outcome)
    ensures o.Added? <==>
      submitted && question != "" && apiKey != "" && call.Some?
      && "reasoning" in call.value && "answer" in call.value
    ensures apiKey == "" ==> !o.Added?
    ensures o.Added? ==>
      && o.note.title == Title(question)
      && o.note.date == today
      && o.note.category == Category
      && o.note.question == question
      && o.note.reasoning == call.value["reasoning"]
      && o.note.answer == call.value["answer"]
  {
    if !submitted then Skipped(NotSubmitted)
    else if question == "" then Skipped(EmptyQuestion)
    else
      match Response(apiKey, call)
      case None => Skipped(if apiKey == "" then NoApiKey else CallFailed)
      case Some(reply) =>
        if |reply| == 0 then Skipped(EmptyReply)
        else if "reasoning" !in reply then Skipped(MissingField("reasoning"))
        else if "answer" !in reply then Skipped(MissingField("answer"))
        else Added(Note(Title(question), today, Category, question, reply["reasoning"], reply["answer"]))
  }

  /** The note list after a submission: a new note goes in front of all others. */
  function Apply(notes: seq<Note>, o: Outcome): (r: seq<Note>)
    ensures o.Skipped? ==> r == notes
    ensures o.Added? ==> |r| == |notes| + 1 && r[0] == o.note
    ensures o.Added? ==> forall i :: 0 <= i < |notes| ==> r[i + 1] == notes[i]
  {
    if o.Added? then [o.note] + notes else notes
  }

  /** The set of dates the notes carry. */
  function DateSet(notes: seq<Note>): set<string>
  {
    set n | n in notes :: n.date
  }

  /** The distinct note dates, newest (greatest) first. */
  function Dates(notes: seq<Note>): (ds: seq<string>)
    ensures Descending(ds)
    ensures forall d :: d in ds <==> d in DateSet(notes)
  {
    if notes == [] then []
    else
      var rest := Dates(notes[1..]);
      assert forall d :: d in DateSet(notes) <==> d == notes[0].date || d in DateSet(notes[1..]) by {
        assert forall n :: n in notes <==> n == notes[0] || n in notes[1..] by {
          assert notes == [notes[0]] + notes[1..];
        }
      }
      Insert(notes[0].date, rest)
  }

  /** The selector's entries: the sentinel, then every note date exactly once, strictly
      descending; each option after the sentinel is the date of a stored note. */
  function Options(notes: seq<Note>): (opts: seq<string>)
    ensures |opts| == 1 + |DateSet(notes)| && opts[0] == All
    ensures Descending(opts[1..]) && Distinct(opts[1..])
    ensures forall d :: d in opts[1..] <==> exists i :: 0 <= i < |notes| && notes[i].date == d
  {
    DatesAreNoteDates(notes);
    var opts := [All] + Dates(notes);
    assert opts[1..] == Dates(notes);
    opts
  }

  /** The notes dated `date`, in list order. */
  function OnDate(notes: seq<Note>, date: string): (r: seq<Note>)
    ensures |r| <= |notes|
    ensures forall i :: 0 <= i < |r| ==> r[i].date == date
    ensures forall n :: multiset(r)[n] == if n.date == date then multiset(notes)[n] else 0
    ensures IsSubsequence(r, notes)
  {
    if notes == [] then []
    else
      var rest := OnDate(notes[1..], date);
      assert notes == [notes[0]] + notes[1..];
      if notes[0].date == date then
        assert ([notes[0]] + rest)[1..] == rest;
        [notes[0]] + rest
      else rest
  }

  /** `r` is `s` with some elements left out, the rest in their order. */
  predicate IsSubsequence<T(==)>(r: seq<T>, s: seq<T>)
    decreases |s|
  {
    r == [] || (s != [] && ((r[0] == s[0] && IsSubsequence(r[1..], s[1..])) || IsSubsequence(r, s[1..])))
  }

  /** The notes shown for the selector's value. */
  function Filter(notes: seq<Note>, selected: string): (r: seq<Note>)
    ensures selected == All ==> r == notes
    ensures selected != All ==> IsSubsequence(r, notes)
    ensures selected != All ==> forall i :: 0 <= i < |r| ==> r[i].date == selected
    ensures selected != All ==>
      forall n :: multiset(r)[n] == if n.date == selected then multiset(notes)[n] else 0
  {
    if selected != All then OnDate(notes, selected) else notes
  }

  datatype Counts = Counts(total: nat, filtered: nat)

  /** The statistics panel: the number of notes and the number shown. */
  function Stats(notes: seq<Note>, selected: string): (c: Counts)
    ensures c.total == |notes| && c.filtered == |Filter(notes, selected)|
    ensures c.filtered <= c.total
    ensures selected == All ==> c.filtered == c.total
  {
    Counts(|notes|, |Filter(notes, selected)|)
  }

  // Properties of the selector and the filter.

  /** The date list holds no repeats, exactly the dates some note carries, and as many
      entries as there are distinct dates. */
  lemma DatesAreNoteDates(notes: seq<Note>)
    ensures Distinct(Dates(notes))
    ensures forall d :: d in Dates(notes) <==> exists i :: 0 <= i < |notes| && notes[i].date == d
    ensures |Dates(notes)| == |DateSet(notes)|
  {
    var ds := Dates(notes);
    DescendingDistinct(ds);
    forall d
      ensures d in ds <==> exists i :: 0 <= i < |notes| && notes[i].date == d
    {
      if d in ds {
        var n :| n in notes && n.date == d;
        var i :| 0 <= i < |notes| && notes[i] == n;
      }
      if exists i :: 0 <= i < |notes| && notes[i].date == d {
        var i :| 0 <= i < |notes| && notes[i].date == d;
        assert notes[i] in notes;
      }
    }
    DistinctCardinality(ds);
    assert (set x | x in ds) == DateSet(notes);
  }

  /** A list without repeats has as many elements as its set. */
  lemma {:induction false} DistinctCardinality(s: seq<string>)
    requires Distinct(s)
    ensures |set x | x in s| == |s|
  {
    if s != [] {
      DistinctCardinality(s[1..]);
      assert (set x | x in s) == {s[0]} + (set x | x in s[1..]) by {
        assert s == [s[0]] + s[1..];
      }
      assert s[0] !in s[1..];
    }
  }

  /** The date list is the one and only strictly descending list of the note dates:
      what `sorted(set(dates), reverse=True)` yields. */
  lemma DatesAreSortedSet(notes: seq<Note>, ds: seq<string>)
    requires Descending(ds)
    requires forall d :: d in ds <==> d in DateSet(notes)
    ensures ds == Dates(notes)
  {
    DescendingUnique(ds, Dates(notes));
  }

  /** When every note carries a `YYYY-MM-DD` date, the options after the sentinel run
      from the newest calendar day to the oldest. */
  lemma DatesNewestFirst(notes: seq<Note>)
    requires forall i :: 0 <= i < |notes| ==> IsIsoDate(notes[i].date)
    ensures forall d :: d in Dates(notes) ==> IsIsoDate(d)
    ensures forall i, j :: 0 <= i < j < |Dates(notes)| ==> Earlier(Dates(notes)[j], Dates(notes)[i])
  {
    var ds := Dates(notes);
    forall d | d in ds
      ensures IsIsoDate(d)
    {
      var n :| n in notes && n.date == d;
      var i :| 0 <= i < |notes| && notes[i] == n;
    }
    forall i, j | 0 <= i < j < |ds|
      ensures Earlier(ds[j], ds[i])
    {
      assert ds[i] in ds && ds[j] in ds;
      IsoDateOrder(ds[j], ds[i]);
    }
  }

  /** Choosing an offered option never shows an empty list unless there are no notes. */
  lemma OfferedOptionNonEmpty(notes: seq<Note>, selected: string)
    requires selected in Options(notes)
    ensures Filter(notes, selected) == [] <==> notes == []
  {
    if selected != All {
      assert selected in Dates(notes);
      var n :| n in notes && n.date == selected;
      assert multiset(Filter(notes, selected))[n] == multiset(notes)[n] > 0;
    }
  }

  // Filtering by every date in turn accounts for each note exactly once.

  /** The notes of each date of `ds` in turn, one view after the other. */
  function Views(notes: seq<Note>, ds: seq<string>): seq<Note>
  {
    if ds == [] then [] else OnDate(notes, ds[0]) + Views(notes, ds[1..])
  }

  /** Over a repeat-free list of dates, the views hold each note dated in the list as
      often as the notes do, and no other note. */
  lemma {:induction false} ViewsMultiset(notes: seq<Note>, ds: seq<string>)
    requires Distinct(ds)
    ensures forall n :: multiset(Views(notes, ds))[n] == if n.date in ds then multiset(notes)[n] else 0
  {
    if ds != [] {
      ViewsMultiset(notes, ds[1..]);
      assert ds == [ds[0]] + ds[1..];
      assert ds[0] !in ds[1..];
    }
  }

  /** Every note is shown under exactly one offered date: the views of all offered dates
      together are the stored notes, each as often as it is stored, so their lengths add
      up to the total. */
  lemma DatesPartitionNotes(notes: seq<Note>)
    ensures multiset(Views(notes, Dates(notes))) == multiset(notes)
    ensures |Views(notes, Dates(notes))| == |notes|
  {
    var ds := Dates(notes);
    DescendingDistinct(ds);
    ViewsMultiset(notes, ds);
    forall n | n in multiset(notes)
      ensures n.date in ds
    {
      assert n in notes;
    }
    var v := Views(notes, ds);
    assert multiset(v) == multiset(notes);
    assert |multiset(v)| == |v| && |multiset(notes)| == |notes|;
  }
}
