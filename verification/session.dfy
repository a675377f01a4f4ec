/** The note list kept in one user's session state: seeded once, then grown at the front. */
module Session {
  import opened StrOrder
  import opened Notes

  class NoteStore {
    /** Whether the session state holds a note list yet. */
    var present: bool
    var notes: seq<Note>

    /** The seed note stays the oldest note: once the list exists it is never empty and
        the sample note is its last element. */
    ghost predicate Valid()
      reads this
    {
      (!present ==> notes == [])
      && (present ==> notes != [] && notes[|notes| - 1] == SampleNote)
    }

    /** A new session: no note list yet. */
    constructor ()
      ensures Valid() && !present && notes == []
    {
      present := false;
      notes := [];
    }

    /** Runs on every page render: seeds the list only when there is none. */
    method Init()
      requires Valid()
      modifies this
      ensures Valid() && present
      ensures old(present) ==> notes == old(notes)
      ensures !old(present) ==> notes == [SampleNote]
    {
      if !present {
        notes := [SampleNote];
        present := true;
      }
    }

    /** The note form: on success the new note becomes the first of the list; in every
        other case the list is left as it was. */
    method AddNote(submitted: bool, question: string, apiKey: string, call: Option<Reply>, today: string)
      returns (o: Outcome)
      requires Valid() && present
      modifies this
      ensures Valid() && present
      ensures o == Submit(submitted, question, apiKey, call, today)
      ensures notes == Apply(old(notes), o)
      ensures o.Added? ==> notes[0] == o.note && notes[1..] == old(notes)
    {
      o := Submit(submitted, question, apiKey, call, today);
      if o.Added? {
        notes := [o.note] + notes;
      }
    }
  }

  /** Rendering the page twice in a fresh session leaves exactly the sample note. */
  method RenderTwice() returns (shown: seq<Note>)
    ensures shown == [SampleNote]
  {
    var store := new NoteStore();
    store.Init();
    store.Init();
    shown := store.notes;
  }

  /** Without a password the form stores nothing, whatever the model would reply. */
  method SubmitWithoutKey(question: string, call: Option<Reply>, today: string)
    returns (o: Outcome, shown: seq<Note>)
    ensures o == Skipped(if question == "" then EmptyQuestion else NoApiKey)
    ensures shown == [SampleNote]
  {
    var store := new NoteStore();
    store.Init();
    o := store.AddNote(true, question, "", call, today);
    shown := store.notes;
  }

  /** The sample note's day sorts before 2025-01-01. */
  lemma SampleDayBefore()
    ensures Less(SampleNote.date, "2025-01-01")
  {
    var older, newer := SampleNote.date, "2025-01-01";
    assert Less(older[3..], newer[3..]);
    assert Less(older[2..], newer[2..]);
    assert Less(older[1..], newer[1..]);
  }

  /** Two notes, the first on a later day: the options are the sentinel, that day, then
      the earlier one. */
  lemma LaterDayFirst(n: Note, m: Note)
    requires Less(m.date, n.date)
    ensures Options([n, m]) == [All, n.date, m.date]
  {
    LessIrreflexive(n.date);
    assert [n, m][1..] == [m];
    assert Dates([m]) == [m.date];
  }

  /** Two notes on different days: filtering by the first one's day shows only it. */
  lemma OnlyFirstShown(n: Note, m: Note)
    requires n.date != m.date && n.date != All
    ensures Filter([n, m], n.date) == [n]
  {
    assert [n, m][1..] == [m];
    assert OnDate([m], n.date) == [];
  }

  /** One question answered on 2025-01-01 after the sample note of 2024-12-10. */
  method BaggingScenario() returns (shown: seq<Note>, options: seq<string>, counts: Counts)
    ensures |shown| == 1
    ensures shown[0].question == "What is bagging?" && shown[0].reasoning == "R1" && shown[0].answer == "A1"
    ensures options == [All, "2025-01-01", "2024-12-10"]
    ensures counts == Counts(2, 1)
  {
    var store := new NoteStore();
    store.Init();
    var reply := map["reasoning" := "R1", "answer" := "A1"];
    var o := store.AddNote(true, "What is bagging?", "secret", Some(reply), "2025-01-01");
    var older, newer := SampleNote.date, "2025-01-01";
    assert reply["reasoning"] == "R1" && reply["answer"] == "A1";
    assert o.Added? && store.notes == [o.note, SampleNote] && o.note.date == newer;
    assert o.note.question == "What is bagging?" && o.note.reasoning == "R1" && o.note.answer == "A1";
    OnlyFirstShown(o.note, SampleNote);
    shown := Filter(store.notes, newer);
    SampleDayBefore();
    LaterDayFirst(o.note, SampleNote);
    options := Options(store.notes);
    counts := Stats(store.notes, newer);
    assert shown == [o.note];
  }
}
