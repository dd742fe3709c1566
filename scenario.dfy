/**
 * A client of the manager that uses only the contracts above: a note is
 * created, tagged, given an image and saved; a second manager started on the
 * files the first one left behind finds the same note.
 */
module Scenario {
  import opened Wrappers
  import opened Text
  import opened Notes
  import opened Manager

  const CartFile: string := "20261014120001ghijkl" + Ext("/tmp/cart.png")

  /** A fresh manager with one note, titled "Shopping", tagged "home" and "urgent", and saved. */
  method TaggedShoppingNote() returns (m: NotesManager, note: Note)
    ensures fresh(m) && fresh(note) && m.notes == [note]
    ensures note.Record() == NoteRecord("20261014120000abcdef", "Shopping", "", [], 10, 13, ["home", "urgent"])
    ensures m.notesFile == Stored([note.Record()]) && m.imageFiles == map[]
  {
    var started := NotesManager.NewNotesManager("/home/u/.datapad", true, true, Missing, map[]);
    m := started.value;
    note := m.CreateNote("Shopping", "20261014120000abcdef", 10);
    note.AddTag("home", 11);
    note.AddTag("urgent", 12);
    m.UpdateNote(note, 13, true);
    assert m.notes[0] in multiset(m.notes);
  }

  /** Importing "/tmp/cart.png" into that note stores the bytes and saves the note with the image attached. */
  method AttachCart(m: NotesManager, note: Note)
    requires m.notes == [note] && note.images == []
    modifies m, note
    ensures m.notes == [note]
    ensures note.Record() == old(note.Record()).(images := [Image("20261014120001mnopqr", CartFile, "cart", "a shopping cart", 0)], updatedAt := 15)
    ensures m.notesFile == Stored([note.Record()])
    ensures m.imageFiles == old(m.imageFiles)[CartFile := [1, 2, 3]]
  {
    var copied := CopyOutcome(true, true, Some([1, 2, 3]), true, 3);
    assert FirstWithId(m.notes, note.id) == Some(0);
    var err := m.ImportImage(note.id, "/tmp/cart.png", "cart", "a shopping cart",
                             "20261014120001ghijkl", "20261014120001mnopqr", copied, 14, 15, true);
    assert m.notes[0] in multiset(m.notes);
  }

  /** A manager started on a notes file holding one record holds one note with exactly that value, beside the same image files. */
  method Restart(rec: NoteRecord, images: map<string, seq<byte>>) returns (m2: NotesManager)
    ensures |m2.notes| == 1 && m2.notes[0].Record() == rec
    ensures m2.imageFiles == images
  {
    var restarted := NotesManager.NewNotesManager("/home/u/.datapad", true, true, Stored([rec]), images);
    m2 := restarted.value;
    assert |Snapshot(m2.notes)| == 1;
    assert Snapshot(m2.notes)[0] == m2.notes[0].Record();
  }

  /** The whole round trip. */
  method ShoppingRoundTrip() {
    var m, note := TaggedShoppingNote();
    AttachCart(m, note);
    var m2 := Restart(note.Record(), m.imageFiles);
    var reloaded := m2.notes[0];
    assert reloaded.images == [Image("20261014120001mnopqr", CartFile, "cart", "a shopping cart", 0)];
    assert reloaded.title == "Shopping" && reloaded.tags == ["home", "urgent"];
    assert reloaded.images[0].caption == "cart";
    assert m2.imageFiles[reloaded.images[0].path] == [1, 2, 3];
  }
}
