/**
 * The notes collection manager (internal/notes/manager.go): an ordered
 * collection of note objects, the queries over it, and the operations that
 * change it and write it to the notes file.
 *
 * The file system is abstract: `notesFile` is what the notes file in the
 * storage directory holds, `imageFiles` the contents of the image directory by
 * file name, and each I/O step's success is a parameter.
 */
module Manager {
  import opened Wrappers
  import opened Seqs
  import opened Text
  import opened Notes

  newtype byte = x: int | 0 <= x < 256

  datatype NotesError =
    | NoteNotFound
    | StorageDirFailed
    | ImageDirFailed
    | NotesFileMissing
    | NotesFileUnreadable
    | NotesFileMalformed
    | LoadFailed(cause: NotesError)
    | SourceOpenFailed
    | DestinationCreateFailed
    | SourceReadFailed
    | ImageWriteFailed
    | NotesWriteFailed

  /** The state of the notes file: absent, not readable, not decodable, or a decoded list of notes. */
  datatype NotesFile = Missing | Unreadable | Malformed | Stored(records: seq<NoteRecord>)

  /**
   * How the four steps of copying an image go: opening the source, creating the
   * destination, reading the source (its bytes, or None) and writing them. When
   * the write fails, `bytesWritten` is how many bytes reached the destination
   * before it failed.
   */
  datatype CopyOutcome = CopyOutcome(
    sourceOpens: bool, destinationCreated: bool, sourceData: Option<seq<byte>>,
    destinationWritten: bool, bytesWritten: nat)

  /** The first failing copy step, in the order ImportImage tries them. */
  function CopyFailure(c: CopyOutcome): (r: Option<NotesError>)
    ensures r.None? <==> c.sourceOpens && c.destinationCreated && c.sourceData.Some? && c.destinationWritten
    ensures r == Some(SourceOpenFailed) <==> !c.sourceOpens
    ensures r == Some(DestinationCreateFailed) <==> c.sourceOpens && !c.destinationCreated
    ensures r == Some(SourceReadFailed) <==> c.sourceOpens && c.destinationCreated && c.sourceData.None?
    ensures r == Some(ImageWriteFailed) <==> c.sourceOpens && c.destinationCreated && c.sourceData.Some? && !c.destinationWritten
  {
    if !c.sourceOpens then Some(SourceOpenFailed)
    else if !c.destinationCreated then Some(DestinationCreateFailed)
    else if c.sourceData.None? then Some(SourceReadFailed)
    else if !c.destinationWritten then Some(ImageWriteFailed)
    else None
  }

  /** What a failed write leaves in the destination: the part of the source's bytes written before the failure. */
  function PartialWrite(c: CopyOutcome): (r: seq<byte>)
    requires c.sourceData.Some?
    ensures r <= c.sourceData.value
    ensures |r| == if c.bytesWritten < |c.sourceData.value| then c.bytesWritten else |c.sourceData.value|
  {
    var data := c.sourceData.value;
    if c.bytesWritten < |data| then data[..c.bytesWritten] else data
  }

  /** filepath.Join for a directory and a plain file name: the directory, one separator, then the name. */
  function Join(dir: string, name: string): (r: string)
    ensures |r| == |dir| + 1 + |name|
    ensures r[..|dir|] == dir && r[|dir|] == '/' && r[|dir| + 1..] == name
  {
    dir + "/" + name
  }

  // ---- Specifications of the queries ----

  /** The position of the first note with the given ID, if any. */
  function FirstWithId(ns: seq<Note>, id: string): (r: Option<nat>)
    ensures r.Some? ==> r.value < |ns| && ns[r.value].id == id
    ensures r.Some? ==> forall j :: 0 <= j < r.value ==> ns[j].id != id
    ensures r.None? <==> forall j :: 0 <= j < |ns| ==> ns[j].id != id
  {
    if ns == [] then None
    else if ns[0].id == id then Some(0)
    else match FirstWithId(ns[1..], id)
      case None => None
      case Some(k) => Some(k + 1)
  }

  /** A note matches a query when its title or its content contains it, ignoring case. */
  predicate Matches(n: Note, query: string)
    reads n
  {
    ContainsFolded(n.title, query) || ContainsFolded(n.content, query)
  }

  /** The notes matching `query`, in their order in `ns`. */
  function Searched(ns: seq<Note>, query: string): seq<Note>
    reads ns
    decreases |ns|
  {
    if ns == [] then []
    else
      var r := Searched(ns[..|ns| - 1], query);
      if Matches(ns[|ns| - 1], query) then r + [ns[|ns| - 1]] else r
  }

  /** Every note of the search result is a note of `ns` that matches. */
  lemma {:induction false} SearchedSound(ns: seq<Note>, query: string)
    ensures forall k :: 0 <= k < |Searched(ns, query)| ==> Searched(ns, query)[k] in ns && Matches(Searched(ns, query)[k], query)
    decreases |ns|
  {
    if ns != [] {
      var front, last := ns[..|ns| - 1], ns[|ns| - 1];
      SearchedSound(front, query);
      var r, rf := Searched(ns, query), Searched(front, query);
      forall k | 0 <= k < |r|
        ensures r[k] in ns && Matches(r[k], query)
      {
        if k < |rf| {
          assert r[k] == rf[k] && rf[k] in front;
        } else {
          assert r[k] == last;
        }
      }
    }
  }

  /** Every note of `ns` that matches is in the search result. */
  lemma {:induction false} SearchedComplete(ns: seq<Note>, query: string)
    ensures forall k :: 0 <= k < |ns| && Matches(ns[k], query) ==> ns[k] in Searched(ns, query)
    decreases |ns|
  {
    if ns != [] {
      var front, last := ns[..|ns| - 1], ns[|ns| - 1];
      SearchedComplete(front, query);
      var r, rf := Searched(ns, query), Searched(front, query);
      assert forall x :: x in rf ==> x in r;
      forall k | 0 <= k < |ns| && Matches(ns[k], query)
        ensures ns[k] in r
      {
        if k < |front| {
          assert ns[k] == front[k];
        }
      }
    }
  }

  /** The search result keeps the order of `ns`: it is a subsequence of it. */
  lemma {:induction false} SearchedInOrder(ns: seq<Note>, query: string)
    ensures IsSubsequence(Searched(ns, query), ns)
    decreases |ns|
  {
    if ns != [] {
      var front, last := ns[..|ns| - 1], ns[|ns| - 1];
      assert ns == front + [last];
      SearchedInOrder(front, query);
      SubsequenceSnoc(Searched(front, query), front, last);
    }
  }

  /** A note shares a tag with `filter` when one of its tags is in it. */
  predicate SharesTag(n: Note, filter: seq<string>)
    reads n
  {
    Overlap(n.tags, filter)
  }

  /** Some element of `a` is in `b`. */
  predicate Overlap(a: seq<string>, b: seq<string>)
    decreases |a|
  {
    |a| > 0 && (Overlap(a[..|a| - 1], b) || a[|a| - 1] in b)
  }

  /** Overlap means a common element. */
  lemma {:induction false} OverlapMeansCommonElement(a: seq<string>, b: seq<string>)
    ensures Overlap(a, b) <==> exists t :: t in a && t in b
    decreases |a|
  {
    if |a| > 0 {
      var front := a[..|a| - 1];
      assert a == front + [a[|a| - 1]];
      OverlapMeansCommonElement(front, b);
    }
  }

  /** The notes sharing a tag with `filter`, in their order in `ns`. */
  function Tagged(ns: seq<Note>, filter: seq<string>): seq<Note>
    reads ns
    decreases |ns|
  {
    if ns == [] then []
    else
      var r := Tagged(ns[..|ns| - 1], filter);
      if SharesTag(ns[|ns| - 1], filter) then r + [ns[|ns| - 1]] else r
  }

  /** Every note of the tag filter is a note of `ns` that shares a tag. */
  lemma {:induction false} TaggedSound(ns: seq<Note>, filter: seq<string>)
    ensures forall k :: 0 <= k < |Tagged(ns, filter)| ==> Tagged(ns, filter)[k] in ns && SharesTag(Tagged(ns, filter)[k], filter)
    decreases |ns|
  {
    if ns != [] {
      var front, last := ns[..|ns| - 1], ns[|ns| - 1];
      TaggedSound(front, filter);
      var r, rf := Tagged(ns, filter), Tagged(front, filter);
      forall k | 0 <= k < |r|
        ensures r[k] in ns && SharesTag(r[k], filter)
      {
        if k < |rf| {
          assert r[k] == rf[k] && rf[k] in front;
        } else {
          assert r[k] == last;
        }
      }
    }
  }

  /** Every note of `ns` that shares a tag is in the tag filter. */
  lemma {:induction false} TaggedComplete(ns: seq<Note>, filter: seq<string>)
    ensures forall k :: 0 <= k < |ns| && SharesTag(ns[k], filter) ==> ns[k] in Tagged(ns, filter)
    decreases |ns|
  {
    if ns != [] {
      var front, last := ns[..|ns| - 1], ns[|ns| - 1];
      TaggedComplete(front, filter);
      var r, rf := Tagged(ns, filter), Tagged(front, filter);
      assert forall x :: x in rf ==> x in r;
      forall k | 0 <= k < |ns| && SharesTag(ns[k], filter)
        ensures ns[k] in r
      {
        if k < |front| {
          assert ns[k] == front[k];
        }
      }
    }
  }

  /** The tag filter keeps the order of `ns`: it is a subsequence of it. */
  lemma {:induction false} TaggedInOrder(ns: seq<Note>, filter: seq<string>)
    ensures IsSubsequence(Tagged(ns, filter), ns)
    decreases |ns|
  {
    if ns != [] {
      var front, last := ns[..|ns| - 1], ns[|ns| - 1];
      assert ns == front + [last];
      TaggedInOrder(front, filter);
      SubsequenceSnoc(Tagged(front, filter), front, last);
    }
  }

  /** With a single filter tag, the filter keeps exactly the notes carrying that tag. */
  lemma SingleTagFilter(ns: seq<Note>, tag: string)
    ensures var r := Tagged(ns, [tag]);
      && (forall k :: 0 <= k < |r| ==> r[k] in ns && tag in r[k].tags)
      && (forall k :: 0 <= k < |ns| && tag in ns[k].tags ==> ns[k] in r)
  {
    TaggedSound(ns, [tag]);
    TaggedComplete(ns, [tag]);
    forall n | n in ns
      ensures SharesTag(n, [tag]) <==> tag in n.tags
    {
      OverlapMeansCommonElement(n.tags, [tag]);
    }
  }

  /** The inner loops of FilterByTags: does some tag of `noteTags` occur in `filter`? */
  method HasAnyTag(noteTags: seq<string>, filter: seq<string>) returns (matched: bool)
    ensures matched <==> Overlap(noteTags, filter)
  {
    matched := false;
    var j := 0;
    while j < |noteTags|
      invariant 0 <= j <= |noteTags|
      invariant !matched
      invariant !Overlap(noteTags[..j], filter)
    {
      var noteTag := noteTags[j];
      assert noteTags[..j + 1][..j] == noteTags[..j];
      var f := 0;
      while f < |filter|
        invariant 0 <= f <= |filter|
        invariant !matched
        invariant forall g :: 0 <= g < f ==> filter[g] != noteTag
      {
        if noteTag == filter[f] {
          matched := true;
          break;
        }
        f := f + 1;
      }
      if matched {
        assert Overlap(noteTags[..j + 1], filter);
        assert Overlap(noteTags, filter) by {
          OverlapPrefix(noteTags, filter, j + 1);
        }
        break;
      }
      j := j + 1;
    }
    if !matched {
      assert noteTags[..j] == noteTags;
    }
  }

  /** A sequence overlapping `b` in a prefix overlaps it. */
  lemma {:induction false} OverlapPrefix(a: seq<string>, b: seq<string>, n: nat)
    requires n <= |a|
    requires Overlap(a[..n], b)
    ensures Overlap(a, b)
    decreases |a|
  {
    if n < |a| {
      var front := a[..|a| - 1];
      assert front[..n] == a[..n];
      OverlapPrefix(front, b, n);
    } else {
      assert a[..n] == a;
    }
  }

  /** Every tag used by a note of `ns`. */
  ghost function AllTags(ns: seq<Note>): (r: set<string>)
    reads ns
    ensures forall t :: t in r <==> exists k :: 0 <= k < |ns| && t in ns[k].tags
    decreases |ns|
  {
    if ns == [] then {}
    else
      var front, last := ns[..|ns| - 1], ns[|ns| - 1];
      var r := AllTags(front);
      assert forall k :: 0 <= k < |front| ==> front[k] == ns[k];
      r + set t | t in last.tags
  }

  /** Most recently updated first, as SaveNotes leaves the collection. */
  predicate NewestFirst(ns: seq<Note>)
    reads ns
  {
    forall i, j :: 0 <= i < j < |ns| ==> ns[i].updatedAt >= ns[j].updatedAt
  }

  /** The values of the notes, in order: what the notes file receives. */
  function Snapshot(ns: seq<Note>): seq<NoteRecord>
    reads ns
  {
    seq(|ns|, i requires 0 <= i < |ns| reads ns => ns[i].Record())
  }

  /** The sort step of SaveNotes: a permutation of `s`, newest first; ties come in no promised order. */
  method SortByRecency(s: seq<Note>) returns (r: seq<Note>)
    ensures multiset(r) == multiset(s)
    ensures NewestFirst(r)
  {
    r := s;
    var i := 0;
    while i < |r|
      invariant 0 <= i <= |r| == |s|
      invariant multiset(r) == multiset(s)
      invariant forall a, b :: 0 <= a < b < i ==> r[a].updatedAt >= r[b].updatedAt
    {
      var j := i;
      while j > 0 && r[j].updatedAt > r[j - 1].updatedAt
        invariant 0 <= j <= i < |r| == |s|
        invariant multiset(r) == multiset(s)
        invariant forall a, b :: 0 <= a < b <= i && a != j && b != j ==> r[a].updatedAt >= r[b].updatedAt
        invariant forall b :: j < b <= i ==> r[j].updatedAt >= r[b].updatedAt
      {
        r := Swap(r, j - 1, j);
        j := j - 1;
      }
      i := i + 1;
    }
  }

  /** The keys of `m`, each once, in no particular order (Go's `for k := range m`). */
  method KeyList(m: map<string, bool>) returns (list: seq<string>)
    ensures Distinct(list)
    ensures forall t :: t in list <==> t in m
  {
    list := [];
    var keys := m.Keys;
    while keys != {}
      invariant keys <= m.Keys
      invariant forall t :: t in m <==> t in keys || t in list
      invariant forall t :: t in list ==> t !in keys
      invariant Distinct(list)
      decreases |keys|
    {
      var t :| t in keys;
      list := list + [t];
      keys := keys - {t};
    }
  }

  // ---- The manager ----

  class NotesManager {
    var notes: seq<Note>
    var storagePath: string
    var imageDir: string
    /** What the notes file in the storage directory holds. */
    var notesFile: NotesFile
    /** The files in the image directory, by name. */
    var imageFiles: map<string, seq<byte>>

    /** The manager before loading: no notes, the image directory under the storage directory. */
    constructor (storagePath: string, file: NotesFile, images: map<string, seq<byte>>)
      ensures notes == [] && this.storagePath == storagePath && imageDir == Join(storagePath, "images")
      ensures notesFile == file && imageFiles == images
    {
      notes := [];
      this.storagePath := storagePath;
      imageDir := Join(storagePath, "images");
      notesFile := file;
      imageFiles := images;
    }

    /**
     * NewNotesManager: after both directories are made, loads the notes file. A
     * missing file gives an empty collection; any other load error is fatal.
     */
    static method NewNotesManager(storagePath: string, storageDirMade: bool, imageDirMade: bool,
                                  file: NotesFile, images: map<string, seq<byte>>)
      returns (r: Result<NotesManager, NotesError>)
      ensures !storageDirMade ==> r == Failure(StorageDirFailed)
      ensures storageDirMade && !imageDirMade ==> r == Failure(ImageDirFailed)
      ensures storageDirMade && imageDirMade && file.Unreadable? ==> r == Failure(LoadFailed(NotesFileUnreadable))
      ensures storageDirMade && imageDirMade && file.Malformed? ==> r == Failure(LoadFailed(NotesFileMalformed))
      ensures storageDirMade && imageDirMade && (file.Missing? || file.Stored?) ==> r.Success?
      ensures r.Success? ==>
        var m := r.value;
        && fresh(m)
        && m.storagePath == storagePath && m.imageDir == Join(storagePath, "images")
        && m.notesFile == file && m.imageFiles == images
        && (file.Missing? ==> m.notes == [])
        && (file.Stored? ==> Snapshot(m.notes) == file.records && forall n :: n in m.notes ==> fresh(n))
    {
      if !storageDirMade {
        return Failure(StorageDirFailed);
      }
      if !imageDirMade {
        return Failure(ImageDirFailed);
      }
      var m := new NotesManager(storagePath, file, images);
      var err := m.LoadNotes();
      if err.Some? && err.value != NotesFileMissing {
        return Failure(LoadFailed(err.value));
      }
      return Success(m);
    }

    /** LoadNotes: replaces the collection by fresh notes decoded from the notes file, or reports why it cannot. */
    method LoadNotes() returns (err: Option<NotesError>)
      modifies this
      ensures err == match old(notesFile)
        case Missing => Some(NotesFileMissing)
        case Unreadable => Some(NotesFileUnreadable)
        case Malformed => Some(NotesFileMalformed)
        case Stored(_) => None
      ensures err.Some? ==> notes == old(notes)
      ensures err.None? ==> Snapshot(notes) == old(notesFile).records && forall n :: n in notes ==> fresh(n)
      ensures storagePath == old(storagePath) && imageDir == old(imageDir)
      ensures notesFile == old(notesFile) && imageFiles == old(imageFiles)
    {
      if !notesFile.Stored? {
        err := if notesFile.Missing? then Some(NotesFileMissing)
               else if notesFile.Unreadable? then Some(NotesFileUnreadable)
               else Some(NotesFileMalformed);
      } else {
        var records := notesFile.records;
        var loaded: seq<Note> := [];
        var i := 0;
        while i < |records|
          invariant 0 <= i <= |records| && |loaded| == i
          invariant forall k :: 0 <= k < i ==> fresh(loaded[k]) && loaded[k].Record() == records[k]
          invariant notes == old(notes) && notesFile == old(notesFile) && imageFiles == old(imageFiles)
          invariant storagePath == old(storagePath) && imageDir == old(imageDir)
        {
          var n := new Note.FromRecord(records[i]);
          loaded := loaded + [n];
          i := i + 1;
        }
        notes := loaded;
        err := None;
      }
    }

    /** CreateNote: a new note with the given ID and title, created at `now`, appended to the collection. */
    method CreateNote(title: string, id: string, now: Time) returns (note: Note)
      modifies this
      ensures fresh(note)
      ensures note.Record() == NoteRecord(id, title, "", [], now, now, [])
      ensures notes == old(notes) + [note]
      ensures storagePath == old(storagePath) && imageDir == old(imageDir)
      ensures notesFile == old(notesFile) && imageFiles == old(imageFiles)
    {
      note := new Note(id, title, now);
      notes := notes + [note];
    }

    /** GetNoteByID: the first note with the ID, or NoteNotFound exactly when no note has it. */
    method GetNoteByID(id: string) returns (r: Result<Note, NotesError>)
      ensures r.Success? <==> exists k :: 0 <= k < |notes| && notes[k].id == id
      ensures r.Success? ==> FirstWithId(notes, id).Some? && r.value == notes[FirstWithId(notes, id).value]
      ensures r.Failure? ==> r.error == NoteNotFound
    {
      var i := 0;
      while i < |notes|
        invariant 0 <= i <= |notes|
        invariant forall k :: 0 <= k < i ==> notes[k].id != id
      {
        if notes[i].id == id {
          return Success(notes[i]);
        }
        i := i + 1;
      }
      return Failure(NoteNotFound);
    }

    /**
     * SaveNotes: reorders the collection newest first and writes the values of
     * all notes to the notes file; `written` says whether the write succeeds.
     */
    method SaveNotes(written: bool) returns (err: Option<NotesError>)
      modifies this
      ensures multiset(notes) == multiset(old(notes)) && NewestFirst(notes)
      ensures err == if written then None else Some(NotesWriteFailed)
      ensures notesFile == if written then Stored(Snapshot(notes)) else old(notesFile)
      ensures storagePath == old(storagePath) && imageDir == old(imageDir) && imageFiles == old(imageFiles)
    {
      notes := SortByRecency(notes);
      if !written {
        return Some(NotesWriteFailed);
      }
      notesFile := Stored(Snapshot(notes));
      return None;
    }

    /** UpdateNote: stamps the note with `now` and saves; the save's error is dropped. */
    method UpdateNote(note: Note, now: Time, written: bool)
      modifies this, note
      ensures note.Record() == old(note.Record()).(updatedAt := now)
      ensures multiset(notes) == multiset(old(notes)) && NewestFirst(notes)
      ensures notesFile == if written then Stored(Snapshot(notes)) else old(notesFile)
      ensures storagePath == old(storagePath) && imageDir == old(imageDir) && imageFiles == old(imageFiles)
    {
      note.updatedAt := now;
      var _ := SaveNotes(written);
    }

    /**
     * DeleteNote: removes the first note with the ID, keeping the order of the
     * others, and saves; NoteNotFound, with nothing changed, when no note has it.
     */
    method DeleteNote(id: string, written: bool) returns (err: Option<NotesError>)
      modifies this
      ensures FirstWithId(old(notes), id).None? ==>
        err == Some(NoteNotFound) && notes == old(notes) && notesFile == old(notesFile)
      ensures FirstWithId(old(notes), id).Some? ==>
        var i := FirstWithId(old(notes), id).value;
        && multiset(notes) == multiset(old(notes)[..i] + old(notes)[i + 1..])
        && multiset(notes) == multiset(old(notes)) - multiset{old(notes)[i]}
        && |notes| == |old(notes)| - 1
        && NewestFirst(notes)
        && err == (if written then None else Some(NotesWriteFailed))
        && notesFile == if written then Stored(Snapshot(notes)) else old(notesFile)
      ensures storagePath == old(storagePath) && imageDir == old(imageDir) && imageFiles == old(imageFiles)
    {
      var i := 0;
      while i < |notes|
        invariant 0 <= i <= |notes|
        invariant forall k :: 0 <= k < i ==> notes[k].id != id
        invariant notes == old(notes)
      {
        if notes[i].id == id {
          assert FirstWithId(notes, id) == Some(i);
          SpliceMultiset(notes, i);
          notes := notes[..i] + notes[i + 1..];
          err := SaveNotes(written);
          return;
        }
        i := i + 1;
      }
      return Some(NoteNotFound);
    }

    /** SearchNotes: the whole collection for "", otherwise the notes whose title or content contains the query, ignoring case. */
    method SearchNotes(query: string) returns (r: seq<Note>)
      ensures query == "" ==> r == notes
      ensures query != "" ==> r == Searched(notes, query)
    {
      if query == "" {
        return notes;
      }
      var q := Lower(query);
      r := [];
      var i := 0;
      while i < |notes|
        invariant 0 <= i <= |notes|
        invariant r == Searched(notes[..i], query)
      {
        var note := notes[i];
        assert notes[..i + 1][..i] == notes[..i];
        if Contains(Lower(note.title), q) || Contains(Lower(note.content), q) {
          r := r + [note];
        }
        i := i + 1;
      }
      assert notes[..i] == notes;
    }

    /** FilterByTags: the whole collection for no tags, otherwise the notes having at least one of them. */
    method FilterByTags(tags: seq<string>) returns (r: seq<Note>)
      ensures |tags| == 0 ==> r == notes
      ensures |tags| > 0 ==> r == Tagged(notes, tags)
    {
      if |tags| == 0 {
        return notes;
      }
      r := [];
      var i := 0;
      while i < |notes|
        invariant 0 <= i <= |notes|
        invariant r == Tagged(notes[..i], tags)
      {
        var note := notes[i];
        var matched := HasAnyTag(note.tags, tags);
        assert notes[..i + 1][..i] == notes[..i];
        if matched {
          r := r + [note];
        }
        i := i + 1;
      }
      assert notes[..i] == notes;
    }

    /** GetAllTags: every tag of every note, once each, in increasing order. */
    method GetAllTags() returns (r: seq<string>)
      ensures StrictlySorted(r)
      ensures forall t :: t in r <==> exists k :: 0 <= k < |notes| && t in notes[k].tags
    {
      var tagsMap: map<string, bool> := map[];
      var i := 0;
      while i < |notes|
        invariant 0 <= i <= |notes|
        invariant tagsMap.Keys == AllTags(notes[..i])
      {
        var note := notes[i];
        assert notes[..i + 1][..i] == notes[..i];
        var j := 0;
        while j < |note.tags|
          invariant 0 <= j <= |note.tags|
          invariant tagsMap.Keys == AllTags(notes[..i]) + set t | t in note.tags[..j]
        {
          assert note.tags[..j + 1] == note.tags[..j] + [note.tags[j]];
          tagsMap := tagsMap[note.tags[j] := true];
          j := j + 1;
        }
        assert note.tags[..j] == note.tags;
        i := i + 1;
      }
      assert notes[..i] == notes;

      var list := KeyList(tagsMap);
      r := SortStrings(list);
      PermutationKeepsDistinct(list, r);
      SortedDistinctIsStrict(r);
      forall t
        ensures t in r <==> t in list
      {
        assert t in r <==> t in multiset(r);
        assert t in list <==> t in multiset(list);
      }
    }

    /**
     * ImportImage: copies the file at `sourcePath` into the image directory as
     * `fileId` plus the source's extension, then attaches it to the note with
     * the ID (image ID `imageId`, stamped `addedAt`) and updates the note at
     * `updatedAt`. An unknown note or a failed copy step leaves every note and
     * the notes file as they were; once the destination is created it stays,
     * empty when the read fails and holding the bytes written so far when the
     * write fails.
     */
    method ImportImage(noteId: string, sourcePath: string, caption: string, altText: string,
                       fileId: string, imageId: string, copy: CopyOutcome,
                       addedAt: Time, updatedAt: Time, written: bool)
      returns (err: Option<NotesError>)
      modifies this, notes
      ensures var found := FirstWithId(old(notes), noteId);
        err == if found.None? then Some(NoteNotFound) else CopyFailure(copy)
      ensures err.Some? ==>
        && notes == old(notes) && notesFile == old(notesFile)
        && forall n :: n in old(notes) ==> n.Record() == old(n.Record())
      ensures var name := fileId + Ext(sourcePath);
        imageFiles ==
          if err == Some(NoteNotFound) || err == Some(SourceOpenFailed) || err == Some(DestinationCreateFailed)
          then old(imageFiles)
          else if err == Some(SourceReadFailed) then old(imageFiles)[name := []]
          else if err.Some? then old(imageFiles)[name := PartialWrite(copy)]
          else old(imageFiles)[name := copy.sourceData.value]
      ensures err.None? ==>
        var note := old(notes)[FirstWithId(old(notes), noteId).value];
        var name := fileId + Ext(sourcePath);
        && note.Record() == old(note.Record()).(
             images := old(note.images) + [Image(imageId, name, caption, altText, |old(note.images)|)],
             updatedAt := updatedAt)
        && (forall n :: n in old(notes) && n != note ==> n.Record() == old(n.Record()))
        && multiset(notes) == multiset(old(notes)) && NewestFirst(notes)
        && notesFile == if written then Stored(Snapshot(notes)) else old(notesFile)
      ensures storagePath == old(storagePath) && imageDir == old(imageDir)
    {
      var found := GetNoteByID(noteId);
      if found.Failure? {
        return Some(found.error);
      }
      var note := found.value;
      var ext := Ext(sourcePath);
      var newFilename := fileId + ext;
      var destPath := Join(imageDir, newFilename);

      if !copy.sourceOpens {
        return Some(SourceOpenFailed);
      }
      if !copy.destinationCreated {
        return Some(DestinationCreateFailed);
      }
      imageFiles := imageFiles[newFilename := []];
      if copy.sourceData.None? {
        return Some(SourceReadFailed);
      }
      if !copy.destinationWritten {
        imageFiles := imageFiles[newFilename := PartialWrite(copy)];
        return Some(ImageWriteFailed);
      }
      imageFiles := imageFiles[newFilename := copy.sourceData.value];

      note.AddImage(newFilename, caption, altText, imageId, addedAt);
      UpdateNote(note, updatedAt, written);
      return None;
    }
  }
}
