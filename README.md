# Datapad notes core in Dafny

Datapad is a terminal notebook. Its notes layer (`internal/notes`) keeps an
ordered collection of notes. Each note has a title, Markdown content, tags,
embedded images and creation and modification times. The collection is saved
to a `notes.json` file in the storage directory, and imported images are
copied into an `images` directory beside it.

This project models that layer:

- `Notes.Note` is a class whose tags, images and modification time are
  updated in place (`internal/notes/model.go`).
- `Manager.NotesManager` is a class holding the sequence of note references
  (`internal/notes/manager.go`). Beside it sit an abstract notes file
  (`NotesFile`: missing, unreadable, malformed, or holding a sequence of note
  values) and an abstract image directory (a map from file name to bytes).

Clock readings are natural numbers passed to each operation. Generated
identifiers are passed in as strings. The outcome of each file-system call is
a parameter: for example, `CopyOutcome` says which step of the image copy
succeeded, and `written` says whether writing the notes file succeeded.

Modules:

- `Wrappers`: Option and Result.
- `Seqs`: distinctness, subsequences, and the splice and swap steps.
- `Text`: ASCII lower-casing, substring search, Go's string order and
  `sort.Strings`, and `filepath.Ext`.
- `Notes`: the note entity, its tag rules and identifier generation.
- `Manager`: the collection, search, tag filtering, tag aggregation, saving,
  loading and image import.
- `Scenario`: a client that creates, tags, illustrates and saves a note. It
  then restarts on the saved files and finds the note again, using only the
  contracts above.

Three behaviours of the code are easy to miss; the model keeps them:

- `CreateNote` does not save the collection.
- `ImportImage` creates the destination file before reading the source. A
  failed read therefore leaves an empty file behind, and a failed write an
  empty or partial one.
- `UpdateNote` drops the error of its save. `ImportImage` therefore reports
  success even when the notes file could not be written.

## Model

| member | source | states |
|---|---|---|
| Notes.Note.constructor | internal/notes/model.go:28-38 | NewNote: the note has the given ID and title, no content, tags or images, and is created and updated at the same instant |
| Notes.Note.AddImage | internal/notes/model.go:41-51 | appends exactly one image with the given path, caption, alt text and ID, at position = old image count; earlier images and other fields are unchanged; the time becomes `now`; positions that were 0..n-1 stay 0..n-1; with a monotone clock, creation <= modification is kept |
| Notes.Note.AddTag | internal/notes/model.go:54-62 | the tags become `WithTag(old tags, tag)`; the time moves to `now` exactly when the tag was absent; the other fields are unchanged; creation <= modification is kept |
| Notes.Note.RemoveTag | internal/notes/model.go:65-73 | the tags become `WithoutTag(old tags, tag)`; the time moves to `now` exactly when the tag was present; the other fields are unchanged; creation <= modification is kept |
| Notes.Note.FromRecord | internal/notes/manager.go:201-206 | a note decoded from the notes file holds exactly the stored value |
| Notes.IndexOf | internal/notes/model.go:66-67 | the index the removal loop stops at is the first position holding the tag |
| Notes.WithoutTag | internal/notes/model.go:65-73 | an absent tag leaves the list unchanged; otherwise the result is `tags[..i] + tags[i+1..]` for the first occurrence i, one element shorter |
| Notes.WithTag | internal/notes/model.go:55-61 | a present tag changes nothing; an absent one is appended last; the earlier tags keep their positions; the tag is there afterwards |
| Notes.AddTagTwice | internal/notes/model.go:54-62 | adding a tag twice equals adding it once; if it occurred at most once before, it then occurs exactly once |
| Notes.AddTagKeepsDistinct | internal/notes/model.go:55-61 | adding a tag keeps a duplicate-free tag list duplicate-free |
| Notes.RemoveTagFromDistinct | internal/notes/model.go:66-70 | in a duplicate-free list, removal leaves the tag absent and the list duplicate-free; it takes exactly one copy of the tag out of the multiset |
| Notes.RandomString | internal/notes/model.go:81-88 | the string has length n; character i is `letters[tick_i mod 62]`, so every character is one of the 62 letters |
| Notes.GenerateId | internal/notes/model.go:76-78 | the ID is the time stamp followed by six characters from the 62 letters |
| Manager.NotesManager.constructor | internal/notes/manager.go:33-37 | a manager starts with no notes, the given storage path and the image directory `<storage>/images`, on the given notes file and image files |
| Manager.Join | internal/notes/manager.go:28 | `filepath.Join` of a directory and a name: the directory, one '/', then the name, so the name can be read back |
| Manager.FirstWithId | internal/notes/manager.go:56-63 | gives the first index whose note has the ID, and None exactly when no note has it |
| Manager.NotesManager.GetNoteByID | internal/notes/manager.go:56-63 | succeeds exactly when some note has the ID, returning the first such note; otherwise fails with "note not found" |
| Manager.NotesManager.CreateNote | internal/notes/manager.go:49-53 | returns a new note (as NewNote) that is appended at the end of the collection; nothing else changes |
| Manager.NotesManager.UpdateNote | internal/notes/manager.go:66-69 | only the note's modification time changes, to `now`; the collection is saved (a permutation, newest first) |
| Manager.NotesManager.DeleteNote | internal/notes/manager.go:72-81 | an unknown ID gives "note not found" and changes nothing, without saving; a known ID takes out exactly the first match (multiset minus that note) and then saves |
| Manager.NotesManager.SearchNotes | internal/notes/manager.go:84-100 | an empty query returns the collection as it is; otherwise the result is `Searched(notes, query)` |
| Manager.SearchedSound | internal/notes/manager.go:89-99 | every search result is a note of the collection whose lower-cased title or content contains the lower-cased query |
| Manager.SearchedComplete | internal/notes/manager.go:89-99 | every note of the collection that matches is among the search results |
| Manager.SearchedInOrder | internal/notes/manager.go:92-97 | the search results are a subsequence of the collection, so they keep its order |
| Text.Lower | internal/notes/manager.go:89 | `strings.ToLower` on ASCII: same length, no capital A-Z left, each capital moved to its small letter, every other character kept |
| Text.Contains | internal/notes/manager.go:93-94 | `strings.Contains`: holds exactly when some window of the text, of the query's length, equals the query |
| Text.LowerIdempotent | internal/notes/manager.go:89-94 | lower-casing an already lower-cased string changes nothing |
| Text.LowerOfUpper | internal/notes/manager.go:89-94 | upper-casing a string does not change its lower-case form |
| Text.ContainsFoldedCaseInsensitive | internal/notes/manager.go:89-94 | upper-casing the query, or the title or content, changes no search answer |
| Text.GroceryListMatches | internal/notes/manager.go:89-94 | "grocery" and "GROCERY" both match the title "Grocery List" |
| Manager.NotesManager.FilterByTags | internal/notes/manager.go:103-129 | an empty filter returns the collection as it is; otherwise the result is `Tagged(notes, tags)` |
| Manager.HasAnyTag | internal/notes/manager.go:111-122 | the nested loop with breaks finds a match exactly when the note's tags and the filter share an element |
| Manager.OverlapMeansCommonElement | internal/notes/manager.go:111-122 | `Overlap(a, b)` holds exactly when some string is in both a and b |
| Manager.OverlapPrefix | internal/notes/manager.go:112-121 | a tag shared by a prefix of the note's tags is shared by all of them (the early exit is sound) |
| Manager.TaggedSound | internal/notes/manager.go:110-126 | every filtered note is in the collection and shares a tag with the filter |
| Manager.TaggedComplete | internal/notes/manager.go:110-126 | every note that shares a tag with the filter is in the result |
| Manager.TaggedInOrder | internal/notes/manager.go:110-126 | the filtered notes are a subsequence of the collection |
| Manager.SingleTagFilter | internal/notes/manager.go:103-129 | with the filter [t], the result is exactly the notes that carry t |
| Manager.AllTags | internal/notes/manager.go:212-218 | a string is among all tags exactly when some note carries it |
| Manager.KeyList | internal/notes/manager.go:220-223 | the key list holds each map key exactly once, and nothing else |
| Text.SortStrings | internal/notes/manager.go:225 | `sort.Strings`: the result is a permutation of the input, in non-decreasing string order |
| Text.LessIrreflexive | internal/notes/manager.go:225 | no string sorts before itself |
| Text.LessTransitive | internal/notes/manager.go:225 | the string order is transitive |
| Text.LessTotal | internal/notes/manager.go:225 | any two different strings are ordered one way or the other |
| Text.LessAsymmetric | internal/notes/manager.go:225 | two strings are never each before the other |
| Text.LessOrEqualTransitive | internal/notes/manager.go:225 | the non-strict string order is transitive |
| Text.SortedDistinctIsStrict | internal/notes/manager.go:220-226 | a sorted list with no repeats is strictly increasing |
| Seqs.PermutationKeepsDistinct | internal/notes/manager.go:220-226 | sorting a duplicate-free list keeps it duplicate-free |
| Manager.NotesManager.GetAllTags | internal/notes/manager.go:211-227 | the result is strictly increasing (so duplicate-free); a string is in it exactly when some note carries it as a tag |
| Manager.SortByRecency | internal/notes/manager.go:175-177 | the result is a permutation of the notes, ordered by modification time, newest first (no order among ties) |
| Manager.NotesManager.SaveNotes | internal/notes/manager.go:173-190 | the collection becomes a permutation of itself, newest first; if the write succeeds, the notes file holds exactly the values of the reordered notes; otherwise the file is unchanged and the write error is returned |
| Manager.NotesManager.LoadNotes | internal/notes/manager.go:193-208 | each case of the notes file gives its own error and leaves the collection unchanged; a readable file yields fresh notes whose values are the stored ones, in the stored order |
| Manager.NotesManager.NewNotesManager | internal/notes/manager.go:22-46 | a failed directory creation stops with its error; a missing notes file gives an empty collection and no error; an unreadable or malformed file makes the error fatal; otherwise the notes are the stored ones, and the image directory is `<storage>/images` |
| Text.Ext | internal/notes/manager.go:139 | `filepath.Ext`: the result is a suffix of the path; it is empty, or starts with the final '.' and holds no further '.' or '/'; it is empty exactly when every '.' in the path is followed by a '/' |
| Text.ExtFrom | internal/notes/manager.go:139 | the backward scan from position i gives a suffix without '/' and with only its first '.'; it is empty exactly when no '.' lies after the last '/' up to i |
| Manager.CopyFailure | internal/notes/manager.go:144-163 | the copy fails exactly when some step fails, and then with the error of the first failing step in the order open, create, read, write |
| Manager.PartialWrite | internal/notes/manager.go:161-162 | a failed write leaves a prefix of the source's bytes, of the length written before the failure |
| Manager.NotesManager.ImportImage | internal/notes/manager.go:132-170 | the error is "note not found" for an unknown ID, else that of the first copy step that fails. Any failure leaves every note and the notes file unchanged. The image directory is untouched before the destination is created, holds an empty `<id><ext>` after a failed read, the bytes written before the failure after a failed write, and the source bytes on success. On success, exactly one image with path `<id><ext>` (ext from Ext of the source) is appended to the note at the next position; the note's time is updated, every other note is unchanged, and the collection is saved |
| Scenario.Restart | internal/notes/manager.go:193-208 | starting on a notes file holding one note's value yields a collection of one note with exactly that value, beside the same image files |

## Left out

- JSON encoding and decoding: the notes file holds the notes' values directly (`Stored(records)`), so saving and then loading gives back the same values. A decoded `null` entry in the list is not modelled. `json.MarshalIndent` never fails on these values.
- Real file-system effects (`os.MkdirAll`, `os.Open`, `os.Create`, `os.ReadFile`, `os.WriteFile`): each is a boolean or data parameter. A failed `WriteFile` leaves the notes file as it was; a partial write is not modelled.
- `filepath.Join`, and the file path under which an image is stored: the image directory is keyed by file name. Paths use '/' only, with no volume names or cleaning.
- `time.Now` and `Format("20060102150405")`: clock readings are natural numbers passed in, and the formatted time stamp is a string parameter of `GenerateId`.
- Notes.RandomString: the time-seeded letter choice is modelled by a parameter of clock readings, one per character. The uniqueness of generated IDs is not claimed, because the code does not guarantee it.
- Text.Lower: `strings.ToLower` folds only the ASCII letters A-Z here; Unicode case mapping is not modelled.
- Text.Less: Go compares strings byte-wise in UTF-8. The model compares code points lexicographically, which gives the same order for valid UTF-8.
- Manager.SortByRecency: `sort.Slice` is unstable, and its tie order is unspecified. The contract promises the permutation and the ordering only, and the model sorts by insertion.
- Manager.NotesManager.SaveNotes: the in-place reordering of the Go slice is modelled as reassigning the sequence field. Aliasing between the slice and earlier copies of it (for example a search result) is not modelled.
- Manager.NotesManager.UpdateNote: it changes the note at `now` even when the note is not in the collection. Like the code, it ignores the save error.
- Notes.Note: the ID is a constant field, because no core operation reassigns it.
- Concurrency: the collection is never shared between threads.
- The terminal user interface (`internal/tui/app.go`) and the command entry point (`cmd/datapad/main.go`) are not part of this model.
