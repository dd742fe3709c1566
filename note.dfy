/**
 * A single note and its images (internal/notes/model.go). A note is an object
 * whose tags, images and modification time are updated in place; the clock
 * reading each operation takes is passed in as `now`, and generated
 * identifiers are passed in as already-generated strings.
 */
module Notes {
  import opened Seqs

  /** A clock reading (Go's `time.Time`), ordered like the clock. */
  type Time = nat

  datatype Image = Image(id: string, path: string, caption: string, altText: string, position: int)

  /** The value of a note, as it is written to and read back from the notes file. */
  datatype NoteRecord = NoteRecord(
    id: string, title: string, content: string, images: seq<Image>,
    createdAt: Time, updatedAt: Time, tags: seq<string>)

  // ---- The tag rules, on values ----

  /**
   * The tags after adding `tag`: a present tag changes nothing; an absent one
   * goes last and the earlier tags keep their positions.
   */
  function WithTag(tags: seq<string>, tag: string): (r: seq<string>)
    ensures tag in tags ==> r == tags
    ensures tag !in tags ==> |r| == |tags| + 1 && r[|tags|] == tag
    ensures r[..|tags|] == tags
    ensures tag in r
  {
    if tag in tags then tags else tags + [tag]
  }

  /** The position of the first occurrence of `tag`. */
  function IndexOf(tags: seq<string>, tag: string): (i: nat)
    requires tag in tags
    ensures i < |tags| && tags[i] == tag
    ensures forall j :: 0 <= j < i ==> tags[j] != tag
  {
    if tags[0] == tag then 0 else 1 + IndexOf(tags[1..], tag)
  }

  /** The tags after removing the first occurrence of `tag`, if any. */
  function WithoutTag(tags: seq<string>, tag: string): (r: seq<string>)
    ensures tag !in tags ==> r == tags
    ensures tag in tags ==>
      var i := IndexOf(tags, tag);
      r == tags[..i] + tags[i + 1..] && |r| == |tags| - 1
  {
    if tags == [] then []
    else if tags[0] == tag then tags[1..]
    else [tags[0]] + WithoutTag(tags[1..], tag)
  }

  /**
   * Adding the same tag twice gives the same tags as adding it once, and when
   * the tag occurred at most once before, it then occurs exactly once.
   */
  lemma AddTagTwice(tags: seq<string>, tag: string)
    requires multiset(tags)[tag] <= 1
    ensures WithTag(WithTag(tags, tag), tag) == WithTag(tags, tag)
    ensures multiset(WithTag(WithTag(tags, tag), tag))[tag] == 1
  {
    if tag !in tags {
      assert multiset(tags + [tag]) == multiset(tags) + multiset{tag};
    }
  }

  /** Adding a tag keeps a duplicate-free tag list duplicate-free. */
  lemma AddTagKeepsDistinct(tags: seq<string>, tag: string)
    requires Distinct(tags)
    ensures Distinct(WithTag(tags, tag))
  {
  }

  /**
   * Removing a tag from a duplicate-free list removes its only copy: the tag is
   * gone, the others remain, each once, and the list stays duplicate-free.
   */
  lemma RemoveTagFromDistinct(tags: seq<string>, tag: string)
    requires Distinct(tags)
    ensures tag !in WithoutTag(tags, tag)
    ensures Distinct(WithoutTag(tags, tag))
    ensures multiset(WithoutTag(tags, tag)) == multiset(tags) - multiset{tag}
  {
    if tag in tags {
      var i := IndexOf(tags, tag);
      SpliceMultiset(tags, i);
      SpliceDistinct(tags, i);
    }
  }

  // ---- The note object ----

  class Note {
    const id: string
    var title: string
    var content: string
    var images: seq<Image>
    var createdAt: Time
    var updatedAt: Time
    var tags: seq<string>

    /** The note's current value. */
    function Record(): NoteRecord
      reads this
    {
      NoteRecord(id, title, content, images, createdAt, updatedAt, tags)
    }

    /** The modification time is not before the creation time. */
    predicate Timely()
      reads this
    {
      createdAt <= updatedAt
    }

    /** NewNote: a fresh note with the given title, no content, tags or images, created and updated at `now`. */
    constructor (id: string, title: string, now: Time)
      ensures Record() == NoteRecord(id, title, "", [], now, now, [])
      ensures Timely()
    {
      this.id := id;
      this.title := title;
      content := "";
      images := [];
      createdAt := now;
      updatedAt := now;
      tags := [];
    }

    /** A note holding exactly the value `r`, as decoding the notes file produces. */
    constructor FromRecord(r: NoteRecord)
      ensures Record() == r
    {
      id := r.id;
      title := r.title;
      content := r.content;
      images := r.images;
      createdAt := r.createdAt;
      updatedAt := r.updatedAt;
      tags := r.tags;
    }

    /** Appends one image at position `|images|`; `imageId` is the freshly generated image ID. */
    method AddImage(path: string, caption: string, altText: string, imageId: string, now: Time)
      modifies this
      ensures images == old(images) + [Image(imageId, path, caption, altText, |old(images)|)]
      ensures updatedAt == now
      ensures title == old(title) && content == old(content) && tags == old(tags) && createdAt == old(createdAt)
      ensures (forall k :: 0 <= k < |old(images)| ==> old(images)[k].position == k) ==>
                forall k :: 0 <= k < |images| ==> images[k].position == k
      ensures old(createdAt) <= now ==> Timely()
    {
      var image := Image(imageId, path, caption, altText, |images|);
      images := images + [image];
      updatedAt := now;
    }

    /** Appends `tag` unless it is already there; the time moves to `now` only when a tag was added. */
    method AddTag(tag: string, now: Time)
      modifies this
      ensures tags == WithTag(old(tags), tag)
      ensures updatedAt == if tag in old(tags) then old(updatedAt) else now
      ensures title == old(title) && content == old(content) && images == old(images) && createdAt == old(createdAt)
      ensures old(Timely()) && old(createdAt) <= now ==> Timely()
    {
      var i := 0;
      while i < |tags|
        invariant 0 <= i <= |tags|
        invariant forall k :: 0 <= k < i ==> tags[k] != tag
      {
        if tags[i] == tag {
          return;
        }
        i := i + 1;
      }
      tags := tags + [tag];
      updatedAt := now;
    }

    /** Removes the first occurrence of `tag`, if any; the time moves to `now` only when one was removed. */
    method RemoveTag(tag: string, now: Time)
      modifies this
      ensures tags == WithoutTag(old(tags), tag)
      ensures updatedAt == if tag in old(tags) then now else old(updatedAt)
      ensures title == old(title) && content == old(content) && images == old(images) && createdAt == old(createdAt)
      ensures old(Timely()) && old(createdAt) <= now ==> Timely()
    {
      var i := 0;
      while i < |tags|
        invariant 0 <= i <= |tags|
        invariant forall k :: 0 <= k < i ==> tags[k] != tag
      {
        if tags[i] == tag {
          assert IndexOf(tags, tag) == i;
          tags := tags[..i] + tags[i + 1..];
          updatedAt := now;
          return;
        }
        i := i + 1;
      }
    }
  }

  // ---- Identifiers ----

  /** The 62 characters random identifiers are drawn from. */
  const Letters: string := "abcdefghijklmnopqrstuvwxyzABCDEFGHIJKLMNOPQRSTUVWXYZ0123456789"

  /**
   * randomString: fills an `n`-character buffer, character `i` picked by the
   * clock reading `ticks[i]` (nanoseconds since the epoch) modulo 62.
   */
  method RandomString(n: nat, ticks: seq<nat>) returns (s: string)
    requires |ticks| == n
    ensures |s| == n
    ensures forall i :: 0 <= i < n ==> s[i] in Letters
    ensures forall i :: 0 <= i < n ==> s[i] == Letters[ticks[i] % |Letters|]
  {
    assert |Letters| == 62;
    var b := new char[n];
    for i := 0 to n
      invariant forall k :: 0 <= k < i ==> b[k] == Letters[ticks[k] % |Letters|]
    {
      b[i] := Letters[ticks[i] % |Letters|];
    }
    s := b[..];
  }

  /** generateID: the formatted clock reading `stamp` followed by six random letters. */
  method GenerateId(stamp: string, ticks: seq<nat>) returns (id: string)
    requires |ticks| == 6
    ensures |id| == |stamp| + 6 && id[..|stamp|] == stamp
    ensures forall i :: |stamp| <= i < |id| ==> id[i] in Letters
  {
    var suffix := RandomString(6, ticks);
    id := stamp + suffix;
  }
}
