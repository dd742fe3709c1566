/**
 * The string facilities the notes core leans on: lower-casing and substring
 * search (Go's `strings.ToLower`, `strings.Contains`), byte-wise string order and
 * sorting (`sort.Strings`), and the extension of a path (`filepath.Ext`).
 */
module Text {
  import opened Seqs

  /** Lower-cases one character; only the ASCII letters A-Z are folded. */
  function LowerChar(c: char): char {
    if 'A' <= c <= 'Z' then (c as int + 32) as char else c
  }

  /** Lower-cases every character: no ASCII capital remains, and every other character is kept. */
  function Lower(s: string): (r: string)
    ensures |r| == |s|
    ensures forall i :: 0 <= i < |r| ==> !('A' <= r[i] <= 'Z')
    ensures forall i :: 0 <= i < |s| && !('A' <= s[i] <= 'Z') ==> r[i] == s[i]
    ensures forall i :: 0 <= i < |s| && 'A' <= s[i] <= 'Z' ==> r[i] as int == s[i] as int + 32
  {
    seq(|s|, i requires 0 <= i < |s| => LowerChar(s[i]))
  }

  /** Upper-cases the ASCII letters a-z, for stating case-insensitivity. */
  function UpperChar(c: char): char {
    if 'a' <= c <= 'z' then (c as int - 32) as char else c
  }

  function Upper(s: string): string {
    seq(|s|, i requires 0 <= i < |s| => UpperChar(s[i]))
  }

  /**
   * `sub` occurs in `s` at some offset (every string contains ""): there is
   * a window of `s` of the length of `sub` that equals it.
   */
  predicate Contains(s: string, sub: string): (r: bool)
    ensures r <==> exists i :: 0 <= i <= |s| && OccursAt(s, sub, i)
  {
    assert forall i | 0 <= i <= |s| :: (sub <= s[i..]) == OccursAt(s, sub, i);
    exists i | 0 <= i <= |s| :: sub <= s[i..]
  }

  /** The window of `s` starting at `i` is `sub`. */
  predicate OccursAt(s: string, sub: string, i: nat) {
    i + |sub| <= |s| && s[i..i + |sub|] == sub
  }

  /** Lower-casing twice is lower-casing once. */
  lemma LowerIdempotent(s: string)
    ensures Lower(Lower(s)) == Lower(s)
  {
  }

  /** Case-insensitive containment, as `strings.Contains(strings.ToLower(s), strings.ToLower(q))`. */
  predicate ContainsFolded(s: string, q: string) {
    Contains(Lower(s), Lower(q))
  }

  /** Upper-casing a string does not change its lower-case form. */
  lemma LowerOfUpper(s: string)
    ensures Lower(Upper(s)) == Lower(s)
  {
    forall i | 0 <= i < |s|
      ensures Lower(Upper(s))[i] == Lower(s)[i]
    {
      assert Upper(s)[i] == UpperChar(s[i]);
    }
  }

  /**
   * Folded containment ignores the case of the ASCII letters on both sides:
   * upper-casing the text or the query changes no answer.
   */
  lemma ContainsFoldedCaseInsensitive(s: string, q: string)
    ensures ContainsFolded(s, Upper(q)) <==> ContainsFolded(s, q)
    ensures ContainsFolded(Upper(s), q) <==> ContainsFolded(s, q)
  {
    LowerOfUpper(q);
    LowerOfUpper(s);
  }

  /** The query "grocery" is found in the title "Grocery List", whatever its case. */
  lemma GroceryListMatches()
    ensures ContainsFolded("Grocery List", "grocery")
    ensures ContainsFolded("Grocery List", "GROCERY")
  {
    assert Lower("grocery") == "grocery";
    assert Lower("GROCERY") == "grocery";
    assert Lower("Grocery List") == "grocery list";
    assert "grocery" <= "grocery list"[0..];
  }

  // ---- Go's string order: byte-wise, which on code points is lexicographic ----

  /** `a < b` as Go compares strings. */
  predicate Less(a: string, b: string)
    decreases |a|
  {
    if |a| == 0 then |b| > 0
    else if |b| == 0 then false
    else if a[0] != b[0] then a[0] < b[0]
    else Less(a[1..], b[1..])
  }

  predicate LessOrEqual(a: string, b: string) {
    a == b || Less(a, b)
  }

  lemma {:induction false} LessIrreflexive(a: string)
    ensures !Less(a, a)
  {
    if |a| > 0 {
      LessIrreflexive(a[1..]);
    }
  }

  lemma {:induction false} LessTransitive(a: string, b: string, c: string)
    requires Less(a, b) && Less(b, c)
    ensures Less(a, c)
    decreases |a|
  {
    if |a| > 0 && a[0] == b[0] && b[0] == c[0] {
      LessTransitive(a[1..], b[1..], c[1..]);
    }
  }

  lemma {:induction false} LessTotal(a: string, b: string)
    ensures a == b || Less(a, b) || Less(b, a)
    decreases |a|
  {
    if |a| > 0 && |b| > 0 && a[0] == b[0] {
      LessTotal(a[1..], b[1..]);
      if a[1..] == b[1..] {
        assert a == [a[0]] + a[1..] && b == [b[0]] + b[1..];
      }
    }
  }

  lemma LessAsymmetric(a: string, b: string)
    ensures !(Less(a, b) && Less(b, a))
  {
    if Less(a, b) && Less(b, a) {
      LessTransitive(a, b, a);
      LessIrreflexive(a);
    }
  }

  lemma LessOrEqualTransitive(a: string, b: string, c: string)
    requires LessOrEqual(a, b) && LessOrEqual(b, c)
    ensures LessOrEqual(a, c)
  {
    if a != b && b != c {
      LessTransitive(a, b, c);
    }
  }

  predicate Sorted(s: seq<string>) {
    forall i, j :: 0 <= i < j < |s| ==> LessOrEqual(s[i], s[j])
  }

  predicate StrictlySorted(s: seq<string>) {
    forall i, j :: 0 <= i < j < |s| ==> Less(s[i], s[j])
  }

  /** A sorted sequence with no repeated string is strictly increasing. */
  lemma SortedDistinctIsStrict(s: seq<string>)
    requires Sorted(s) && Distinct(s)
    ensures StrictlySorted(s)
  {
  }

  /** Go's `sort.Strings`: returns a sorted permutation of `s` (insertion sort by adjacent swaps). */
  method SortStrings(s: seq<string>) returns (r: seq<string>)
    ensures multiset(r) == multiset(s)
    ensures Sorted(r)
  {
    r := s;
    var i := 0;
    while i < |r|
      invariant 0 <= i <= |r| == |s|
      invariant multiset(r) == multiset(s)
      invariant forall a, b :: 0 <= a < b < i ==> LessOrEqual(r[a], r[b])
    {
      var j := i;
      while j > 0 && Less(r[j], r[j - 1])
        invariant 0 <= j <= i < |r| == |s|
        invariant multiset(r) == multiset(s)
        invariant forall a, b :: 0 <= a < b <= i && a != j && b != j ==> LessOrEqual(r[a], r[b])
        invariant forall b :: j < b <= i ==> LessOrEqual(r[j], r[b])
      {
        r := Swap(r, j - 1, j);
        j := j - 1;
      }
      if j > 0 {
        LessTotal(r[j - 1], r[j]);
        forall a | 0 <= a < j - 1
          ensures LessOrEqual(r[a], r[j])
        {
          LessOrEqualTransitive(r[a], r[j - 1], r[j]);
        }
      }
      i := i + 1;
    }
  }

  // ---- filepath.Ext on '/'-separated paths ----

  /** Scans `path` backwards from index `i` for the extension, stopping at a '/'. */
  function ExtFrom(path: string, i: int): (e: string)
    requires -1 <= i < |path|
    requires forall k :: i < k < |path| ==> path[k] != '.' && path[k] != '/'
    ensures |e| <= |path| && e == path[|path| - |e|..]
    ensures e == "" || (e[0] == '.' && forall k :: 1 <= k < |e| ==> e[k] != '.' && e[k] != '/')
    ensures e == "" ==> forall k :: 0 <= k <= i && path[k] == '.' ==> exists j :: k < j <= i && path[j] == '/'
    decreases i + 1
  {
    if i < 0 || path[i] == '/' then ""
    else if path[i] == '.' then path[i..]
    else ExtFrom(path, i - 1)
  }

  /**
   * The extension of the last element of `path`: the suffix from its final '.',
   * or "" when that element has no '.'.
   */
  function Ext(path: string): (e: string)
    ensures |e| <= |path| && e == path[|path| - |e|..]
    ensures e == "" || (e[0] == '.' && forall k :: 1 <= k < |e| ==> e[k] != '.' && e[k] != '/')
    ensures e == "" <==> forall k :: 0 <= k < |path| && path[k] == '.' ==> exists j :: k < j < |path| && path[j] == '/'
  {
    ExtFrom(path, |path| - 1)
  }
}
