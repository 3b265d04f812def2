/** The JavaScript string operations that the date-range parser relies on:
    `String.prototype.includes`, `indexOf` and `split` with a non-empty
    separator string, plus the `join` that undoes `split`. */
module JsString {
  import opened Wrappers

  /** `sep` occurs in `s` starting at position `i`. */
  predicate OccursAt(s: string, sep: string, i: nat) {
    i + |sep| <= |s| && s[i..i + |sep|] == sep
  }

  /** `s.indexOf(sep, from)`: the first position at or after `from` where `sep` occurs. */
  function IndexOfFrom(s: string, sep: string, from: nat): (r: Option<nat>)
    ensures r.Some? ==> from <= r.value && OccursAt(s, sep, r.value)
    ensures forall j :: from <= j && (r.None? || j < r.value) ==> !OccursAt(s, sep, j)
    decreases |s| - from
  {
    if |s| < from + |sep| then None
    else if s[from..from + |sep|] == sep then Some(from)
    else IndexOfFrom(s, sep, from + 1)
  }

  /** `s.indexOf(sep)`, with `None` for JavaScript's `-1`. */
  function IndexOf(s: string, sep: string): Option<nat> {
    IndexOfFrom(s, sep, 0)
  }

  /** `s.includes(sep)`. */
  predicate Includes(s: string, sep: string) {
    IndexOf(s, sep).Some?
  }

  lemma IncludesIff(s: string, sep: string)
    ensures Includes(s, sep) <==> exists i: nat :: OccursAt(s, sep, i)
  {
    if Includes(s, sep) {
      assert OccursAt(s, sep, IndexOf(s, sep).value);
    }
  }

  /** A string that lacks one of the separator's characters does not include the separator. */
  lemma {:induction false} NotIncludesWithoutChar(s: string, sep: string, k: nat)
    requires k < |sep| && sep[k] !in s
    ensures !Includes(s, sep)
  {
  }

  /** When the only place where the character `sep[1]` appears in `s` is inside an
      occurrence of `sep` at `k`, the first occurrence of `sep` is at `k`. */
  lemma {:induction false} IndexOfAtMarker(s: string, sep: string, k: nat)
    requires |sep| >= 2 && OccursAt(s, sep, k)
    requires forall j :: 0 <= j < |s| && s[j] == sep[1] ==> j == k + 1
    ensures IndexOf(s, sep) == Some(k)
  {
    var r := IndexOf(s, sep);
    assert r.Some?;
    var i := r.value;
    assert i <= k;
    assert s[i..i + |sep|][1] == s[i + 1];
  }

  /** The text before the first occurrence of `sep`, or all of `s` when there is none
      (element 0 of `s.split(sep)`). */
  function Head(s: string, sep: string): (h: string)
    requires |sep| > 0
    ensures !Includes(h, sep)
    ensures |h| <= |s| && h == s[..|h|]
    ensures Includes(s, sep) ==> IndexOf(s, sep) == Some(|h|)
    ensures !Includes(s, sep) ==> h == s
  {
    match IndexOf(s, sep)
    case None => s
    case Some(i) =>
      assert forall j: nat :: OccursAt(s[..i], sep, j) ==> OccursAt(s, sep, j) by {
        forall j: nat | OccursAt(s[..i], sep, j) ensures OccursAt(s, sep, j) {
          assert s[..i][j..j + |sep|] == s[j..j + |sep|];
        }
      }
      assert !Includes(s[..i], sep) by { IncludesIff(s[..i], sep); }
      s[..i]
  }

  /** The text after the first occurrence of `sep`, or `None` when there is none. */
  function Tail(s: string, sep: string): (t: Option<string>)
    requires |sep| > 0
    ensures t.None? <==> !Includes(s, sep)
    ensures t.None? ==> Head(s, sep) == s
    ensures t.Some? ==> s == Head(s, sep) + sep + t.value
  {
    match IndexOf(s, sep)
    case None => None
    case Some(i) =>
      assert s == s[..i] + s[i..i + |sep|] + s[i + |sep|..];
      Some(s[i + |sep|..])
  }

  /** `s.split(sep)` for a non-empty separator. */
  function Split(s: string, sep: string): (parts: seq<string>)
    requires |sep| > 0
    ensures |parts| >= 1 && parts[0] == Head(s, sep)
    ensures |parts| >= 2 <==> Includes(s, sep)
    ensures |parts| >= 2 ==> parts[1] == Head(Tail(s, sep).value, sep)
    decreases |s|
  {
    match IndexOf(s, sep)
    case None => [s]
    case Some(i) => [s[..i]] + Split(s[i + |sep|..], sep)
  }

  /** `parts.join(sep)`. */
  function Join(parts: seq<string>, sep: string): string
    requires |parts| >= 1
  {
    if |parts| == 1 then parts[0] else parts[0] + sep + Join(parts[1..], sep)
  }

  /** Splitting loses nothing: joining the parts back with the separator gives the input. */
  lemma {:induction false} JoinSplit(s: string, sep: string)
    requires |sep| > 0
    ensures Join(Split(s, sep), sep) == s
    decreases |s|
  {
    match IndexOf(s, sep)
    case None =>
    case Some(i) =>
      var rest := s[i + |sep|..];
      JoinSplit(rest, sep);
      assert Split(s, sep) == [s[..i]] + Split(rest, sep);
      assert Split(s, sep)[1..] == Split(rest, sep);
      assert s == s[..i] + s[i..i + |sep|] + rest;
  }

  /** None of `parts` contains `sep`. */
  predicate NoneIncludes(parts: seq<string>, sep: string) {
    forall k :: 0 <= k < |parts| ==> !Includes(parts[k], sep)
  }

  lemma NoneIncludesCons(h: string, t: seq<string>, sep: string)
    requires !Includes(h, sep) && NoneIncludes(t, sep)
    ensures NoneIncludes([h] + t, sep)
  {
    forall k | 1 <= k < |[h] + t| ensures !Includes(([h] + t)[k], sep) {
      assert ([h] + t)[k] == t[k - 1];
    }
  }

  /** No part of a split contains the separator. */
  lemma {:induction false} SplitPartsFree(s: string, sep: string)
    requires |sep| > 0
    ensures NoneIncludes(Split(s, sep), sep)
    decreases |s|
  {
    match IndexOf(s, sep)
    case None =>
    case Some(i) =>
      var rest := s[i + |sep|..];
      SplitPartsFree(rest, sep);
      assert Split(s, sep) == [Head(s, sep)] + Split(rest, sep);
      NoneIncludesCons(Head(s, sep), Split(rest, sep), sep);
  }
}
