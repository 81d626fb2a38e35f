/**
 * The handful of Python `str` operations the transcript parser relies on:
 * substring search, `str.split(sep, 1)` and repeated `+=` concatenation.
 */
module Strings {
  import opened Wrappers

  /** `sep` occurs in `s` starting at index `i`. */
  predicate OccursAt(s: string, sep: string, i: int) {
    0 <= i && i + |sep| <= |s| && s[i..i + |sep|] == sep
  }

  /** `sep in s` */
  predicate Contains(s: string, sep: string) {
    exists i | 0 <= i <= |s| :: OccursAt(s, sep, i)
  }

  /** `i` is the position of the leftmost occurrence of `sep` in `s`. */
  predicate FirstAt(s: string, sep: string, i: int) {
    OccursAt(s, sep, i) && forall j :: 0 <= j < i ==> !OccursAt(s, sep, j)
  }

  /** `s.find(sep, from)` for a non-empty separator, with `None` for -1. */
  function IndexOf(s: string, sep: string, from: nat): (r: Option<nat>)
    requires |sep| > 0 && from <= |s|
    decreases |s| - from
    ensures r.Some? ==> from <= r.value && OccursAt(s, sep, r.value)
    ensures r.Some? ==> forall j :: from <= j < r.value ==> !OccursAt(s, sep, j)
    ensures r.None? ==> forall j :: from <= j ==> !OccursAt(s, sep, j)
  {
    if from + |sep| > |s| then None
    else if s[from..from + |sep|] == sep then Some(from)
    else IndexOf(s, sep, from + 1)
  }

  /**
   * `s.split(sep, 1)` when the result is unpacked into two names: the text
   * before and after the leftmost occurrence of `sep`, or `None` when the
   * unpacking would raise because `sep` does not occur.
   */
  function SplitOnce(s: string, sep: string): (r: Option<(string, string)>)
    requires |sep| > 0
    ensures r.None? <==> !Contains(s, sep)
    ensures r.Some? ==> FirstAt(s, sep, |r.value.0|)
    ensures r.Some? ==> s == r.value.0 + sep + r.value.1
  {
    match IndexOf(s, sep, 0)
    case None => None
    case Some(i) =>
      assert s == s[..i] + sep + s[i + |sep|..];
      Some((s[..i], s[i + |sep|..]))
  }

  /**
   * Joining two pieces with `sep` and splitting again gives the pieces back,
   * provided `sep` does not already occur before the joint. Because a
   * separator may overlap itself, the condition is on `a` followed by all but
   * the last character of `sep`, not on `a` alone.
   */
  lemma {:induction false} SplitOnceJoin(a: string, sep: string, b: string)
    requires |sep| > 0
    requires !Contains(a + sep[..|sep| - 1], sep)
    ensures SplitOnce(a + sep + b, sep) == Some((a, b))
  {
    var s := a + sep + b;
    var w := a + sep[..|sep| - 1];
    assert OccursAt(s, sep, |a|) by {
      assert s[|a|..|a| + |sep|] == sep;
    }
    forall j | 0 <= j < |a|
      ensures !OccursAt(s, sep, j)
    {
      if OccursAt(s, sep, j) {
        assert s[j..j + |sep|] == w[j..j + |sep|];
        assert OccursAt(w, sep, j);
        assert false;
      }
    }
    var r := SplitOnce(s, sep);
    assert r.Some?;
    assert |r.value.0| == |a|;
    assert s[..|a|] == a;
    assert s[|a| + |sep|..] == b;
  }

  /** `SplitOnce` cuts at the leftmost occurrence, wherever that is known to be. */
  lemma {:induction false} SplitOnceAt(s: string, sep: string, i: nat)
    requires |sep| > 0 && FirstAt(s, sep, i)
    ensures SplitOnce(s, sep) == Some((s[..i], s[i + |sep|..]))
  {
    var r := SplitOnce(s, sep);
    assert r.Some?;
    assert |r.value.0| == i;
    assert r.value.0 == s[..i];
    assert r.value.1 == s[i + |sep|..];
  }

  /** The concatenation of a sequence of strings, left to right. */
  function ConcatAll(ss: seq<string>): string {
    if |ss| == 0 then "" else ConcatAll(ss[..|ss| - 1]) + ss[|ss| - 1]
  }

  /** Concatenation distributes over sequence append. */
  lemma {:induction false} ConcatAllAppend(a: seq<string>, b: seq<string>)
    ensures ConcatAll(a + b) == ConcatAll(a) + ConcatAll(b)
    decreases |b|
  {
    if |b| == 0 {
      assert a + b == a;
    } else {
      var b' := b[..|b| - 1];
      assert (a + b)[..|a + b| - 1] == a + b';
      ConcatAllAppend(a, b');
    }
  }

  lemma {:induction false} ConcatAllSnoc(ss: seq<string>, x: string)
    ensures ConcatAll(ss + [x]) == ConcatAll(ss) + x
  {
    assert (ss + [x])[..|ss|] == ss;
  }

  /** Appending to the last string appends to the concatenation. */
  lemma {:induction false} ConcatAllExtendLast(ss: seq<string>, x: string)
    requires |ss| > 0
    ensures ConcatAll(ss[..|ss| - 1] + [ss[|ss| - 1] + x]) == ConcatAll(ss) + x
  {
    var kept := ss[..|ss| - 1];
    var last := ss[|ss| - 1];
    ConcatAllSnoc(kept, last + x);
    ConcatAllSnoc(kept, last);
    assert ss == kept + [last];
    var prefix := ConcatAll(kept);
    assert prefix + (last + x) == (prefix + last) + x;
  }
}
