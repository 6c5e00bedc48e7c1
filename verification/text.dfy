/** The Java `String` operations the core relies on, over `seq<char>`. */
module Text {

  /** `p` occurs in `s` starting at index `i`. */
  predicate OccursAt(s: string, p: string, i: nat)
  {
    i + |p| <= |s| && s[i..i + |p|] == p
  }

  /** `p` occurs somewhere in `s` (Java `s.contains(p)`). */
  predicate Occurs(s: string, p: string)
  {
    exists i: nat | i <= |s| :: OccursAt(s, p, i)
  }

  /** `a` is obtained from `b` by deleting characters. */
  predicate IsSubsequence(a: string, b: string)
    decreases |b|
  {
    if |b| == 0 then |a| == 0
    else (|a| > 0 && a[0] == b[0] && IsSubsequence(a[1..], b[1..])) || IsSubsequence(a, b[1..])
  }

  /** Java `s.replace(p, "")`: find the leftmost occurrence of `p`, drop it and
      continue the search after it, so removed occurrences never overlap. */
  function RemoveAll(s: string, p: string): (r: string)
    requires |p| > 0
    ensures |r| <= |s|
    decreases |s|
  {
    if |s| < |p| then s
    else if s[..|p|] == p then RemoveAll(s[|p|..], p)
    else [s[0]] + RemoveAll(s[1..], p)
  }

  /** Every character of `s` that is not in `drop`, in order. */
  function DropChars(s: string, drop: set<char>): (r: string)
    ensures |r| <= |s|
  {
    if |s| == 0 then ""
    else (if s[0] in drop then "" else [s[0]]) + DropChars(s[1..], drop)
  }

  /** No character of `s` lies in `d`. */
  predicate Avoids(s: string, d: set<char>)
  {
    forall k :: 0 <= k < |s| ==> s[k] !in d
  }

  /** Every character of `s` is one Java's `trim` removes (code point at most U+0020). */
  predicate AllTrimmable(s: string)
  {
    forall k :: 0 <= k < |s| ==> s[k] <= ' '
  }

  /** Index of the first character at or after `i` that `trim` keeps. */
  function SkipLeading(s: string, i: nat): (k: nat)
    requires i <= |s|
    ensures i <= k <= |s|
    ensures AllTrimmable(s[i..k])
    ensures k < |s| ==> s[k] > ' '
    decreases |s| - i
  {
    if i < |s| && s[i] <= ' ' then SkipLeading(s, i + 1) else i
  }

  /** End of the text left once trailing trimmable characters after `lo` are removed from `s[..j]`. */
  function SkipTrailing(s: string, lo: nat, j: nat): (k: nat)
    requires lo <= j <= |s|
    ensures lo <= k <= j
    ensures AllTrimmable(s[k..j])
    ensures k > lo ==> s[k - 1] > ' '
    decreases j
  {
    if j > lo && s[j - 1] <= ' ' then
      var k := SkipTrailing(s, lo, j - 1);
      assert s[k..j] == s[k..j - 1] + [s[j - 1]];
      k
    else j
  }

  /** Java `s.trim()`. */
  function Trim(s: string): (r: string)
    ensures exists i, j :: 0 <= i <= j <= |s| && r == s[i..j] && AllTrimmable(s[..i]) && AllTrimmable(s[j..])
    ensures |r| > 0 ==> r[0] > ' ' && r[|r| - 1] > ' '
  {
    var i := SkipLeading(s, 0);
    var j := SkipTrailing(s, i, |s|);
    assert s[..i] == s[0..i];
    assert s[j..] == s[j..|s|];
    assert 0 <= i <= j <= |s| && AllTrimmable(s[..i]) && AllTrimmable(s[j..]);
    s[i..j]
  }

  /** Java `Character.isWhitespace`: the ASCII controls U+0009..U+000D and
      U+001C..U+001F, and every Unicode space, line or paragraph separator
      except the three non-breaking spaces U+00A0, U+2007 and U+202F. */
  predicate IsJavaWhitespace(c: char)
  {
    || c == ' '
    || ('\t' <= c <= '\r')
    || ('\U{1C}' <= c <= '\U{1F}')
    || c == '\U{1680}'
    || ('\U{2000}' <= c <= '\U{200A}' && c != '\U{2007}')
    || c == '\U{2028}' || c == '\U{2029}' || c == '\U{205F}' || c == '\U{3000}'
  }

  /** Spring's `StringUtils.hasText`: scans `s` for a character that is not
      whitespace. */
  function HasText(s: string): (r: bool)
    ensures r <==> exists k :: 0 <= k < |s| && !IsJavaWhitespace(s[k])
  {
    if |s| == 0 then false
    else if !IsJavaWhitespace(s[0]) then true
    else
      var r := HasText(s[1..]);
      assert forall k :: 1 <= k < |s| ==> s[k] == s[1..][k - 1];
      r
  }

  lemma {:induction false} SubsequenceReflexive(s: string)
    ensures IsSubsequence(s, s)
    decreases |s|
  {
    if |s| > 0 {
      SubsequenceReflexive(s[1..]);
    }
  }

  lemma {:induction false} SubsequenceOfSuffix(a: string, b: string, k: nat)
    requires k <= |b|
    requires IsSubsequence(a, b[k..])
    ensures IsSubsequence(a, b)
    decreases k
  {
    if k > 0 {
      assert b[k..] == b[1..][k - 1..];
      SubsequenceOfSuffix(a, b[1..], k - 1);
    }
  }

  lemma {:induction false} SubsequenceTransitive(a: string, b: string, c: string)
    requires IsSubsequence(a, b) && IsSubsequence(b, c)
    ensures IsSubsequence(a, c)
    decreases |c|
  {
    if |c| == 0 {
    } else if IsSubsequence(b, c[1..]) {
      SubsequenceTransitive(a, b, c[1..]);
    } else {
      assert |b| > 0 && b[0] == c[0] && IsSubsequence(b[1..], c[1..]);
      if |a| > 0 && a[0] == b[0] && IsSubsequence(a[1..], b[1..]) {
        SubsequenceTransitive(a[1..], b[1..], c[1..]);
      } else {
        SubsequenceTransitive(a, b[1..], c[1..]);
      }
    }
  }

  /** Deleting characters never introduces one. */
  lemma {:induction false} SubsequenceAvoids(a: string, b: string, d: set<char>)
    requires IsSubsequence(a, b) && Avoids(b, d)
    ensures Avoids(a, d)
    decreases |b|
  {
    if |b| > 0 {
      if |a| > 0 && a[0] == b[0] && IsSubsequence(a[1..], b[1..]) {
        SubsequenceAvoids(a[1..], b[1..], d);
        assert forall k :: 1 <= k < |a| ==> a[k] == a[1..][k - 1];
      } else {
        SubsequenceAvoids(a, b[1..], d);
      }
    }
  }

  lemma {:induction false} RemoveAllSubsequence(s: string, p: string)
    requires |p| > 0
    ensures IsSubsequence(RemoveAll(s, p), s)
    decreases |s|
  {
    if |s| < |p| {
      SubsequenceReflexive(s);
    } else if s[..|p|] == p {
      RemoveAllSubsequence(s[|p|..], p);
      SubsequenceOfSuffix(RemoveAll(s, p), s, |p|);
    } else {
      RemoveAllSubsequence(s[1..], p);
      var r := RemoveAll(s, p);
      assert r[0] == s[0] && r[1..] == RemoveAll(s[1..], p);
    }
  }

  /** An occurrence of `p` anywhere in `s` makes the removal shorten `s`. */
  lemma {:induction false} RemoveAllShrinks(s: string, p: string, i: nat)
    requires |p| > 0 && OccursAt(s, p, i)
    ensures |RemoveAll(s, p)| < |s|
    decreases |s|
  {
    if s[..|p|] != p {
      assert i > 0;
      assert s[1..][i - 1..i - 1 + |p|] == s[i..i + |p|];
      RemoveAllShrinks(s[1..], p, i - 1);
    }
  }

  lemma {:induction false} RemoveAllAbsent(s: string, p: string)
    requires |p| > 0 && !Occurs(s, p)
    ensures RemoveAll(s, p) == s
    decreases |s|
  {
    if |s| >= |p| {
      assert !OccursAt(s, p, 0);
      assert s[..|p|] != p;
      forall i: nat | OccursAt(s[1..], p, i)
        ensures false
      {
        assert s[1..][i..i + |p|] == s[i + 1..i + 1 + |p|];
        assert OccursAt(s, p, i + 1);
      }
      RemoveAllAbsent(s[1..], p);
    }
  }

  /** `s.replace(p, "")` leaves `s` as it is exactly when `p` does not occur in it. */
  lemma RemoveAllUnchangedIff(s: string, p: string)
    requires |p| > 0
    ensures RemoveAll(s, p) == s <==> !Occurs(s, p)
  {
    if Occurs(s, p) {
      var i: nat :| OccursAt(s, p, i);
      RemoveAllShrinks(s, p, i);
    } else {
      RemoveAllAbsent(s, p);
    }
  }

  /** A leading occurrence of `p` is removed and the scan continues after it. */
  lemma RemoveAllLeading(p: string, t: string)
    requires |p| > 0
    ensures RemoveAll(p + t, p) == RemoveAll(t, p)
  {
    assert (p + t)[..|p|] == p;
    assert (p + t)[|p|..] == t;
  }

  /** Text that cannot start an occurrence of `p` passes through unchanged. */
  lemma {:induction false} RemoveAllSkips(x: string, y: string, p: string)
    requires |p| > 0
    requires forall k :: 0 <= k < |x| ==> x[k] != p[0]
    ensures RemoveAll(x + y, p) == x + RemoveAll(y, p)
    decreases |x|
  {
    if |x| > 0 {
      if |x + y| < |p| {
        assert RemoveAll(y, p) == y;
      } else {
        assert (x + y)[..|p|][0] == x[0];
        assert (x + y)[1..] == x[1..] + y;
        RemoveAllSkips(x[1..], y, p);
      }
    } else {
      assert x + y == y;
    }
  }

  /** Removing a single character is dropping it. */
  lemma {:induction false} RemoveCharIsDropChars(s: string, c: char)
    ensures RemoveAll(s, [c]) == DropChars(s, {c})
    decreases |s|
  {
    if |s| > 0 {
      RemoveCharIsDropChars(s[1..], c);
      if s[0] == c {
        assert s[..1] == [c];
      } else {
        assert s[..1] != [c];
      }
    }
  }

  /** No dropped character survives. */
  lemma {:induction false} DropCharsAvoids(s: string, d: set<char>)
    ensures Avoids(DropChars(s, d), d)
    decreases |s|
  {
    if |s| > 0 {
      DropCharsAvoids(s[1..], d);
      var head := if s[0] in d then "" else [s[0]];
      assert DropChars(s, d) == head + DropChars(s[1..], d);
    }
  }

  lemma {:induction false} DropCharsConcat(a: string, b: string, d: set<char>)
    ensures DropChars(a + b, d) == DropChars(a, d) + DropChars(b, d)
    decreases |a|
  {
    if |a| == 0 {
      assert a + b == b;
    } else {
      assert (a + b)[0] == a[0];
      assert (a + b)[1..] == a[1..] + b;
      DropCharsConcat(a[1..], b, d);
    }
  }

  lemma {:induction false} DropCharsTwice(s: string, d: set<char>, e: set<char>)
    ensures DropChars(DropChars(s, d), e) == DropChars(s, d + e)
    decreases |s|
  {
    if |s| > 0 {
      DropCharsTwice(s[1..], d, e);
      var head := if s[0] in d then "" else [s[0]];
      DropCharsConcat(head, DropChars(s[1..], d), e);
    }
  }

  lemma {:induction false} DropCharsAvoided(s: string, d: set<char>)
    requires Avoids(s, d)
    ensures DropChars(s, d) == s
    decreases |s|
  {
    if |s| > 0 {
      DropCharsAvoided(s[1..], d);
      assert [s[0]] + s[1..] == s;
    }
  }

  lemma {:induction false} DropCharsAll(s: string, d: set<char>)
    requires forall k :: 0 <= k < |s| ==> s[k] in d
    ensures DropChars(s, d) == ""
    decreases |s|
  {
    if |s| > 0 {
      DropCharsAll(s[1..], d);
    }
  }
}
