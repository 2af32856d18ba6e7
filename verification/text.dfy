/** The string normalisation the command resolver relies on: trimming,
    ASCII lower-casing, and splitting on a separator character. */
module Text {

  /** Whitespace as Python's `str.isspace` sees it, restricted to ASCII:
      space, tab, line feed, vertical tab, form feed, carriage return and the
      four information separators 0x1C-0x1F. */
  predicate IsSpace(c: char) {
    c == ' ' || ('\t' <= c <= '\r') || ('\U{1C}' <= c <= '\U{1F}')
  }

  predicate IsUpper(c: char) {
    'A' <= c <= 'Z'
  }

  predicate AllSpace(s: string) {
    forall i :: 0 <= i < |s| ==> IsSpace(s[i])
  }

  /** Neither the first nor the last character is whitespace. */
  predicate Trimmed(s: string) {
    s == [] || (!IsSpace(s[0]) && !IsSpace(s[|s| - 1]))
  }

  predicate NoUpper(s: string) {
    forall i :: 0 <= i < |s| ==> !IsUpper(s[i])
  }

  /** The index of the first non-whitespace character of `s` at or after
      `i`, or `|s|` when there is none. */
  function SkipSpace(s: string, i: nat): (j: nat)
    requires i <= |s|
    decreases |s| - i
    ensures i <= j <= |s|
    ensures j < |s| ==> !IsSpace(s[j])
    ensures forall k :: i <= k < j ==> IsSpace(s[k])
  {
    if i < |s| && IsSpace(s[i]) then SkipSpace(s, i + 1) else i
  }

  /** The end of `s[lo..hi]` once its trailing whitespace is dropped. */
  function BackSpace(s: string, lo: nat, hi: nat): (e: nat)
    requires lo <= hi <= |s|
    ensures lo <= e <= hi
    ensures lo < e ==> !IsSpace(s[e - 1])
    ensures forall k :: e <= k < hi ==> IsSpace(s[k])
  {
    if lo < hi && IsSpace(s[hi - 1]) then BackSpace(s, lo, hi - 1) else hi
  }

  /** Python's `str.strip()` with no argument: leading and trailing
      whitespace removed. */
  function Trim(s: string): (r: string)
    ensures Trimmed(r)
    ensures |r| <= |s|
  {
    var i := SkipSpace(s, 0);
    s[i..BackSpace(s, i, |s|)]
  }

  /** `Trim` cuts whitespace only: the result is the middle of `s`, with
      nothing but whitespace before and after it. */
  lemma TrimBounds(s: string) returns (i: nat, j: nat)
    ensures i <= j <= |s| && Trim(s) == s[i..j]
    ensures AllSpace(s[..i]) && AllSpace(s[j..])
  {
    i := SkipSpace(s, 0);
    j := BackSpace(s, i, |s|);
    assert forall k :: 0 <= k < i ==> s[..i][k] == s[k];
    assert forall k :: 0 <= k < |s| - j ==> s[j..][k] == s[j + k];
  }

  /** Trimming characterised from outside: whatever whitespace pads a
      trimmed core on either side, `Trim` returns exactly that core. */
  lemma TrimPadded(a: string, m: string, b: string)
    requires AllSpace(a) && AllSpace(b) && Trimmed(m)
    ensures Trim(a + m + b) == m
  {
    var s := a + m + b;
    var i := SkipSpace(s, 0);
    if m == [] {
      assert forall k :: 0 <= k < |s| ==> IsSpace(s[k]) by {
        forall k | 0 <= k < |s| ensures IsSpace(s[k]) {
          if k < |a| { assert s[k] == a[k]; } else { assert s[k] == b[k - |a|]; }
        }
      }
      assert i == |s|;
    } else {
      assert s[|a|] == m[0];
      assert i == |a|;
      var e := BackSpace(s, i, |s|);
      assert s[|a| + |m| - 1] == m[|m| - 1];
      assert e == |a| + |m|;
      assert s[i..e] == m;
    }
  }

  /** A string that is already trimmed is left alone, so `Trim` is idempotent. */
  lemma TrimOfTrimmed(s: string)
    requires Trimmed(s)
    ensures Trim(s) == s
  {
    TrimPadded([], s, []);
    assert [] + s + [] == s;
  }

  function LowerChar(c: char): (d: char)
    ensures !IsUpper(d)
    ensures IsSpace(d) <==> IsSpace(c)
    ensures !IsUpper(c) ==> d == c
    ensures IsUpper(c) ==> d as int == c as int + 32
  {
    if IsUpper(c) then (c as int + ('a' as int - 'A' as int)) as char else c
  }

  /** ASCII lower-casing, character by character. */
  function Lower(s: string): string {
    seq(|s|, i requires 0 <= i < |s| => LowerChar(s[i]))
  }

  /** Lower-casing leaves no upper-case letter, keeps every whitespace
      position, and so keeps a trimmed string trimmed. */
  lemma LowerProperties(s: string)
    ensures NoUpper(Lower(s))
    ensures Trimmed(s) ==> Trimmed(Lower(s))
    ensures Lower(s) == [] <==> s == []
  {
  }

  /** A string without upper-case letters is its own lower-case form; in
      particular `Lower` is idempotent. */
  lemma LowerOfLower(s: string)
    requires NoUpper(s)
    ensures Lower(s) == s
  {
  }

  /** `c` and `d` are the same character once ASCII letter case is
      ignored: equal, or an upper-case letter and its lower-case partner. */
  predicate SameIgnoringCase(c: char, d: char) {
    || c == d
    || (IsUpper(c) && d as int == c as int + 32)
    || (IsUpper(d) && c as int == d as int + 32)
  }

  /** `s` and `t` spell the same characters up to ASCII letter case. */
  predicate EqualIgnoringCase(s: string, t: string) {
    |s| == |t| && forall i :: 0 <= i < |s| ==> SameIgnoringCase(s[i], t[i])
  }

  /** Lower-casing identifies exactly the strings that are equal up to
      letter case. */
  lemma LowerIgnoresCase(s: string, t: string)
    ensures Lower(s) == Lower(t) <==> EqualIgnoringCase(s, t)
  {
    if Lower(s) == Lower(t) {
      forall i | 0 <= i < |s| ensures SameIgnoringCase(s[i], t[i]) {
        assert LowerChar(s[i]) == Lower(s)[i] == Lower(t)[i] == LowerChar(t[i]);
      }
    }
    if EqualIgnoringCase(s, t) {
      forall i | 0 <= i < |s| ensures Lower(s)[i] == Lower(t)[i] {
        assert SameIgnoringCase(s[i], t[i]);
      }
    }
  }

  /** Skipping leading whitespace sees the same positions after
      lower-casing. */
  lemma {:induction false} SkipSpaceLower(s: string, i: nat)
    requires i <= |s|
    decreases |s| - i
    ensures SkipSpace(Lower(s), i) == SkipSpace(s, i)
  {
    if i < |s| {
      assert Lower(s)[i] == LowerChar(s[i]);
      SkipSpaceLower(s, i + 1);
    }
  }

  /** Dropping trailing whitespace sees the same positions after
      lower-casing. */
  lemma {:induction false} BackSpaceLower(s: string, lo: nat, hi: nat)
    requires lo <= hi <= |s|
    decreases hi
    ensures BackSpace(Lower(s), lo, hi) == BackSpace(s, lo, hi)
  {
    if lo < hi {
      assert Lower(s)[hi - 1] == LowerChar(s[hi - 1]);
      BackSpaceLower(s, lo, hi - 1);
    }
  }

  /** Trimming and lower-casing commute. */
  lemma LowerTrim(s: string)
    ensures Lower(Trim(s)) == Trim(Lower(s))
  {
    SkipSpaceLower(s, 0);
    var i := SkipSpace(s, 0);
    BackSpaceLower(s, i, |s|);
    var j := BackSpace(s, i, |s|);
    assert Lower(s[i..j]) == Lower(s)[i..j];
  }

  /** Splits `s` at every occurrence of `sep`, keeping empty pieces, as
      Python's `str.split(sep)` does: there is always at least one piece
      and no piece contains the separator. */
  function Split(s: string, sep: char): (r: seq<string>)
    ensures |r| >= 1
    ensures forall k :: 0 <= k < |r| ==> sep !in r[k]
  {
    if s == [] then [[]]
    else
      var rest := Split(s[1..], sep);
      if s[0] == sep then [[]] + rest
      else [[s[0]] + rest[0]] + rest[1..]
  }

  /** Concatenates `parts` with `sep` between neighbours. */
  function Join(parts: seq<string>, sep: char): (r: string)
    ensures |parts| == 1 ==> r == parts[0]
  {
    if |parts| == 0 then []
    else if |parts| == 1 then parts[0]
    else parts[0] + [sep] + Join(parts[1..], sep)
  }

  /** Joining the pieces back with the separator restores the string. */
  lemma {:induction false} JoinSplit(s: string, sep: char)
    ensures Join(Split(s, sep), sep) == s
  {
    if s != [] {
      var rest := Split(s[1..], sep);
      JoinSplit(s[1..], sep);
      if s[0] == sep {
        assert Split(s, sep) == [[]] + rest;
        assert ([[]] + rest)[1..] == rest;
        assert s == [] + [sep] + s[1..];
      } else {
        var r := Split(s, sep);
        assert r == [[s[0]] + rest[0]] + rest[1..];
        if |rest| == 1 {
          assert s == [s[0]] + rest[0];
        } else {
          assert r[1..] == rest[1..];
          assert Join(rest, sep) == rest[0] + [sep] + Join(rest[1..], sep);
          assert s == [s[0]] + s[1..];
        }
      }
    }
  }

  /** A string with no separator in it is a single piece. */
  lemma {:induction false} SplitNoSep(s: string, sep: char)
    requires sep !in s
    ensures Split(s, sep) == [s]
  {
    if s != [] {
      assert sep !in s[1..] by {
        forall k | 0 <= k < |s[1..]| ensures s[1..][k] != sep {
          assert s[1..][k] == s[k + 1];
        }
      }
      SplitNoSep(s[1..], sep);
      assert [s[0]] + s[1..] == s;
    }
  }

  /** Splitting distributes over a separator: the pieces of `a sep b` are
      the pieces of `a` followed by the pieces of `b`. */
  lemma {:induction false} SplitAppend(a: string, b: string, sep: char)
    ensures Split(a + [sep] + b, sep) == Split(a, sep) + Split(b, sep)
  {
    var s := a + [sep] + b;
    if a == [] {
      assert s[0] == sep;
      assert s[1..] == b;
    } else {
      assert s[0] == a[0];
      assert s[1..] == a[1..] + [sep] + b;
      SplitAppend(a[1..], b, sep);
      var rest := Split(s[1..], sep);
      var ra := Split(a[1..], sep);
      assert rest == ra + Split(b, sep);
      if a[0] == sep {
        assert Split(a, sep) == [[]] + ra;
      } else {
        assert rest[0] == ra[0];
        assert rest[1..] == ra[1..] + Split(b, sep);
      }
    }
  }
}
