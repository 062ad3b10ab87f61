/**
 The two string operations the sync handler relies on, with Python's meaning:
 `str.strip()` (applied to every command's stdout) and `str.split(sep)` (applied
 to the comma-separated list of destination region keys).
 */
module Text {

  /** Python's `str.isspace` for one character: the characters `strip()` removes. */
  predicate IsSpace(c: char) {
    var n := c as int;
    || (0x09 <= n <= 0x0D)
    || (0x1C <= n <= 0x20)
    || n == 0x85
    || n == 0xA0
    || n == 0x1680
    || (0x2000 <= n <= 0x200A)
    || n == 0x2028
    || n == 0x2029
    || n == 0x202F
    || n == 0x205F
    || n == 0x3000
  }

  /** Every character of `s` at a position in [lo, hi) is whitespace. */
  predicate SpaceBetween(s: string, lo: int, hi: int)
    requires 0 <= lo && hi <= |s|
  {
    forall k :: lo <= k < hi ==> IsSpace(s[k])
  }

  /** Neither end of `s` is whitespace (vacuously true of the empty string). */
  predicate NoEdgeSpace(s: string) {
    |s| == 0 || (!IsSpace(s[0]) && !IsSpace(s[|s| - 1]))
  }

  /**
   Python's `s.strip()`: `s` without its leading and trailing whitespace,
   removed one character at a time from either end.
   */
  function Strip(s: string): string
    decreases |s|
  {
    if |s| > 0 && IsSpace(s[0]) then Strip(s[1..])
    else if |s| > 0 && IsSpace(s[|s| - 1]) then Strip(s[..|s| - 1])
    else s
  }

  /**
   `r` is `s` with exactly its surrounding whitespace removed: a slice of `s`
   whose both ends are non-whitespace and outside of which all is whitespace.
   */
  ghost predicate TrimmedFrom(r: string, s: string) {
    && NoEdgeSpace(r)
    && exists i :: 0 <= i <= |s| - |r| && r == s[i..i + |r|] && SpaceBetween(s, 0, i) && SpaceBetween(s, i + |r|, |s|)
  }

  /** Where Strip cuts: before the first and after the last non-whitespace character. */
  lemma {:induction false} StripCut(s: string) returns (i: nat, j: nat)
    ensures i <= j <= |s| && Strip(s) == s[i..j]
    ensures SpaceBetween(s, 0, i) && SpaceBetween(s, j, |s|)
    ensures i < j ==> !IsSpace(s[i]) && !IsSpace(s[j - 1])
    decreases |s|
  {
    if |s| > 0 && IsSpace(s[0]) {
      var tail := s[1..];
      var i', j' := StripCut(tail);
      i, j := i' + 1, j' + 1;
      forall k | 0 <= k < j - i ensures tail[i'..j'][k] == s[i..j][k] {
        assert tail[i' + k] == s[i + k];
      }
      forall k | 0 <= k < i ensures IsSpace(s[k]) {
        if k > 0 {
          assert s[k] == tail[k - 1];
        }
      }
      forall k | j <= k < |s| ensures IsSpace(s[k]) {
        assert s[k] == tail[k - 1];
      }
      if i < j {
        assert s[i] == tail[i'] && s[j - 1] == tail[j' - 1];
      }
    } else if |s| > 0 && IsSpace(s[|s| - 1]) {
      var init := s[..|s| - 1];
      i, j := StripCut(init);
      forall k | 0 <= k < j - i ensures init[i..j][k] == s[i..j][k] {
        assert init[i + k] == s[i + k];
      }
      forall k | j <= k < |s| ensures IsSpace(s[k]) {
        if k < |s| - 1 {
          assert s[k] == init[k];
        }
      }
      if i < j {
        assert s[i] == init[i] && s[j - 1] == init[j - 1];
      }
    } else {
      i, j := 0, |s|;
    }
  }

  /** Strip removes exactly the surrounding whitespace. */
  lemma StripTrims(s: string)
    ensures TrimmedFrom(Strip(s), s)
  {
    var i, j := StripCut(s);
    var r := Strip(s);
    assert r == s[i..i + |r|];
    if i < j {
      assert r[0] == s[i] && r[|r| - 1] == s[j - 1];
    }
  }

  /**
   The strip of `s` is determined by its characterisation: any slice with
   whitespace-only surroundings and non-whitespace ends is the strip.
   */
  lemma StripUnique(s: string, i: nat, j: nat)
    requires i <= j <= |s|
    requires SpaceBetween(s, 0, i) && SpaceBetween(s, j, |s|)
    requires NoEdgeSpace(s[i..j])
    ensures Strip(s) == s[i..j]
  {
    var i', j' := StripCut(s);
    if i < j {
      assert s[i..j][0] == s[i] && s[i..j][j - i - 1] == s[j - 1];
      assert !IsSpace(s[i]) && !IsSpace(s[j - 1]);
      assert i' <= i && j - 1 < j';
      assert i' < j';
      assert i <= i' && j' - 1 < j;
    } else {
      assert j' <= i';
    }
  }

  /** Stripping twice is stripping once. */
  lemma StripIdempotent(s: string)
    ensures Strip(Strip(s)) == Strip(s)
  {
    var r := Strip(s);
    StripTrims(s);
    assert r[0..|r|] == r;
    StripUnique(r, 0, |r|);
  }

  /** The separator-free pieces of `parts` put back together around `sep`. */
  function Join(parts: seq<string>, sep: char): string
    requires |parts| >= 1
  {
    if |parts| == 1 then parts[0] else parts[0] + [sep] + Join(parts[1..], sep)
  }

  /**
   Python's `s.split(sep)` for a one-character separator: every occurrence
   of `sep` cuts, empty pieces are kept and nothing is trimmed, so there is
   always at least one piece and joining the pieces gives `s` back.
   */
  function Split(s: string, sep: char): (parts: seq<string>)
    ensures |parts| >= 1
    ensures forall k :: 0 <= k < |parts| ==> sep !in parts[k]
    ensures Join(parts, sep) == s
    decreases |s|
  {
    if |s| == 0 then [""]
    else
      var rest := Split(s[1..], sep);
      if s[0] == sep then
        assert s == [sep] + s[1..];
        [""] + rest
      else
        var parts := [[s[0]] + rest[0]] + rest[1..];
        assert parts[1..] == rest[1..];
        assert s == [s[0]] + s[1..];
        parts
  }

  /** A separator-free string is a single piece. */
  lemma {:induction false} SplitNoSeparator(s: string, sep: char)
    requires sep !in s
    ensures Split(s, sep) == [s]
    decreases |s|
  {
    if |s| > 0 {
      assert sep !in s[1..] by {
        forall k | 0 <= k < |s[1..]| ensures s[1..][k] != sep {
          assert s[1..][k] == s[k + 1];
        }
      }
      SplitNoSeparator(s[1..], sep);
      assert [s[0]] + s[1..] == s;
    }
  }

  /** Splitting at the first separator: the piece before it, then the split of the rest. */
  lemma {:induction false} SplitFirstPiece(a: string, b: string, sep: char)
    requires sep !in a
    ensures Split(a + [sep] + b, sep) == [a] + Split(b, sep)
    decreases |a|
  {
    var s := a + [sep] + b;
    if |a| == 0 {
      assert s[1..] == b;
    } else {
      var a' := a[1..];
      assert sep !in a' by {
        forall k | 0 <= k < |a'| ensures a'[k] != sep {
          assert a'[k] == a[k + 1];
        }
      }
      assert s[1..] == a' + [sep] + b;
      SplitFirstPiece(a', b, sep);
      assert [a[0]] + a' == a;
    }
  }

  /** Split undoes Join when no piece contains the separator: the two are inverses. */
  lemma {:induction false} SplitJoin(parts: seq<string>, sep: char)
    requires |parts| >= 1
    requires forall k :: 0 <= k < |parts| ==> sep !in parts[k]
    ensures Split(Join(parts, sep), sep) == parts
    decreases |parts|
  {
    if |parts| == 1 {
      SplitNoSeparator(parts[0], sep);
    } else {
      SplitJoin(parts[1..], sep);
      SplitFirstPiece(parts[0], Join(parts[1..], sep), sep);
      assert [parts[0]] + parts[1..] == parts;
    }
  }
}
