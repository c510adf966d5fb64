/**
 * The two operations on Python `str` that the client-address resolver chains
 * together: taking the first field of `s.split(sep)` and `s.strip()`.
 */
module Text {

  /**
   * Python's `str.isspace()` on a single character, for the Latin-1 range
   * (code points up to 0xFF): TAB, LF, VT, FF, CR, the four information
   * separators 0x1C-0x1F, SPACE, NEL (0x85) and NO-BREAK SPACE (0xA0).
   * Characters above 0xFF are treated as non-space.
   */
  predicate IsSpace(c: char) {
    var n := c as int;
    (9 <= n <= 13) || (28 <= n <= 32) || n == 0x85 || n == 0xA0
  }

  /** Every character of `s` at an index in `[lo, hi)` is whitespace. */
  predicate SpaceBetween(s: string, lo: int, hi: int)
    requires 0 <= lo <= hi <= |s|
  {
    forall k :: lo <= k < hi ==> IsSpace(s[k])
  }

  predicate AllSpace(s: string) {
    SpaceBetween(s, 0, |s|)
  }

  /** Neither end of `s` is whitespace (vacuously true of the empty string). */
  predicate NoEdgeSpace(s: string) {
    s == [] || (!IsSpace(s[0]) && !IsSpace(s[|s| - 1]))
  }

  /**
   * `s.split(sep)[0]`: the longest prefix of `s` that does not contain `sep`.
   * Python's `split` always yields at least one element, so this is defined
   * on every string, the empty one included.
   */
  function FirstField(s: string, sep: char): (r: string)
    ensures |r| <= |s| && r == s[..|r|]
    ensures sep !in r
    ensures |r| < |s| ==> s[|r|] == sep
  {
    if s == [] || s[0] == sep then [] else [s[0]] + FirstField(s[1..], sep)
  }

  /** A string without the separator is its own single field. */
  lemma FirstFieldWithoutSep(s: string, sep: char)
    requires sep !in s
    ensures FirstField(s, sep) == s
  {
  }

  /** Whatever follows the first separator does not affect the first field. */
  lemma {:induction false} FirstFieldOfJoin(a: string, sep: char, b: string)
    requires sep !in a
    ensures FirstField(a + [sep] + b, sep) == a
  {
    if a == [] {
      assert (a + [sep] + b)[0] == sep;
    } else {
      assert (a + [sep] + b)[1..] == a[1..] + [sep] + b;
      assert a[0] in a;
      FirstFieldOfJoin(a[1..], sep, b);
    }
  }

  /** The first index at or after `i` that does not hold whitespace (`|s|` if none). */
  function SkipSpaceForward(s: string, i: int): (n: int)
    requires 0 <= i <= |s|
    ensures i <= n <= |s| && SpaceBetween(s, i, n)
    ensures n < |s| ==> !IsSpace(s[n])
    decreases |s| - i
  {
    if i < |s| && IsSpace(s[i]) then SkipSpaceForward(s, i + 1) else i
  }

  /** The least index `n >= lo` such that `s[n..j]` is all whitespace. */
  function SkipSpaceBackward(s: string, lo: int, j: int): (n: int)
    requires 0 <= lo <= j <= |s|
    ensures lo <= n <= j && SpaceBetween(s, n, j)
    ensures lo < n ==> !IsSpace(s[n - 1])
    decreases j
  {
    if lo < j && IsSpace(s[j - 1]) then SkipSpaceBackward(s, lo, j - 1) else j
  }

  /**
   * `s[i..j]` is `s` with the whitespace-only margins `s[..i]` and `s[j..]`
   * cut off, and no whitespace is left at either end of it.
   */
  predicate Trimmed(s: string, i: int, j: int) {
    && 0 <= i <= j <= |s|
    && SpaceBetween(s, 0, i)
    && SpaceBetween(s, j, |s|)
    && (i == j || (!IsSpace(s[i]) && !IsSpace(s[j - 1])))
  }

  /**
   * `s.strip()`: the part of `s` between its leading and its trailing
   * whitespace; the empty string when `s` is all whitespace. As in CPython,
   * the start index skips leading whitespace and the end index then moves
   * back over trailing whitespace, never past the start.
   */
  function Strip(s: string): (r: string)
    ensures NoEdgeSpace(r)
    ensures exists i, j :: Trimmed(s, i, j) && r == s[i..j]
  {
    var i := SkipSpaceForward(s, 0);
    var j := SkipSpaceBackward(s, i, |s|);
    assert Trimmed(s, i, j);
    s[i..j]
  }

  /** Two trimmings of one string leave the same middle part. */
  lemma TrimmedUnique(s: string, i: int, j: int, i': int, j': int)
    requires Trimmed(s, i, j) && Trimmed(s, i', j')
    ensures s[i..j] == s[i'..j']
  {
    if i < j && i' < j' {
      assert i == i' && j == j';
    } else {
      assert i == j && i' == j';
    }
  }

  /**
   * Strip is fully determined by its contract: cutting whitespace-only
   * margins off `s` so that no whitespace is left at either end gives
   * exactly `Strip(s)`.
   */
  lemma StripUnique(s: string, i: int, j: int)
    requires Trimmed(s, i, j)
    ensures Strip(s) == s[i..j]
  {
    var r := Strip(s);
    var k, l :| Trimmed(s, k, l) && r == s[k..l];
    TrimmedUnique(s, i, j, k, l);
  }

  /** Stripping twice is stripping once. */
  lemma StripIdempotent(s: string)
    ensures Strip(Strip(s)) == Strip(s)
  {
    var r := Strip(s);
    assert r[0..|r|] == r;
    StripUnique(r, 0, |r|);
  }

  /** Stripping never introduces a character that `s` does not contain. */
  lemma StripWithout(s: string, c: char)
    requires c !in s
    ensures c !in Strip(s)
  {
    var r := Strip(s);
    var i, j :| Trimmed(s, i, j) && r == s[i..j];
    assert forall k :: 0 <= k < |r| ==> r[k] == s[i + k];
  }

  /**
   * Whitespace padding around a text without edge whitespace is exactly
   * what `Strip` removes; padding adds no comma.
   */
  lemma StripPadded(lead: string, text: string, trail: string)
    requires AllSpace(lead) && AllSpace(trail) && NoEdgeSpace(text)
    ensures Strip(lead + text + trail) == text
    ensures ',' !in text ==> ',' !in lead + text + trail
  {
    var s := lead + text + trail;
    var i, j := |lead|, |lead| + |text|;
    forall k | 0 <= k < i ensures IsSpace(s[k]) {
      assert s[k] == lead[k];
    }
    forall k | j <= k < |s| ensures IsSpace(s[k]) {
      assert s[k] == trail[k - j];
    }
    if i < j {
      assert s[i] == text[0] && s[j - 1] == text[|text| - 1];
    }
    assert s[i..j] == text;
    StripUnique(s, i, j);
    if ',' !in text {
      forall k | 0 <= k < |s| ensures s[k] != ',' {
        if k < i {
          assert IsSpace(s[k]);
        } else if k < j {
          assert s[k] == text[k - i];
        } else {
          assert IsSpace(s[k]);
        }
      }
    }
  }
}
