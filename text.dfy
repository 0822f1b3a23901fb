/**
 * The string operations the store relies on, written out over `seq<char>`:
 * Python's `str.isspace`, `str.lower`, `str.strip`, `str.split()`, the
 * substring test `w in s` and the ordering `a < b` between strings.
 */
module Text {

  /** Python's `str.isspace()` for a single code point. */
  predicate IsSpace(c: char) {
    var n := c as int;
    n == 0x20 || 0x09 <= n <= 0x0D || 0x1C <= n <= 0x1F || n == 0x85 || n == 0xA0
    || n == 0x1680 || 0x2000 <= n <= 0x200A || n == 0x2028 || n == 0x2029
    || n == 0x202F || n == 0x205F || n == 0x3000
  }

  /** Case mapping of one character (the ASCII part of `str.lower()`). */
  function LowerChar(c: char): (d: char)
    ensures IsSpace(d) <==> IsSpace(c)
    ensures 'A' <= c <= 'Z' ==> d as int == c as int - 'A' as int + 'a' as int && 'a' <= d <= 'z'
    ensures !('A' <= c <= 'Z') ==> d == c
  {
    if 'A' <= c <= 'Z' then (c as int - 'A' as int + 'a' as int) as char else c
  }

  /** `s.lower()`: maps every character, keeps the length. */
  function Lower(s: string): (r: string)
    ensures |r| == |s|
    ensures forall i :: 0 <= i < |s| ==> r[i] == LowerChar(s[i])
  {
    seq(|s|, i requires 0 <= i < |s| => LowerChar(s[i]))
  }

  /** `s.lstrip()`: the suffix of `s` left after dropping leading whitespace. */
  function TrimStart(s: string): (r: string)
    ensures |r| <= |s| && r == s[|s| - |r|..]
    ensures forall i :: 0 <= i < |s| - |r| ==> IsSpace(s[i])
    ensures r != [] ==> !IsSpace(r[0])
  {
    if s != [] && IsSpace(s[0]) then TrimStart(s[1..]) else s
  }

  /** `s.rstrip()`: the prefix of `s` left after dropping trailing whitespace. */
  function TrimEnd(s: string): (r: string)
    ensures |r| <= |s| && r == s[..|r|]
    ensures forall i :: |r| <= i < |s| ==> IsSpace(s[i])
    ensures r != [] ==> !IsSpace(r[|r| - 1])
  {
    if s != [] && IsSpace(s[|s| - 1]) then TrimEnd(s[..|s| - 1]) else s
  }

  /**
   * `r` sits in `s` at position `i`, and everything of `s` before and after
   * that occurrence is whitespace.
   */
  predicate TrimmedAt(r: string, s: string, i: nat) {
    OccursAt(r, s, i)
    && (forall k :: 0 <= k < i ==> IsSpace(s[k]))
    && (forall k :: i + |r| <= k < |s| ==> IsSpace(s[k]))
  }

  /**
   * `s.strip()`: a contiguous slice of `s` that neither starts nor ends with
   * whitespace; everything cut off on either side is whitespace.
   */
  function Strip(s: string): (r: string)
    ensures exists i :: 0 <= i <= |s| && TrimmedAt(r, s, i)
    ensures r != [] ==> !IsSpace(r[0]) && !IsSpace(r[|r| - 1])
    ensures r == [] <==> forall i :: 0 <= i < |s| ==> IsSpace(s[i])
  {
    var t := TrimStart(s);
    var r := TrimEnd(t);
    SliceOfSuffix(s, t, r);
    r
  }

  /**
   * A prefix `r` of a suffix `t` of `s`, cut off from `s` and `t` by
   * whitespace only, is `s` trimmed at the position where `t` starts; it is
   * empty just when `s` is all whitespace.
   */
  lemma SliceOfSuffix(s: string, t: string, r: string)
    requires |t| <= |s| && t == s[|s| - |t|..]
    requires forall i :: 0 <= i < |s| - |t| ==> IsSpace(s[i])
    requires t != [] ==> !IsSpace(t[0])
    requires |r| <= |t| && r == t[..|r|]
    requires forall i :: |r| <= i < |t| ==> IsSpace(t[i])
    ensures TrimmedAt(r, s, |s| - |t|)
    ensures r == [] <==> forall i :: 0 <= i < |s| ==> IsSpace(s[i])
  {
    var k := |s| - |t|;
    assert s[k..k + |r|] == r by {
      forall j | 0 <= j < |r| ensures s[k..k + |r|][j] == r[j] {
        assert r[j] == t[j] == s[k + j];
      }
    }
    forall i | k + |r| <= i < |s| ensures IsSpace(s[i]) {
      assert s[i] == t[i - k];
    }
    if t != [] {
      assert !IsSpace(t[0]);
      assert r != [];
    }
    if r != [] {
      assert r[0] == s[k];
    }
  }

  /** Length of the leading run of non-whitespace characters of `s`. */
  function TokenLen(s: string): (n: nat)
    ensures n <= |s|
    ensures forall i :: 0 <= i < n ==> !IsSpace(s[i])
    ensures n < |s| ==> IsSpace(s[n])
  {
    if s == [] || IsSpace(s[0]) then 0 else 1 + TokenLen(s[1..])
  }

  /** No character of `w` is whitespace. */
  predicate IsToken(w: string) {
    w != [] && forall i :: 0 <= i < |w| ==> !IsSpace(w[i])
  }

  /**
   * `s.split()` without arguments: the maximal runs of non-whitespace
   * characters, left to right.
   */
  function Words(s: string): (ws: seq<string>)
    ensures forall k :: 0 <= k < |ws| ==> IsToken(ws[k])
    decreases |s|
  {
    if s == [] then []
    else if IsSpace(s[0]) then Words(s[1..])
    else
      var n := TokenLen(s);
      [s[..n]] + Words(s[n..])
  }

  /** `w` occurs in `s` starting at position `i`. */
  predicate OccursAt(w: string, s: string, i: nat) {
    i + |w| <= |s| && s[i..i + |w|] == w
  }

  /** Python's `w in s` for strings. */
  predicate IsSubstring(w: string, s: string) {
    exists i :: 0 <= i <= |s| && OccursAt(w, s, i)
  }

  /** Python's `a < b` on strings: code point by code point, a proper prefix first. */
  predicate LexLt(a: string, b: string)
    decreases |a|
  {
    |b| > 0 && (|a| == 0 || a[0] < b[0] || (a[0] == b[0] && LexLt(a[1..], b[1..])))
  }

  /** Python's `a <= b` on strings. */
  predicate LexLe(a: string, b: string) {
    a == b || LexLt(a, b)
  }

  /** `split()` finds no word exactly when the text is all whitespace. */
  lemma {:induction false} WordsEmpty(s: string)
    ensures Words(s) == [] <==> forall i :: 0 <= i < |s| ==> IsSpace(s[i])
    decreases |s|
  {
    if s != [] && IsSpace(s[0]) {
      WordsEmpty(s[1..]);
      if Words(s) == [] {
        forall i | 0 <= i < |s| ensures IsSpace(s[i]) {
          if i > 0 { assert s[i] == s[1..][i - 1]; }
        }
      }
    }
  }

  /**
   * `w` is a word of `s` at position `i`: a run of non-whitespace
   * characters with whitespace, or an end of `s`, on either side.
   */
  predicate WordAt(w: string, s: string, i: nat) {
    OccursAt(w, s, i) && IsToken(w)
    && (i == 0 || IsSpace(s[i - 1]))
    && (i + |w| == |s| || IsSpace(s[i + |w|]))
  }

  /** `split()` yields exactly the whitespace-delimited words of the text. */
  lemma WordsExactly(s: string, w: string)
    ensures w in Words(s) <==> exists i :: 0 <= i <= |s| && WordAt(w, s, i)
  {
    if w in Words(s) {
      var i := WordsSound(s, w);
    }
    if exists i :: 0 <= i <= |s| && WordAt(w, s, i) {
      var i :| 0 <= i <= |s| && WordAt(w, s, i);
      WordsComplete(s, w, i);
    }
  }

  /** Every word `split()` yields is a whitespace-delimited word of the text, at some position. */
  lemma {:induction false} WordsSound(s: string, w: string) returns (i: nat)
    requires w in Words(s)
    ensures i <= |s| && WordAt(w, s, i)
    decreases |s|
  {
    var n := WordsStep(s, w);
    if !IsSpace(s[0]) && w == s[..n] {
      i := 0;
    } else {
      var j := WordsSound(s[n..], w);
      WordShift(w, s, n, j);
      i := n + j;
    }
  }

  /**
   * One step of `split()`: a leading whitespace character (`n == 1`) is
   * dropped, a leading word (the first `n` characters) is taken whole.
   */
  lemma WordsStep(s: string, w: string) returns (n: nat)
    requires s != []
    ensures 0 < n <= |s|
    ensures IsSpace(s[0]) ==> n == 1
    ensures !IsSpace(s[0]) ==> n < |s| ==> IsSpace(s[n])
    ensures !IsSpace(s[0]) && w == s[..n] ==> WordAt(w, s, 0)
    ensures w in Words(s) <==> (!IsSpace(s[0]) && w == s[..n]) || w in Words(s[n..])
  {
    if IsSpace(s[0]) {
      n := 1;
    } else {
      n := TokenLen(s);
      assert s[0..n] == s[..n];
      assert Words(s) == [s[..n]] + Words(s[n..]);
    }
  }

  /** Every whitespace-delimited word of the text is yielded by `split()`. */
  lemma {:induction false} WordsComplete(s: string, w: string, i: nat)
    requires WordAt(w, s, i)
    ensures w in Words(s)
    decreases |s|
  {
    assert s[i] == w[0];
    if IsSpace(s[0]) {
      WordUnshift(w, s, 1, i);
      WordsComplete(s[1..], w, i - 1);
    } else {
      var n := TokenLen(s);
      if i == 0 {
        assert forall j :: 0 <= j < |w| ==> s[j] == w[j];
        assert n == |w|;
        assert w == s[..n];
      } else {
        assert i > n;
        WordUnshift(w, s, n, i);
        WordsComplete(s[n..], w, i - n);
      }
    }
  }

  /**
   * A word of a suffix of `s` is a word of `s`, provided the suffix starts
   * at a word boundary of `s`.
   */
  lemma WordShift(w: string, s: string, n: nat, j: nat)
    requires n <= |s| && WordAt(w, s[n..], j)
    requires n == 0 || IsSpace(s[n - 1]) || (n < |s| && IsSpace(s[n]))
    ensures WordAt(w, s, n + j)
  {
    OccursShift(w, s, n, j);
    if j == 0 && n < |s| {
      assert s[n] == w[0];
    }
    if j > 0 {
      assert s[n + j - 1] == s[n..][j - 1];
    }
    if n + j + |w| < |s| {
      assert s[n + j + |w|] == s[n..][j + |w|];
    }
  }

  /** A word of `s` at or after position `n` is a word of the suffix from `n`. */
  lemma WordUnshift(w: string, s: string, n: nat, i: nat)
    requires n <= i && WordAt(w, s, i)
    ensures WordAt(w, s[n..], i - n)
  {
    var t := s[n..];
    assert t[i - n..i - n + |w|] == s[i..i + |w|];
    if i > n {
      assert t[i - n - 1] == s[i - 1];
    }
    if i + |w| < |s| {
      assert t[i - n + |w|] == s[i + |w|];
    }
  }

  /** An occurrence in a suffix of `s` is an occurrence in `s`, shifted by where the suffix starts. */
  lemma OccursShift(w: string, s: string, n: nat, i: nat)
    requires n <= |s| && OccursAt(w, s[n..], i)
    ensures OccursAt(w, s, i + n)
  {
    forall x | 0 <= x < |w| ensures s[i + n..i + n + |w|][x] == w[x] {
      assert s[n..][i..i + |w|][x] == w[x];
    }
  }

  /** String `<` is a strict order: never both ways. */
  lemma {:induction false} LexLtAsymmetric(a: string, b: string)
    ensures !(LexLt(a, b) && LexLt(b, a))
    decreases |a|
  {
    if |a| > 0 && |b| > 0 && a[0] == b[0] {
      LexLtAsymmetric(a[1..], b[1..]);
    }
  }

  /** String `<` is total on distinct strings. */
  lemma {:induction false} LexLtTotal(a: string, b: string)
    requires a != b
    ensures LexLt(a, b) || LexLt(b, a)
    decreases |a|
  {
    if |a| > 0 && |b| > 0 && a[0] == b[0] {
      LexLtTotal(a[1..], b[1..]);
    }
  }
}
