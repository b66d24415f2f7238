/**
 * The string helpers the core relies on: Python's `str.strip`, `str.lower`,
 * `in` on strings, `str.split()` with no separator, and lexicographic string
 * comparison. Whitespace and case are ASCII only (see README).
 */
module Text {

  /** Python's `str.isspace` restricted to ASCII: tab, LF, VT, FF, CR, the four
      separator controls 0x1C-0x1F, and space. */
  predicate IsSpace(c: char) {
    c == ' ' || ('\t' <= c <= '\r') || ('\U{1C}' <= c <= '\U{1F}')
  }

  predicate AllSpace(s: string) {
    forall k :: 0 <= k < |s| ==> IsSpace(s[k])
  }

  /** Drops leading whitespace (`str.lstrip()`). */
  function TrimLeft(s: string): (r: string)
    ensures |r| <= |s|
  {
    if s != [] && IsSpace(s[0]) then TrimLeft(s[1..]) else s
  }

  /** Drops trailing whitespace (`str.rstrip()`). */
  function TrimRight(s: string): (r: string)
    ensures |r| <= |s|
  {
    if s != [] && IsSpace(s[|s| - 1]) then TrimRight(s[..|s| - 1]) else s
  }

  /** `lstrip()` removes a whitespace prefix and nothing else, and what is
      left does not start with whitespace. */
  lemma {:induction false} TrimLeftShape(s: string)
    ensures TrimLeft(s) == s[|s| - |TrimLeft(s)|..]
    ensures AllSpace(s[..|s| - |TrimLeft(s)|])
    ensures TrimLeft(s) != [] ==> !IsSpace(TrimLeft(s)[0])
  {
    if s != [] && IsSpace(s[0]) {
      TrimLeftShape(s[1..]);
      var n := |s| - |TrimLeft(s)|;
      assert s[..n] == [s[0]] + s[1..][..n - 1];
    }
  }

  /** `rstrip()` removes a whitespace suffix and nothing else, and what is
      left does not end with whitespace. */
  lemma {:induction false} TrimRightShape(s: string)
    ensures TrimRight(s) == s[..|TrimRight(s)|]
    ensures AllSpace(s[|TrimRight(s)|..])
    ensures TrimRight(s) != [] ==> !IsSpace(TrimRight(s)[|TrimRight(s)| - 1])
  {
    if s != [] && IsSpace(s[|s| - 1]) {
      var t := s[..|s| - 1];
      TrimRightShape(t);
      var n := |TrimRight(s)|;
      assert s[n..] == t[n..] + [s[|s| - 1]];
    }
  }

  /** `str.strip()`. */
  function Trim(s: string): string {
    TrimRight(TrimLeft(s))
  }

  /** `strip()` keeps a contiguous slice of the input, takes away only
      whitespace at either end, and leaves no whitespace at either end. */
  lemma TrimShape(s: string)
    ensures exists i, j ::
              0 <= i <= j <= |s| && Trim(s) == s[i..j] && AllSpace(s[..i]) && AllSpace(s[j..])
    ensures Trim(s) != [] ==> !IsSpace(Trim(s)[0]) && !IsSpace(Trim(s)[|Trim(s)| - 1])
  {
    var l := TrimLeft(s);
    var r := TrimRight(l);
    TrimLeftShape(s);
    TrimRightShape(l);
    var i := |s| - |l|;
    var j := i + |r|;
    assert s[i..j] == l[..|r|];
    assert s[j..] == l[|r|..];
    assert Trim(s) == s[i..j];
  }

  /** A string strips to nothing exactly when it is all whitespace. */
  lemma TrimEmptyIffBlank(s: string)
    ensures Trim(s) == [] <==> AllSpace(s)
  {
    var l := TrimLeft(s);
    TrimLeftShape(s);
    TrimRightShape(l);
    if Trim(s) == [] {
      assert AllSpace(l[0..]);
      assert l == [];
    } else {
      var r := Trim(s);
      assert !IsSpace(r[0]);
      assert r == l[..|r|];
      assert l == s[|s| - |l|..];
      assert s[|s| - |l|] == r[0];
    }
  }

  function LowerChar(c: char): (d: char)
    ensures 'A' <= c <= 'Z' ==> d as int == c as int + 32
    ensures !('A' <= c <= 'Z') ==> d == c
  {
    if 'A' <= c <= 'Z' then (c as int + 32) as char else c
  }

  /** `str.lower()` on ASCII letters; every other character is kept. */
  function Lower(s: string): (r: string)
    ensures |r| == |s|
    ensures forall k :: 0 <= k < |s| ==> r[k] == LowerChar(s[k])
  {
    if s == [] then [] else [LowerChar(s[0])] + Lower(s[1..])
  }

  /** Python's `q in s` for strings: `q` occurs in `s` as a contiguous substring. */
  predicate Contains(s: string, q: string)
    decreases |s|
  {
    q <= s || (s != [] && Contains(s[1..], q))
  }

  /** `Contains` finds `q` wherever it sits inside `s`. */
  lemma {:induction false} ContainsInfix(a: string, q: string, b: string)
    ensures Contains(a + q + b, q)
  {
    if a == [] {
      assert q <= a + q + b;
    } else {
      assert (a + q + b)[1..] == a[1..] + q + b;
      ContainsInfix(a[1..], q, b);
    }
  }

  /** `Contains` finds nothing that is not there: a match starts at some index. */
  lemma {:induction false} ContainsAt(s: string, q: string)
    requires Contains(s, q)
    ensures exists i :: 0 <= i <= |s| - |q| && q <= s[i..]
  {
    if q <= s {
      assert q <= s[0..];
    } else {
      ContainsAt(s[1..], q);
      var i :| 0 <= i <= |s[1..]| - |q| && q <= s[1..][i..];
      assert s[1..][i..] == s[i + 1..];
    }
  }

  // ---- lexicographic order (Python's `<` on str) ----

  /** `a <= b` in code-point order, as Python compares strings. */
  predicate StrLe(a: string, b: string)
    decreases |a|
  {
    a == [] || (b != [] && (a[0] < b[0] || (a[0] == b[0] && StrLe(a[1..], b[1..]))))
  }

  lemma {:induction false} StrLeTotal(a: string, b: string)
    ensures StrLe(a, b) || StrLe(b, a)
    decreases |a|
  {
    if a != [] && b != [] && a[0] == b[0] {
      StrLeTotal(a[1..], b[1..]);
    }
  }

  lemma {:induction false} StrLeAntisymmetric(a: string, b: string)
    requires StrLe(a, b) && StrLe(b, a)
    ensures a == b
    decreases |a|
  {
    if a != [] && b != [] {
      StrLeAntisymmetric(a[1..], b[1..]);
      assert a == [a[0]] + a[1..] && b == [b[0]] + b[1..];
    }
  }

  lemma {:induction false} StrLeTransitive(a: string, b: string, c: string)
    requires StrLe(a, b) && StrLe(b, c)
    ensures StrLe(a, c)
    decreases |a|
  {
    if a != [] && b[0] == a[0] && c[0] == b[0] {
      StrLeTransitive(a[1..], b[1..], c[1..]);
    }
  }

  // ---- str.split() ----

  /** Length of the leading run of non-whitespace characters. */
  function RunLength(s: string): (n: nat)
    ensures n <= |s|
    ensures forall k :: 0 <= k < n ==> !IsSpace(s[k])
    ensures n < |s| ==> IsSpace(s[n])
  {
    if s == [] || IsSpace(s[0]) then 0 else 1 + RunLength(s[1..])
  }

  /** `str.split()` with no separator: the maximal runs of non-whitespace, in order. */
  function Split(s: string): (ws: seq<string>)
    ensures forall k :: 0 <= k < |ws| ==> ws[k] != [] && !exists m :: 0 <= m < |ws[k]| && IsSpace(ws[k][m])
    decreases |s|
  {
    var t := TrimLeft(s);
    TrimLeftShape(s);
    if t == [] then []
    else
      var n := RunLength(t);
      [t[..n]] + Split(t[n..])
  }

  /** Count of positions that start a word: a non-space character that is
      first or follows a space. `precededBySpace` says what came before `s`. */
  function WordStarts(s: string, precededBySpace: bool): nat
  {
    if s == [] then 0
    else (if precededBySpace && !IsSpace(s[0]) then 1 else 0) + WordStarts(s[1..], IsSpace(s[0]))
  }

  lemma {:induction false} WordStartsSkipSpaces(s: string)
    ensures WordStarts(s, true) == WordStarts(TrimLeft(s), true)
  {
    if s != [] && IsSpace(s[0]) {
      WordStartsSkipSpaces(s[1..]);
    }
  }

  lemma {:induction false} WordStartsSkipRun(s: string)
    ensures WordStarts(s, false) == WordStarts(s[RunLength(s)..], true)
  {
    if s != [] && !IsSpace(s[0]) {
      WordStartsSkipRun(s[1..]);
      assert s[RunLength(s)..] == s[1..][RunLength(s[1..])..];
    }
  }

  /** `len(s.split())` is the number of word starts: every maximal
      non-whitespace run is counted once. */
  lemma {:induction false} SplitCountsWordStarts(s: string)
    ensures |Split(s)| == WordStarts(s, true)
    decreases |s|
  {
    var t := TrimLeft(s);
    WordStartsSkipSpaces(s);
    TrimLeftShape(s);
    if t != [] {
      var n := RunLength(t);
      assert WordStarts(t, true) == 1 + WordStarts(t[1..], false);
      WordStartsSkipRun(t[1..]);
      assert t[1..][RunLength(t[1..])..] == t[n..];
      SplitCountsWordStarts(t[n..]);
    }
  }
}
