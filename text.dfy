/** Character classes, decimal digits and Python's str.split / str.join,
    as the temporal-scope parsers and printers use them. */
module Text {
  import opened Wrappers

  /** The ASCII decimal digits: the model's reading of Python's `\d`, which
      also matches the non-ASCII decimal digits. */
  predicate IsDigit(c: char) { '0' <= c <= '9' }

  predicate IsLetter(c: char) { 'a' <= c <= 'z' || 'A' <= c <= 'Z' }

  predicate IsAlnum(c: char) { IsDigit(c) || IsLetter(c) }

  /** The ASCII whitespace characters space, tab, newline, carriage return,
      vertical tab and form feed. The model reads Python's `\s`, str.split()
      and the trimming of int() as this set; Python also counts the
      separators U+001C to U+001F and non-ASCII spaces as whitespace. */
  predicate IsSpace(c: char)
  {
    c == ' ' || c == '\t' || c == '\n' || c == '\r' || c == '\U{0B}' || c == '\U{0C}'
  }

  predicate AllDigits(s: string)
  {
    forall i :: 0 <= i < |s| ==> IsDigit(s[i])
  }

  function DigitVal(c: char): (d: nat)
    requires IsDigit(c)
    ensures d < 10
  {
    c as int - '0' as int
  }

  function DigitChar(d: nat): (c: char)
    requires d < 10
    ensures IsDigit(c) && DigitVal(c) == d
  {
    ('0' as int + d) as char
  }

  function Pow10(n: nat): (p: nat)
    ensures p >= 1
  {
    if n == 0 then 1 else 10 * Pow10(n - 1)
  }

  /** The value of a string of decimal digits (Python's int() on such a string). */
  function DigitsValue(s: string): nat
    requires AllDigits(s)
  {
    if s == [] then 0 else 10 * DigitsValue(s[..|s| - 1]) + DigitVal(s[|s| - 1])
  }

  /** str(n) for a non-negative integer: no leading zeros, "0" for zero. */
  function NatToString(n: nat): (r: string)
    ensures |r| > 0 && AllDigits(r)
    ensures n >= 10 ==> r[0] != '0'
  {
    if n < 10 then [DigitChar(n)] else NatToString(n / 10) + [DigitChar(n % 10)]
  }

  /** n written with exactly w digits, zero-padded on the left (strftime's %m, %d, %f, ...). */
  function Pad(n: nat, w: nat): (r: string)
    ensures |r| == w && AllDigits(r)
  {
    if w == 0 then [] else Pad(n / 10, w - 1) + [DigitChar(n % 10)]
  }

  lemma {:induction false} NatToStringValue(n: nat)
    ensures DigitsValue(NatToString(n)) == n
  {
    if n >= 10 {
      NatToStringValue(n / 10);
      var s := NatToString(n);
      assert s[..|s| - 1] == NatToString(n / 10);
    }
  }

  lemma {:induction false} PadValue(n: nat, w: nat)
    requires n < Pow10(w)
    ensures DigitsValue(Pad(n, w)) == n
  {
    if w > 0 {
      PadValue(n / 10, w - 1);
      var s := Pad(n, w);
      assert s[..|s| - 1] == Pad(n / 10, w - 1);
    }
  }

  lemma {:induction false} NatToStringLength(n: nat, w: nat)
    requires w > 0 && Pow10(w - 1) <= n < Pow10(w)
    ensures |NatToString(n)| == w
  {
    if w > 1 {
      NatToStringLength(n / 10, w - 1);
    }
  }

  /** Length of the run of digits at the start of s (what a greedy `\d+` takes). */
  function DigitRun(s: string): (k: nat)
    ensures k <= |s| && AllDigits(s[..k])
    ensures k < |s| ==> !IsDigit(s[k])
  {
    if s == [] || !IsDigit(s[0]) then 0
    else
      var k := 1 + DigitRun(s[1..]);
      assert s[..k] == [s[0]] + s[1..][..k - 1];
      k
  }

  lemma {:induction false} DigitRunOf(d: string, t: string)
    requires AllDigits(d)
    requires t == [] || !IsDigit(t[0])
    ensures DigitRun(d + t) == |d|
    ensures (d + t)[..|d|] == d
  {
    if d != [] {
      assert (d + t)[1..] == d[1..] + t;
      DigitRunOf(d[1..], t);
    }
  }

  /** Digits followed by a non-digit c: the digit run stops at c. */
  lemma Consume(d: string, c: char, rest: string)
    requires AllDigits(d) && !IsDigit(c)
    ensures DigitRun(d + ([c] + rest)) == |d|
    ensures (d + ([c] + rest))[..|d|] == d
    ensures (d + ([c] + rest))[|d|] == c
    ensures (d + ([c] + rest))[|d| + 1..] == rest
  {
    var t := [c] + rest;
    DigitRunOf(d, t);
    var s := d + t;
    assert s[|d|] == t[0] == c;
    assert s[|d| + 1..] == t[1..] == rest;
  }

  /** Length of the run of whitespace at the start of s (what a greedy `\s+` takes). */
  function SpaceRun(s: string): (k: nat)
    ensures k <= |s|
    ensures forall i :: 0 <= i < k ==> IsSpace(s[i])
    ensures k < |s| ==> !IsSpace(s[k])
  {
    if s == [] || !IsSpace(s[0]) then 0 else 1 + SpaceRun(s[1..])
  }

  // ---------------------------------------------------------------------
  // str.split and str.join

  predicate OccursAt(s: string, sep: string, i: nat)
  {
    i + |sep| <= |s| && s[i..i + |sep|] == sep
  }

  /** The first position at or after i where sep occurs in s. */
  function FindFrom(s: string, sep: string, i: nat): (r: Option<nat>)
    requires |sep| > 0
    decreases |s| - i
    ensures r.Some? ==> i <= r.value && OccursAt(s, sep, r.value)
    ensures r.Some? ==> forall j :: i <= j < r.value ==> !OccursAt(s, sep, j)
    ensures r.None? ==> forall j :: i <= j ==> !OccursAt(s, sep, j)
  {
    if i + |sep| > |s| then None
    else if s[i..i + |sep|] == sep then Some(i)
    else FindFrom(s, sep, i + 1)
  }

  /** Python's s.split(sep): the pieces between the non-overlapping occurrences
      of sep, found left to right. Never empty. */
  function Split(s: string, sep: string): (parts: seq<string>)
    requires |sep| > 0
    decreases |s|
    ensures |parts| >= 1
    ensures |parts| == 1 <==> forall j :: !OccursAt(s, sep, j)
  {
    match FindFrom(s, sep, 0)
    case None => [s]
    case Some(i) => [s[..i]] + Split(s[i + |sep|..], sep)
  }

  /** Python's sep.join(parts). */
  function Join(parts: seq<string>, sep: string): string
  {
    if parts == [] then ""
    else if |parts| == 1 then parts[0]
    else parts[0] + sep + Join(parts[1..], sep)
  }

  lemma SplitWithout(s: string, sep: string)
    requires |sep| > 0
    requires forall j :: !OccursAt(s, sep, j)
    ensures Split(s, sep) == [s]
  {
  }

  /** Splitting a + sep + b cuts right after a when sep occurs nowhere earlier. */
  lemma SplitFirst(a: string, sep: string, b: string)
    requires |sep| > 0
    requires forall j :: 0 <= j < |a| ==> !OccursAt(a + sep + b, sep, j)
    ensures Split(a + sep + b, sep) == [a] + Split(b, sep)
  {
    var s := a + sep + b;
    assert s[|a|..|a| + |sep|] == sep;
    assert OccursAt(s, sep, |a|);
    var f := FindFrom(s, sep, 0);
    assert f == Some(|a|);
    assert s[..|a|] == a;
    assert s[|a| + |sep|..] == b;
  }

  /** The space at i is directly followed by c. */
  predicate PairAt(s: string, i: int, c: char)
  {
    0 <= i && i + 1 < |s| && s[i] == ' ' && s[i + 1] == c
  }

  /** No space in s is directly followed by c. */
  predicate NoPair(s: string, c: char)
  {
    forall i :: 0 <= i < |s| ==> !PairAt(s, i, c)
  }

  lemma NoPairConcat(x: string, y: string, c: char)
    requires NoPair(x, c) && NoPair(y, c)
    requires |x| > 0 && x[|x| - 1] == ' ' && |y| > 0 ==> y[0] != c
    ensures NoPair(x + y, c)
  {
    var s := x + y;
    forall i | 0 <= i < |s| - 1 && s[i] == ' '
      ensures !PairAt(s, i, c)
    {
      if i + 1 < |x| {
        assert s[i] == x[i] && s[i + 1] == x[i + 1];
        assert !PairAt(x, i, c);
      } else if i + 1 == |x| {
        assert s[i] == x[|x| - 1] && s[i + 1] == y[0];
      } else {
        assert s[i] == y[i - |x|] && s[i + 1] == y[i + 1 - |x|];
        assert !PairAt(y, i - |x|, c);
      }
    }
  }

  /** Every character is a letter or a digit. */
  predicate AllAlnum(s: string)
  {
    forall i :: 0 <= i < |s| ==> IsAlnum(s[i])
  }

  lemma AlnumConcat(a: string, b: string)
    requires AllAlnum(a) && AllAlnum(b)
    ensures AllAlnum(a + b)
  {
    forall i | 0 <= i < |a + b|
      ensures IsAlnum((a + b)[i])
    {
      if i < |a| {
        assert (a + b)[i] == a[i];
      } else {
        assert (a + b)[i] == b[i - |a|];
      }
    }
  }

  /** No character is a space. */
  predicate NoSpace(s: string)
  {
    forall i :: 0 <= i < |s| ==> s[i] != ' '
  }

  lemma NoSpaceConcat(a: string, b: string)
    requires NoSpace(a) && NoSpace(b)
    ensures NoSpace(a + b)
  {
    forall i | 0 <= i < |a + b|
      ensures (a + b)[i] != ' '
    {
      if i < |a| {
        assert (a + b)[i] == a[i];
      } else {
        assert (a + b)[i] == b[i - |a|];
      }
    }
  }

  /** Two space-free texts joined by one space: the only space is followed
      by the first character of the second text. */
  lemma NoPairSpaced(x: string, y: string, c: char)
    requires NoSpace(x) && NoSpace(y)
    requires |y| > 0 ==> y[0] != c
    ensures NoPair(x + ([' '] + y), c)
  {
    var s := x + ([' '] + y);
    forall i | 0 <= i < |s| - 1 && s[i] == ' '
      ensures !PairAt(s, i, c)
    {
      assert i == |x|;
      assert s[i + 1] == y[0];
    }
  }

  /** A separator that starts with a space and a non-alphanumeric character
      (" ... ", " + ", " / ") cannot occur in a text free of that pair. */
  lemma NoPairNoOccurrence(s: string, sep: string)
    requires |sep| >= 2 && sep[0] == ' '
    requires NoPair(s, sep[1])
    ensures forall j :: !OccursAt(s, sep, j)
  {
    forall j: nat | j + |sep| <= |s|
      ensures !OccursAt(s, sep, j)
    {
      assert s[j..j + |sep|][0] == s[j] && s[j..j + |sep|][1] == s[j + 1];
      assert !PairAt(s, j, sep[1]);
    }
  }

  /** A text with no space-then-`sep[1]` pair does not contain sep and
      splits into itself alone. */
  lemma SplitPlain(s: string, sep: string)
    requires |sep| >= 2 && sep[0] == ' '
    requires NoPair(s, sep[1])
    ensures Split(s, sep) == [s]
  {
    NoPairNoOccurrence(s, sep);
    SplitWithout(s, sep);
  }

  /** Splitting a + sep + b on sep gives [a] + the split of b, when a has no
      space followed by sep's second character and does not end in a space. */
  lemma SplitAfterPlain(a: string, sep: string, b: string)
    requires |sep| >= 2 && sep[0] == ' '
    requires NoPair(a, sep[1])
    requires |a| > 0 && a[|a| - 1] != ' '
    ensures Split(a + sep + b, sep) == [a] + Split(b, sep)
  {
    var s := a + sep + b;
    forall j | 0 <= j < |a|
      ensures !OccursAt(s, sep, j)
    {
      assert s[j] == a[j];
      assert j + 1 < |a| ==> s[j + 1] == a[j + 1] && !PairAt(a, j, sep[1]);
      assert j + |sep| <= |s| ==> s[j..j + |sep|][0] == s[j] && s[j..j + |sep|][1] == s[j + 1];
    }
    SplitFirst(a, sep, b);
  }

  /** Splitting the join of parts that do not contain c on [c] gives the parts back. */
  lemma {:induction false} SplitJoin(parts: seq<string>, c: char)
    requires |parts| >= 1
    requires forall k, i :: 0 <= k < |parts| && 0 <= i < |parts[k]| ==> parts[k][i] != c
    ensures Split(Join(parts, [c]), [c]) == parts
  {
    if |parts| == 1 {
      forall j: nat
        ensures !OccursAt(parts[0], [c], j)
      {
        if j < |parts[0]| {
          assert parts[0][j] != c;
        }
      }
      SplitWithout(parts[0], [c]);
    } else {
      var a, rest := parts[0], Join(parts[1..], [c]);
      var s := a + [c] + rest;
      forall j | 0 <= j < |a|
        ensures !OccursAt(s, [c], j)
      {
        assert s[j] == a[j] && a[j] != c;
      }
      SplitFirst(a, [c], rest);
      SplitJoin(parts[1..], c);
    }
  }
}
