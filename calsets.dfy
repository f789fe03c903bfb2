/** The comma-separated sets of a schedule's calendar filters: numbers for
    months, days, hours, minutes and seconds, two-letter labels for
    weekdays. */
module CalSets {
  import opened Wrappers
  import opened Text

  const SetSep: char := ','

  // ---------------------------------------------------------------------
  // int() and str() on integers

  /** str.lstrip(): drop the whitespace at the start. */
  function TrimLeft(s: string): (r: string)
    ensures |r| <= |s|
    ensures r == [] || !IsSpace(r[0])
  {
    s[SpaceRun(s)..]
  }

  /** str.rstrip(): drop the whitespace at the end. */
  function TrimRight(s: string): (r: string)
    ensures |r| <= |s|
    ensures r == [] || !IsSpace(r[|r| - 1])
  {
    if |s| > 0 && IsSpace(s[|s| - 1]) then TrimRight(s[..|s| - 1]) else s
  }

  /** The unsigned part of an integer literal: one or more decimal digits. */
  function Unsigned(d: string): (r: Result<nat>)
    ensures r.Ok? <==> |d| > 0 && AllDigits(d)
  {
    if |d| > 0 && AllDigits(d) then Ok(DigitsValue(d)) else Err(BadInteger)
  }

  /** Python's int() on a string: surrounding whitespace, an optional sign,
      then decimal digits. */
  function ParseInt(s: string): (r: Result<int>)
  {
    var t := TrimRight(TrimLeft(s));
    if |t| > 0 && t[0] == '-' then
      match Unsigned(t[1..])
      case Ok(n) => Ok(-(n as int))
      case Err(e) => Err(e)
    else if |t| > 0 && t[0] == '+' then
      match Unsigned(t[1..])
      case Ok(n) => Ok(n)
      case Err(e) => Err(e)
    else
      match Unsigned(t)
      case Ok(n) => Ok(n)
      case Err(e) => Err(e)
  }

  /** Python's str() on an integer. */
  function IntText(n: int): (r: string)
    ensures |r| > 0 && r[|r| - 1] != SetSep && !IsSpace(r[|r| - 1]) && !IsSpace(r[0])
    ensures forall i :: 0 <= i < |r| ==> IsDigit(r[i]) || r[i] == '-'
  {
    if n < 0 then ['-'] + NatToString(-n) else NatToString(n)
  }

  /** int(str(n)) == n. */
  lemma ParseIntText(n: int)
    ensures ParseInt(IntText(n)) == Ok(n)
  {
    var s := IntText(n);
    assert SpaceRun(s) == 0;
    assert TrimLeft(s) == s;
    assert TrimRight(s) == s;
    NatToStringValue(if n < 0 then -n else n);
    if n < 0 {
      assert s[1..] == NatToString(-n);
    }
  }

  /** int() ignores the whitespace around the literal. */
  lemma ParseIntSpaced(n: nat)
    ensures ParseInt(" " + IntText(n) + " ") == Ok(n)
  {
    var s := " " + IntText(n) + " ";
    assert SpaceRun(s) == 1;
    assert TrimLeft(s) == IntText(n) + " ";
    assert TrimRight(IntText(n) + " ") == TrimRight(IntText(n));
    ParseIntText(n);
  }

  // ---------------------------------------------------------------------
  // Sorting a set

  /** A set with no element is the empty set. */
  lemma NoElementEmpty(S: set<int>)
    ensures (forall y :: y !in S) ==> S == {}
  {
    if forall y :: y !in S {
      assert forall y :: y in S <==> y in {};
    }
  }

  lemma HasElement(S: set<int>)
    requires S != {}
    ensures exists y :: y in S
  {
    NoElementEmpty(S);
  }

  /** A set of integers has a least element. */
  lemma {:induction false} MinExists(S: set<int>)
    requires S != {}
    ensures exists m :: m in S && forall x :: x in S ==> m <= x
    decreases |S|
  {
    HasElement(S);
    var y :| y in S;
    if S == {y} {
      assert forall x :: x in S ==> x == y;
    } else {
      var S' := S - {y};
      assert S == S' + {y};
      MinExists(S');
      var m :| m in S' && forall x :: x in S' ==> m <= x;
      var least := if y < m then y else m;
      assert least in S && forall x :: x in S ==> least <= x;
    }
  }

  function SetMin(S: set<int>): (m: int)
    requires S != {}
    ensures m in S && forall x :: x in S ==> m <= x
  {
    MinExists(S);
    var m :| m in S && forall x :: x in S ==> m <= x;
    m
  }

  predicate Increasing(xs: seq<int>)
  {
    forall i, j :: 0 <= i < j < |xs| ==> xs[i] < xs[j]
  }

  /** sorted(list(S)): the elements of S in increasing order. */
  function Sorted(S: set<int>): (xs: seq<int>)
    ensures Increasing(xs)
    ensures forall x :: x in xs <==> x in S
    ensures |xs| == |S|
    decreases |S|
  {
    if S == {} then []
    else
      var m := SetMin(S);
      var rest := Sorted(S - {m});
      assert forall x :: x in rest ==> m < x;
      [m] + rest
  }

  // ---------------------------------------------------------------------
  // parse_numset and unparse_numset

  /** Applies parse to every piece and collects the results into a set; the
      first piece that does not parse raises. */
  function ParseEach(parts: seq<string>, parse: string -> Result<int>): (r: Result<set<int>>)
  {
    if parts == [] then Ok({})
    else
      match parse(parts[0])
      case Err(e) => Err(e)
      case Ok(x) =>
        match ParseEach(parts[1..], parse)
        case Err(e) => Err(e)
        case Ok(rest) => Ok({x} + rest)
  }

  function PrintEach(xs: seq<int>, show: int -> string): (parts: seq<string>)
    ensures |parts| == |xs|
    ensures forall i :: 0 <= i < |xs| ==> parts[i] == show(xs[i])
  {
    if xs == [] then [] else [show(xs[0])] + PrintEach(xs[1..], show)
  }

  /** parse_numset: int() of every comma-separated piece. */
  function ParseNumset(s: string): Result<set<int>>
  {
    ParseEach(Split(s, [SetSep]), ParseInt)
  }

  /** unparse_numset: the elements in increasing order, joined by commas. */
  function UnparseNumset(S: set<int>): string
  {
    Join(PrintEach(Sorted(S), IntText), [SetSep])
  }

  /** The set of the elements of a sequence, as set() builds it. */
  function Elems(xs: seq<int>): (S: set<int>)
    ensures forall x :: x in S <==> x in xs
  {
    if xs == [] then {} else {xs[0]} + Elems(xs[1..])
  }

  /** Parsing printed pieces gives back the set of the printed values. */
  lemma {:induction false} ParseEachPrinted(xs: seq<int>, show: int -> string,
                                            parse: string -> Result<int>)
    requires forall x :: x in xs ==> parse(show(x)) == Ok(x)
    ensures ParseEach(PrintEach(xs, show), parse) == Ok(Elems(xs))
  {
    if xs != [] {
      var parts := PrintEach(xs, show);
      assert parts[0] == show(xs[0]);
      assert parts[1..] == PrintEach(xs[1..], show);
      var x0 := xs[0];
      assert x0 in xs;
      assert parse(show(x0)) == Ok(x0);
      assert parse(parts[0]) == Ok(x0);
      ParseEachPrinted(xs[1..], show, parse);
      assert ParseEach(parts[1..], parse) == Ok(Elems(xs[1..]));
      assert ParseEach(parts, parse) == Ok({xs[0]} + Elems(xs[1..]));
    }
  }

  /** Sorting then collecting gives the set back. */
  lemma ElemsSorted(S: set<int>)
    ensures Elems(Sorted(S)) == S
  {
    var T := Elems(Sorted(S));
    assert forall x :: x in T <==> x in S;
  }

  /** A non-empty set of integers survives unparse_numset then parse_numset. */
  lemma NumsetRoundTrip(S: set<int>)
    requires S != {}
    ensures ParseNumset(UnparseNumset(S)) == Ok(S)
  {
    var xs := Sorted(S);
    var parts := PrintEach(xs, IntText);
    forall k, i | 0 <= k < |parts| && 0 <= i < |parts[k]|
      ensures parts[k][i] != SetSep
    {
      assert parts[k] == IntText(xs[k]);
    }
    SplitJoin(parts, SetSep);
    forall x | x in xs
      ensures ParseInt(IntText(x)) == Ok(x)
    {
      ParseIntText(x);
    }
    ParseEachPrinted(xs, IntText, ParseInt);
    ElemsSorted(S);
  }

  /** The empty string is not a number set: int("") raises. */
  lemma NumsetEmptyText()
    ensures ParseNumset("") == Err(BadInteger)
  {
    assert Split("", [SetSep]) == [""];
  }

  /** The empty set prints as the empty string, which does not parse back. */
  lemma NumsetEmptySet()
    ensures UnparseNumset({}) == ""
    ensures ParseNumset(UnparseNumset({})).Err?
  {
    NumsetEmptyText();
  }

  // ---------------------------------------------------------------------
  // parse_wdayset and unparse_wdayset

  /** _dow_label: Monday first; Sunday is "so". */
  const DowLabels: seq<string> := ["mo", "tu", "we", "th", "fr", "sa", "so"]

  /** _dow_number[name]: KeyError for anything but the seven labels. */
  function DowNumber(name: string): (r: Result<int>)
    ensures r.Ok? ==> 0 <= r.value < 7 && DowLabels[r.value] == name
    ensures r.Err? ==> name !in DowLabels
  {
    if name == "mo" then Ok(0)
    else if name == "tu" then Ok(1)
    else if name == "we" then Ok(2)
    else if name == "th" then Ok(3)
    else if name == "fr" then Ok(4)
    else if name == "sa" then Ok(5)
    else if name == "so" then Ok(6)
    else Err(UnknownWeekday)
  }

  /** _dow_label[x] for an index the tuple accepts: negative indices count
      from the end. */
  function DowLabel(x: int): string
  {
    DowLabels[x % 7]
  }

  /** parse_wdayset: the weekday number of every comma-separated name. */
  function ParseWdayset(s: string): (r: Result<set<int>>)
  {
    ParseEach(Split(s, [SetSep]), DowNumber)
  }

  /** unparse_wdayset: the labels of the weekdays in increasing order, joined
      by commas; IndexError for a number outside -7..6. */
  function UnparseWdayset(S: set<int>): (r: Result<string>)
    ensures r.Ok? <==> forall x :: x in S ==> -7 <= x < 7
  {
    if forall x :: x in S ==> -7 <= x < 7 then Ok(Join(PrintEach(Sorted(S), DowLabel), [SetSep]))
    else Err(IndexOutOfRange)
  }

  /** Parsed weekdays are numbers 0 (Monday) to 6 (Sunday). */
  lemma {:induction false} ParseEachWeekdays(parts: seq<string>)
    ensures ParseEach(parts, DowNumber).Ok? ==> forall x :: x in ParseEach(parts, DowNumber).value ==> 0 <= x < 7
  {
    if parts != [] {
      ParseEachWeekdays(parts[1..]);
    }
  }

  lemma WdaysetRange(s: string)
    ensures ParseWdayset(s).Ok? ==> forall x :: x in ParseWdayset(s).value ==> 0 <= x < 7
  {
    ParseEachWeekdays(Split(s, [SetSep]));
  }

  /** Each weekday's label reads back as its number, and has no comma. */
  lemma DowRoundTrip(x: int)
    requires 0 <= x < 7
    ensures DowNumber(DowLabel(x)) == Ok(x)
    ensures forall i :: 0 <= i < |DowLabel(x)| ==> DowLabel(x)[i] != SetSep
  {
    assert DowLabel(x) == DowLabels[x];
    assert |DowLabels[x]| == 2 && DowLabels[x][0] != SetSep && DowLabels[x][1] != SetSep;
  }

  /** Weekday labels of numbers 0..6 contain no comma and read back as the
      numbers. */
  lemma WdayParts(xs: seq<int>)
    requires forall x :: x in xs ==> 0 <= x < 7
    ensures forall k, i :: 0 <= k < |PrintEach(xs, DowLabel)| && 0 <= i < |PrintEach(xs, DowLabel)[k]|
              ==> PrintEach(xs, DowLabel)[k][i] != SetSep
    ensures ParseEach(PrintEach(xs, DowLabel), DowNumber) == Ok(Elems(xs))
  {
    var parts := PrintEach(xs, DowLabel);
    forall k, i | 0 <= k < |parts| && 0 <= i < |parts[k]|
      ensures parts[k][i] != SetSep
    {
      assert xs[k] in xs;
      DowRoundTrip(xs[k]);
    }
    forall x | x in xs
      ensures DowNumber(DowLabel(x)) == Ok(x)
    {
      DowRoundTrip(x);
    }
    ParseEachPrinted(xs, DowLabel, DowNumber);
  }

  /** A non-empty set of weekday numbers survives unparse_wdayset then
      parse_wdayset. */
  lemma WdaysetRoundTrip(S: set<int>)
    requires S != {}
    requires forall x :: x in S ==> 0 <= x < 7
    ensures UnparseWdayset(S).Ok?
    ensures ParseWdayset(UnparseWdayset(S).value) == Ok(S)
  {
    var xs := Sorted(S);
    var parts := PrintEach(xs, DowLabel);
    WdayParts(xs);
    SplitJoin(parts, SetSep);
    ElemsSorted(S);
    var text := Join(parts, [SetSep]);
    assert UnparseWdayset(S) == Ok(text);
    assert ParseWdayset(text) == ParseEach(parts, DowNumber);
  }

  /** Python's negative tuple index: -1 prints as Sunday and reads back as 6. */
  lemma WdaysetNegative()
    ensures UnparseWdayset({-1}) == Ok("so")
    ensures ParseWdayset("so") == Ok({6})
  {
    assert Sorted({-1}) == [-1];
    assert DowLabel(-1) == "so";
    assert PrintEach([-1], DowLabel) == ["so"];
    forall j: nat
      ensures !OccursAt("so", [SetSep], j)
    {
      if j + 1 <= 2 {
        assert "so"[j..j + 1][0] == "so"[j];
      }
    }
    SplitWithout("so", [SetSep]);
    assert DowNumber("so") == Ok(6);
    assert ParseEach(["so"], DowNumber) == Ok({6});
  }
}
