/** parse_dur and unparse_dur: durations written as NdNhNmNs, in whole
    seconds. */
module Durations {
  import opened Wrappers
  import opened Text

  /** The units of _dur_seclabel, largest first, and their labels. */
  function Unit(i: nat): nat
    requires i < 4
  {
    if i == 0 then 86400 else if i == 1 then 3600 else if i == 2 then 60 else 1
  }

  function Label(i: nat): char
    requires i < 4
  {
    if i == 0 then 'd' else if i == 1 then 'h' else if i == 2 then 'm' else 's'
  }

  /** A unit's contribution to the text: its count and its label, or nothing. */
  function Component(c: Option<nat>, i: nat): string
    requires i < 4
  {
    if c.Some? then NatToString(c.value) + [Label(i)] else ""
  }

  /** The text of components for units i, i+1, ..., each present or absent. */
  function ComposeFrom(cs: seq<Option<nat>>, i: nat): string
    requires i + |cs| <= 4
  {
    if cs == [] then "" else Component(cs[0], i) + ComposeFrom(cs[1..], i + 1)
  }

  /** The seconds one component stands for. */
  function Worth(c: Option<nat>, i: nat): nat
    requires i < 4
  {
    if c.Some? then Unit(i) * c.value else 0
  }

  /** The seconds the components for units i, i+1, ... stand for. */
  function Weighted(cs: seq<Option<nat>>, i: nat): nat
    requires i + |cs| <= 4
  {
    if cs == [] then 0
    else Worth(cs[0], i) + Weighted(cs[1..], i + 1)
  }

  // ---------------------------------------------------------------------
  // parse_dur

  /** The digit groups of ((\d+)d)?((\d+)h)?((\d+)m)?((\d+)s)? matched at the
      start of s, from unit i on. The pattern can match the empty prefix, so
      every text matches. */
  function GroupsFrom(s: string, i: nat): (g: seq<Option<string>>)
    requires i <= 4
    decreases 4 - i
    ensures |g| == 4 - i
    ensures forall j :: 0 <= j < |g| && g[j].Some? ==> AllDigits(g[j].value)
  {
    if i == 4 then []
    else
      var k := DigitRun(s);
      if 0 < k < |s| && s[k] == Label(i) then [Some(s[..k])] + GroupsFrom(s[k + 1..], i + 1)
      else [None] + GroupsFrom(s, i + 1)
  }

  function Groups(s: string): seq<Option<string>> { GroupsFrom(s, 0) }

  /** The seconds one matched group stands for. */
  function GroupWorth(x: Option<string>, i: nat): nat
    requires i < 4
    requires x.Some? ==> AllDigits(x.value)
  {
    if x.Some? then Unit(i) * DigitsValue(x.value) else 0
  }

  /** The sum the loop of parse_dur accumulates over groups i, i+1, .... */
  function Total(g: seq<Option<string>>, i: nat): nat
    requires i + |g| <= 4
    requires forall j :: 0 <= j < |g| && g[j].Some? ==> AllDigits(g[j].value)
  {
    if g == [] then 0
    else GroupWorth(g[0], i) + Total(g[1..], i + 1)
  }

  /** What parse_dur returns for s, in seconds. */
  function DurValue(s: string): nat { Total(Groups(s), 0) }

  /** parse_dur: match the pattern, then add up the unit counts that are present. */
  method ParseDur(s: string) returns (valsec: nat)
    ensures valsec == DurValue(s)
  {
    var mg := Groups(s);
    valsec := 0;
    for i := 0 to 4
      invariant valsec + Total(mg[i..], i) == Total(mg, 0)
    {
      assert mg[i..][1..] == mg[i + 1..];
      if mg[i].Some? {
        valsec := valsec + Unit(i) * DigitsValue(mg[i].value);
      }
    }
    assert mg[4..] == [];
  }

  // ---------------------------------------------------------------------
  // unparse_dur

  /** Whether the loop of unparse_dur emits a unit for the remaining seconds:
      as written the test is strict (v > unit); `inclusive` gives v >= unit. */
  predicate Emits(v: nat, unit: nat, inclusive: bool)
  {
    if inclusive then v >= unit else v > unit
  }

  /** The counts the loop emits from unit i on, greedily, largest unit first. */
  function Breakdown(v: nat, i: nat, inclusive: bool): (cs: seq<Option<nat>>)
    requires i <= 4
    decreases 4 - i
    ensures |cs| == 4 - i
  {
    if i == 4 then []
    else if Emits(v, Unit(i), inclusive) then
      [Some(v / Unit(i))] + Breakdown(v % Unit(i), i + 1, inclusive)
    else
      [None] + Breakdown(v, i + 1, inclusive)
  }

  /** What is left over after the last unit: the seconds the text does not show. */
  function Lost(v: nat, i: nat, inclusive: bool): nat
    requires i <= 4
    decreases 4 - i
  {
    if i == 4 then v
    else if Emits(v, Unit(i), inclusive) then Lost(v % Unit(i), i + 1, inclusive)
    else Lost(v, i + 1, inclusive)
  }

  function DurTextBy(v: nat, inclusive: bool): (r: string)
    ensures |r| > 0
  {
    var t := ComposeFrom(Breakdown(v, 0, inclusive), 0);
    if |t| == 0 then "0s" else t
  }

  /** unparse_dur as written: strict comparison against each unit. */
  function DurText(v: nat): string { DurTextBy(v, false) }

  /** unparse_dur as evidently intended: a unit is emitted when at least one
      whole unit remains. */
  function DurTextIntended(v: nat): string { DurTextBy(v, true) }

  /** Duration text is made of digits and unit letters only. */
  lemma {:induction false} ComposeAlnum(cs: seq<Option<nat>>, i: nat)
    requires i + |cs| <= 4
    ensures AllAlnum(ComposeFrom(cs, i))
    decreases |cs|
  {
    if cs != [] {
      ComposeAlnum(cs[1..], i + 1);
      if cs[0].Some? {
        AlnumConcat(NatToString(cs[0].value), [Label(i)]);
      }
      AlnumConcat(Component(cs[0], i), ComposeFrom(cs[1..], i + 1));
    }
  }

  lemma DurTextAlnum(v: nat, inclusive: bool)
    ensures AllAlnum(DurTextBy(v, inclusive))
  {
    ComposeAlnum(Breakdown(v, 0, inclusive), 0);
  }

  /** One step of the printer when unit i is emitted: its count and label,
      then the text of what remains. */
  lemma PrintEmitted(prefix: string, v: nat, i: nat, inclusive: bool)
    requires i < 4 && Emits(v, Unit(i), inclusive)
    ensures v - (v / Unit(i)) * Unit(i) == v % Unit(i)
    ensures prefix + ComposeFrom(Breakdown(v, i, inclusive), i)
            == (prefix + (NatToString(v / Unit(i)) + [Label(i)]))
               + ComposeFrom(Breakdown(v % Unit(i), i + 1, inclusive), i + 1)
  {
    var u := Unit(i);
    var cs := Breakdown(v, i, inclusive);
    var head := NatToString(v / u) + [Label(i)];
    var tail := ComposeFrom(Breakdown(v % u, i + 1, inclusive), i + 1);
    assert v == (v / u) * u + v % u;
    assert cs == [Some((v / u) as nat)] + Breakdown(v % u, i + 1, inclusive);
    assert cs[1..] == Breakdown(v % u, i + 1, inclusive);
    assert ComposeFrom(cs, i) == head + tail;
    assert prefix + (head + tail) == (prefix + head) + tail;
  }

  /** One step of the printer when unit i is not emitted. */
  lemma PrintSkipped(v: nat, i: nat, inclusive: bool)
    requires i < 4 && !Emits(v, Unit(i), inclusive)
    ensures ComposeFrom(Breakdown(v, i, inclusive), i)
            == ComposeFrom(Breakdown(v, i + 1, inclusive), i + 1)
  {
    var cs := Breakdown(v, i, inclusive);
    assert cs[1..] == Breakdown(v, i + 1, inclusive);
  }

  /** unparse_dur: emit each unit the remaining seconds exceed, then fall back
      to "0s" for an empty text. */
  method UnparseDur(v: nat) returns (valstr: string)
    ensures valstr == DurText(v)
    ensures |valstr| > 0
  {
    var valsec: nat := v;
    valstr := "";
    for i := 0 to 4
      invariant valstr + ComposeFrom(Breakdown(valsec, i, false), i)
                == ComposeFrom(Breakdown(v, 0, false), 0)
    {
      if valsec > Unit(i) {
        var valunit := valsec / Unit(i);
        PrintEmitted(valstr, valsec, i, false);
        valstr := valstr + (NatToString(valunit) + [Label(i)]);
        valsec := valsec - valunit * Unit(i);
      } else {
        PrintSkipped(valsec, i, false);
      }
    }
    assert valstr + "" == valstr;
    if |valstr| == 0 {
      valstr := "0s";
    }
  }

  // ---------------------------------------------------------------------
  // Properties

  /** Digits followed by unit i's label fill group i. */
  lemma GroupTaken(n: string, tail: string, i: nat)
    requires i < 4 && AllDigits(n) && |n| > 0
    ensures GroupsFrom(n + ([Label(i)] + tail), i) == [Some(n)] + GroupsFrom(tail, i + 1)
  {
    Consume(n, Label(i), tail);
  }

  /** Digits followed by another letter leave group i empty. */
  lemma GroupSkipped(n: string, c: char, tail: string, i: nat)
    requires i < 4 && AllDigits(n) && |n| > 0 && !IsDigit(c) && c != Label(i)
    ensures GroupsFrom(n + ([c] + tail), i) == [None] + GroupsFrom(n + ([c] + tail), i + 1)
  {
    Consume(n, c, tail);
  }

  /** Text that does not start with a digit leaves group i empty. */
  lemma GroupEmpty(t: string, i: nat)
    requires i < 4 && (t == [] || !IsDigit(t[0]))
    ensures GroupsFrom(t, i) == [None] + GroupsFrom(t, i + 1)
  {
    assert DigitRun(t) == 0;
  }

  lemma ComposeHead(cs: seq<Option<nat>>, j: nat, rest: string)
    requires |cs| > 0 && j + |cs| <= 4
    ensures ComposeFrom(cs, j) + rest == Component(cs[0], j) + (ComposeFrom(cs[1..], j + 1) + rest)
  {
  }

  lemma Assoc(n: string, c: char, tail: string)
    ensures (n + [c]) + tail == n + ([c] + tail)
  {
  }

  /** The group of unit i cannot match when the text starts with a later
      unit's component, or with something that is not a digit. */
  lemma {:induction false} NoGroupAt(cs: seq<Option<nat>>, i: nat, j: nat, rest: string)
    requires i < j && j + |cs| == 4
    requires rest == [] || !IsDigit(rest[0])
    ensures GroupsFrom(ComposeFrom(cs, j) + rest, i)
            == [None] + GroupsFrom(ComposeFrom(cs, j) + rest, i + 1)
  {
    if cs == [] {
      assert ComposeFrom(cs, j) + rest == rest;
      GroupEmpty(rest, i);
    } else if cs[0].Some? {
      ComposeHead(cs, j, rest);
      NoGroupBefore(cs[0].value, i, j, ComposeFrom(cs[1..], j + 1) + rest);
    } else {
      var t := ComposeFrom(cs[1..], j + 1) + rest;
      ComposeHead(cs, j, rest);
      assert Component(cs[0], j) == "";
      assert ComposeFrom(cs, j) + rest == t;
      NoGroupAt(cs[1..], i, j + 1, rest);
    }
  }

  /** The group of unit i cannot match the component of a later unit j. */
  lemma NoGroupBefore(v: nat, i: nat, j: nat, tail: string)
    requires i < j < 4
    ensures GroupsFrom(Component(Some(v), j) + tail, i)
            == [None] + GroupsFrom(Component(Some(v), j) + tail, i + 1)
  {
    var n := NatToString(v);
    Assoc(n, Label(j), tail);
    GroupSkipped(n, Label(j), tail, i);
  }

  /** parse_dur reads back exactly the seconds the components stand for,
      whatever follows them as long as it does not start with a digit. */
  lemma {:induction false} ParseComposed(cs: seq<Option<nat>>, i: nat, rest: string)
    requires i + |cs| == 4
    requires rest == [] || !IsDigit(rest[0])
    ensures Total(GroupsFrom(ComposeFrom(cs, i) + rest, i), i) == Weighted(cs, i)
  {
    if cs == [] {
      assert GroupsFrom(ComposeFrom(cs, i) + rest, i) == [];
    } else {
      var tail := ComposeFrom(cs[1..], i + 1) + rest;
      ParseComposed(cs[1..], i + 1, rest);
      ComposeHead(cs, i, rest);
      if cs[0].None? {
        NoGroupAt(cs[1..], i, i + 1, rest);
      }
      ParseStep(cs[0], tail, i);
    }
  }

  /** The first component fills group i, or leaves it empty when the group
      cannot match what follows. */
  lemma ParseStep(c: Option<nat>, tail: string, i: nat)
    requires i < 4
    requires c.None? ==> GroupsFrom(tail, i) == [None] + GroupsFrom(tail, i + 1)
    ensures Total(GroupsFrom(Component(c, i) + tail, i), i)
            == Worth(c, i) + Total(GroupsFrom(tail, i + 1), i + 1)
  {
    if c.Some? {
      ParseStepPresent(c.value, tail, i);
    } else {
      assert Component(c, i) + tail == tail;
      TotalCons(None, GroupsFrom(tail, i + 1), i);
    }
  }

  lemma ParseStepPresent(v: nat, tail: string, i: nat)
    requires i < 4
    ensures Total(GroupsFrom(Component(Some(v), i) + tail, i), i)
            == Worth(Some(v), i) + Total(GroupsFrom(tail, i + 1), i + 1)
  {
    var n := NatToString(v);
    Assoc(n, Label(i), tail);
    GroupTaken(n, tail, i);
    TotalCons(Some(n), GroupsFrom(tail, i + 1), i);
    WorthOfText(v, i);
  }

  lemma WorthOfText(v: nat, i: nat)
    requires i < 4
    ensures GroupWorth(Some(NatToString(v)), i) == Worth(Some(v), i)
  {
    NatToStringValue(v);
  }

  lemma TotalCons(x: Option<string>, g: seq<Option<string>>, i: nat)
    requires i < 4 && i + 1 + |g| <= 4
    requires x.Some? ==> AllDigits(x.value)
    requires forall j :: 0 <= j < |g| && g[j].Some? ==> AllDigits(g[j].value)
    ensures Total([x] + g, i) == GroupWorth(x, i) + Total(g, i + 1)
  {
    assert ([x] + g)[1..] == g;
  }

  /** The counts of the greedy breakdown add up to the seconds minus what is lost. */
  lemma {:induction false} BreakdownWeight(v: nat, i: nat, inclusive: bool)
    requires i <= 4
    decreases 4 - i
    ensures Weighted(Breakdown(v, i, inclusive), i) == v - Lost(v, i, inclusive)
  {
    if i < 4 {
      var cs := Breakdown(v, i, inclusive);
      if Emits(v, Unit(i), inclusive) {
        BreakdownWeight(v % Unit(i), i + 1, inclusive);
        assert cs[1..] == Breakdown(v % Unit(i), i + 1, inclusive);
      } else {
        BreakdownWeight(v, i + 1, inclusive);
        assert cs[1..] == Breakdown(v, i + 1, inclusive);
      }
    }
  }

  /** Only a lone second can be lost, and only by the strict comparison. */
  lemma LostSecond(v: nat)
    ensures Lost(v, 0, false) == if v % 60 == 1 then 1 else 0
    ensures Lost(v, 0, true) == 0
  {
    LostFrom(v, 0, false);
    LostFrom(v, 0, true);
  }

  /** From any unit on, with no more than one of the unit before left, what
      is lost is the lone second of the strict comparison. */
  lemma {:induction false} LostFrom(v: nat, i: nat, inclusive: bool)
    requires i < 4 && (i > 0 ==> v <= Unit(i - 1))
    decreases 4 - i
    ensures Lost(v, i, inclusive) == if !inclusive && v % 60 == 1 then 1 else 0
  {
    if i == 3 {
      assert Lost(v, 4, inclusive) == v && Lost(v % 1, 4, inclusive) == 0;
    } else if Emits(v, Unit(i), inclusive) {
      LostFrom(v % Unit(i), i + 1, inclusive);
      ModSixty(v, Unit(i));
    } else {
      LostFrom(v, i + 1, inclusive);
    }
  }

  /** Taking whole days, hours or minutes away keeps the seconds within the
      minute. */
  lemma ModSixty(v: nat, u: nat)
    requires u == 86400 || u == 3600 || u == 60
    ensures (v % u) % 60 == v % 60
  {
    var q, r := v / u, v % u;
    assert v == u * q + r;
    OffsetMod((u / 60) * q, r);
  }

  lemma OffsetMod(q: nat, r: nat)
    ensures (60 * q + r) % 60 == r % 60
  {
  }

  /** "0s" stands for zero seconds. */
  lemma ZeroText()
    ensures DurValue("0s") == 0
  {
    var zero := [None, None, None, Some(0)];
    assert ComposeFrom(zero[3..], 3) == "0s";
    assert ComposeFrom(zero[2..], 2) == "0s";
    assert ComposeFrom(zero[1..], 1) == "0s";
    assert ComposeFrom(zero, 0) + "" == "0s";
    ParseComposed(zero, 0, "");
  }

  lemma {:induction false} DurValueOfText(v: nat, inclusive: bool)
    ensures DurValue(DurTextBy(v, inclusive)) == v - Lost(v, 0, inclusive)
  {
    var cs := Breakdown(v, 0, inclusive);
    var t := ComposeFrom(cs, 0);
    BreakdownWeight(v, 0, inclusive);
    ParseComposed(cs, 0, "");
    assert t + "" == t;
    if |t| == 0 {
      assert GroupsFrom(t, 0) == GroupsFrom("", 0);
      ParseComposed([None, None, None, None], 0, "");
      assert ComposeFrom([None, None, None, None], 0) == "";
      ZeroText();
    }
  }

  /** parse_dur(unparse_dur(d)) gives d back, except that a lone trailing
      second is dropped: d mod 60 == 1 comes back one second short. */
  lemma DurRoundTrip(v: nat)
    ensures DurValue(DurText(v)) == if v % 60 == 1 then v - 1 else v
  {
    DurValueOfText(v, false);
    LostSecond(v);
  }

  /** With the inclusive comparison the round trip holds for every duration. */
  lemma IntendedDurRoundTrip(v: nat)
    ensures DurValue(DurTextIntended(v)) == v
  {
    DurValueOfText(v, true);
    LostSecond(v);
  }

  /** The as-written printer loses the lone second: every duration of 1
      modulo 60 seconds reads back one second short ... */
  lemma LoneSecondLost(v: nat)
    requires v % 60 == 1
    ensures DurValue(DurText(v)) == v - 1
  {
    DurRoundTrip(v);
  }

  /** ... for instance 3601 s prints as "1h". */
  lemma UnparseDurDropsLoneSecond()
    ensures DurText(3601) == "1h"
  {
    assert NatToString(1) == "1";
    PrintSkipped(3601, 0, false);
    PrintEmitted("", 3601, 1, false);
    PrintSkipped(1, 2, false);
    PrintSkipped(1, 3, false);
    assert ComposeFrom(Breakdown(3601, 0, false), 0) == "1h";
  }

  /** parse_dur sums the components present in the matched prefix, and any
      text after them that does not start with a digit is ignored. */
  lemma ParseDurComponents(d: Option<nat>, h: Option<nat>, m: Option<nat>, s: Option<nat>,
                           rest: string)
    requires rest == [] || !IsDigit(rest[0])
    ensures DurValue(Component(d, 0) + (Component(h, 1) + (Component(m, 2) + (Component(s, 3) + rest))))
         == 86400 * (if d.Some? then d.value else 0) + 3600 * (if h.Some? then h.value else 0)
            + 60 * (if m.Some? then m.value else 0) + (if s.Some? then s.value else 0)
  {
    ComposeFour([d, h, m, s], rest);
    ParseComposed([d, h, m, s], 0, rest);
    WeightedFour(d, h, m, s);
  }

  lemma ComposeFour(cs: seq<Option<nat>>, rest: string)
    requires |cs| == 4
    ensures ComposeFrom(cs, 0) + rest
            == Component(cs[0], 0) + (Component(cs[1], 1) + (Component(cs[2], 2) + (Component(cs[3], 3) + rest)))
  {
    var a, b, c, e := Component(cs[0], 0), Component(cs[1], 1), Component(cs[2], 2), Component(cs[3], 3);
    calc {
      ComposeFrom(cs, 0) + rest;
      == { ComposeHead(cs, 0, rest); }
      a + (ComposeFrom(cs[1..], 1) + rest);
      == { ComposeHead(cs[1..], 1, rest); assert cs[1..][1..] == cs[2..]; }
      a + (b + (ComposeFrom(cs[2..], 2) + rest));
      == { ComposeHead(cs[2..], 2, rest); assert cs[2..][1..] == cs[3..]; }
      a + (b + (c + (ComposeFrom(cs[3..], 3) + rest)));
      == { assert ComposeFrom(cs[3..], 3) == e by {
             assert cs[3..][1..] == [];
             assert ComposeFrom(cs[3..][1..], 4) == [];
           }
         }
      a + (b + (c + (e + rest)));
    }
  }

  lemma WeightedFour(d: Option<nat>, h: Option<nat>, m: Option<nat>, s: Option<nat>)
    ensures Weighted([d, h, m, s], 0)
         == 86400 * (if d.Some? then d.value else 0) + 3600 * (if h.Some? then h.value else 0)
            + 60 * (if m.Some? then m.value else 0) + (if s.Some? then s.value else 0)
  {
    var cs := [d, h, m, s];
    assert cs[1..] == [h, m, s] && cs[2..] == [m, s] && cs[3..] == [s];
    assert Weighted(cs[3..], 3) == Worth(s, 3);
    assert Weighted(cs[2..], 2) == Worth(m, 2) + Worth(s, 3);
    assert Weighted(cs[1..], 1) == Worth(h, 1) + Worth(m, 2) + Worth(s, 3);
  }

  /** Text that does not start with a digit parses as zero seconds. */
  lemma ParseDurGarbage(s: string)
    requires s == [] || !IsDigit(s[0])
    ensures DurValue(s) == 0
  {
    ParseDurComponents(None, None, None, None, s);
  }

  /** The worked example: 1d2h3m4s is 93784 seconds ... */
  lemma DurExampleParse()
    ensures DurValue("1d2h3m4s") == 93784
  {
    var d, h, m, s := Some(1), Some(2), Some(3), Some(4);
    assert NatToString(1) == "1" && NatToString(2) == "2";
    assert NatToString(3) == "3" && NatToString(4) == "4";
    var t := Component(d, 0) + (Component(h, 1) + (Component(m, 2) + (Component(s, 3) + "")));
    assert t == "1d2h3m4s";
    ParseDurComponents(d, h, m, s, "");
  }

  /** ... and 93784 seconds print as 1d2h3m4s. */
  lemma DurExamplePrint()
    ensures DurText(93784) == "1d2h3m4s"
  {
    assert NatToString(1) == "1" && NatToString(2) == "2";
    assert NatToString(3) == "3" && NatToString(4) == "4";
    PrintEmitted("", 93784, 0, false);
    PrintEmitted("1d", 7384, 1, false);
    PrintEmitted("1d2h", 184, 2, false);
    PrintEmitted("1d2h3m", 4, 3, false);
    assert ComposeFrom(Breakdown(0, 4, false), 4) == "";
  }
}
