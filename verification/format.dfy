/** The display helpers of src/utils/mod.rs: numbers in decimal with a comma
    between groups of three digits, and durations in hours, minutes and
    seconds. */
module Format {
  import opened Wrappers

  function DigitChar(d: nat): (c: char)
    requires d < 10
    ensures '0' <= c <= '9' && c as int - '0' as int == d
  {
    ('0' as int + d) as char
  }

  predicate IsDigitChar(c: char) { '0' <= c <= '9' }

  predicate AllDigits(s: string)
  {
    forall i :: 0 <= i < |s| ==> IsDigitChar(s[i])
  }

  /** The decimal digits of `n`, as `to_string` writes them: most significant
      first, no leading zero, "0" for zero. */
  function Decimal(n: nat): (s: string)
    ensures |s| >= 1 && AllDigits(s)
    ensures (s[0] == '0') <==> n == 0
    decreases n
  {
    if n < 10 then [DigitChar(n)] else Decimal(n / 10) + [DigitChar(n % 10)]
  }

  /** The number a string of decimal digits denotes. */
  function DigitsValue(s: string): nat
    requires AllDigits(s)
    decreases |s|
  {
    if |s| == 0 then 0
    else DigitsValue(s[..|s| - 1]) * 10 + (s[|s| - 1] as int - '0' as int)
  }

  /** Reading the digits back gives the number. */
  lemma {:induction false} DecimalValue(n: nat)
    ensures DigitsValue(Decimal(n)) == n
    decreases n
  {
    if n >= 10 {
      DecimalValue(n / 10);
      var s := Decimal(n);
      assert s[..|s| - 1] == Decimal(n / 10);
    }
  }

  /** Different numbers are written differently. */
  lemma DecimalInjective(m: nat, n: nat)
    requires Decimal(m) == Decimal(n)
    ensures m == n
  {
    DecimalValue(m);
    DecimalValue(n);
  }

  /** Digits grouped in threes from the right, a comma between groups. */
  function Group(d: string): (g: string)
    decreases |d|
  {
    if |d| <= 3 then d else Group(d[..|d| - 3]) + [','] + d[|d| - 3..]
  }

  /** Removes every comma. */
  function Ungroup(g: string): (d: string)
    decreases |g|
  {
    if |g| == 0 then []
    else Ungroup(g[..|g| - 1]) + (if g[|g| - 1] == ',' then [] else [g[|g| - 1]])
  }

  lemma {:induction false} UngroupAppend(a: string, b: string)
    ensures Ungroup(a + b) == Ungroup(a) + Ungroup(b)
    decreases |b|
  {
    if |b| == 0 {
      assert a + b == a;
    } else {
      assert (a + b)[..|a + b| - 1] == a + b[..|b| - 1];
      UngroupAppend(a, b[..|b| - 1]);
    }
  }

  /** A string without commas is left as it is. */
  lemma {:induction false} UngroupDigits(d: string)
    requires AllDigits(d)
    ensures Ungroup(d) == d
    decreases |d|
  {
    if |d| > 0 {
      UngroupDigits(d[..|d| - 1]);
    }
  }

  /** The last step of the grouping. */
  lemma GroupUnfold(d: string)
    requires |d| > 3
    ensures Group(d) == Group(d[..|d| - 3]) + [','] + d[|d| - 3..]
  {
  }

  /** Grouping only inserts commas: taking them out again gives the digits
      back, and one comma goes in for every full group of three after the
      first digit. */
  lemma {:induction false} GroupAddsCommas(d: string)
    requires AllDigits(d)
    ensures Ungroup(Group(d)) == d
    ensures |d| >= 1 ==> |Group(d)| == |d| + (|d| - 1) / 3
    decreases |d|
  {
    if |d| <= 3 {
      UngroupDigits(d);
    } else {
      var p, q := d[..|d| - 3], d[|d| - 3..];
      GroupUnfold(d);
      GroupAddsCommas(p);
      assert Ungroup(Group(d)) == Ungroup(Group(p)) + Ungroup([',']) + Ungroup(q) by {
        UngroupAppend(Group(p) + [','], q);
        UngroupAppend(Group(p), [',']);
      }
      assert Ungroup([',']) == [] by {
        assert [','][..0] == [];
      }
      UngroupDigits(q);
      assert d == p + q;
    }
  }

  /** Commas sit exactly at the positions a multiple of four from the end:
      every group after the first has three digits, and the first has one
      to three. */
  lemma {:induction false} CommaPositions(d: string)
    requires |d| >= 1 && AllDigits(d)
    ensures forall i :: 0 <= i < |Group(d)| ==> (Group(d)[i] == ',' <==> (|Group(d)| - i) % 4 == 0)
    decreases |d|
  {
    if |d| <= 3 {
      assert Group(d) == d;
    } else {
      var p, q := d[..|d| - 3], d[|d| - 3..];
      GroupUnfold(d);
      CommaPositions(p);
      assert AllDigits(q) by {
        assert forall k :: 0 <= k < 3 ==> q[k] == d[|d| - 3 + k];
      }
      CommasAfterGroup(Group(p), q);
    }
  }

  /** A group of three digits after a comma keeps the comma pattern. */
  lemma CommasAfterGroup(gp: string, q: string)
    requires |q| == 3 && AllDigits(q)
    requires forall i :: 0 <= i < |gp| ==> (gp[i] == ',' <==> (|gp| - i) % 4 == 0)
    ensures var g := gp + [','] + q;
            forall i :: 0 <= i < |g| ==> (g[i] == ',' <==> (|g| - i) % 4 == 0)
  {
    var g := gp + [','] + q;
    forall i | 0 <= i < |g|
      ensures g[i] == ',' <==> (|g| - i) % 4 == 0
    {
      if i < |gp| {
        assert g[i] == gp[i];
        assert |g| - i == (|gp| - i) + 4;
      } else if i > |gp| {
        assert g[i] == q[i - |gp| - 1];
      }
    }
  }

  /** The grouping of a string of digits one digit longer. */
  lemma {:induction false} GroupCons(c: char, t: string)
    ensures |t| > 0 && |t| % 3 == 0 ==> Group([c] + t) == [c] + [','] + Group(t)
    ensures !(|t| > 0 && |t| % 3 == 0) ==> Group([c] + t) == [c] + Group(t)
    decreases |t|
  {
    var s := [c] + t;
    if |t| > 3 {
      var p := t[..|t| - 3];
      assert s[..|s| - 3] == [c] + p && s[|s| - 3..] == t[|t| - 3..];
      GroupUnfold(s);
      GroupUnfold(t);
      GroupCons(c, p);
    } else if |t| == 3 {
      assert s[..|s| - 3] == [c] && s[|s| - 3..] == t;
      GroupUnfold(s);
    }
  }

  /** The reversal of a string. */
  function Reverse(s: string): (r: string)
    ensures |r| == |s| && forall i :: 0 <= i < |s| ==> r[i] == s[|s| - 1 - i]
  {
    seq(|s|, i requires 0 <= i < |s| => s[|s| - 1 - i])
  }

  lemma ReverseAppend(a: string, b: string)
    ensures Reverse(a + b) == Reverse(b) + Reverse(a)
  {
  }

  /** One turn of the loop in `FormatNumber`, in reverse: pushing the next
      digit from the right (after a comma when three digits have gone by
      since the last one) extends the reversed grouping by one digit. */
  lemma PushDigit(result: string, t: string, ch: char)
    requires result == Reverse(Group(t))
    ensures |t| > 0 && |t| % 3 == 0 ==> result + [','] + [ch] == Reverse(Group([ch] + t))
    ensures !(|t| > 0 && |t| % 3 == 0) ==> result + [ch] == Reverse(Group([ch] + t))
  {
    GroupCons(ch, t);
    if |t| > 0 && |t| % 3 == 0 {
      PushWithComma(result, Group(t), ch);
    } else {
      PushReversed(result, Group(t), [ch]);
      assert Reverse([ch]) == [ch];
    }
  }

  lemma PushWithComma(result: string, g: string, ch: char)
    requires result == Reverse(g)
    ensures result + [','] + [ch] == Reverse([ch] + [','] + g)
  {
    PushReversed(result, g, [ch, ',']);
    assert Reverse([ch, ',']) == [',', ch];
    assert [ch] + [','] + g == [ch, ','] + g;
    assert result + [','] + [ch] == result + [',', ch];
  }

  /** Putting `head` in front of a string puts its reversal after the
      reversed string. */
  lemma PushReversed(result: string, g: string, head: string)
    requires result == Reverse(g)
    ensures result + Reverse(head) == Reverse(head + g)
  {
    ReverseAppend(head, g);
  }

  lemma ReverseReverse(s: string)
    ensures Reverse(Reverse(s)) == s
  {
  }

  /** How many digits the loop has pushed since its last comma. */
  function Phase(i: nat): nat
  {
    if i == 0 then 0 else (i - 1) % 3 + 1
  }

  lemma PhaseStep(i: nat)
    ensures Phase(i) == 3 <==> i > 0 && i % 3 == 0
    ensures Phase(i + 1) == (if Phase(i) == 3 then 0 else Phase(i)) + 1
  {
  }

  /** The source's loop: walk the digits from the right, push a comma before
      every digit that starts a new group of three, then reverse. */
  method FormatNumber(n: nat) returns (r: string)
    ensures r == Group(Decimal(n))
  {
    var s := Decimal(n);
    var result: string := [];
    var count := 0;
    var i := 0;
    while i < |s|
      invariant i <= |s|
      invariant result == Reverse(Group(s[|s| - i..]))
      invariant count == Phase(i)
    {
      PhaseStep(i);
      var ch := s[|s| - 1 - i];
      assert s[|s| - (i + 1)..] == [ch] + s[|s| - i..];
      PushDigit(result, s[|s| - i..], ch);
      if count == 3 {
        result := result + [','];
        count := 0;
      }
      result := result + [ch];
      count := count + 1;
      i := i + 1;
    }
    assert s[|s| - i..] == s;
    ReverseReverse(Group(s));
    r := Reverse(result);
  }

  lemma DecimalExamples()
    ensures Decimal(999) == "999" && Decimal(1000) == "1000"
    ensures Decimal(1234567890) == "1234567890"
  {
  }

  lemma GroupTen(d: string)
    requires d == "1234567890"
    ensures Group(d) == "1,234,567,890"
  {
    var a := d[..7];
    var b := a[..4];
    var c := b[..1];
    assert Group(c) == "1";
    GroupUnfold(b);
    assert b[..1] == c && b[1..] == "234";
    assert Group(b) == "1,234";
    GroupUnfold(a);
    assert a[..4] == b && a[4..] == "567";
    assert Group(a) == "1,234,567";
    assert d[..7] == a && d[7..] == "890";
    GroupUnfold(d);
  }

  /** The source's examples. */
  lemma FormatNumberExamples()
    ensures Group(Decimal(999)) == "999"
    ensures Group(Decimal(1000)) == "1,000"
    ensures Group(Decimal(1234567890)) == "1,234,567,890"
  {
    DecimalExamples();
    GroupUnfold("1000");
    GroupTen("1234567890");
  }

  /** A whole number of seconds split into hours, the minutes of the
      current hour and the seconds of the current minute. */
  function Split(seconds: nat): (r: (nat, nat, nat))
    ensures r.1 < 60 && r.2 < 60
    ensures r.0 * 3600 + r.1 * 60 + r.2 == seconds
  {
    (seconds / 3600, (seconds % 3600) / 60, seconds % 60)
  }

  /** The displayed form: "Hh Mm Ss" from one hour on, "Mm Ss" from one
      minute on, otherwise "Ss"; leading zero fields are left out, inner ones
      are kept. */
  function FormatDuration(seconds: nat): (r: string)
    ensures |r| >= 2 && r[|r| - 1] == 's'
    ensures 'h' in r <==> seconds >= 3600
    ensures 'm' in r <==> seconds >= 60
  {
    var (hours, minutes, secs) := Split(seconds);
    NoLetters(Decimal(hours));
    NoLetters(Decimal(minutes));
    NoLetters(Decimal(secs));
    if hours > 0 then Decimal(hours) + ("h " + (Decimal(minutes) + ("m " + (Decimal(secs) + "s"))))
    else if minutes > 0 then Decimal(minutes) + ("m " + (Decimal(secs) + "s"))
    else Decimal(secs) + "s"
  }

  lemma NoLetters(d: string)
    requires AllDigits(d)
    ensures 'h' !in d && 'm' !in d && 's' !in d
  {
  }

  /** The fields are unique: two durations that split alike are equal. */
  lemma SplitInjective(a: nat, b: nat)
    requires Split(a) == Split(b)
    ensures a == b
  {
  }

  /** How many digits `s` starts with. */
  function DigitRun(s: string): (k: nat)
    ensures k <= |s| && AllDigits(s[..k])
    ensures k < |s| ==> !IsDigitChar(s[k])
    decreases |s|
  {
    if |s| > 0 && IsDigitChar(s[0]) then
      var k := DigitRun(s[1..]);
      assert forall i :: 0 < i < k + 1 ==> s[i] == s[1..][i - 1];
      k + 1
    else 0
  }

  /** A number read off the front of `s` and the letter `unit` after it,
      with the text after that; None when `s` does not start that way. */
  function ReadField(s: string, unit: char): Option<(nat, string)>
  {
    var k := DigitRun(s);
    if k == 0 || k == |s| || s[k] != unit then None
    else Some((DigitsValue(s[..k]), s[k + 1..]))
  }

  lemma {:induction false} DigitRunOf(d: string, rest: string)
    requires AllDigits(d) && (|rest| == 0 || !IsDigitChar(rest[0]))
    ensures DigitRun(d + rest) == |d|
    decreases |d|
  {
    if |d| > 0 {
      assert (d + rest)[0] == d[0] && (d + rest)[1..] == d[1..] + rest;
      DigitRunOf(d[1..], rest);
    } else {
      assert d + rest == rest;
    }
  }

  /** Digits followed by a letter read back as the number they denote when
      the letter is the one asked for, and not at all otherwise. */
  lemma ReadDigits(d: string, letter: char, rest: string, unit: char)
    requires |d| > 0 && AllDigits(d) && !IsDigitChar(letter)
    ensures letter == unit ==> ReadField(d + ([letter] + rest), unit) == Some((DigitsValue(d), rest))
    ensures letter != unit ==> ReadField(d + ([letter] + rest), unit) == None
  {
    var s := d + ([letter] + rest);
    DigitRunOf(d, [letter] + rest);
    assert s[..|d|] == d && s[|d|] == letter && s[|d| + 1..] == rest;
  }

  function ReadSeconds(s: string): Option<nat>
  {
    match ReadField(s, 's')
    case Some((n, rest)) => if |rest| == 0 then Some(n) else None
    case None => None
  }

  /** "Mm Ss", or just "Ss". */
  function ReadMinutes(s: string): Option<nat>
  {
    match ReadField(s, 'm')
    case Some((n, rest)) =>
      if |rest| > 0 && rest[0] == ' ' then Plus(n * 60, ReadSeconds(rest[1..])) else None
    case None => ReadSeconds(s)
  }

  /** Reads a displayed duration back: "Hh Mm Ss", "Mm Ss" or "Ss". */
  function ReadDuration(s: string): Option<nat>
  {
    match ReadField(s, 'h')
    case Some((n, rest)) =>
      if |rest| > 0 && rest[0] == ' ' then Plus(n * 3600, ReadMinutes(rest[1..])) else None
    case None => ReadMinutes(s)
  }

  function Plus(k: nat, o: Option<nat>): Option<nat>
  {
    match o
    case Some(v) => Some(k + v)
    case None => None
  }

  /** The display loses nothing but the fraction of a second: reading it
      back gives the number of seconds. */
  lemma DurationReadsBack(seconds: nat)
    ensures ReadDuration(FormatDuration(seconds)) == Some(seconds)
  {
    var (hours, minutes, secs) := Split(seconds);
    var t := FormatDuration(seconds);
    DecimalValue(hours);
    DecimalValue(minutes);
    DecimalValue(secs);
    if hours > 0 {
      assert t == Decimal(hours) + ("h " + (Decimal(minutes) + ("m " + (Decimal(secs) + "s"))));
      HoursBack(Decimal(hours), Decimal(minutes), Decimal(secs), hours, minutes, secs);
    } else if minutes > 0 {
      assert t == Decimal(minutes) + ("m " + (Decimal(secs) + "s"));
      MinutesBack(Decimal(minutes), Decimal(secs), minutes, secs);
    } else {
      assert t == Decimal(secs) + "s";
      SecondsBack(Decimal(secs), secs);
    }
    assert ReadDuration(t).Some? && ReadDuration(t).value == seconds;
  }

  /** "Ss" reads back as S; the value `v` of the digits is passed in so
      that the digits are not re-read here. */
  lemma SecondsBack(ds: string, v: nat)
    requires |ds| > 0 && AllDigits(ds) && v == DigitsValue(ds)
    ensures ReadSeconds(ds + "s") == Some(v)
    ensures ReadDuration(ds + "s") == Some(v)
  {
    assert "s" == ['s'] + [];
    ReadDigits(ds, 's', [], 's');
    ReadDigits(ds, 's', [], 'm');
    ReadDigits(ds, 's', [], 'h');
  }

  /** A unit letter and a space in front of `t`, one character at a time. */
  lemma Unit(u: string, t: string)
    requires |u| == 2
    ensures u + t == [u[0]] + ([u[1]] + t)
  {
  }

  /** One "Mm " field in front of a readable number of seconds. */
  lemma MinutesField(s: string, n: nat, rest: string, v: nat)
    requires ReadField(s, 'm') == Some((n, rest)) && |rest| > 0 && rest[0] == ' '
    requires ReadSeconds(rest[1..]) == Some(v)
    ensures ReadMinutes(s).Some? && ReadMinutes(s).value == n * 60 + v
  {
  }

  /** One "Hh " field in front of a readable number of minutes and seconds. */
  lemma HoursField(s: string, n: nat, rest: string, v: nat)
    requires ReadField(s, 'h') == Some((n, rest)) && |rest| > 0 && rest[0] == ' '
    requires ReadMinutes(rest[1..]) == Some(v)
    ensures ReadDuration(s).Some? && ReadDuration(s).value == n * 3600 + v
  {
  }

  lemma NoHours(s: string)
    requires ReadField(s, 'h') == None
    ensures ReadDuration(s) == ReadMinutes(s)
  {
  }

  /** "Mm Ss" reads back as M minutes and S seconds. */
  lemma MinutesBack(dm: string, ds: string, m: nat, v: nat)
    requires |dm| > 0 && AllDigits(dm) && |ds| > 0 && AllDigits(ds)
    requires m == DigitsValue(dm) && v == DigitsValue(ds)
    ensures ReadMinutes(dm + ("m " + (ds + "s"))).Some?
    ensures ReadMinutes(dm + ("m " + (ds + "s"))).value == m * 60 + v
    ensures ReadDuration(dm + ("m " + (ds + "s"))) == ReadMinutes(dm + ("m " + (ds + "s")))
  {
    var tail := ds + "s";
    var rest := [' '] + tail;
    var s := dm + ("m " + tail);
    assert ReadField(s, 'm') == Some((m, rest)) && ReadField(s, 'h') == None by {
      Unit("m ", tail);
      ReadDigits(dm, 'm', rest, 'm');
      ReadDigits(dm, 'm', rest, 'h');
    }
    assert rest[1..] == tail;
    SecondsBack(ds, v);
    MinutesField(s, m, rest, v);
    NoHours(s);
  }

  /** "Hh Mm Ss" reads back as H hours, M minutes and S seconds. */
  lemma HoursBack(dh: string, dm: string, ds: string, h: nat, m: nat, v: nat)
    requires |dh| > 0 && AllDigits(dh) && |dm| > 0 && AllDigits(dm) && |ds| > 0 && AllDigits(ds)
    requires h == DigitsValue(dh) && m == DigitsValue(dm) && v == DigitsValue(ds)
    ensures ReadDuration(dh + ("h " + (dm + ("m " + (ds + "s"))))).Some?
    ensures ReadDuration(dh + ("h " + (dm + ("m " + (ds + "s"))))).value == h * 3600 + m * 60 + v
  {
    var tail := dm + ("m " + (ds + "s"));
    var rest := [' '] + tail;
    var s := dh + ("h " + tail);
    assert ReadField(s, 'h') == Some((h, rest)) by {
      Unit("h ", tail);
      ReadDigits(dh, 'h', rest, 'h');
    }
    assert rest[1..] == tail;
    MinutesBack(dm, ds, m, v);
    HoursField(s, h, rest, ReadMinutes(tail).value);
  }

  /** So different durations never display alike. */
  lemma FormatDurationInjective(a: nat, b: nat)
    requires FormatDuration(a) == FormatDuration(b)
    ensures a == b
  {
    DurationReadsBack(a);
    DurationReadsBack(b);
  }

  /** The source's examples. */
  lemma FormatDurationExamples()
    ensures FormatDuration(45) == "45s"
    ensures FormatDuration(125) == "2m 5s"
    ensures FormatDuration(3665) == "1h 1m 5s"
  {
    FortyFive(45);
    TwoMinutes(125);
    OneHour(3665);
  }

  lemma FortyFive(n: nat)
    requires n == 45
    ensures FormatDuration(n) == "45s"
  {
    assert Decimal(n) == "45";
  }

  lemma TwoMinutes(n: nat)
    requires n == 125
    ensures FormatDuration(n) == "2m 5s"
  {
    assert Split(n) == (0, 2, 5);
    assert Decimal(2) == "2" && Decimal(5) == "5";
  }

  lemma OneHour(n: nat)
    requires n == 3665
    ensures FormatDuration(n) == "1h 1m 5s"
  {
    assert Split(n) == (1, 1, 5);
    assert Decimal(1) == "1" && Decimal(5) == "5";
  }
}
