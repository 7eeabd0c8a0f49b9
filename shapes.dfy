/**
 * The four token shapes of the log handler (`isIP`, `isDuration`,
 * `isDateTime`, `isUrl`) and the datetime reader `getDateTime`.
 *
 * The regular expressions of the source are restated character by
 * character, alternative by alternative; the lemmas then say what each
 * shape means in numbers (digit counts and value ranges), and that the
 * datetime reader returns exactly the numbers an accepted token writes.
 */
module Shapes {
  import opened Wrappers
  import opened Text

  predicate IsDigit(c: char)
  {
    '0' <= c <= '9'
  }

  predicate AllDigits(s: string)
  {
    forall k :: 0 <= k < |s| ==> IsDigit(s[k])
  }

  /** Between `lo` and `hi` characters, all of them ASCII digits. */
  predicate DigitsOf(s: string, lo: nat, hi: nat)
  {
    lo <= |s| <= hi && AllDigits(s)
  }

  function DigitValue(c: char): nat
    requires IsDigit(c)
  {
    c as int - '0' as int
  }

  /** The value of a string of decimal digits. */
  function Number(s: string): nat
    requires AllDigits(s)
  {
    if |s| == 0 then 0 else 10 * Number(s[..|s| - 1]) + DigitValue(s[|s| - 1])
  }

  function Pow10(n: nat): nat
  {
    if n == 0 then 1 else 10 * Pow10(n - 1)
  }

  /** `n` digits write a value below 10^n. */
  lemma {:induction false} NumberBelow(s: string)
    requires AllDigits(s)
    ensures Number(s) < Pow10(|s|)
  {
    if |s| > 0 {
      NumberBelow(s[..|s| - 1]);
    }
  }

  lemma Number1(s: string)
    requires |s| == 1 && AllDigits(s)
    ensures Number(s) == DigitValue(s[0])
  {
    assert s[..0] == [];
  }

  lemma Number2(s: string)
    requires |s| == 2 && AllDigits(s)
    ensures Number(s) == 10 * DigitValue(s[0]) + DigitValue(s[1])
  {
    Number1(s[..1]);
  }

  lemma Number3(s: string)
    requires |s| == 3 && AllDigits(s)
    ensures Number(s) == 100 * DigitValue(s[0]) + 10 * DigitValue(s[1]) + DigitValue(s[2])
  {
    Number2(s[..2]);
  }

  lemma Number4(s: string)
    requires |s| == 4 && AllDigits(s)
    ensures Number(s) == 1000 * DigitValue(s[0]) + 100 * DigitValue(s[1]) + 10 * DigitValue(s[2]) + DigitValue(s[3])
  {
    Number3(s[..3]);
  }

  // ---------------------------------------------------------------- integers

  /**
   * `Integer.parseInt`: an optional sign, then at least one digit, and the
   * value must fit in 32 bits; None where Java throws
   * NumberFormatException.
   */
  function ParseInt(s: string): (r: Option<int>)
    ensures r.Some? ==> -0x8000_0000 <= r.value < 0x8000_0000
  {
    if |s| == 0 then None
    else
      var digits := if s[0] == '-' || s[0] == '+' then s[1..] else s;
      if |digits| == 0 || !AllDigits(digits) then None
      else
        var n: int := if s[0] == '-' then -(Number(digits) as int) else Number(digits);
        if -0x8000_0000 <= n < 0x8000_0000 then Some(n) else None
  }

  /** Up to nine plain digits always parse, to their value. */
  lemma ParseDigits(s: string)
    requires DigitsOf(s, 1, 9)
    ensures ParseInt(s) == Some(Number(s))
  {
    NumberBelow(s);
    var n := |s|;
    assert Pow10(n) <= Pow10(9) by {
      var k := n;
      while k < 9
        invariant n <= k <= 9
        invariant Pow10(n) <= Pow10(k)
      {
        k := k + 1;
      }
    }
  }

  // ---------------------------------------------------------------- IP

  /** One group of the IP pattern: `25[0-5]|2[0-4][0-9]|[01]?[0-9][0-9]?`. */
  predicate Octet(g: string)
  {
    (|g| == 3 && g[0] == '2' && g[1] == '5' && '0' <= g[2] <= '5')
    || (|g| == 3 && g[0] == '2' && '0' <= g[1] <= '4' && IsDigit(g[2]))
    // [01]?[0-9][0-9]? spelled out by length
    || (|g| == 1 && IsDigit(g[0]))
    || (|g| == 2 && IsDigit(g[0]) && IsDigit(g[1]))
    || (|g| == 3 && (g[0] == '0' || g[0] == '1') && IsDigit(g[1]) && IsDigit(g[2]))
  }

  /** A group is one to three digits whose value is at most 255. */
  lemma OctetRange(g: string)
    ensures Octet(g) <==> DigitsOf(g, 1, 3) && Number(g) <= 255
  {
    if DigitsOf(g, 1, 3) {
      if |g| == 1 { Number1(g); }
      else if |g| == 2 { Number2(g); }
      else { Number3(g); }
    }
  }

  /** `a.b.c.d` */
  function Dotted(a: string, b: string, c: string, d: string): string
  {
    a + "." + b + "." + c + "." + d
  }

  /**
   * `isIP`: `^((group)\.){3}(group)$`. Groups hold no dot, so the dots are
   * exactly the three separators.
   */
  predicate IsIP(v: string)
  {
    var gs := Split(v, '.');
    |gs| == 4 && Octet(gs[0]) && Octet(gs[1]) && Octet(gs[2]) && Octet(gs[3])
  }

  lemma JoinThree(a: string, b: string, c: string, sep: char)
    ensures Join([a, b, c], sep) == a + [sep] + b + [sep] + c
  {
    assert [a, b, c][1..] == [b, c];
    assert [b, c][1..] == [c];
    assert Join([b, c], sep) == b + [sep] + c;
    assert Join([a, b, c], sep) == a + [sep] + (b + [sep] + c);
  }

  lemma JoinFour(a: string, b: string, c: string, d: string, sep: char)
    ensures Join([a, b, c, d], sep) == a + [sep] + b + [sep] + c + [sep] + d
  {
    assert [a, b, c, d][1..] == [b, c, d];
    JoinThree(b, c, d, sep);
    assert Join([a, b, c, d], sep) == a + [sep] + (b + [sep] + c + [sep] + d);
  }

  /** Four dot-free groups joined by dots are an IP exactly when each is a group of the pattern. */
  lemma IpOfGroups(a: string, b: string, c: string, d: string)
    requires '.' !in a && '.' !in b && '.' !in c && '.' !in d
    ensures IsIP(Dotted(a, b, c, d)) <==> Octet(a) && Octet(b) && Octet(c) && Octet(d)
  {
    JoinFour(a, b, c, d, '.');
    SplitJoin([a, b, c, d], '.');
  }

  /** What a group of the IP pattern means: one to three digits, value at most 255. */
  predicate SmallNumber(g: string)
  {
    DigitsOf(g, 1, 3) && Number(g) <= 255
  }

  /** Every IP is four such groups joined by dots. */
  lemma {:induction false} IpGroups(v: string)
    requires IsIP(v)
    ensures var gs := Split(v, '.');
      v == Dotted(gs[0], gs[1], gs[2], gs[3]) &&
      SmallNumber(gs[0]) && SmallNumber(gs[1]) && SmallNumber(gs[2]) && SmallNumber(gs[3])
  {
    var gs := Split(v, '.');
    JoinSplit(v, '.');
    JoinFour(gs[0], gs[1], gs[2], gs[3], '.');
    assert gs == [gs[0], gs[1], gs[2], gs[3]];
    OctetRange(gs[0]); OctetRange(gs[1]); OctetRange(gs[2]); OctetRange(gs[3]);
  }

  /**
   * `isIP(v)` holds exactly when `v` is four groups of one to three digits,
   * each of value at most 255, joined by dots, with nothing else.
   */
  lemma IpExactly(v: string)
    ensures IsIP(v) <==>
      exists a, b, c, d :: v == Dotted(a, b, c, d) &&
        SmallNumber(a) && SmallNumber(b) && SmallNumber(c) && SmallNumber(d)
  {
    if IsIP(v) {
      IpGroups(v);
      var gs := Split(v, '.');
      assert v == Dotted(gs[0], gs[1], gs[2], gs[3]);
    }
    if exists a, b, c, d :: v == Dotted(a, b, c, d) &&
        SmallNumber(a) && SmallNumber(b) && SmallNumber(c) && SmallNumber(d)
    {
      var a, b, c, d :| v == Dotted(a, b, c, d) &&
        SmallNumber(a) && SmallNumber(b) && SmallNumber(c) && SmallNumber(d);
      OctetRange(a); OctetRange(b); OctetRange(c); OctetRange(d);
      NoDot(a); NoDot(b); NoDot(c); NoDot(d);
      IpOfGroups(a, b, c, d);
    }
  }

  lemma NoDot(g: string)
    requires AllDigits(g)
    ensures '.' !in g
  {
  }

  // ---------------------------------------------------------------- duration

  /** Digits with at most one decimal point, and at least one digit. */
  predicate DecimalText(b: string)
  {
    (forall k :: 0 <= k < |b| ==> IsDigit(b[k]) || b[k] == '.') &&
    Count(b, '.') <= 1 && Count(b, '.') < |b|
  }

  /**
   * `isDuration`: the token is a number, with an optional sign, as
   * `Integer.parseInt` or `Float.parseFloat` reads it (plain decimal
   * literals only).
   */
  predicate IsDuration(v: string)
  {
    |v| > 0 && DecimalText(if v[0] == '+' || v[0] == '-' then v[1..] else v)
  }

  /** Whatever `Integer.parseInt` reads, `isDuration` accepts before it tries `Float.parseFloat`. */
  lemma IntegersAreDurations(v: string)
    ensures ParseInt(v).Some? ==> IsDuration(v)
  {
    if ParseInt(v).Some? {
      var digits := if v[0] == '-' || v[0] == '+' then v[1..] else v;
      assert '.' !in digits by {
        DigitsNoSeparator(digits);
      }
    }
  }

  // ---------------------------------------------------------------- datetime

  /** `200\d|201[0-7]` */
  predicate YearText(y: string)
  {
    |y| == 4 && y[0] == '2' && y[1] == '0' &&
    ((y[2] == '0' && IsDigit(y[3])) || (y[2] == '1' && '0' <= y[3] <= '7'))
  }

  /** `0?[1-9]|1[012]` */
  predicate MonthText(m: string)
  {
    (|m| == 1 && '1' <= m[0] <= '9')
    || (|m| == 2 && m[0] == '0' && '1' <= m[1] <= '9')
    || (|m| == 2 && m[0] == '1' && '0' <= m[1] <= '2')
  }

  /** `0?[1-9]|[12]\d|3[01]` */
  predicate DayText(d: string)
  {
    (|d| == 1 && '1' <= d[0] <= '9')
    || (|d| == 2 && d[0] == '0' && '1' <= d[1] <= '9')
    || (|d| == 2 && (d[0] == '1' || d[0] == '2') && IsDigit(d[1]))
    || (|d| == 2 && d[0] == '3' && (d[1] == '0' || d[1] == '1'))
  }

  /** `[01]?\d|2[0-3]` */
  predicate HourText(h: string)
  {
    (|h| == 1 && IsDigit(h[0]))
    || (|h| == 2 && (h[0] == '0' || h[0] == '1') && IsDigit(h[1]))
    || (|h| == 2 && h[0] == '2' && '0' <= h[1] <= '3')
  }

  /** `[0-5]?\d`, for minutes and seconds */
  predicate SixtyText(x: string)
  {
    (|x| == 1 && IsDigit(x[0]))
    || (|x| == 2 && '0' <= x[0] <= '5' && IsDigit(x[1]))
  }

  lemma YearRange(y: string)
    ensures YearText(y) <==> DigitsOf(y, 4, 4) && 2000 <= Number(y) <= 2017
  {
    if DigitsOf(y, 4, 4) { Number4(y); }
  }

  lemma MonthRange(m: string)
    ensures MonthText(m) <==> DigitsOf(m, 1, 2) && 1 <= Number(m) <= 12
  {
    if DigitsOf(m, 1, 2) {
      if |m| == 1 { Number1(m); } else { Number2(m); }
    }
  }

  lemma DayRange(d: string)
    ensures DayText(d) <==> DigitsOf(d, 1, 2) && 1 <= Number(d) <= 31
  {
    if DigitsOf(d, 1, 2) {
      if |d| == 1 { Number1(d); } else { Number2(d); }
    }
  }

  lemma HourRange(h: string)
    ensures HourText(h) <==> DigitsOf(h, 1, 2) && Number(h) <= 23
  {
    if DigitsOf(h, 1, 2) {
      if |h| == 1 { Number1(h); } else { Number2(h); }
    }
  }

  lemma SixtyRange(x: string)
    ensures SixtyText(x) <==> DigitsOf(x, 1, 2) && Number(x) <= 59
  {
    if DigitsOf(x, 1, 2) {
      if |x| == 1 { Number1(x); } else { Number2(x); }
    }
  }

  /**
   * `isDateTime`: `^Y-M-DTh:m:s$` with the component patterns above. The
   * components are digits only, so the first `T` is the date/time
   * separator and the `-` and `:` are exactly the separators around them.
   */
  predicate IsDateTime(v: string)
  {
    var t := IndexOf(v, 'T');
    t != -1 &&
    var ds := Split(v[..t], '-');
    var ts := Split(v[t + 1..], ':');
    |ds| == 3 && |ts| == 3 &&
    YearText(ds[0]) && MonthText(ds[1]) && DayText(ds[2]) &&
    HourText(ts[0]) && SixtyText(ts[1]) && SixtyText(ts[2])
  }

  /** The six numbers a datetime is made of (what `new Date(...)` receives). */
  datatype Timestamp = Timestamp(year: int, month: int, day: int, hour: int, minute: int, second: int)

  /**
   * `getDateTime`: split at the first `T`, split the date on `-` and the
   * time on `:` (trimming each piece), cut the seconds at a `.`, and parse
   * six integers. None where Java throws: no `T`, fewer than three pieces,
   * or a piece `Integer.parseInt` rejects.
   */
  function GetDateTime(s: string): Option<Timestamp>
  {
    var t := IndexOf(s, 'T');
    if t == -1 then None
    else
      var dv := Values(s[..t], '-');
      var tv := Values(s[t + 1..], ':');
      if |dv| < 3 || |tv| < 3 then None
      else
        match (ParseInt(dv[0]), ParseInt(dv[1]), ParseInt(dv[2]), ParseInt(tv[0]), ParseInt(tv[1]), ParseInt(Seconds(tv[2])))
        case (Some(y), Some(mo), Some(d), Some(h), Some(mi), Some(se)) => Some(Timestamp(y, mo, d, h, mi, se))
        case _ => None
  }

  /** The seconds text as `getDateTime` parses it: cut at its first `.`, if any. */
  function Seconds(x: string): (r: string)
    ensures '.' !in r && r <= x
    ensures '.' in x ==> x[|r|] == '.'
    ensures '.' !in x ==> r == x
  {
    var dot := IndexOf(x, '.');
    if dot == -1 then x else x[..dot]
  }

  /** `a<sep>b<sep>c` */
  function Triple(a: string, b: string, c: string, sep: char): string
  {
    a + [sep] + b + [sep] + c
  }

  /** `Y-M-DTh:m:s` */
  function Written(y: string, mo: string, d: string, h: string, mi: string, s: string): string
  {
    Triple(y, mo, d, '-') + "T" + Triple(h, mi, s, ':')
  }

  /** The digit counts and ranges of an accepted datetime, stated in numbers. */
  predicate WellWritten(y: string, mo: string, d: string, h: string, mi: string, s: string)
  {
    DigitsOf(y, 4, 4) && 2000 <= Number(y) <= 2017 &&
    DigitsOf(mo, 1, 2) && 1 <= Number(mo) <= 12 &&
    DigitsOf(d, 1, 2) && 1 <= Number(d) <= 31 &&
    DigitsOf(h, 1, 2) && Number(h) <= 23 &&
    DigitsOf(mi, 1, 2) && Number(mi) <= 59 &&
    DigitsOf(s, 1, 2) && Number(s) <= 59
  }

  /** Digits are not blank, so trimming keeps them. */
  lemma DigitsTrimmed(s: string)
    requires DigitsOf(s, 1, 9)
    ensures Trim(s) == s
  {
    TrimMargins("", s, "");
    assert "" + s + "" == s;
  }

  /** Digits hold none of the separators of the datetime pattern. */
  lemma DigitsNoSeparator(s: string)
    requires AllDigits(s)
    ensures '.' !in s && 'T' !in s && '-' !in s && ':' !in s
  {
    assert forall c :: c in s ==> IsDigit(c);
  }

  /** Three separator-free pieces joined by `sep` split back into those pieces. */
  lemma SplitThree(a: string, b: string, c: string, sep: char)
    requires sep !in a && sep !in b && sep !in c
    ensures Split(a + [sep] + b + [sep] + c, sep) == [a, b, c]
  {
    JoinThree(a, b, c, sep);
    SplitJoin([a, b, c], sep);
  }

  /** The first `T` of `date + "T" + time` is the one after a `T`-free date. */
  lemma SplitAtT(date: string, time: string)
    requires 'T' !in date
    ensures var v := date + "T" + time;
      var t := IndexOf(v, 'T');
      t == |date| && v[..t] == date && v[t + 1..] == time
  {
    IndexOfAfter(date, 'T', time);
    var v := date + "T" + time;
    assert v[..|date|] == date;
    assert v[|date| + 1..] == time;
  }

  /** Where `Written` puts its separators. */
  lemma {:induction false} WrittenSplits(y: string, mo: string, d: string, h: string, mi: string, s: string)
    requires DigitsOf(y, 1, 4) && DigitsOf(mo, 1, 4) && DigitsOf(d, 1, 4)
    requires DigitsOf(h, 1, 4) && DigitsOf(mi, 1, 4) && DigitsOf(s, 1, 4)
    ensures var v := Written(y, mo, d, h, mi, s);
      var t := IndexOf(v, 'T');
      t != -1 && Split(v[..t], '-') == [y, mo, d] && Split(v[t + 1..], ':') == [h, mi, s]
  {
    DigitsNoSeparator(y); DigitsNoSeparator(mo); DigitsNoSeparator(d);
    DigitsNoSeparator(h); DigitsNoSeparator(mi); DigitsNoSeparator(s);
    var date := Triple(y, mo, d, '-');
    var time := Triple(h, mi, s, ':');
    SplitAtT(date, time);
    SplitThree(y, mo, d, '-');
    SplitThree(h, mi, s, ':');
  }

  /** A token written with components of the right digit counts and ranges is accepted by `isDateTime`. */
  lemma WellWrittenAccepted(y: string, mo: string, d: string, h: string, mi: string, s: string)
    requires WellWritten(y, mo, d, h, mi, s)
    ensures IsDateTime(Written(y, mo, d, h, mi, s))
  {
    WrittenSplits(y, mo, d, h, mi, s);
    YearRange(y); MonthRange(mo); DayRange(d);
    HourRange(h); SixtyRange(mi); SixtyRange(s);
  }

  /**
   * `getDateTime` once its pieces are known: with three or more date and
   * time values, of which `Integer.parseInt` reads the first three of each
   * (the seconds cut at their first `.`), it returns those numbers.
   */
  lemma GetDateTimeOfPieces(v: string, ds: seq<string>, ts: seq<string>)
    requires 'T' in v
    requires Values(v[..IndexOf(v, 'T')], '-') == ds && Values(v[IndexOf(v, 'T') + 1..], ':') == ts
    requires |ds| >= 3 && |ts| >= 3
    requires ParseInt(ds[0]).Some? && ParseInt(ds[1]).Some? && ParseInt(ds[2]).Some?
    requires ParseInt(ts[0]).Some? && ParseInt(ts[1]).Some? && ParseInt(Seconds(ts[2])).Some?
    ensures GetDateTime(v) == Some(Timestamp(
      ParseInt(ds[0]).value, ParseInt(ds[1]).value, ParseInt(ds[2]).value,
      ParseInt(ts[0]).value, ParseInt(ts[1]).value, ParseInt(Seconds(ts[2])).value))
  {
  }

  /** Three pieces that trimming leaves alone come through `TrimAll` unchanged. */
  lemma TrimmedThree(a: string, b: string, c: string)
    requires Trim(a) == a && Trim(b) == b && Trim(c) == c
    ensures TrimAll([a, b, c]) == [a, b, c]
  {
    TrimAllKeeps([a, b, c]);
  }

  /** Three pieces that trimming leaves alone are the values of the split. */
  lemma ValuesOfTrimmed(s: string, sep: char, a: string, b: string, c: string)
    requires Split(s, sep) == [a, b, c]
    requires Trim(a) == a && Trim(b) == b && Trim(c) == c
    ensures Values(s, sep) == [a, b, c]
  {
    assert Values(s, sep) == TrimAll([a, b, c]);
    TrimmedThree(a, b, c);
  }

  /** Three digit pieces of a split are its values. */
  lemma ValuesOfDigits(s: string, sep: char, a: string, b: string, c: string)
    requires Split(s, sep) == [a, b, c]
    requires DigitsOf(a, 1, 4) && DigitsOf(b, 1, 4) && DigitsOf(c, 1, 4)
    ensures Values(s, sep) == [a, b, c]
  {
    assert Trim(a) == a && Trim(b) == b && Trim(c) == c by {
      DigitsTrimmed(a); DigitsTrimmed(b); DigitsTrimmed(c);
    }
    ValuesOfTrimmed(s, sep, a, b, c);
  }

  /** `getDateTime` of a token whose date and time values are short digit strings. */
  lemma GetDateTimeOfDigits(v: string, y: string, mo: string, d: string, h: string, mi: string, s: string)
    requires DigitsOf(y, 1, 4) && DigitsOf(mo, 1, 4) && DigitsOf(d, 1, 4)
    requires DigitsOf(h, 1, 4) && DigitsOf(mi, 1, 4) && DigitsOf(s, 1, 4)
    requires IndexOf(v, 'T') != -1
    requires Values(v[..IndexOf(v, 'T')], '-') == [y, mo, d]
    requires Values(v[IndexOf(v, 'T') + 1..], ':') == [h, mi, s]
    ensures GetDateTime(v) ==
      Some(Timestamp(Number(y), Number(mo), Number(d), Number(h), Number(mi), Number(s)))
  {
    DigitsNoSeparator(s);
    assert Seconds(s) == s;
    ParseDigits(y); ParseDigits(mo); ParseDigits(d);
    ParseDigits(h); ParseDigits(mi); ParseDigits(s);
    GetDateTimeOfPieces(v, [y, mo, d], [h, mi, s]);
  }

  /** `getDateTime` of a token whose date and time split into short digit strings. */
  lemma GetDateTimeOfSplits(v: string, y: string, mo: string, d: string, h: string, mi: string, s: string)
    requires DigitsOf(y, 1, 4) && DigitsOf(mo, 1, 4) && DigitsOf(d, 1, 4)
    requires DigitsOf(h, 1, 4) && DigitsOf(mi, 1, 4) && DigitsOf(s, 1, 4)
    requires IndexOf(v, 'T') != -1
    requires Split(v[..IndexOf(v, 'T')], '-') == [y, mo, d]
    requires Split(v[IndexOf(v, 'T') + 1..], ':') == [h, mi, s]
    ensures GetDateTime(v) ==
      Some(Timestamp(Number(y), Number(mo), Number(d), Number(h), Number(mi), Number(s)))
  {
    var t := IndexOf(v, 'T');
    ValuesOfDigits(v[..t], '-', y, mo, d);
    ValuesOfDigits(v[t + 1..], ':', h, mi, s);
    GetDateTimeOfDigits(v, y, mo, d, h, mi, s);
  }

  /** `getDateTime` reads the numbers of a datetime written with short digit components. */
  lemma WellWrittenRead(y: string, mo: string, d: string, h: string, mi: string, s: string)
    requires DigitsOf(y, 1, 4) && DigitsOf(mo, 1, 4) && DigitsOf(d, 1, 4)
    requires DigitsOf(h, 1, 4) && DigitsOf(mi, 1, 4) && DigitsOf(s, 1, 4)
    ensures GetDateTime(Written(y, mo, d, h, mi, s)) ==
      Some(Timestamp(Number(y), Number(mo), Number(d), Number(h), Number(mi), Number(s)))
  {
    WrittenSplits(y, mo, d, h, mi, s);
    GetDateTimeOfSplits(Written(y, mo, d, h, mi, s), y, mo, d, h, mi, s);
  }

  /** Digits, a `.` and anything after it: trimming keeps the digits and the `.`, and the seconds are the digits. */
  lemma TrimDotted(s: string, g: string)
    requires DigitsOf(s, 1, 9)
    ensures Seconds(Trim(s + "." + g)) == s
  {
    var x := s + "." + g;
    var r := Trim(x);
    var i, j :| 0 <= i <= j <= |x| && r == x[i..j]
      && (forall k :: 0 <= k < i ==> IsBlank(x[k]))
      && (forall k :: j <= k < |x| ==> IsBlank(x[k]));
    assert !IsBlank(x[0]) by { assert x[0] == s[0]; }
    assert !IsBlank(x[|s|]) by { assert x[|s|] == '.'; }
    assert r[..|s|] == s && r[|s|] == '.';
    DigitsNoSeparator(s);
    IndexOfIs(r, '.', |s|);
  }

  /** A value of digits before the separator is read as itself, ahead of the values after it. */
  lemma ValuesAfterDigits(x: string, sep: char, w: string)
    requires DigitsOf(x, 1, 9) && !IsDigit(sep)
    ensures Values(x + [sep] + w, sep) == [x] + Values(w, sep)
  {
    assert forall c :: c in x ==> IsDigit(c);
    var v := x + [sep] + w;
    IndexOfAfter(x, sep, w);
    assert v[..|x|] == x && v[|x| + 1..] == w;
    ValuesStep(v, sep);
    DigitsTrimmed(x);
  }

  /** Up to the first `:`, the text `s.f` is `s.g` for `g` the part of `f` before its first `:`. */
  lemma FractionBeforeColon(s: string, f: string)
    requires DigitsOf(s, 1, 4)
    ensures var u := s + "." + f;
      (if ':' in u then u[..IndexOf(u, ':')] else u) ==
      s + "." + (if ':' in f then f[..IndexOf(f, ':')] else f)
  {
    DigitsNoSeparator(s);
    var p := s + ".";
    assert ':' !in p;
    IndexOfPast(p, f, ':');
    if ':' in f {
      var k := IndexOf(f, ':');
      assert (p + f)[..|p| + k] == p + f[..k];
    }
  }

  /** The first `:`-value of `s.f` has the seconds `s`. */
  lemma SecondsOfFraction(s: string, f: string)
    requires DigitsOf(s, 1, 4)
    ensures Seconds(Values(s + "." + f, ':')[0]) == s
  {
    ValuesHead(s + "." + f, ':');
    FractionBeforeColon(s, f);
    TrimDotted(s, if ':' in f then f[..IndexOf(f, ':')] else f);
  }

  /** Two values of digits ahead of the rest: they are the first two values, and the rest's values follow. */
  lemma TwoValuesAfterDigits(a: string, b: string, u: string)
    requires DigitsOf(a, 1, 4) && DigitsOf(b, 1, 4)
    ensures var tv := Values(a + [':'] + (b + [':'] + u), ':');
      |tv| >= 3 && tv[0] == a && tv[1] == b && tv[2] == Values(u, ':')[0]
  {
    ValuesAfterDigits(a, ':', b + [':'] + u);
    ValuesAfterDigits(b, ':', u);
  }

  /** The time values of `h:mi:s.f`: the hour, the minute, and a third value whose seconds are `s`. */
  lemma TimeWithFraction(h: string, mi: string, s: string, f: string)
    requires DigitsOf(h, 1, 4) && DigitsOf(mi, 1, 4) && DigitsOf(s, 1, 4)
    ensures var tv := Values(Triple(h, mi, s, ':') + "." + f, ':');
      |tv| >= 3 && tv[0] == h && tv[1] == mi && Seconds(tv[2]) == s
  {
    var u := s + "." + f;
    assert Triple(h, mi, s, ':') + "." + f == h + [':'] + (mi + [':'] + u);
    TwoValuesAfterDigits(h, mi, u);
    SecondsOfFraction(s, f);
  }

  /**
   * `getDateTime` drops any `.`-suffix of the seconds: a datetime with
   * short digit components followed by `.` and any text reads as the
   * datetime alone.
   */
  lemma DateTimeDropsFraction(y: string, mo: string, d: string, h: string, mi: string, s: string, f: string)
    requires DigitsOf(y, 1, 4) && DigitsOf(mo, 1, 4) && DigitsOf(d, 1, 4)
    requires DigitsOf(h, 1, 4) && DigitsOf(mi, 1, 4) && DigitsOf(s, 1, 4)
    ensures GetDateTime(Written(y, mo, d, h, mi, s) + "." + f) == GetDateTime(Written(y, mo, d, h, mi, s))
    ensures GetDateTime(Written(y, mo, d, h, mi, s) + "." + f) ==
      Some(Timestamp(Number(y), Number(mo), Number(d), Number(h), Number(mi), Number(s)))
  {
    DigitsNoSeparator(y); DigitsNoSeparator(mo); DigitsNoSeparator(d);
    var date := Triple(y, mo, d, '-');
    var time := Triple(h, mi, s, ':');
    var v := Written(y, mo, d, h, mi, s) + "." + f;
    assert v == date + "T" + (time + "." + f);
    SplitAtT(date, time + "." + f);
    SplitThree(y, mo, d, '-');
    ValuesOfDigits(date, '-', y, mo, d);
    TimeWithFraction(h, mi, s, f);
    ParseDigits(y); ParseDigits(mo); ParseDigits(d);
    ParseDigits(h); ParseDigits(mi); ParseDigits(s);
    GetDateTimeOfPieces(v, [y, mo, d], Values(time + "." + f, ':'));
    WellWrittenRead(y, mo, d, h, mi, s);
  }

  /**
   * A token written with components of the right digit counts and ranges is
   * accepted by `isDateTime`, and `getDateTime` returns exactly the numbers
   * written.
   */
  lemma DateTimeReadsBack(y: string, mo: string, d: string, h: string, mi: string, s: string)
    requires WellWritten(y, mo, d, h, mi, s)
    ensures IsDateTime(Written(y, mo, d, h, mi, s))
    ensures GetDateTime(Written(y, mo, d, h, mi, s)) ==
      Some(Timestamp(Number(y), Number(mo), Number(d), Number(h), Number(mi), Number(s)))
  {
    WellWrittenAccepted(y, mo, d, h, mi, s);
    WellWrittenRead(y, mo, d, h, mi, s);
  }

  /** A string that splits into three pieces is those pieces joined by the separator. */
  lemma {:induction false} SplitInThree(s: string, sep: char)
    requires |Split(s, sep)| == 3
    ensures var ps := Split(s, sep); s == ps[0] + [sep] + ps[1] + [sep] + ps[2]
  {
    var ps := Split(s, sep);
    JoinSplit(s, sep);
    assert ps == [ps[0], ps[1], ps[2]];
    JoinThree(ps[0], ps[1], ps[2], sep);
  }

  /** A datetime's date and time parts, each split in three, written back. */
  lemma WrittenOfParts(date: string, time: string)
    requires |Split(date, '-')| == 3 && |Split(time, ':')| == 3
    ensures var ds := Split(date, '-'); var ts := Split(time, ':');
      date + "T" + time == Written(ds[0], ds[1], ds[2], ts[0], ts[1], ts[2])
  {
    SplitInThree(date, '-');
    SplitInThree(time, ':');
  }

  lemma AroundT(v: string, t: int)
    requires 0 <= t < |v| && v[t] == 'T'
    ensures v == v[..t] + "T" + v[t + 1..]
  {
  }

  /** An accepted datetime is its own components written back with their separators. */
  lemma DateTimeShape(v: string)
    requires 'T' in v
    requires var t := IndexOf(v, 'T'); |Split(v[..t], '-')| == 3 && |Split(v[t + 1..], ':')| == 3
    ensures var t := IndexOf(v, 'T');
      var ds := Split(v[..t], '-');
      var ts := Split(v[t + 1..], ':');
      v == Written(ds[0], ds[1], ds[2], ts[0], ts[1], ts[2])
  {
    var t := IndexOf(v, 'T');
    AroundT(v, t);
    WrittenOfParts(v[..t], v[t + 1..]);
  }

  /** Components the pattern accepts have its digit counts and ranges. */
  lemma PiecesWellWritten(ds: seq<string>, ts: seq<string>)
    requires |ds| == 3 && |ts| == 3
    requires YearText(ds[0]) && MonthText(ds[1]) && DayText(ds[2])
    requires HourText(ts[0]) && SixtyText(ts[1]) && SixtyText(ts[2])
    ensures WellWritten(ds[0], ds[1], ds[2], ts[0], ts[1], ts[2])
  {
    YearRange(ds[0]); MonthRange(ds[1]); DayRange(ds[2]);
    HourRange(ts[0]); SixtyRange(ts[1]); SixtyRange(ts[2]);
  }

  /**
   * Every token `isDateTime` accepts is some well-written
   * `Y-M-DTh:m:s`, and `getDateTime` reads exactly those numbers back.
   */
  lemma DateTimeIsWritten(v: string)
    requires IsDateTime(v)
    ensures exists y, mo, d, h, mi, s ::
      WellWritten(y, mo, d, h, mi, s) && v == Written(y, mo, d, h, mi, s) &&
      GetDateTime(v) == Some(Timestamp(Number(y), Number(mo), Number(d), Number(h), Number(mi), Number(s)))
  {
    var t := IndexOf(v, 'T');
    WrittenPieces(v, Split(v[..t], '-'), Split(v[t + 1..], ':'));
  }

  /** `DateTimeIsWritten` once the pieces around `T` are known. */
  lemma WrittenPieces(v: string, ds: seq<string>, ts: seq<string>)
    requires 'T' in v && ds == Split(v[..IndexOf(v, 'T')], '-') && ts == Split(v[IndexOf(v, 'T') + 1..], ':')
    requires |ds| == 3 && |ts| == 3
    requires YearText(ds[0]) && MonthText(ds[1]) && DayText(ds[2])
    requires HourText(ts[0]) && SixtyText(ts[1]) && SixtyText(ts[2])
    ensures exists y, mo, d, h, mi, s ::
      WellWritten(y, mo, d, h, mi, s) && v == Written(y, mo, d, h, mi, s) &&
      GetDateTime(v) == Some(Timestamp(Number(y), Number(mo), Number(d), Number(h), Number(mi), Number(s)))
  {
    DateTimeShape(v);
    PiecesWellWritten(ds, ts);
    WellWrittenRead(ds[0], ds[1], ds[2], ts[0], ts[1], ts[2]);
  }

  /** An accepted datetime always reads back, within the ranges of the pattern. */
  lemma DateTimeParses(v: string)
    requires IsDateTime(v)
    ensures GetDateTime(v).Some?
    ensures var t := GetDateTime(v).value;
      2000 <= t.year <= 2017 && 1 <= t.month <= 12 && 1 <= t.day <= 31 &&
      0 <= t.hour <= 23 && 0 <= t.minute <= 59 && 0 <= t.second <= 59
  {
    DateTimeIsWritten(v);
  }

  /** A text that starts with a group of the IP pattern begins with a digit. */
  lemma OctetFirst(g: string, v: string)
    requires Octet(g) && g <= v
    ensures |v| > 0 && IsDigit(v[0])
  {
    assert v[0] == g[0];
  }

  /** An IP begins with a digit, the first of its first group. */
  lemma IpFirst(v: string)
    requires IsIP(v)
    ensures |v| > 0 && IsDigit(v[0])
  {
    SplitFirst(v, '.');
    OctetFirst(Split(v, '.')[0], v);
  }

  /** A datetime begins with a digit, the first of its year. */
  lemma DateTimeFirst(v: string)
    requires IsDateTime(v)
    ensures |v| > 0 && IsDigit(v[0])
  {
    var t := IndexOf(v, 'T');
    SplitFirst(v[..t], '-');
    var y := Split(v[..t], '-')[0];
    assert YearText(y) && y <= v;
    assert v[0] == y[0];
  }

  /**
   * How the first three shapes begin: an IP and a datetime with a digit, a
   * duration with a sign, a digit or a `.`.
   */
  lemma FirstCharacters(v: string)
    ensures IsIP(v) ==> |v| > 0 && IsDigit(v[0])
    ensures IsDuration(v) ==> v[0] == '+' || v[0] == '-' || v[0] == '.' || IsDigit(v[0])
    ensures IsDateTime(v) ==> |v| > 0 && IsDigit(v[0])
  {
    if IsIP(v) { IpFirst(v); }
    if IsDateTime(v) { DateTimeFirst(v); }
  }

  // ---------------------------------------------------------------- URL

  /** Java's `\s`: space, tab, line feed, vertical tab, form feed, carriage return. */
  predicate IsSpace(c: char)
  {
    c == ' ' || c == '\t' || c == '\n' || c == '\U{000B}' || c == '\U{000C}' || c == '\r'
  }

  /** The characters a regex `.` does not match: Java's line terminators. */
  predicate IsLineTerminator(c: char)
  {
    c == '\n' || c == '\r' || c == '\U{0085}' || c == '\U{2028}' || c == '\U{2029}'
  }

  predicate NoSpace(s: string)
  {
    forall k :: 0 <= k < |s| ==> !IsSpace(s[k])
  }

  /**
   * The body of the URL pattern, `((\S+/)+\S)(\S*)|(\S*\.\S*)`: no
   * whitespace, and either a `.` anywhere or a `/` that is neither the
   * first nor the last character.
   */
  predicate UrlBody(w: string)
  {
    NoSpace(w) && ('.' in w || (|w| >= 2 && '/' in w[1..|w| - 1]))
  }

  /**
   * `isUrl` as written: `^(http://|https://|www.)?body$`, where the
   * unescaped `.` after `www` matches any character but a line terminator.
   */
  predicate UrlAsWritten(v: string)
  {
    UrlBody(v)
    || (|v| >= 7 && v[..7] == "http://" && UrlBody(v[7..]))
    || (|v| >= 8 && v[..8] == "https://" && UrlBody(v[8..]))
    || (|v| >= 4 && v[..3] == "www" && !IsLineTerminator(v[3]) && UrlBody(v[4..]))
  }

  /** `isUrl` with the prefix `www\.` the pattern evidently means. */
  predicate IsUrl(v: string)
  {
    UrlBody(v)
    || (|v| >= 7 && v[..7] == "http://" && UrlBody(v[7..]))
    || (|v| >= 8 && v[..8] == "https://" && UrlBody(v[8..]))
    || (|v| >= 4 && v[..4] == "www." && UrlBody(v[4..]))
  }

  /** Whitespace-free text in front of a URL body leaves a URL body. */
  lemma UrlBodyAfter(p: string, w: string)
    requires NoSpace(p) && UrlBody(w)
    ensures UrlBody(p + w)
  {
    var v := p + w;
    assert v[|p|..] == w;
    if '.' in w {
      var k :| 0 <= k < |w| && w[k] == '.';
      assert v[|p| + k] == '.';
    } else {
      var k :| 1 <= k < |w| - 1 && w[k] == '/';
      assert v[1..|v| - 1][|p| + k - 1] == '/';
    }
  }

  /**
   * The optional prefix never widens the corrected pattern: a token is a
   * URL exactly when it has no whitespace and holds a `.` or an inner `/`.
   */
  lemma UrlPrefixNeverWidens(v: string)
    ensures IsUrl(v) <==> UrlBody(v)
  {
    if |v| >= 7 && v[..7] == "http://" && UrlBody(v[7..]) {
      UrlBodyAfter(v[..7], v[7..]);
      assert v == v[..7] + v[7..];
    } else if |v| >= 8 && v[..8] == "https://" && UrlBody(v[8..]) {
      UrlBodyAfter(v[..8], v[8..]);
      assert v == v[..8] + v[8..];
    } else if |v| >= 4 && v[..4] == "www." && UrlBody(v[4..]) {
      UrlBodyAfter(v[..4], v[4..]);
      assert v == v[..4] + v[4..];
    }
  }

  /** `www` and a non-whitespace character in front of a URL body leave a URL body. */
  lemma WwwBody(v: string)
    requires |v| >= 4 && v[..3] == "www" && !IsSpace(v[3]) && UrlBody(v[4..])
    ensures UrlBody(v)
  {
    assert NoSpace(v[..4]) by {
      assert forall k :: 0 <= k < 3 ==> v[..4][k] == "www"[k];
    }
    UrlBodyAfter(v[..4], v[4..]);
    assert v == v[..4] + v[4..];
  }

  /**
   * The pattern as written accepts everything the corrected one does, and
   * more only where a whitespace character stands after `www`.
   */
  lemma UrlAsWrittenDiffers(v: string)
    ensures IsUrl(v) ==> UrlAsWritten(v)
    ensures UrlAsWritten(v) && !IsUrl(v) ==> |v| >= 4 && v[..3] == "www" && IsSpace(v[3])
  {
    UrlPrefixNeverWidens(v);
    if |v| >= 4 && v[..3] == "www" && !IsSpace(v[3]) && UrlBody(v[4..]) {
      WwwBody(v);
    }
  }

  /** The token that shows the difference: a space where the dot of `www.` belongs. */
  lemma UrlWwwSpace()
    ensures UrlAsWritten("www x.com") && !IsUrl("www x.com")
  {
    var v := "www x.com";
    assert v[..3] == "www" && v[3] == ' ';
    assert v[4..] == "x.com" && "x.com"[1] == '.';
    assert IsSpace(v[3]);
  }
}
