/**
 * How `matchPattern` classifies the tokens of a log line and writes them
 * into the pseudo-JSON buffer `jsonLog`, stated as functions: the four
 * categories and their priority, the "already filled" test, the text each
 * accepted token adds, and the whole scan of a line (`Scan`, `Validate`).
 * The class in module Handler runs the same steps in place and is proved
 * to end in the state these functions describe.
 */
module Classify {
  import opened Wrappers
  import opened Text
  import opened Shapes

  // ---------------------------------------------------------------- categories

  datatype Category = Ip | Duration | DateTime | Url

  /** The key a category is written under. */
  function Key(c: Category): string
  {
    match c
    case Ip => "ip"
    case Duration => "duration"
    case DateTime => "datetime"
    case Url => "url"
  }

  /** The order in which `matchPattern` tries the categories. */
  const Priority: seq<Category> := [Ip, Duration, DateTime, Url]

  /** Position of a category in `Priority`. */
  function Rank(c: Category): (n: nat)
    ensures n < |Priority| && Priority[n] == c
  {
    match c
    case Ip => 0
    case Duration => 1
    case DateTime => 2
    case Url => 3
  }

  /** The shape test of a category. */
  predicate Fits(c: Category, tok: string)
  {
    match c
    case Ip => IsIP(tok)
    case Duration => IsDuration(tok)
    case DateTime => IsDateTime(tok)
    case Url => IsUrl(tok)
  }

  /** A category is still open while its key occurs nowhere in the buffer text. */
  predicate Open(buf: string, c: Category)
  {
    !Contains(buf, Key(c))
  }

  /** The first category from position `i` of `Priority` on that is open and that `tok` fits. */
  function ChooseFrom(buf: string, tok: string, i: nat): Option<Category>
    decreases |Priority| - i
  {
    if i >= |Priority| then None
    else if Open(buf, Priority[i]) && Fits(Priority[i], tok) then Some(Priority[i])
    else ChooseFrom(buf, tok, i + 1)
  }

  /** The category `matchPattern` takes for `tok`, given the buffer so far. */
  function Choose(buf: string, tok: string): Option<Category>
  {
    ChooseFrom(buf, tok, 0)
  }

  /** `ChooseFrom` picks the open fitting category of least rank from `i` on. */
  lemma {:induction false} ChooseFromPriority(buf: string, tok: string, i: nat)
    requires i <= |Priority|
    ensures ChooseFrom(buf, tok, i).Some? ==>
      var c := ChooseFrom(buf, tok, i).value;
      i <= Rank(c) && Open(buf, c) && Fits(c, tok) &&
      forall d :: i <= Rank(d) < Rank(c) ==> !(Open(buf, d) && Fits(d, tok))
    ensures ChooseFrom(buf, tok, i).None? <==> forall d :: i <= Rank(d) ==> !(Open(buf, d) && Fits(d, tok))
    decreases |Priority| - i
  {
    if i < |Priority| {
      ChooseFromPriority(buf, tok, i + 1);
      var e := Priority[i];
      assert Rank(e) == i by {
        assert Priority[Rank(e)] == e;
      }
      forall d | Rank(d) == i
        ensures d == e
      {
      }
    }
  }

  /**
   * The choice is the open fitting category of least rank, and there is
   * none exactly when no open category fits (the "incorrect value" case).
   */
  lemma ChoosePriority(buf: string, tok: string)
    ensures Choose(buf, tok).Some? ==>
      var c := Choose(buf, tok).value;
      Open(buf, c) && Fits(c, tok) &&
      forall d :: Rank(d) < Rank(c) ==> !(Open(buf, d) && Fits(d, tok))
    ensures Choose(buf, tok).None? <==> forall d :: !(Open(buf, d) && Fits(d, tok))
  {
    ChooseFromPriority(buf, tok, 0);
  }

  /** The chain of tests `matchPattern` writes out, in its order. */
  lemma ChooseChain(buf: string, tok: string)
    ensures Choose(buf, tok) ==
      if Open(buf, Ip) && Fits(Ip, tok) then Some(Ip)
      else if Open(buf, Duration) && Fits(Duration, tok) then Some(Duration)
      else if Open(buf, DateTime) && Fits(DateTime, tok) then Some(DateTime)
      else if Open(buf, Url) && Fits(Url, tok) then Some(Url)
      else None
  {
    ChoosePriority(buf, tok);
    assert Rank(Ip) == 0 && Rank(Duration) == 1 && Rank(DateTime) == 2 && Rank(Url) == 3;
  }

  // ---------------------------------------------------------------- buffer text

  /** A value handed to `appendJsonLog`: a `String`, or another object written as its `toString`. */
  datatype Value = Str(s: string) | Other(text: string)

  /**
   * `Float.toString(Float.parseFloat(tok))` and `Date.toString()` of the
   * date built from the six numbers, which the model keeps abstract.
   */
  datatype Renderer = Renderer(number: string -> string, date: Timestamp -> string)

  /** Renderings that write no comma (as `Date.toString` never does). */
  ghost predicate Plain(render: Renderer)
  {
    (forall t :: ',' !in render.number(t)) && (forall d :: ',' !in render.date(d))
  }

  function Quoted(s: string): string
  {
    "\"" + s + "\""
  }

  function ValueText(v: Value): string
  {
    match v
    case Str(s) => Quoted(s)
    case Other(t) => t
  }

  /** `"key": text`, one entry of the buffer. */
  function Line(f: (string, string)): string
  {
    Quoted(f.0) + ": " + f.1
  }

  /** What `appendJsonLog(attr, v)` inserts. */
  function EntryText(attr: string, v: Value): string
  {
    Line((attr, ValueText(v)))
  }

  /**
   * The value `matchPattern` appends for a token of category `c`. For a
   * datetime it is the rendering of what `getDateTime` reads; `getDateTime`
   * reads every token `isDateTime` accepts (`DateTimeParses`), so the
   * empty text of the `None` case is never written.
   */
  function ValueOf(render: Renderer, c: Category, tok: string): Value
  {
    match c
    case Ip => Str(tok)
    case Duration => Other(render.number(tok))
    case DateTime =>
      var t := GetDateTime(tok);
      if t.Some? then Other(render.date(t.value)) else Other("")
    case Url => Str(tok)
  }

  /** A token taken as a datetime is read by `getDateTime`, so its entry is the rendered date. */
  lemma DateTimeValue(render: Renderer, buf: string, tok: string)
    requires Choose(buf, tok) == Some(DateTime)
    ensures GetDateTime(tok).Some?
    ensures ValueOf(render, DateTime, tok) == Other(render.date(GetDateTime(tok).value))
  {
    ChoosePriority(buf, tok);
    DateTimeParses(tok);
  }

  /** `jsonLog.insert(jsonLog.length() - 1, t)`: `t` goes in just before the last character. */
  function Insert(buf: string, t: string): string
    requires |buf| > 0
  {
    buf[..|buf| - 1] + t + buf[|buf| - 1..]
  }

  /** The buffer looks like `{...}`. */
  predicate Braced(buf: string)
  {
    |buf| >= 2 && buf[0] == '{' && buf[|buf| - 1] == '}'
  }

  /** `{` then the entries separated by commas then `}`. */
  function Wrap(ts: seq<string>): string
  {
    "{" + Join(ts, ',') + "}"
  }

  /** Inserting keeps the buffer braced and puts `t` just before the closing brace. */
  lemma InsertBraced(buf: string, t: string)
    requires Braced(buf)
    ensures Braced(Insert(buf, t))
    ensures Insert(buf, t) == buf[..|buf| - 1] + t + "}"
  {
  }

  /** Two inserts in a row are one insert of both texts. */
  lemma InsertTwice(buf: string, x: string, y: string)
    requires |buf| > 0
    ensures Insert(Insert(buf, x), y) == Insert(buf, x + y)
  {
    var b := Insert(buf, x);
    assert b[..|b| - 1] == buf[..|buf| - 1] + x;
    assert b[|b| - 1..] == buf[|buf| - 1..];
  }

  /** Text inserted into the buffer occurs in it afterwards. */
  lemma InsertShows(buf: string, t: string, w: string)
    requires |buf| > 0 && Contains(t, w)
    ensures Contains(Insert(buf, t), w)
  {
    ContainsLeft(t, buf[|buf| - 1..], w);
    ContainsRight(buf[..|buf| - 1], t + buf[|buf| - 1..], w);
    assert buf[..|buf| - 1] + (t + buf[|buf| - 1..]) == Insert(buf, t);
  }

  /** A word without the closing character that occurs in the buffer still occurs after an insert. */
  lemma InsertKeeps(buf: string, t: string, w: string)
    requires |buf| > 0 && |w| > 0 && Contains(buf, w) && buf[|buf| - 1] !in w
    ensures Contains(Insert(buf, t), w)
  {
    var x := buf[..|buf| - 1];
    var d := buf[|buf| - 1];
    assert buf == x + [d] + [];
    ContainsAcross(x, d, [], w);
    ContainsLeft(x, t + [d], w);
    assert x + (t + [d]) == Insert(buf, t);
  }

  /** An insert into a wrapped list of entries adds one entry, after a comma when there were some. */
  lemma InsertEntry(ts: seq<string>, e: string)
    ensures |ts| == 0 ==> Insert(Wrap(ts), e) == Wrap([e])
    ensures |ts| > 0 ==> Insert(Insert(Wrap(ts), ","), e) == Wrap(ts + [e])
  {
    if |ts| == 0 {
      assert Insert(Wrap(ts), e) == "{" + e + "}";
    } else {
      InsertTwice(Wrap(ts), ",", e);
      assert Wrap(ts)[..|Wrap(ts)| - 1] == "{" + Join(ts, ',');
      JoinSnoc(ts, e, ',');
    }
  }

  // ---------------------------------------------------------------- the scan

  /** Where `matchPattern` stands after some tokens: the buffer, the categories taken in order, and whether it threw. */
  datatype Pass = Pass(buf: string, taken: seq<Category>, failed: bool)

  /**
   * One turn of `matchPattern`'s loop: unless this is the first token a
   * comma goes in; then the token takes the category `Choose` gives and
   * its entry goes in, or the loop throws "incorrect value".
   */
  function Step(render: Renderer, q: Pass, tok: string, first: bool): (p: Pass)
    requires |q.buf| > 0
    ensures |p.buf| > 0
  {
    if q.failed then q
    else
      var b := if first then q.buf else Insert(q.buf, ",");
      match Choose(b, tok)
      case None => Pass(b, q.taken, true)
      case Some(c) => Pass(Insert(b, EntryText(Key(c), ValueOf(render, c, tok))), q.taken + [c], false)
  }

  /** A step whose choice is `c` appends the entry of `c` and records it. */
  lemma StepTakes(render: Renderer, q: Pass, tok: string, first: bool, b: string, c: Category)
    requires |q.buf| > 0 && !q.failed
    requires b == if first then q.buf else Insert(q.buf, ",")
    requires Choose(b, tok) == Some(c)
    ensures Step(render, q, tok, first) == Pass(Insert(b, EntryText(Key(c), ValueOf(render, c, tok))), q.taken + [c], false)
  {
  }

  /** A step with no choice throws, leaving the buffer with its comma. */
  lemma StepThrows(render: Renderer, q: Pass, tok: string, first: bool, b: string)
    requires |q.buf| > 0 && !q.failed
    requires b == if first then q.buf else Insert(q.buf, ",")
    requires Choose(b, tok) == None
    ensures Step(render, q, tok, first) == Pass(b, q.taken, true)
  {
  }

  /** `matchPattern`'s loop over `toks`, starting from the buffer `buf0`. */
  function Scan(render: Renderer, buf0: string, toks: seq<string>): (p: Pass)
    requires |buf0| > 0
    ensures |p.buf| > 0
    decreases |toks|
  {
    if |toks| == 0 then Pass(buf0, [], false)
    else Step(render, Scan(render, buf0, toks[..|toks| - 1]), toks[|toks| - 1], |toks| == 1)
  }

  /** A scan over one more token is one more step. */
  lemma ScanSnoc(render: Renderer, buf0: string, toks: seq<string>, tok: string, first: bool)
    requires |buf0| > 0 && first == (|toks| == 0)
    ensures Scan(render, buf0, toks + [tok]) == Step(render, Scan(render, buf0, toks), tok, first)
  {
    assert (toks + [tok])[..|toks|] == toks;
  }

  /** The scan up to position `i + 1` is one step past the scan up to `i`. */
  lemma ScanAt(render: Renderer, buf0: string, toks: seq<string>, i: nat)
    requires |buf0| > 0 && i < |toks|
    ensures Scan(render, buf0, toks[..i + 1]) == Step(render, Scan(render, buf0, toks[..i]), toks[i], i == 0)
  {
    assert toks[..i + 1] == toks[..i] + [toks[i]];
    ScanSnoc(render, buf0, toks[..i], toks[i], i == 0);
  }

  /** A scan that threw at some token ends there: later tokens change nothing. */
  lemma {:induction false} ScanStops(render: Renderer, buf0: string, toks: seq<string>, n: nat)
    requires |buf0| > 0 && n <= |toks|
    requires Scan(render, buf0, toks[..n]).failed
    ensures Scan(render, buf0, toks) == Scan(render, buf0, toks[..n])
    decreases |toks| - n
  {
    if n < |toks| {
      var front := toks[..|toks| - 1];
      assert front[..n] == toks[..n];
      ScanStops(render, buf0, front, n);
    } else {
      assert toks[..n] == toks;
    }
  }

  /** No category appears twice. */
  predicate Distinct(cs: seq<Category>)
  {
    forall i, j :: 0 <= i < j < |cs| ==> cs[i] != cs[j]
  }

  /** A key holds none of the buffer's structural characters. */
  lemma KeyPlain(c: Category)
    ensures |Key(c)| > 0
    ensures '}' !in Key(c) && ',' !in Key(c) && ':' !in Key(c) && '"' !in Key(c)
  {
  }

  /** The entry written for a category holds its key. */
  lemma EntryShowsKey(c: Category, v: Value)
    ensures Contains(EntryText(Key(c), v), Key(c))
  {
    var e := EntryText(Key(c), v);
    var q := "\"";
    var tail := Key(c) + (q + ": " + ValueText(v));
    assert e == q + tail;
    assert tail[..|Key(c)|] == Key(c);
    ContainsRight(q, tail, Key(c));
  }

  /**
   * What holds after a scan of `toks` that has not thrown: the buffer is
   * braced, one category per token, each fitting its token, no category
   * twice, and the key of every category taken occurs in the buffer.
   */
  ghost predicate Recorded(p: Pass, toks: seq<string>)
  {
    && !p.failed
    && Braced(p.buf)
    && |p.taken| == |toks|
    && (forall j :: 0 <= j < |toks| ==> Fits(p.taken[j], toks[j]))
    && Distinct(p.taken)
    && (forall c :: c in p.taken ==> Contains(p.buf, Key(c)))
  }

  /** Inserting anything keeps the buffer braced and every key it held. */
  lemma InsertKeepsKeys(buf: string, t: string, cs: seq<Category>)
    requires Braced(buf)
    requires forall c :: c in cs ==> Contains(buf, Key(c))
    ensures Braced(Insert(buf, t))
    ensures forall c :: c in cs ==> Contains(Insert(buf, t), Key(c))
  {
    InsertBraced(buf, t);
    forall c | c in cs
      ensures Contains(Insert(buf, t), Key(c))
    {
      KeyPlain(c);
      InsertKeeps(buf, t, Key(c));
    }
  }

  /** An open category is not among those already taken. */
  lemma OpenNotTaken(buf: string, cs: seq<Category>, c: Category)
    requires forall d :: d in cs ==> Contains(buf, Key(d))
    requires Open(buf, c)
    ensures c !in cs
  {
  }

  /** A new category keeps the list free of repeats. */
  lemma DistinctSnoc(cs: seq<Category>, c: Category)
    requires Distinct(cs) && c !in cs
    ensures Distinct(cs + [c])
  {
    assert forall j :: 0 <= j < |cs| ==> (cs + [c])[j] == cs[j];
  }

  /** Each token still fits its category after one more of each. */
  lemma FitsSnoc(cs: seq<Category>, toks: seq<string>, c: Category, tok: string)
    requires |cs| == |toks|
    requires forall j :: 0 <= j < |toks| ==> Fits(cs[j], toks[j])
    requires Fits(c, tok)
    ensures forall j :: 0 <= j < |toks| + 1 ==> Fits((cs + [c])[j], (toks + [tok])[j])
  {
    forall j | 0 <= j < |toks| + 1
      ensures Fits((cs + [c])[j], (toks + [tok])[j])
    {
      if j < |toks| {
        assert (cs + [c])[j] == cs[j] && (toks + [tok])[j] == toks[j];
      }
    }
  }

  /** One more turn keeps `Recorded`. */
  lemma StepRecorded(render: Renderer, q: Pass, front: seq<string>, tok: string)
    requires Recorded(q, front)
    ensures var p := Step(render, q, tok, |front| == 0);
      !p.failed ==> Recorded(p, front + [tok])
  {
    var first := |front| == 0;
    var p := Step(render, q, tok, first);
    var b := if first then q.buf else Insert(q.buf, ",");
    if !first {
      InsertKeepsKeys(q.buf, ",", q.taken);
    }
    if !p.failed {
      StepChoice(render, q, tok, first);
      var c := p.taken[|p.taken| - 1];
      var e := EntryText(Key(c), ValueOf(render, c, tok));
      assert p.buf == Insert(b, e);
      OpenNotTaken(b, q.taken, c);
      InsertKeepsKeys(b, e, q.taken);
      DistinctSnoc(q.taken, c);
      FitsSnoc(q.taken, front, c, tok);
    }
  }

  /**
   * After a scan from a braced buffer that did not throw: one category per
   * token, each fitting its token, no category twice, and every key taken
   * present in the buffer.
   */
  lemma {:induction false} ScanRecorded(render: Renderer, buf0: string, toks: seq<string>)
    requires Braced(buf0)
    ensures !Scan(render, buf0, toks).failed ==> Recorded(Scan(render, buf0, toks), toks)
    decreases |toks|
  {
    if |toks| > 0 {
      var n := |toks| - 1;
      var front := toks[..n];
      ScanRecorded(render, buf0, front);
      assert front + [toks[n]] == toks;
      var q := Scan(render, buf0, front);
      if !q.failed {
        StepRecorded(render, q, front, toks[n]);
      }
    }
  }

  /** Every append goes in before the final `}`, so a braced buffer stays braced, whether or not the scan threw. */
  lemma {:induction false} ScanBraced(render: Renderer, buf0: string, toks: seq<string>)
    requires Braced(buf0)
    ensures Braced(Scan(render, buf0, toks).buf)
    decreases |toks|
  {
    if |toks| > 0 {
      var n := |toks| - 1;
      ScanBraced(render, buf0, toks[..n]);
      var q := Scan(render, buf0, toks[..n]);
      if !q.failed && n > 0 {
        InsertBraced(q.buf, ",");
      }
      if !q.failed {
        var b := if n == 0 then q.buf else Insert(q.buf, ",");
        match Choose(b, toks[n])
        case None =>
        case Some(c) =>
          InsertBraced(b, EntryText(Key(c), ValueOf(render, c, toks[n])));
      }
    }
  }

  /** The key and value text a token of category `c` is written with. */
  function Field(render: Renderer, c: Category, tok: string): (string, string)
  {
    (Key(c), ValueText(ValueOf(render, c, tok)))
  }

  /** The key and value text each token was written with. */
  function Fields(render: Renderer, cs: seq<Category>, toks: seq<string>): (fs: seq<(string, string)>)
    requires |cs| == |toks|
    ensures |fs| == |toks|
    decreases |toks|
  {
    if |toks| == 0 then []
    else
      var n := |toks| - 1;
      Fields(render, cs[..n], toks[..n]) + [Field(render, cs[n], toks[n])]
  }

  /** The field written for the token at position `j`. */
  lemma {:induction false} FieldsAt(render: Renderer, cs: seq<Category>, toks: seq<string>, j: nat)
    requires |cs| == |toks| && j < |toks|
    ensures Fields(render, cs, toks)[j] == Field(render, cs[j], toks[j])
    decreases |toks|
  {
    var n := |toks| - 1;
    var front := Fields(render, cs[..n], toks[..n]);
    assert Fields(render, cs, toks) == front + [Field(render, cs[n], toks[n])];
    if j < n {
      FieldsAt(render, cs[..n], toks[..n], j);
      assert cs[..n][j] == cs[j] && toks[..n][j] == toks[j];
    }
  }

  /** The entry lines of the fields, in order. */
  function Lines(fs: seq<(string, string)>): (ts: seq<string>)
    ensures |ts| == |fs|
    ensures forall j :: 0 <= j < |fs| ==> ts[j] == Line(fs[j])
  {
    if |fs| == 0 then [] else [Line(fs[0])] + Lines(fs[1..])
  }

  /** From the empty object, a scan that did not throw leaves `{e1,e2,...}`: one entry per token, in order. */
  lemma {:induction false} ScanWraps(render: Renderer, toks: seq<string>)
    ensures var p := Scan(render, "{}", toks);
      !p.failed ==> Recorded(p, toks) && p.buf == Wrap(Lines(Fields(render, p.taken, toks)))
    decreases |toks|
  {
    var p := Scan(render, "{}", toks);
    ScanRecorded(render, "{}", toks);
    if |toks| == 0 {
      assert Wrap([]) == "{}";
    } else if !p.failed {
      var n := |toks| - 1;
      var front := toks[..n];
      var q := Scan(render, "{}", front);
      ScanWraps(render, front);
      var fs := Fields(render, q.taken, front);
      var c := p.taken[n];
      var f := Field(render, c, toks[n]);
      var b := if n == 0 then q.buf else Insert(q.buf, ",");
      assert Choose(b, toks[n]) == Some(c);
      assert p.taken[..n] == q.taken;
      assert Fields(render, p.taken, toks) == fs + [f];
      LinesSnoc(fs, f);
      InsertEntry(Lines(fs), Line(f));
    }
  }

  lemma LinesSnoc(fs: seq<(string, string)>, f: (string, string))
    ensures Lines(fs + [f]) == Lines(fs) + [Line(f)]
  {
    assert forall j :: 0 <= j < |fs| ==> (fs + [f])[j] == fs[j];
  }

  // ---------------------------------------------------------------- isValid

  /** `isFull`: exactly three commas, or "not enough values". */
  function Full(s: string): Result<bool, string>
  {
    if Count(s, ',') == 3 then Success(true) else Failure("not enough values")
  }

  /** The buffer `isValid` leaves behind and what it returns or throws. */
  datatype Verdict = Verdict(buf: string, result: Result<bool, string>)

  /**
   * `isValid(line)` from any state: reset the buffer to `{}`, check the
   * comma count, scan the trimmed values, and check the comma count of
   * the buffer.
   */
  function Validate(render: Renderer, line: string): Verdict
  {
    if Full(line).Failure? then Verdict("{}", Full(line))
    else
      var p := Scan(render, "{}", Values(line, ','));
      Verdict(p.buf, if p.failed then Failure("incorrect value") else Full(p.buf))
  }

  /** `isFull` either returns true or throws; it never returns false. */
  lemma FullNeverFalse(s: string)
    ensures Full(s) != Success(false)
    ensures Full(s).Success? <==> |Values(s, ',')| == 4
  {
  }

  /** `isValid` never returns false, and leaves a braced buffer. */
  lemma ValidateNeverFalse(render: Renderer, line: string)
    ensures Validate(render, line).result != Success(false)
    ensures Braced(Validate(render, line).buf)
  {
    var toks := Values(line, ',');
    if Full(line).Success? {
      var p := Scan(render, "{}", toks);
      ScanBraced(render, "{}", toks);
      assert Validate(render, line) == Verdict(p.buf, if p.failed then Failure("incorrect value") else Full(p.buf));
    } else {
      assert Validate(render, line) == Verdict("{}", Full(line));
    }
  }

  /** Four different categories leave no fifth one out. */
  lemma FourOfFour(a: Category, b: Category, c: Category, d: Category, e: Category)
    requires a != b && a != c && a != d && b != c && b != d && c != d
    ensures e == a || e == b || e == c || e == d
  {
  }

  /** Four distinct categories are all four. */
  lemma AllFour(cs: seq<Category>)
    requires |cs| == 4 && Distinct(cs)
    ensures forall c :: c in cs
  {
    forall c
      ensures c in cs
    {
      FourOfFour(cs[0], cs[1], cs[2], cs[3], c);
    }
  }

  /** Commas in a wrapped list of entries: one between each two, plus those inside. */
  lemma CountWrap(ts: seq<string>)
    requires |ts| >= 1
    ensures Count(Wrap(ts), ',') == |ts| - 1 + CountAll(ts, ',')
  {
    CountJoin(ts, ',');
    assert multiset(Wrap(ts)) == multiset("{") + multiset(Join(ts, ',')) + multiset("}");
  }

  /**
   * When `isValid` returns true: the line has three commas, so four
   * values; each took a different category, so every category exactly
   * once; each value fits its category; and the buffer is `{` + the four
   * entries, comma-separated and free of commas themselves, + `}`.
   */
  lemma ValidateAccepted(render: Renderer, line: string)
    requires Validate(render, line).result.Success?
    ensures Count(line, ',') == 3
    ensures var toks := Values(line, ','); var p := Scan(render, "{}", toks);
      && |toks| == 4
      && Recorded(p, toks)
      && (forall c :: c in p.taken)
      && Validate(render, line).buf == p.buf == Wrap(Lines(Fields(render, p.taken, toks)))
      && (forall j :: 0 <= j < 4 ==> ',' !in Lines(Fields(render, p.taken, toks))[j])
  {
    var toks := Values(line, ',');
    var p := Scan(render, "{}", toks);
    ScanWraps(render, toks);
    AllFour(p.taken);
    var ts := Lines(Fields(render, p.taken, toks));
    CountWrap(ts);
    CountAllZero(ts, ',');
  }

  /** A line built from comma-free parts holds no comma. */
  lemma LinePlain(k: string, x: string)
    requires ',' !in k && ',' !in x
    ensures ',' !in Line((k, x))
  {
    assert Line((k, x)) == "\"" + k + "\"" + ": " + x;
  }

  /** The value text written for a comma-free token holds no comma when the renderings write none. */
  lemma ValuePlain(render: Renderer, c: Category, tok: string)
    requires Plain(render) && ',' !in tok
    ensures ',' !in ValueText(ValueOf(render, c, tok))
  {
    match c
    case Ip =>
      assert ValueText(ValueOf(render, c, tok)) == "\"" + tok + "\"";
    case Url =>
      assert ValueText(ValueOf(render, c, tok)) == "\"" + tok + "\"";
    case Duration =>
    case DateTime =>
  }

  /** The entry written for a comma-free token holds no comma when the renderings write none. */
  lemma FieldPlain(render: Renderer, c: Category, tok: string)
    requires Plain(render) && ',' !in tok
    ensures ',' !in Line((Key(c), ValueText(ValueOf(render, c, tok))))
  {
    KeyPlain(c);
    ValuePlain(render, c, tok);
    LinePlain(Key(c), ValueText(ValueOf(render, c, tok)));
  }

  /** With renderings that write no comma, the entries of comma-free tokens hold none. */
  lemma LinesPlain(render: Renderer, cs: seq<Category>, toks: seq<string>)
    requires Plain(render) && |cs| == |toks|
    requires forall j :: 0 <= j < |toks| ==> ',' !in toks[j]
    ensures CountAll(Lines(Fields(render, cs, toks)), ',') == 0
  {
    var ts := Lines(Fields(render, cs, toks));
    forall j | 0 <= j < |toks|
      ensures ',' !in ts[j]
    {
      FieldsAt(render, cs, toks, j);
      FieldPlain(render, cs[j], toks[j]);
    }
    CountAllZero(ts, ',');
  }

  /** With renderings that write no comma, a scan of four comma-free tokens that did not throw leaves three commas. */
  lemma ScanPlainFull(render: Renderer, toks: seq<string>)
    requires Plain(render) && |toks| == 4
    requires forall j :: 0 <= j < |toks| ==> ',' !in toks[j]
    requires !Scan(render, "{}", toks).failed
    ensures Full(Scan(render, "{}", toks).buf) == Success(true)
  {
    var p := Scan(render, "{}", toks);
    ScanWraps(render, toks);
    LinesPlain(render, p.taken, toks);
    CountWrap(Lines(Fields(render, p.taken, toks)));
  }

  /**
   * With renderings that write no comma, the re-check of the buffer never
   * fails: `isValid` returns true exactly when the line has three commas
   * and every value finds an open category.
   */
  lemma ValidatePlain(render: Renderer, line: string)
    requires Plain(render)
    ensures Validate(render, line).result.Success? <==>
      Count(line, ',') == 3 && !Scan(render, "{}", Values(line, ',')).failed
  {
    var toks := Values(line, ',');
    if Count(line, ',') == 3 && !Scan(render, "{}", toks).failed {
      ValuesNoSep(line, ',');
      ScanPlainFull(render, toks);
    }
  }

  /**
   * A turn throws "incorrect value" exactly when no open category fits the
   * token; otherwise the token takes the open fitting category of least
   * rank and its key is then in the buffer.
   */
  lemma StepChoice(render: Renderer, q: Pass, tok: string, first: bool)
    requires |q.buf| > 0 && !q.failed
    ensures var b := if first then q.buf else Insert(q.buf, ",");
      var p := Step(render, q, tok, first);
      && (p.failed <==> forall d :: !(Open(b, d) && Fits(d, tok)))
      && (!p.failed ==>
            var c := p.taken[|p.taken| - 1];
            && p.taken == q.taken + [c]
            && Open(b, c) && Fits(c, tok)
            && (forall d :: Rank(d) < Rank(c) ==> !(Open(b, d) && Fits(d, tok)))
            && Contains(p.buf, Key(c)))
  {
    var b := if first then q.buf else Insert(q.buf, ",");
    ChoosePriority(b, tok);
    if Choose(b, tok).Some? {
      var c := Choose(b, tok).value;
      EntryShowsKey(c, ValueOf(render, c, tok));
      InsertShows(b, EntryText(Key(c), ValueOf(render, c, tok)), Key(c));
    }
  }

  /** A quoted text holds every word the text holds. */
  lemma QuotedShows(t: string, w: string)
    requires Contains(t, w)
    ensures Contains(Quoted(t), w)
  {
    ContainsLeft(t, "\"", w);
    ContainsRight("\"", t + "\"", w);
    assert "\"" + (t + "\"") == Quoted(t);
  }

  /**
   * "Already filled" is a test on the whole buffer, values included: a
   * token taken as an IP or a URL, written as a string, closes every
   * category whose key occurs in it.
   */
  lemma ValueCloses(render: Renderer, q: Pass, tok: string, first: bool, d: Category)
    requires |q.buf| > 0 && !q.failed && Contains(tok, Key(d))
    ensures var p := Step(render, q, tok, first);
      !p.failed && (p.taken[|p.taken| - 1] == Ip || p.taken[|p.taken| - 1] == Url) ==> !Open(p.buf, d)
  {
    var b := if first then q.buf else Insert(q.buf, ",");
    match Choose(b, tok)
    case None =>
    case Some(c) =>
      if c == Ip || c == Url {
        var h := Quoted(Key(c)) + ": ";
        assert EntryText(Key(c), ValueOf(render, c, tok)) == h + Quoted(tok);
        QuotedShows(tok, Key(d));
        ContainsRight(h, Quoted(tok), Key(d));
        InsertShows(b, h + Quoted(tok), Key(d));
      }
  }

  // ---------------------------------------------------------------- words kept out

  /** The text of a value before it is quoted or rendered into an entry. */
  function Raw(v: Value): string
  {
    match v
    case Str(s) => s
    case Other(t) => t
  }

  /**
   * A word without the buffer's structural characters can occur in an
   * entry only inside its key or inside its value's text.
   */
  lemma EntryOccurrence(k: string, v: Value, w: string)
    requires '"' !in w && ':' !in w && ' ' !in w
    ensures Contains(EntryText(k, v), w) ==> Contains(k, w) || Contains(Raw(v), w)
  {
    var e := EntryText(k, v);
    var vt := ValueText(v);
    if Contains(e, w) {
      assert e == [] + ['"'] + (k + ['"'] + ([':'] + ([' '] + vt)));
      ContainsAcross([], '"', k + ['"'] + ([':'] + ([' '] + vt)), w);
      ContainsAcross(k, '"', [':'] + ([' '] + vt), w);
      if !Contains(k, w) {
        assert [':'] + ([' '] + vt) == [] + [':'] + ([' '] + vt);
        ContainsAcross([], ':', [' '] + vt, w);
        assert [' '] + vt == [] + [' '] + vt;
        ContainsAcross([], ' ', vt, w);
        if v.Str? {
          assert vt == [] + ['"'] + (v.s + ['"'] + []);
          ContainsAcross([], '"', v.s + ['"'] + [], w);
          ContainsAcross(v.s, '"', [], w);
        }
      }
    }
  }

  /**
   * Inserting a text that starts with a character outside the word: the
   * word occurs afterwards only if it occurred in the buffer or occurs in
   * the text.
   */
  lemma InsertOccurrence(buf: string, t: string, w: string)
    requires Braced(buf) && '}' !in w && |t| > 0 && t[0] !in w
    ensures Contains(Insert(buf, t), w) ==> Contains(buf, w) || Contains(t, w)
  {
    var x := buf[..|buf| - 1];
    var rest := t[1..] + "}";
    assert Insert(buf, t) == x + [t[0]] + rest;
    if Contains(Insert(buf, t), w) {
      ContainsAcross(x, t[0], rest, w);
      if Contains(x, w) {
        ContainsLeft(x, "}", w);
        assert x + "}" == buf;
      } else {
        assert rest == t[1..] + ['}'] + [];
        ContainsAcross(t[1..], '}', [], w);
        if Contains(t[1..], w) {
          ContainsRight([t[0]], t[1..], w);
          assert [t[0]] + t[1..] == t;
        }
      }
    }
  }

  /** A category stays open after the comma of a new turn. */
  lemma CommaKeepsOpen(buf: string, c: Category)
    requires Braced(buf) && Open(buf, c)
    ensures Braced(Insert(buf, ",")) && Open(Insert(buf, ","), c)
  {
    KeyPlain(c);
    InsertBraced(buf, ",");
    InsertOccurrence(buf, ",", Key(c));
    MissingChar(",", Key(c), Key(c)[0]);
  }

  /** A category stays open after an entry whose key and value text do not hold its key. */
  lemma EntryKeepsOpen(buf: string, k: string, v: Value, c: Category)
    requires Braced(buf) && Open(buf, c)
    requires !Contains(k, Key(c)) && !Contains(Raw(v), Key(c))
    ensures Braced(Insert(buf, EntryText(k, v))) && Open(Insert(buf, EntryText(k, v)), c)
  {
    KeyPlain(c);
    assert ' ' !in Key(c);
    InsertBraced(buf, EntryText(k, v));
    EntryOccurrence(k, v, Key(c));
    InsertOccurrence(buf, EntryText(k, v), Key(c));
  }

  /**
   * One turn of the scan from `{}` worked forwards: when `c` is open after
   * the comma and fits the token, and every category of lower rank is
   * taken already or does not fit, the token takes `c`.
   */
  lemma ScanTakes(render: Renderer, toks: seq<string>, i: nat, buf: string, taken: seq<Category>, c: Category)
    requires i < |toks| && Scan(render, "{}", toks[..i]) == Pass(buf, taken, false)
    requires Open(if i == 0 then buf else Insert(buf, ","), c) && Fits(c, toks[i])
    requires forall d :: Rank(d) < Rank(c) ==> d in taken || !Fits(d, toks[i])
    ensures var b := if i == 0 then buf else Insert(buf, ",");
      Scan(render, "{}", toks[..i + 1]) == Pass(Insert(b, EntryText(Key(c), ValueOf(render, c, toks[i]))), taken + [c], false)
  {
    var q := Scan(render, "{}", toks[..i]);
    var b := if i == 0 then buf else Insert(buf, ",");
    var tok := toks[i];
    ScanRecorded(render, "{}", toks[..i]);
    if i > 0 {
      InsertKeepsKeys(buf, ",", taken);
    }
    ChoosePriority(b, tok);
    var e := Choose(b, tok).value;
    assert e in taken ==> !Open(b, e);
    assert Rank(e) == Rank(c);
    assert e == c by {
      assert Priority[Rank(e)] == e && Priority[Rank(c)] == c;
    }
    StepTakes(render, q, tok, i == 0, b, c);
    ScanAt(render, "{}", toks, i);
  }


  /** `ScanTakes` with the value written for the token named. */
  lemma ScanTakesValue(render: Renderer, toks: seq<string>, i: nat, buf: string, taken: seq<Category>, c: Category, v: Value)
    requires i < |toks| && Scan(render, "{}", toks[..i]) == Pass(buf, taken, false)
    requires Open(if i == 0 then buf else Insert(buf, ","), c) && Fits(c, toks[i])
    requires forall d :: Rank(d) < Rank(c) ==> d in taken || !Fits(d, toks[i])
    requires ValueOf(render, c, toks[i]) == v
    ensures var b := if i == 0 then buf else Insert(buf, ",");
      Scan(render, "{}", toks[..i + 1]) == Pass(Insert(b, EntryText(Key(c), v)), taken + [c], false)
  {
    ScanTakes(render, toks, i, buf, taken, c);
  }
}
