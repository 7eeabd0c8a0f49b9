/**
 * Lines worked through the model: three from the handler's own tests (two
 * rejected, one accepted) and one built line that `isValid` accepts but
 * whose read-back throws.
 */
module TestLines {
  import opened Wrappers
  import opened Text
  import opened Shapes
  import opened Classify
  import opened Document

  /** The first token of the line: "111.35.300.105". */
  const BadIp: string := Dotted("111", "35", "300", "105")

  /** Not an IP: 300 is above 255. */
  lemma BadIpNotIp()
    ensures !IsIP(BadIp)
  {
    var g := "300";
    assert !Octet(g) by {
      assert |g| == 3 && g[0] == '3';
    }
    NoDot("111"); NoDot("35"); NoDot(g); NoDot("105");
    IpOfGroups("111", "35", g, "105");
  }

  /** Not a number: three dots. */
  lemma BadIpNotDuration()
    ensures !IsDuration(BadIp)
  {
    JoinFour("111", "35", "300", "105", '.');
    SplitJoin(["111", "35", "300", "105"], '.');
    assert Count(BadIp, '.') == 3;
  }

  /** Not a datetime: no `T`. */
  lemma BadIpNotDateTime()
    ensures !IsDateTime(BadIp)
  {
    assert 'T' !in BadIp;
  }

  /** A URL: no whitespace and a dot. */
  lemma BadIpIsUrl()
    ensures IsUrl(BadIp)
  {
    assert BadIp[3] == '.';
    UrlPrefixNeverWidens(BadIp);
  }

  /** The second token: "https://regex101.com". */
  const Site: string := "https://regex101.com"

  /** A token starting with a letter is neither an IP nor a number. */
  lemma NotNumeric(v: string)
    requires |v| > 0 && 'a' <= v[0] <= 'z'
    ensures !IsIP(v) && !IsDuration(v)
  {
    if IsIP(v) {
      IpFirst(v);
    }
  }

  /** A token without `T` is no datetime. */
  lemma NotDateTime(v: string)
    requires 'T' !in v
    ensures !IsDateTime(v)
  {
  }

  /** Neither an IP nor a number: it starts with a letter. */
  lemma SiteNotNumeric()
    ensures !IsIP(Site) && !IsDuration(Site)
  {
    NotNumeric(Site);
  }

  /** No datetime: it holds no `T`. */
  lemma SiteNotDateTime()
    ensures !IsDateTime(Site)
  {
    NotDateTime(Site);
  }

  /** The first token is taken as the URL: no other category fits it. */
  lemma BadIpTakenAsUrl()
    ensures Choose("{}", BadIp) == Some(Url)
  {
    BadIpNotIp(); BadIpNotDuration(); BadIpNotDateTime(); BadIpIsUrl();
    ChooseChain("{}", BadIp);
    assert !Contains("}", Key(Url));
  }

  /** A first token taken as the URL closes the URL category for the second. */
  lemma UrlClosed(render: Renderer, t1: string)
    requires Choose("{}", t1) == Some(Url)
    ensures var q := Scan(render, "{}", [t1]);
      !q.failed && q.taken == [Url] && |q.buf| > 0 && !Open(Insert(q.buf, ","), Url)
  {
    var q0 := Pass("{}", [], false);
    assert [t1][..0] == [];
    var e := EntryText(Key(Url), ValueOf(render, Url, t1));
    StepTakes(render, q0, t1, true, "{}", Url);
    var buf := Insert("{}", e);
    assert Scan(render, "{}", [t1]) == Pass(buf, [Url], false);
    InsertBraced("{}", e);
    EntryShowsKey(Url, ValueOf(render, Url, t1));
    InsertShows("{}", e, Key(Url));
    KeyPlain(Url);
    InsertKeeps(buf, ",", Key(Url));
  }

  /**
   * Once a first token is taken as the URL, a second token that is not an
   * IP, a number or a datetime fits no open category, and the scan throws.
   */
  lemma UrlTakenTwice(render: Renderer, t1: string, t2: string)
    requires Choose("{}", t1) == Some(Url)
    requires !IsIP(t2) && !IsDuration(t2) && !IsDateTime(t2)
    ensures Scan(render, "{}", [t1]).taken == [Url]
    ensures Scan(render, "{}", [t1, t2]).failed
  {
    UrlClosed(render, t1);
    var q := Scan(render, "{}", [t1]);
    var b := Insert(q.buf, ",");
    ChooseChain(b, t2);
    assert Choose(b, t2) == None;
    StepThrows(render, q, t2, false, b);
    ScanAt(render, "{}", [t1, t2], 1);
    assert [t1, t2][..1] == [t1] && [t1, t2][..2] == [t1, t2];
  }

  /** The bad IP is claimed as the URL, so the real URL is then rejected. */
  lemma SiteRejected(render: Renderer)
    ensures Scan(render, "{}", [BadIp]).taken == [Url]
    ensures Scan(render, "{}", [BadIp, Site]).failed
  {
    BadIpTakenAsUrl();
    SiteNotNumeric();
    SiteNotDateTime();
    UrlTakenTwice(render, BadIp, Site);
  }

  /** The last token: "111.35.120.105". */
  const GoodIp: string := Dotted("111", "35", "120", "105")

  /** A token that trimming keeps and that holds no comma. */
  predicate Plainly(t: string)
  {
    |t| > 0 && !IsBlank(t[0]) && !IsBlank(t[|t| - 1]) && ',' !in t
  }

  /** Four such tokens written `a, b, c, d` split into the tokens after each comma, and the line holds three commas. */
  lemma FourSplit(a: string, b: string, c: string, d: string)
    requires Plainly(a) && Plainly(b) && Plainly(c) && Plainly(d)
    ensures var line := a + ", " + b + ", " + c + ", " + d;
      Count(line, ',') == 3 && Split(line, ',') == [a, " " + b, " " + c, " " + d]
  {
    var ps := [a, " " + b, " " + c, " " + d];
    JoinFour(a, " " + b, " " + c, " " + d, ',');
    assert a + ", " + b + ", " + c + ", " + d == Join(ps, ',');
    assert forall k :: 0 <= k < 4 ==> ',' !in ps[k];
    SplitJoin(ps, ',');
  }

  /** Trimming keeps such a token. */
  lemma TrimPlain(a: string)
    requires Plainly(a)
    ensures Trim(a) == a
  {
    TrimMargins("", a, "");
    assert "" + a + "" == a;
  }

  /** Trimming removes the space after a comma. */
  lemma TrimPadded(b: string)
    requires Plainly(b)
    ensures Trim(" " + b) == b
  {
    TrimMargins(" ", b, "");
    assert " " + b + "" == " " + b;
  }

  /** Trimming the pieces gives back the tokens. */
  lemma FourTrimmed(a: string, b: string, c: string, d: string)
    requires Plainly(a) && Plainly(b) && Plainly(c) && Plainly(d)
    ensures TrimAll([a, " " + b, " " + c, " " + d]) == [a, b, c, d]
  {
    TrimAllFour(a, " " + b, " " + c, " " + d);
    TrimPlain(a); TrimPadded(b); TrimPadded(c); TrimPadded(d);
  }

  /** `TrimAll` of four pieces. */
  lemma TrimAllFour(p0: string, p1: string, p2: string, p3: string)
    ensures TrimAll([p0, p1, p2, p3]) == [Trim(p0), Trim(p1), Trim(p2), Trim(p3)]
  {
    var r := TrimAll([p0, p1, p2, p3]);
    assert r[0] == Trim(p0) && r[1] == Trim(p1) && r[2] == Trim(p2) && r[3] == Trim(p3);
  }

  /** Four such tokens written `a, b, c, d` are the line's four values, and the line holds three commas. */
  lemma FourValues(a: string, b: string, c: string, d: string)
    requires Plainly(a) && Plainly(b) && Plainly(c) && Plainly(d)
    ensures var line := a + ", " + b + ", " + c + ", " + d;
      Count(line, ',') == 3 && Values(line, ',') == [a, b, c, d]
  {
    FourSplit(a, b, c, d);
    FourTrimmed(a, b, c, d);
  }

  /**
   * A line of the tests that `isValid` rejects with "incorrect value":
   * "111.35.300.105, https://regex101.com, 50.9, 111.35.120.105".
   */
  const MisreadLine: string := BadIp + ", " + Site + ", " + "50.9" + ", " + GoodIp

  /** The line's values are the four tokens, trimmed. */
  lemma MisreadLineValues()
    ensures Values(MisreadLine, ',') == [BadIp, Site, "50.9", GoodIp]
  {
    assert Plainly(BadIp) && Plainly(Site) && Plainly("50.9") && Plainly(GoodIp);
    FourValues(BadIp, Site, "50.9", GoodIp);
  }

  /** A line whose second value fits no open category is rejected with "incorrect value". */
  lemma RejectedAtSecond(render: Renderer, line: string, a: string, b: string, c: string, d: string)
    requires Values(line, ',') == [a, b, c, d]
    requires Scan(render, "{}", [a, b]).failed
    ensures Validate(render, line).result == Failure("incorrect value")
  {
    var toks := [a, b, c, d];
    assert toks[..2] == [a, b];
    ScanStops(render, "{}", toks, 2);
  }

  /**
   * `isValid` throws "incorrect value" on the line: the bad IP is taken as
   * the URL, so the real URL fits no open category.
   */
  lemma MisreadLineRejected(render: Renderer)
    ensures Validate(render, MisreadLine).result == Failure("incorrect value")
  {
    MisreadLineValues();
    SiteRejected(render);
    RejectedAtSecond(render, MisreadLine, BadIp, Site, "50.9", GoodIp);
  }

  /** A built line, not one of the tests, whose last value starts with `}`: "1.2.3.4, 5, 2017-1-1T1:1:1, }x.com". */
  const BraceLine: string := Dotted("1", "2", "3", "4") + ", " + "5" + ", " + "2017-1-1T1:1:1" + ", " + "}x.com"

  /** The line's values are its four tokens. */
  lemma BraceLineValues()
    ensures Values(BraceLine, ',') == [Dotted("1", "2", "3", "4"), "5", "2017-1-1T1:1:1", "}x.com"]
  {
    assert Plainly(Dotted("1", "2", "3", "4")) && Plainly("5") && Plainly("2017-1-1T1:1:1") && Plainly("}x.com");
    FourValues(Dotted("1", "2", "3", "4"), "5", "2017-1-1T1:1:1", "}x.com");
  }

  /**
   * Once `isValid` accepts the line, `getMapFromJsonLog` throws: the last
   * piece of the buffer is `"url": "`, whose value is a lone quote.
   */
  lemma BraceLineThrows(render: Renderer)
    requires Validate(render, BraceLine).result.Success?
    ensures !ReadBack(Validate(render, BraceLine).buf).ok
  {
    BraceLineValues();
    LastBraceThrows(render, BraceLine);
  }

  /**
   * A renderer that writes every number as `1` and every date as `D`: no
   * comma and no key word, as `Float.toString` and `Date.toString` write
   * none for these values.
   */
  const Flat: Renderer := Renderer(t => "1", d => "D")

  lemma FlatPlain()
    ensures Plain(Flat)
  {
  }

  /** The tokens of `BraceLine`, in order. */
  const BraceTokens: seq<string> := [Dotted("1", "2", "3", "4"), "5", "2017-1-1T1:1:1", "}x.com"]

  /** What each turn writes: the ip, the duration and the datetime entries. */
  const BraceIpEntry: string := EntryText("ip", Str(Dotted("1", "2", "3", "4")))
  const BraceDurationEntry: string := EntryText("duration", Other("1"))
  const BraceDateEntry: string := EntryText("datetime", Other("D"))

  /** The buffer after one, two and three turns. */
  const BraceBuf1: string := Insert("{}", BraceIpEntry)
  const BraceBuf2: string := Insert(Insert(BraceBuf1, ","), BraceDurationEntry)
  const BraceBuf3: string := Insert(Insert(BraceBuf2, ","), BraceDateEntry)

  /** The first token is an IP. */
  lemma BraceIpFits()
    ensures Fits(Ip, BraceTokens[0])
  {
    IpOfGroups("1", "2", "3", "4");
  }

  /** The third token is a datetime that `getDateTime` reads. */
  lemma BraceStampFits()
    ensures Fits(DateTime, BraceTokens[2]) && GetDateTime(BraceTokens[2]).Some?
  {
    YearRange("2017"); MonthRange("1"); DayRange("1"); HourRange("1"); SixtyRange("1");
    assert BraceTokens[2] == Written("2017", "1", "1", "1", "1", "1");
    DateTimeReadsBack("2017", "1", "1", "1", "1", "1");
  }

  /** The last token is a URL: no whitespace and a dot. */
  lemma BraceUrlFits()
    ensures Fits(Url, BraceTokens[3])
  {
    assert BraceTokens[3][2] == '.';
    UrlPrefixNeverWidens(BraceTokens[3]);
  }

  /** No key but "ip" occurs in the buffer after the first turn. */
  lemma BraceOpen1(c: Category)
    requires c != Ip
    ensures Braced(BraceBuf1) && Open(BraceBuf1, c)
  {
    EmptyOpen(c);
    MissingChar("ip", Key(c), Key(c)[0]);
    MissingChar(Dotted("1", "2", "3", "4"), Key(c), Key(c)[0]);
    EntryKeepsOpen("{}", "ip", Str(Dotted("1", "2", "3", "4")), c);
  }

  /** Neither "datetime" nor "url" occurs in the buffer after the second turn. */
  lemma BraceOpen2(c: Category)
    requires c == DateTime || c == Url
    ensures Braced(BraceBuf2) && Open(BraceBuf2, c)
  {
    BraceOpen1(c);
    CommaKeepsOpen(BraceBuf1, c);
    MissingChar("duration", Key(c), if c == DateTime then 'e' else 'l');
    MissingChar("1", Key(c), Key(c)[0]);
    EntryKeepsOpen(Insert(BraceBuf1, ","), "duration", Other("1"), c);
  }

  /** "url" does not occur in the buffer after the third turn. */
  lemma BraceOpen3()
    ensures Braced(BraceBuf3) && Open(BraceBuf3, Url)
  {
    BraceOpen2(Url);
    CommaKeepsOpen(BraceBuf2, Url);
    MissingChar("datetime", "url", 'u');
    MissingChar("D", "url", 'u');
    EntryKeepsOpen(Insert(BraceBuf2, ","), "datetime", Other("D"), Url);
  }

  /** Only the IP ranks before a duration. */
  lemma BeforeDuration(taken: seq<Category>, tok: string)
    requires Ip in taken
    ensures forall d :: Rank(d) < Rank(Duration) ==> d in taken || !Fits(d, tok)
  {
    forall d | Rank(d) < Rank(Duration) ensures d in taken {
      assert d == Ip;
    }
  }

  /** Only the IP and the duration rank before a datetime. */
  lemma BeforeDateTime(taken: seq<Category>, tok: string)
    requires Ip in taken && Duration in taken
    ensures forall d :: Rank(d) < Rank(DateTime) ==> d in taken || !Fits(d, tok)
  {
    forall d | Rank(d) < Rank(DateTime) ensures d in taken {
      assert d == Ip || d == Duration;
    }
  }

  /** A first value fitting as an IP is taken. */
  lemma FirstTaken(render: Renderer, toks: seq<string>, b1: string)
    requires |toks| >= 1 && Fits(Ip, toks[0])
    requires b1 == Insert("{}", EntryText("ip", Str(toks[0])))
    ensures Scan(render, "{}", toks[..1]) == Pass(b1, [Ip], false)
  {
    EmptyOpen(Ip);
    assert toks[..0] == [];
    ScanTakes(render, toks, 0, "{}", [], Ip);
    assert [] + [Ip] == [Ip];
  }

  /** A first value fitting as an IP and a second as a duration are taken in that order. */
  lemma FirstTwoTaken(render: Renderer, toks: seq<string>, b1: string, b2: string)
    requires |toks| >= 2
    requires Fits(Ip, toks[0]) && Fits(Duration, toks[1])
    requires b1 == Insert("{}", EntryText("ip", Str(toks[0])))
    requires b2 == Insert(Insert(b1, ","), EntryText("duration", Other(render.number(toks[1]))))
    requires Open(Insert(b1, ","), Duration)
    ensures Scan(render, "{}", toks[..2]) == Pass(b2, [Ip, Duration], false)
  {
    FirstTaken(render, toks, b1);
    BeforeDuration([Ip], toks[1]);
    ScanTakes(render, toks, 1, b1, [Ip], Duration);
  }


  /** After those two, a third value fitting as a datetime is taken. */
  lemma ThirdTaken(render: Renderer, toks: seq<string>, b2: string, b3: string, v: string)
    requires |toks| >= 3
    requires Scan(render, "{}", toks[..2]) == Pass(b2, [Ip, Duration], false)
    requires Fits(DateTime, toks[2]) && ValueOf(render, DateTime, toks[2]) == Other(v)
    requires b3 == Insert(Insert(b2, ","), EntryText("datetime", Other(v)))
    requires Open(Insert(b2, ","), DateTime)
    ensures Scan(render, "{}", toks[..3]) == Pass(b3, [Ip, Duration] + [DateTime], false)
  {
    BeforeDateTime([Ip, Duration], toks[2]);
    ScanTakesValue(render, toks, 2, b2, [Ip, Duration], DateTime, Other(v));
  }

  /** After those three, a fourth value fitting as a URL is taken, and the scan ends without a throw. */
  lemma FourthTaken(render: Renderer, toks: seq<string>, b3: string)
    requires |toks| == 4
    requires Scan(render, "{}", toks[..3]) == Pass(b3, [Ip, Duration] + [DateTime], false)
    requires Fits(Url, toks[3]) && Open(Insert(b3, ","), Url)
    ensures !Scan(render, "{}", toks).failed
  {
    ScanTakes(render, toks, 3, b3, [Ip, Duration] + [DateTime], Url);
    assert toks[..4] == toks;
  }

  /** A single digit is a number. */
  lemma DigitIsDuration(d: char)
    requires IsDigit(d)
    ensures IsDuration([d])
  {
    assert '.' !in [d];
    assert Count([d], '.') == 0;
  }

  /** The second token is a number. */
  lemma BraceNumberFits()
    ensures Fits(Duration, BraceTokens[1])
  {
    DigitIsDuration('5');
    assert BraceTokens[1] == ['5'];
  }

  /** The buffers of the first two turns are what those turns write. */
  lemma BraceEarlyBuffers()
    ensures BraceBuf1 == Insert("{}", EntryText("ip", Str(BraceTokens[0])))
    ensures BraceBuf2 == Insert(Insert(BraceBuf1, ","), EntryText("duration", Other(Flat.number(BraceTokens[1]))))
  {
  }

  /** Every category is open in the empty object. */
  lemma EmptyOpen(c: Category)
    ensures Open("{}", c)
  {
    MissingChar("{}", Key(c), Key(c)[0]);
  }

  /** The first two values are taken as the IP and the duration. */
  lemma BraceFirstTwo()
    ensures Scan(Flat, "{}", BraceTokens[..2]) == Pass(BraceBuf2, [Ip, Duration], false)
  {
    BraceIpFits();
    BraceNumberFits();
    BraceOpen1(Duration);
    CommaKeepsOpen(BraceBuf1, Duration);
    BraceEarlyBuffers();
    FirstTwoTaken(Flat, BraceTokens, BraceBuf1, BraceBuf2);
  }


  /** The third value is taken as the datetime. */
  lemma BraceThird()
    ensures Scan(Flat, "{}", BraceTokens[..3]) == Pass(BraceBuf3, [Ip, Duration] + [DateTime], false)
  {
    BraceFirstTwo();
    BraceStampFits();
    BraceOpen2(DateTime);
    CommaKeepsOpen(BraceBuf2, DateTime);
    ThirdTaken(Flat, BraceTokens, BraceBuf2, BraceBuf3, "D");
  }

  /** The four values are taken as ip, duration, datetime and url. */
  lemma BraceTurns()
    ensures !Scan(Flat, "{}", BraceTokens).failed
  {
    BraceThird();
    BraceUrlFits();
    BraceOpen3();
    CommaKeepsOpen(BraceBuf3, Url);
    FourthTaken(Flat, BraceTokens, BraceBuf3);
  }



  /**
   * With renderings that write no comma, a line of three commas whose
   * values the scan takes without a throw is accepted.
   */
  lemma AcceptedLine(render: Renderer, line: string, toks: seq<string>)
    requires Plain(render) && Count(line, ',') == 3 && Values(line, ',') == toks
    requires !Scan(render, "{}", toks).failed
    ensures Validate(render, line).result == Success(true)
  {
    ValidatePlain(render, line);
    ValidateNeverFalse(render, line);
  }

  /** The line's values are `BraceTokens`, between three commas. */
  lemma BraceLineSplits()
    ensures Count(BraceLine, ',') == 3 && Values(BraceLine, ',') == BraceTokens
  {
    assert Plainly(Dotted("1", "2", "3", "4")) && Plainly("5") && Plainly("2017-1-1T1:1:1") && Plainly("}x.com");
    FourValues(Dotted("1", "2", "3", "4"), "5", "2017-1-1T1:1:1", "}x.com");
  }

  /**
   * `isValid` accepts the line under renderings that write no comma: the
   * four values are taken as ip, duration, datetime and url in turn.
   */
  lemma BraceLineAccepted()
    ensures Validate(Flat, BraceLine).result == Success(true)
  {
    BraceLineSplits();
    BraceTurns();
    FlatPlain();
    AcceptedLine(Flat, BraceLine, BraceTokens);
  }


  /** So the line is accepted and then makes `getMapFromJsonLog` throw. */
  lemma BraceLineFails()
    ensures Validate(Flat, BraceLine).result.Success?
    ensures !ReadBack(Validate(Flat, BraceLine).buf).ok
  {
    BraceLineAccepted();
    BraceLineThrows(Flat);
  }

  // ---------------------------------------------------------------- the tests' other lines

  /** Characters that are all blanks, as `String.trim` removes them. */
  predicate Blanks(p: string)
  {
    forall k :: 0 <= k < |p| ==> IsBlank(p[k])
  }

  /**
   * Four tokens written `a, b, c, d` with blanks `p` before the first and
   * `q` after the third split into four pieces at three commas.
   */
  lemma PaddedSplit(p: string, a: string, b: string, c: string, q: string, d: string)
    requires Plainly(a) && Plainly(b) && Plainly(c) && Plainly(d) && Blanks(p) && Blanks(q)
    ensures var line := p + a + ", " + b + ", " + c + q + ", " + d;
      Count(line, ',') == 3 && Split(line, ',') == [p + a, " " + b, " " + c + q, " " + d]
  {
    var ps := [p + a, " " + b, " " + c + q, " " + d];
    JoinFour(ps[0], ps[1], ps[2], ps[3], ',');
    assert p + a + ", " + b + ", " + c + q + ", " + d == Join(ps, ',');
    assert ',' !in p && ',' !in q;
    assert forall k :: 0 <= k < 4 ==> ',' !in ps[k];
    SplitJoin(ps, ',');
  }

  /** Trimming those pieces gives back the tokens. */
  lemma PaddedTrimmed(p: string, a: string, b: string, c: string, q: string, d: string)
    requires Plainly(a) && Plainly(b) && Plainly(c) && Plainly(d) && Blanks(p) && Blanks(q)
    ensures TrimAll([p + a, " " + b, " " + c + q, " " + d]) == [a, b, c, d]
  {
    TrimAllFour(p + a, " " + b, " " + c + q, " " + d);
    TrimMargins(p, a, "");
    assert p + a + "" == p + a;
    TrimPadded(b);
    TrimMargins(" ", c, q);
    TrimPadded(d);
  }

  /** So the four tokens are the line's values. */
  lemma PaddedValues(p: string, a: string, b: string, c: string, q: string, d: string)
    requires Plainly(a) && Plainly(b) && Plainly(c) && Plainly(d) && Blanks(p) && Blanks(q)
    ensures var line := p + a + ", " + b + ", " + c + q + ", " + d;
      Count(line, ',') == 3 && Values(line, ',') == [a, b, c, d]
  {
    PaddedSplit(p, a, b, c, q, d);
    PaddedTrimmed(p, a, b, c, q, d);
  }

  /** A number with one decimal point. */
  lemma PointedIsDuration(a: string, b: string)
    requires |a| > 0 && AllDigits(a) && AllDigits(b)
    ensures IsDuration(a + "." + b)
  {
    var v := a + "." + b;
    assert '.' !in a && '.' !in b;
    assert multiset(v) == multiset(a) + multiset(".") + multiset(b);
    assert Count(v, '.') == 1;
    assert v[0] == a[0];
  }

  /** With every earlier category taken or unfitting, a second value fitting as a URL is taken after an IP. */
  lemma UrlSecond(render: Renderer, toks: seq<string>, b1: string, b2: string)
    requires |toks| >= 2 && Scan(render, "{}", toks[..1]) == Pass(b1, [Ip], false)
    requires !IsDuration(toks[1]) && !IsDateTime(toks[1]) && Fits(Url, toks[1])
    requires b2 == Insert(Insert(b1, ","), EntryText("url", Str(toks[1])))
    requires Open(Insert(b1, ","), Url)
    ensures Scan(render, "{}", toks[..2]) == Pass(b2, [Ip] + [Url], false)
  {
    ScanTakes(render, toks, 1, b1, [Ip], Url);
  }

  /** Then a third value fitting as a duration is taken. */
  lemma DurationThird(render: Renderer, toks: seq<string>, b2: string, b3: string)
    requires |toks| >= 3 && Scan(render, "{}", toks[..2]) == Pass(b2, [Ip] + [Url], false)
    requires Fits(Duration, toks[2])
    requires b3 == Insert(Insert(b2, ","), EntryText("duration", Other(render.number(toks[2]))))
    requires Open(Insert(b2, ","), Duration)
    ensures Scan(render, "{}", toks[..3]) == Pass(b3, [Ip] + [Url] + [Duration], false)
  {
    assert Ip in [Ip] + [Url];
    BeforeDuration([Ip] + [Url], toks[2]);
    ScanTakes(render, toks, 2, b2, [Ip] + [Url], Duration);
  }

  /** Then a fourth value fitting as a datetime is taken, and the scan ends without a throw. */
  lemma DateTimeFourth(render: Renderer, toks: seq<string>, b3: string)
    requires |toks| == 4 && Scan(render, "{}", toks[..3]) == Pass(b3, [Ip] + [Url] + [Duration], false)
    requires Fits(DateTime, toks[3]) && Open(Insert(b3, ","), DateTime)
    ensures !Scan(render, "{}", toks).failed
  {
    assert Ip in [Ip] + [Url] + [Duration] && Duration in [Ip] + [Url] + [Duration];
    BeforeDateTime([Ip] + [Url] + [Duration], toks[3]);
    ScanTakes(render, toks, 3, b3, [Ip] + [Url] + [Duration], DateTime);
    assert toks[..4] == toks;
  }

  /** The datetime of the tests' first accepted line: "2017-3-2T21:22:7". */
  const Stamp: string := "2017-3-2T21:22:7"

  /**
   * The first accepted line of the handler's tests:
   * "      111.35.120.105, https://regex101.com, 50.9  , 2017-3-2T21:22:7".
   */
  const PaddedLine: string := "      " + GoodIp + ", " + Site + ", " + "50.9" + "  " + ", " + Stamp

  /** Its values, in order. */
  const PaddedTokens: seq<string> := [GoodIp, Site, "50.9", Stamp]

  lemma PaddedLineSplits()
    ensures Count(PaddedLine, ',') == 3 && Values(PaddedLine, ',') == PaddedTokens
  {
    assert Plainly(GoodIp) && Plainly(Site) && Plainly("50.9") && Plainly(Stamp);
    assert Blanks("      ") && Blanks("  ");
    PaddedValues("      ", GoodIp, Site, "50.9", "  ", Stamp);
  }

  /** Its four groups are dot-free octets. */
  lemma GoodGroups()
    ensures '.' !in "111" && '.' !in "35" && '.' !in "120" && '.' !in "105"
    ensures Octet("111") && Octet("35") && Octet("120") && Octet("105")
  {
  }

  /** So the tests' correct IP is an IP. */
  lemma GoodIpIsIp()
    ensures IsIP(GoodIp)
  {
    GoodGroups();
    IpOfGroups("111", "35", "120", "105");
  }

  /** The first token is an IP. */
  lemma GoodIpFits()
    ensures Fits(Ip, PaddedTokens[0])
  {
    GoodIpIsIp();
  }

  /** The site holds no space and a dot. */
  lemma SiteBody()
    ensures UrlBody(Site)
  {
    assert Site[16] == '.';
  }

  /** The second token is a URL, and neither a number nor a datetime. */
  lemma SiteFits()
    ensures Fits(Url, PaddedTokens[1]) && !IsDuration(PaddedTokens[1]) && !IsDateTime(PaddedTokens[1])
  {
    SiteBody();
    UrlPrefixNeverWidens(Site);
    SiteNotNumeric();
    SiteNotDateTime();
  }

  /** The third token is a number. */
  lemma DecimalFits()
    ensures Fits(Duration, PaddedTokens[2])
  {
    PointedIsDuration("50", "9");
    assert PaddedTokens[2] == "50" + "." + "9";
  }

  /** The fourth token is a datetime. */
  lemma StampFits()
    ensures Fits(DateTime, PaddedTokens[3])
  {
    YearRange("2017"); MonthRange("3"); DayRange("2"); HourRange("21"); SixtyRange("22"); SixtyRange("7");
    assert PaddedTokens[3] == Written("2017", "3", "2", "21", "22", "7");
    DateTimeReadsBack("2017", "3", "2", "21", "22", "7");
  }

  /** What the first three turns write: the ip, the url and the duration entries. */
  const PaddedBuf1: string := Insert("{}", EntryText("ip", Str(GoodIp)))
  const PaddedBuf2: string := Insert(Insert(PaddedBuf1, ","), EntryText("url", Str(Site)))
  const PaddedBuf3: string := Insert(Insert(PaddedBuf2, ","), EntryText("duration", Other("1")))

  /** No key but "ip" occurs in the buffer after the first turn. */
  lemma PaddedOpen1(c: Category)
    requires c != Ip
    ensures Braced(PaddedBuf1) && Open(PaddedBuf1, c)
  {
    EmptyOpen(c);
    MissingChar("ip", Key(c), Key(c)[0]);
    MissingChar(GoodIp, Key(c), Key(c)[0]);
    EntryKeepsOpen("{}", "ip", Str(GoodIp), c);
  }

  /** Neither "duration" nor "datetime" occurs in the buffer after the second turn. */
  lemma PaddedOpen2(c: Category)
    requires c == Duration || c == DateTime
    ensures Braced(PaddedBuf2) && Open(PaddedBuf2, c)
  {
    PaddedOpen1(c);
    CommaKeepsOpen(PaddedBuf1, c);
    MissingChar("url", Key(c), 'd');
    MissingChar(Site, Key(c), 'd');
    EntryKeepsOpen(Insert(PaddedBuf1, ","), "url", Str(Site), c);
  }

  /** "datetime" does not occur in the buffer after the third turn. */
  lemma PaddedOpen3()
    ensures Braced(PaddedBuf3) && Open(PaddedBuf3, DateTime)
  {
    PaddedOpen2(DateTime);
    CommaKeepsOpen(PaddedBuf2, DateTime);
    MissingChar("duration", "datetime", 'e');
    MissingChar("1", "datetime", 'd');
    EntryKeepsOpen(Insert(PaddedBuf2, ","), "duration", Other("1"), DateTime);
  }

  /** The first two values are taken as the IP and the URL. */
  lemma PaddedFirstTwo()
    ensures Scan(Flat, "{}", PaddedTokens[..2]) == Pass(PaddedBuf2, [Ip] + [Url], false)
  {
    GoodIpFits();
    FirstTaken(Flat, PaddedTokens, PaddedBuf1);
    SiteFits();
    PaddedOpen1(Url);
    CommaKeepsOpen(PaddedBuf1, Url);
    UrlSecond(Flat, PaddedTokens, PaddedBuf1, PaddedBuf2);
  }

  /** The four values are taken as ip, url, duration and datetime. */
  lemma PaddedTurns()
    ensures !Scan(Flat, "{}", PaddedTokens).failed
  {
    PaddedFirstTwo();
    DecimalFits();
    PaddedOpen2(Duration);
    CommaKeepsOpen(PaddedBuf2, Duration);
    DurationThird(Flat, PaddedTokens, PaddedBuf2, PaddedBuf3);
    StampFits();
    PaddedOpen3();
    CommaKeepsOpen(PaddedBuf3, DateTime);
    DateTimeFourth(Flat, PaddedTokens, PaddedBuf3);
  }

  /** `isValid` accepts the tests' first correct line, as their assertion expects. */
  lemma PaddedLineAccepted()
    ensures Validate(Flat, PaddedLine).result == Success(true)
  {
    PaddedLineSplits();
    PaddedTurns();
    FlatPlain();
    AcceptedLine(Flat, PaddedLine, PaddedTokens);
  }

  /** A token that is no IP, number, datetime or URL fits no category. */
  lemma FitsNothing(t: string)
    requires !IsIP(t) && !IsDuration(t) && !IsDateTime(t) && !IsUrl(t)
    ensures forall d :: !Fits(d, t)
  {
    forall d ensures !Fits(d, t) {
      match d
      case Ip =>
      case Duration =>
      case DateTime =>
      case Url =>
    }
  }

  /** A second value that fits no category makes the scan throw, whatever the first took. */
  lemma NothingFitsSecond(render: Renderer, t1: string, t2: string)
    requires Fits(Ip, t1)
    requires forall d :: !Fits(d, t2)
    ensures Scan(render, "{}", [t1, t2]).failed
  {
    var toks := [t1, t2];
    var b1 := Insert("{}", EntryText("ip", Str(t1)));
    FirstTaken(render, toks, b1);
    ScanAt(render, "{}", toks, 1);
    ChoosePriority(Insert(b1, ","), t2);
    StepThrows(render, Pass(b1, [Ip], false), t2, false, Insert(b1, ","));
    assert toks[..2] == toks;
  }

  /** The second value of a rejected test line: "dfhhjhg". */
  const Word: string := "dfhhjhg"

  /** It is no IP and no number: a letter comes first. */
  lemma WordNotNumeric()
    ensures !IsIP(Word) && !IsDuration(Word)
  {
    NotNumeric(Word);
  }

  /** It is no datetime: it holds no `T`. */
  lemma WordNotDateTime()
    ensures !IsDateTime(Word)
  {
    NotDateTime(Word);
  }

  /** It is no URL: it holds no dot and no slash. */
  lemma WordNotUrl()
    ensures !IsUrl(Word)
  {
    assert !UrlBody(Word);
    UrlPrefixNeverWidens(Word);
  }

  /** So it fits no category. */
  lemma WordFitsNothing()
    ensures forall d :: !Fits(d, Word)
  {
    WordNotNumeric();
    WordNotDateTime();
    WordNotUrl();
    FitsNothing(Word);
  }

  /** A rejected line of the tests: "111.35.120.105, dfhhjhg, 50.9, 111.35.120.105". */
  const WordLine: string := GoodIp + ", " + Word + ", " + "50.9" + ", " + GoodIp

  /** `isValid` throws "incorrect value" on it: no category fits the word. */
  lemma WordLineRejected(render: Renderer)
    ensures Validate(render, WordLine).result == Failure("incorrect value")
  {
    assert Plainly(GoodIp) && Plainly(Word) && Plainly("50.9");
    FourValues(GoodIp, Word, "50.9", GoodIp);
    GoodIpFits();
    WordFitsNothing();
    NothingFitsSecond(render, GoodIp, Word);
    RejectedAtSecond(render, WordLine, GoodIp, Word, "50.9", GoodIp);
  }
}
