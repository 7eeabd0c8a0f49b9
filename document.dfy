/**
 * How `getMapFromJsonLog` reads the buffer back into attribute/value
 * pairs: it cuts the text between commas (the last piece up to the first
 * `}`), splits each piece at its first `:`, strips the quotes of the
 * attribute with `removeOddQuotes`, and puts the pair into the document
 * map. The typed conversion of each value (float, then date, then string)
 * is not modelled: a pair holds the value text as cut from the buffer. Of
 * that conversion the model keeps the one place it throws: a value that is
 * a lone quote is neither a float nor a date, and `removeOddQuotes` fails
 * on it.
 */
module Document {
  import opened Wrappers
  import opened Text
  import opened Shapes
  import opened Classify

  /**
   * `removeOddQuotes`: a string holding a quote loses its first and last
   * characters; `None` where `substring(1, length - 1)` throws.
   */
  function RemoveOddQuotes(s: string): Option<string>
  {
    if '"' in s then
      if |s| >= 2 then Some(s[1..|s| - 1]) else None
    else Some(s)
  }

  /** Stripping the quotes of a quoted string gives the string back. */
  lemma RemoveQuotesOfQuoted(x: string)
    ensures RemoveOddQuotes(Quoted(x)) == Some(x)
  {
    var q := Quoted(x);
    assert q[0] == '"';
    assert q[1..|q| - 1] == x;
  }

  /** Text without quotes is kept; the one string it throws on is a lone quote. */
  lemma RemoveOddQuotesCases(s: string)
    ensures '"' !in s ==> RemoveOddQuotes(s) == Some(s)
    ensures RemoveOddQuotes(s).None? <==> s == "\""
    ensures RemoveOddQuotes(s).Some? ==> |RemoveOddQuotes(s).value| == if '"' in s then |s| - 2 else |s|
  {
  }

  /**
   * One attribute/value piece: the attribute is the text before the first
   * `:` with its quotes stripped, the value what follows `: `; `None`
   * where a `substring` throws, or `removeOddQuotes` on the attribute or
   * on a value that is a lone quote (the only value it throws on, and one
   * that neither `Float.parseFloat` nor the date parser reads first).
   */
  function Pair(piece: string): (r: Option<(string, string)>)
    ensures r.Some? ==> ':' in piece && r.value.1 != "\""
  {
    var k := IndexOf(piece, ':');
    if k == -1 || k + 2 > |piece| then None
    else
      match RemoveOddQuotes(piece[..k])
      case None => None
      case Some(attr) =>
        var value := piece[k + 2..];
        if RemoveOddQuotes(value).None? then None else Some((attr, value))
  }

  /** The next piece: up to the next comma, or for the last one up to `}`; `None` where `substring` throws. */
  function NextSet(rest: string): Option<string>
  {
    if ',' in rest then Some(rest[..IndexOf(rest, ',')])
    else
      var e := IndexOf(rest, '}');
      if e == -1 then None else Some(rest[..e])
  }

  /** The pairs put into the document, in order, and whether the loop ended without throwing. */
  datatype Reading = Reading(pairs: seq<(string, string)>, ok: bool)

  /** The loop of `getMapFromJsonLog` from the state (`partLog`, `piece`). */
  function Segments(partLog: string, piece: string): Reading
    decreases |partLog|
  {
    if |partLog| == 0 then Reading([], true)
    else
      match Pair(piece)
      case None => Reading([], false)
      case Some(p) =>
        if ',' !in partLog then Reading([p], true)
        else
          var rest := partLog[IndexOf(partLog, ',') + 1..];
          match NextSet(rest)
          case None => Reading([p], false)
          case Some(next) =>
            var r := Segments(rest, next);
            Reading([p] + r.pairs, r.ok)
  }

  /** `getMapFromJsonLog` on the buffer: the first piece runs from after `{` to the first comma. */
  function ReadBack(buf: string): Reading
  {
    var k := IndexOf(buf, ',');
    if k < 1 then Reading([], false) else Segments(buf, buf[1..k])
  }

  /** The read-back of `{t0,...` starts with the piece `t0`. */
  lemma ReadBackOf(t0: string, tail: string)
    requires ',' !in t0 && |tail| > 0 && tail[0] == ','
    ensures ReadBack("{" + t0 + tail) == Segments("{" + t0 + tail, t0)
  {
    var buf := "{" + t0 + tail;
    assert buf == ("{" + t0) + [','] + tail[1..];
    IndexOfAfter("{" + t0, ',', tail[1..]);
    Middle("{", t0, tail);
  }

  /** The document after `documentContent.put` of each pair in turn. */
  function PutAll(m: map<string, string>, ps: seq<(string, string)>): map<string, string>
    decreases |ps|
  {
    if |ps| == 0 then m else PutAll(m[ps[0].0 := ps[0].1], ps[1..])
  }

  /** A turn of the read-back that passes a comma goes on with the next piece. */
  lemma SegmentsMore(partLog: string, piece: string, p: (string, string), rest: string, next: string)
    requires |partLog| > 0 && Pair(piece) == Some(p) && ',' in partLog
    requires rest == partLog[IndexOf(partLog, ',') + 1..] && NextSet(rest) == Some(next)
    ensures Segments(partLog, piece) == Reading([p] + Segments(rest, next).pairs, Segments(rest, next).ok)
  {
  }

  /** A piece with no readable pair stops the read-back at once. */
  lemma SegmentsBad(partLog: string, piece: string)
    requires |partLog| > 0 && Pair(piece).None?
    ensures Segments(partLog, piece) == Reading([], false)
  {
  }

  /** After the last comma, a rest with no `}` stops the read-back after the pair. */
  lemma SegmentsStuck(partLog: string, piece: string, p: (string, string), rest: string)
    requires |partLog| > 0 && Pair(piece) == Some(p) && ',' in partLog
    requires rest == partLog[IndexOf(partLog, ',') + 1..] && NextSet(rest).None?
    ensures Segments(partLog, piece) == Reading([p], false)
  {
  }

  /** A piece with no comma after it ends the read-back. */
  lemma SegmentsLast(partLog: string, piece: string, p: (string, string))
    requires |partLog| > 0 && Pair(piece) == Some(p) && ',' !in partLog
    ensures Segments(partLog, piece) == Reading([p], true)
  {
  }

  /** Putting a first pair, then the others. */
  lemma PutAllCons(m: map<string, string>, p: (string, string), ps: seq<(string, string)>)
    ensures PutAll(m, [p] + ps) == PutAll(m[p.0 := p.1], ps)
  {
    assert ([p] + ps)[1..] == ps;
  }

  /** The document holds the keys it had and those of the pairs put. */
  lemma {:induction false} PutAllKeys(m: map<string, string>, ps: seq<(string, string)>)
    ensures PutAll(m, ps).Keys == m.Keys + set j | 0 <= j < |ps| :: ps[j].0
    decreases |ps|
  {
    if |ps| > 0 {
      var rest := ps[1..];
      PutAllKeys(m[ps[0].0 := ps[0].1], rest);
      assert (set j | 0 <= j < |ps| :: ps[j].0) == {ps[0].0} + (set j | 0 <= j < |rest| :: rest[j].0) by {
        forall j | 1 <= j < |ps| ensures ps[j].0 == rest[j - 1].0 { }
      }
    }
  }

  /** A key no pair puts keeps what the document held under it. */
  lemma {:induction false} PutAllKeeps(m: map<string, string>, ps: seq<(string, string)>, k: string)
    requires forall j :: 0 <= j < |ps| ==> ps[j].0 != k
    ensures k in PutAll(m, ps) <==> k in m
    ensures k in m ==> PutAll(m, ps)[k] == m[k]
    decreases |ps|
  {
    if |ps| > 0 {
      var rest := ps[1..];
      assert forall j :: 0 <= j < |rest| ==> rest[j] == ps[j + 1];
      PutAllKeeps(m[ps[0].0 := ps[0].1], rest, k);
    }
  }

  /** When no key is put twice, every key holds the value put under it. */
  lemma {:induction false} PutAllValues(m: map<string, string>, ps: seq<(string, string)>)
    requires forall i, j :: 0 <= i < j < |ps| ==> ps[i].0 != ps[j].0
    ensures forall j :: 0 <= j < |ps| ==> ps[j].0 in PutAll(m, ps) && PutAll(m, ps)[ps[j].0] == ps[j].1
    decreases |ps|
  {
    if |ps| > 0 {
      var m' := m[ps[0].0 := ps[0].1];
      var rest := ps[1..];
      assert forall j :: 0 <= j < |rest| ==> rest[j] == ps[j + 1];
      PutAllValues(m', rest);
      PutAllKeeps(m', rest, ps[0].0);
      forall j | 1 <= j < |ps|
        ensures ps[j].0 in PutAll(m, ps) && PutAll(m, ps)[ps[j].0] == ps[j].1
      {
        assert rest[j - 1] == ps[j];
      }
    }
  }

  /** A value cut at its first `}`, as the last piece is. */
  function Cut(x: string): string
  {
    if '}' in x then x[..IndexOf(x, '}')] else x
  }

  /** The fields as read back: the last value cut at its first `}`. */
  function LastCut(fs: seq<(string, string)>): (r: seq<(string, string)>)
    ensures |r| == |fs|
  {
    if |fs| == 0 then []
    else
      var n := |fs| - 1;
      fs[..n] + [(fs[n].0, Cut(fs[n].1))]
  }

  /**
   * Putting fields in order until one holds a lone quote: the fields put
   * are the ones before it, and the read-back goes through exactly when
   * no field holds one.
   */
  function ReadFields(fs: seq<(string, string)>): (r: Reading)
    ensures |r.pairs| <= |fs| && r.pairs == fs[..|r.pairs|]
    ensures r.ok <==> forall j :: 0 <= j < |fs| ==> fs[j].1 != "\""
    ensures r.ok ==> r.pairs == fs
    ensures !r.ok ==> |r.pairs| < |fs| && fs[|r.pairs|].1 == "\""
    decreases |fs|
  {
    if |fs| == 0 then Reading([], true)
    else if fs[0].1 == "\"" then Reading([], false)
    else
      var t := ReadFields(fs[1..]);
      assert forall j :: 1 <= j < |fs| ==> fs[j] == fs[1..][j - 1];
      Reading([fs[0]] + t.pairs, t.ok)
  }

  /** A field the buffer can carry: no structural character in the key, no comma in the value. */
  predicate Carried(f: (string, string))
  {
    ':' !in f.0 && '}' !in f.0 && ',' !in f.0 && ',' !in f.1
  }

  /** The text after the first comma: the remaining lines and the closing brace. */
  function Tail(ts: seq<string>): string
  {
    if |ts| == 0 then "}" else "," + Join(ts, ',') + "}"
  }

  /** A line reads back as its key and value, unless the value is a lone quote. */
  lemma PairOfLine(k: string, x: string)
    requires ':' !in k
    ensures Pair(Line((k, x))) == if x == "\"" then None else Some((k, x))
  {
    RemoveOddQuotesCases(x);
    var s := Line((k, x));
    var q := Quoted(k);
    assert ':' !in q by {
      assert q == "\"" + k + "\"";
    }
    assert s == q + [':'] + (" " + x);
    IndexOfAfter(q, ':', " " + x);
    assert s[..|q|] == q;
    RemoveQuotesOfQuoted(k);
    assert s[|q| + 2..] == x;
  }

  /** The last line, closed by `}`, reads as far as the first `}` of its value. */
  lemma CutLine(k: string, x: string)
    requires '}' !in k
    ensures var s := Line((k, x)) + "}";
      '}' in s && s[..IndexOf(s, '}')] == Line((k, Cut(x)))
  {
    var h := Quoted(k) + ": ";
    assert '}' !in h by {
      assert h == "\"" + k + "\"" + ": ";
    }
    var s := Line((k, x)) + "}";
    assert s == h + x + "}";
    var c := Cut(x);
    assert '}' !in c && c + "}" <= x + "}" by {
      if '}' in x {
        assert x + "}" == x[..IndexOf(x, '}')] + x[IndexOf(x, '}')..] + "}";
      }
    }
    var j := |h| + |c|;
    assert s[..j] == h + c;
    assert s[j] == '}';
    IndexOfIs(s, '}', j);
  }

  /** A line of a carried field holds no comma. */
  lemma LineNoComma(f: (string, string))
    requires Carried(f)
    ensures ',' !in Line(f)
  {
    LinePlain(f.0, f.1);
  }

  /** Splitting off the front line of a join. */
  lemma {:induction false} TailFront(ts: seq<string>)
    requires |ts| >= 1 && ',' !in ts[0]
    ensures Join(ts, ',') + "}" == ts[0] + Tail(ts[1..])
    ensures ',' in Join(ts, ',') + "}" <==> |ts| >= 2
  {
    var t0 := ts[0];
    if |ts| >= 2 {
      var j := Join(ts[1..], ',');
      assert Join(ts, ',') == t0 + [','] + j;
      assert Tail(ts[1..]) == "," + j + "}";
      assert (t0 + [','] + j + "}")[|t0|] == ',';
    } else {
      assert Join(ts, ',') == t0;
      assert ts[1..] == [];
      assert ',' !in "}";
    }
  }

  /** One turn of the loop: past a comma-free piece, the next piece is read from after the comma. */
  lemma SegmentsStep(cur: string, piece: string, p: (string, string), rest: string, next: string)
    requires |cur| > 0 && ',' !in cur && Pair(piece) == Some(p) && NextSet(rest) == Some(next)
    ensures Segments(cur + [','] + rest, piece)
         == Reading([p] + Segments(rest, next).pairs, Segments(rest, next).ok)
  {
    var partLog := cur + [','] + rest;
    IndexOfAfter(cur, ',', rest);
    assert partLog[|cur| + 1..] == rest;
  }

  /** The last turn: with no comma left the loop puts the piece and ends. */
  lemma SegmentsEnd(cur: string, piece: string, p: (string, string))
    requires ',' !in cur && Pair(piece) == Some(p)
    ensures Segments(cur + "}", piece) == Reading([p], true)
  {
  }

  /** With more than one line left, the next piece is the first line. */
  lemma {:induction false} NextSetFront(ts: seq<string>)
    requires |ts| >= 2 && ',' !in ts[0]
    ensures NextSet(Join(ts, ',') + "}") == Some(ts[0])
  {
    var j := Join(ts[1..], ',');
    assert Join(ts, ',') + "}" == ts[0] + [','] + (j + "}");
    IndexOfAfter(ts[0], ',', j + "}");
    assert (ts[0] + [','] + (j + "}"))[..|ts[0]|] == ts[0];
  }

  /** With one line left, the next piece is that line cut at the first `}` of its value. */
  lemma NextSetLast(k: string, x: string)
    requires Carried((k, x))
    ensures NextSet(Line((k, x)) + "}") == Some(Line((k, Cut(x))))
  {
    LineNoComma((k, x));
    CutLine(k, x);
  }

  /**
   * Past a comma-free piece, a last line reads as its field with the value
   * cut at `}`; a value cut down to a lone quote throws.
   */
  lemma SegmentsLastLine(cur: string, piece: string, p: (string, string), k: string, x: string)
    requires |cur| > 0 && ',' !in cur && Pair(piece) == Some(p) && Carried((k, x))
    ensures Segments(cur + [','] + (Line((k, x)) + "}"), piece)
         == if Cut(x) == "\"" then Reading([p], false) else Reading([p, (k, Cut(x))], true)
  {
    NextSetLast(k, x);
    var rest := Line((k, x)) + "}";
    var next := Line((k, Cut(x)));
    SegmentsStep(cur, piece, p, rest, next);
    PairOfLine(k, Cut(x));
    if Cut(x) == "\"" {
      SegmentsBad(rest, next);
    } else {
      LineNoComma((k, x));
      SegmentsEnd(Line((k, x)), next, (k, Cut(x)));
    }
  }

  /** Reading a first field that is not a lone quote, then the others. */
  lemma ReadFieldsCons(f: (string, string), fs: seq<(string, string)>)
    requires f.1 != "\""
    ensures ReadFields([f] + fs) == Reading([f] + ReadFields(fs).pairs, ReadFields(fs).ok)
  {
    assert ([f] + fs)[1..] == fs;
  }

  /**
   * From a piece `piece` that reads as `p` and a `partLog` of comma-free
   * text then the remaining lines, the loop puts `p` and then the
   * remaining fields, the last one cut at its first `}`, up to the first
   * value that is a lone quote, where it throws.
   */
  lemma {:induction false} SegmentsTail(cur: string, piece: string, p: (string, string), fs: seq<(string, string)>)
    requires |cur| > 0 && ',' !in cur && Pair(piece) == Some(p)
    requires forall j :: 0 <= j < |fs| ==> Carried(fs[j])
    ensures var rd := ReadFields(LastCut(fs));
      Segments(cur + Tail(Lines(fs)), piece) == Reading([p] + rd.pairs, rd.ok)
    decreases |fs|
  {
    if |fs| == 0 {
      SegmentsEnd(cur, piece, p);
    } else if |fs| == 1 {
      SegmentsTailOne(cur, piece, p, fs);
    } else {
      if fs[0].1 != "\"" {
        LineReads(fs[0]);
        SegmentsTail(Line(fs[0]), Line(fs[0]), fs[0], fs[1..]);
      }
      SegmentsTailStep(cur, piece, p, fs);
    }
  }

  /** A carried field whose value is not a lone quote: its line is a comma-free piece that reads as it. */
  lemma LineReads(f: (string, string))
    requires Carried(f) && f.1 != "\""
    ensures |Line(f)| > 0 && ',' !in Line(f) && Pair(Line(f)) == Some(f)
  {
    LineNoComma(f);
    PairOfLine(f.0, f.1);
  }

  /** `SegmentsTail` for two or more lines, given what it says of the lines past the first. */
  lemma SegmentsTailStep(cur: string, piece: string, p: (string, string), fs: seq<(string, string)>)
    requires |cur| > 0 && ',' !in cur && Pair(piece) == Some(p) && |fs| >= 2
    requires forall j :: 0 <= j < |fs| ==> Carried(fs[j])
    requires fs[0].1 != "\"" ==>
      var rd := ReadFields(LastCut(fs[1..]));
      Segments(Line(fs[0]) + Tail(Lines(fs[1..])), Line(fs[0])) == Reading([fs[0]] + rd.pairs, rd.ok)
    ensures var rd := ReadFields(LastCut(fs));
      Segments(cur + Tail(Lines(fs)), piece) == Reading([p] + rd.pairs, rd.ok)
  {
    SegmentsTailMore(cur, piece, p, fs);
    SegmentsFromLine(Line(fs[0]), fs);
  }

  /** `SegmentsTail` for one remaining line. */
  lemma SegmentsTailOne(cur: string, piece: string, p: (string, string), fs: seq<(string, string)>)
    requires |cur| > 0 && ',' !in cur && Pair(piece) == Some(p)
    requires |fs| == 1 && Carried(fs[0])
    ensures var rd := ReadFields(LastCut(fs));
      Segments(cur + Tail(Lines(fs)), piece) == Reading([p] + rd.pairs, rd.ok)
  {
    var f := fs[0];
    TailOne(fs);
    Shift(cur, ',', Line(f), "}");
    SegmentsLastLine(cur, piece, p, f.0, f.1);
    LastCutOne(fs);
    ReadFieldsOne((f.0, Cut(f.1)));
  }

  /** The tail of a single line. */
  lemma TailOne(fs: seq<(string, string)>)
    requires |fs| == 1
    ensures Tail(Lines(fs)) == [','] + Line(fs[0]) + "}"
  {
    assert Lines(fs) == [Line(fs[0])];
    assert Join(Lines(fs), ',') == Line(fs[0]);
  }

  /** A single field, its value cut. */
  lemma LastCutOne(fs: seq<(string, string)>)
    requires |fs| == 1
    ensures LastCut(fs) == [(fs[0].0, Cut(fs[0].1))]
  {
    assert fs[..0] == [];
  }

  /** Reading a single field: it throws exactly on a lone quote. */
  lemma ReadFieldsOne(f: (string, string))
    ensures ReadFields([f]) == if f.1 == "\"" then Reading([], false) else Reading([f], true)
  {
    assert [f][1..] == [];
  }

  /**
   * The loop from the first of two or more lines: it throws at once on a
   * lone-quote value, and otherwise goes on as the read of the rest says.
   */
  lemma SegmentsFromLine(cur: string, fs: seq<(string, string)>)
    requires |fs| >= 2 && Carried(fs[0])
    requires fs[0].1 != "\"" ==>
      var rd := ReadFields(LastCut(fs[1..]));
      Segments(cur + Tail(Lines(fs[1..])), Line(fs[0])) == Reading([fs[0]] + rd.pairs, rd.ok)
    ensures Segments(cur + Tail(Lines(fs[1..])), Line(fs[0])) == ReadFields(LastCut(fs))
  {
    LastCutFront(fs);
    PairOfLine(fs[0].0, fs[0].1);
    if fs[0].1 == "\"" {
      SegmentsBad(cur + Tail(Lines(fs[1..])), Line(fs[0]));
    } else {
      ReadFieldsCons(fs[0], LastCut(fs[1..]));
    }
  }

  /** One turn of `SegmentsTail`: past `p`, the loop goes on from the first line. */
  lemma SegmentsTailMore(cur: string, piece: string, p: (string, string), fs: seq<(string, string)>)
    requires |cur| > 0 && ',' !in cur && Pair(piece) == Some(p) && |fs| >= 2
    requires forall j :: 0 <= j < |fs| ==> Carried(fs[j])
    ensures var sg := Segments(Line(fs[0]) + Tail(Lines(fs[1..])), Line(fs[0]));
      Segments(cur + Tail(Lines(fs)), piece) == Reading([p] + sg.pairs, sg.ok)
  {
    var ts := Lines(fs);
    var rest := Join(ts, ',') + "}";
    Shift(cur, ',', Join(ts, ','), "}");
    LineNoComma(fs[0]);
    TailFront(ts);
    NextSetFront(ts);
    SegmentsStep(cur, piece, p, rest, ts[0]);
    LinesFront(fs);
  }


  /**
   * A buffer `{line,line,...}` of two or more carried fields reads back as
   * those fields with the last value cut at its first `}`, put in order
   * until the first value that is a lone quote, where it throws.
   */
  lemma {:induction false} ReadBackLines(fs: seq<(string, string)>)
    requires |fs| >= 2
    requires forall j :: 0 <= j < |fs| ==> Carried(fs[j])
    ensures ReadBack(Wrap(Lines(fs))) == ReadFields(LastCut(fs))
  {
    ReadBackFront(fs);
    var t0 := Line(fs[0]);
    if fs[0].1 != "\"" {
      LineReads(fs[0]);
      SegmentsTail("{" + t0, t0, fs[0], fs[1..]);
    }
    SegmentsFromLine("{" + t0, fs);
  }

  /** The read-back of a wrapped buffer of lines starts from its first line. */
  lemma ReadBackFront(fs: seq<(string, string)>)
    requires |fs| >= 2 && Carried(fs[0])
    ensures ReadBack(Wrap(Lines(fs))) == Segments("{" + Line(fs[0]) + Tail(Lines(fs[1..])), Line(fs[0]))
  {
    var ts := Lines(fs);
    LineNoComma(fs[0]);
    WrapFront(ts);
    LinesFront(fs);
    ReadBackOf(ts[0], Tail(ts[1..]));
  }

  /** The first comma of a wrapped join closes its first piece. */
  lemma {:induction false} WrapFront(ts: seq<string>)
    requires |ts| >= 2
    ensures Wrap(ts) == "{" + ts[0] + Tail(ts[1..])
  {
    var t0 := ts[0];
    var j := Join(ts[1..], ',');
    assert Join(ts, ',') == t0 + [','] + j;
    Regroup("{", t0, ',', j, "}");
    assert Tail(ts[1..]) == "," + j + "}";
    AppendCons("{" + t0, ',', j + "}");
  }


  /** The entries past the first are the entries of the fields past the first. */
  lemma {:induction false} LinesFront(fs: seq<(string, string)>)
    requires |fs| >= 1
    ensures Lines(fs[1..]) == Lines(fs)[1..]
  {
  }

  /** Cutting the last value commutes with dropping the first field. */
  lemma {:induction false} LastCutFront(fs: seq<(string, string)>)
    requires |fs| >= 2
    ensures LastCut(fs) == [fs[0]] + LastCut(fs[1..])
  {
    var n := |fs| - 1;
    assert fs[1..][..n - 1] == fs[1..n];
    assert fs[..n] == [fs[0]] + fs[1..n];
  }

  /** The value of a line is its tail: a comma-free line has a comma-free value. */
  lemma LineValueNoComma(f: (string, string))
    requires ',' !in Line(f)
    ensures ',' !in f.1
  {
    var h := Quoted(f.0) + ": ";
    assert Line(f) == h + f.1;
    forall i | 0 <= i < |f.1|
      ensures f.1[i] != ','
    {
      assert f.1[i] == Line(f)[|h| + i];
    }
  }

  /** The field written for a category is one the buffer can carry when its line is comma-free. */
  lemma FieldCarried(f: (string, string), c: Category)
    requires f.0 == Key(c) && ',' !in Line(f)
    ensures Carried(f)
  {
    KeyPlain(c);
    LineValueNoComma(f);
  }

  /** Different categories have different keys. */
  lemma KeysDiffer(c: Category, d: Category)
    requires c != d
    ensures Key(c) != Key(d)
  {
  }

  /** The four keys. */
  const Keys: set<string> := {"ip", "duration", "datetime", "url"}

  /** Every key is one of the four, and each of the four is the key of a category. */
  lemma KeysAre(k: string)
    ensures k in Keys <==> exists c :: Key(c) == k
  {
    if k in Keys {
      assert k == Key(Ip) || k == Key(Duration) || k == Key(DateTime) || k == Key(Url);
    }
  }

  /** Entries keyed by four distinct categories carry the four keys, each once. */
  lemma {:induction false} EntryKeys(ps: seq<(string, string)>, cs: seq<Category>)
    requires |ps| == |cs| == 4 && Distinct(cs)
    requires forall j :: 0 <= j < 4 ==> ps[j].0 == Key(cs[j])
    ensures forall i, j :: 0 <= i < j < |ps| ==> ps[i].0 != ps[j].0
    ensures (set j | 0 <= j < |ps| :: ps[j].0) == Keys
  {
    forall i, j | 0 <= i < j < |ps|
      ensures ps[i].0 != ps[j].0
    {
      KeysDiffer(cs[i], cs[j]);
    }
    var ks := set j | 0 <= j < |ps| :: ps[j].0;
    AllFour(cs);
    forall k | k in Keys
      ensures k in ks
    {
      KeysAre(k);
      var c :| Key(c) == k;
      assert c in cs;
      var j :| 0 <= j < 4 && cs[j] == c;
      assert ps[j].0 == k;
    }
    forall k | k in ks
      ensures k in Keys
    {
      var j :| 0 <= j < 4 && ps[j].0 == k;
      KeysAre(k);
    }
  }

  /** Cutting the last value keeps every key and every earlier value. */
  lemma {:induction false} LastCutAt(fs: seq<(string, string)>, j: nat)
    requires j < |fs|
    ensures LastCut(fs)[j] == if j == |fs| - 1 then (fs[j].0, Cut(fs[j].1)) else fs[j]
  {
  }

  /**
   * Four comma-free entries, one per category, read back as far as the
   * first value that is a lone quote (the last value cut at its first
   * `}`); when there is none the read-back goes through, into a document
   * that holds exactly the four keys, each with the value written under it.
   */
  lemma {:induction false} DocumentOfEntries(fs: seq<(string, string)>, cs: seq<Category>)
    requires |fs| == |cs| == 4 && Distinct(cs)
    requires forall j :: 0 <= j < 4 ==> fs[j].0 == Key(cs[j]) && ',' !in Line(fs[j])
    ensures var r := ReadBack(Wrap(Lines(fs)));
      var doc := PutAll(map[], r.pairs);
      && r == ReadFields(LastCut(fs))
      && (r.ok <==> forall j :: 0 <= j < 4 ==> LastCut(fs)[j].1 != "\"")
      && (r.ok ==> doc.Keys == Keys)
      && (r.ok ==> forall j :: 0 <= j < 4 ==> Key(cs[j]) in doc && doc[Key(cs[j])] == LastCut(fs)[j].1)
  {
    forall j | 0 <= j < 4
      ensures Carried(fs[j])
    {
      FieldCarried(fs[j], cs[j]);
    }
    ReadBackLines(fs);
    var ps := LastCut(fs);
    forall j | 0 <= j < 4
      ensures ps[j].0 == Key(cs[j])
    {
      LastCutAt(fs, j);
    }
    EntriesDocument(ps, cs);
  }

  /** Putting four pairs keyed by distinct categories gives the document of exactly the four keys. */
  lemma {:induction false} EntriesDocument(ps: seq<(string, string)>, cs: seq<Category>)
    requires |ps| == |cs| == 4 && Distinct(cs)
    requires forall j :: 0 <= j < 4 ==> ps[j].0 == Key(cs[j])
    ensures var doc := PutAll(map[], ps);
      && doc.Keys == Keys
      && forall j :: 0 <= j < 4 ==> Key(cs[j]) in doc && doc[Key(cs[j])] == ps[j].1
  {
    EntryKeys(ps, cs);
    PutAllValues(map[], ps);
    PutAllKeys(map[], ps);
  }

  /** The text stored for a value: the text written for it, cut at its first `}` when it is the last. */
  function Stored(render: Renderer, c: Category, tok: string, last: bool): string
  {
    var v := ValueText(ValueOf(render, c, tok));
    if last then Cut(v) else v
  }

  /**
   * After `isValid` accepts a line, `getMapFromJsonLog` throws exactly when
   * the text stored for one of the values is a lone quote; otherwise the
   * document holds exactly the four keys, and the key of the category each
   * value was classified as holds the text written for that value, the last
   * one cut at its first `}`.
   */
  lemma {:induction false} ValidatedDocument(render: Renderer, line: string)
    requires Validate(render, line).result.Success?
    ensures var toks := Values(line, ','); var p := Scan(render, "{}", toks);
      var r := ReadBack(Validate(render, line).buf);
      var doc := PutAll(map[], r.pairs);
      && |toks| == 4 && |p.taken| == 4
      && (r.ok <==> forall j :: 0 <= j < 4 ==> Stored(render, p.taken[j], toks[j], j == 3) != "\"")
      && (r.ok ==> |r.pairs| == 4 && doc.Keys == Keys)
      && (r.ok ==> forall j :: 0 <= j < 4 ==>
           Key(p.taken[j]) in doc && doc[Key(p.taken[j])] == Stored(render, p.taken[j], toks[j], j == 3))
  {
    var toks := Values(line, ',');
    var p := Scan(render, "{}", toks);
    ValidateAccepted(render, line);
    var fs := Fields(render, p.taken, toks);
    forall j | 0 <= j < 4
      ensures fs[j] == (Key(p.taken[j]), ValueText(ValueOf(render, p.taken[j], toks[j])))
      ensures ',' !in Line(fs[j])
    {
      FieldsAt(render, p.taken, toks, j);
      assert Lines(fs)[j] == Line(fs[j]);
    }
    forall j | 0 <= j < 4
      ensures LastCut(fs)[j].1 == Stored(render, p.taken[j], toks[j], j == 3)
    {
      LastCutAt(fs, j);
    }
    DocumentOfEntries(fs, p.taken);
  }

  /** A token that starts with `}` fits no category but the url. */
  lemma BraceOnlyUrl(c: Category, t: string)
    requires Fits(c, t) && |t| > 0 && t[0] == '}'
    ensures c == Url
  {
    FirstCharacters(t);
  }

  /** A quoted text that starts with `}`, cut at its first `}`, is a lone quote. */
  lemma QuotedBraceCut(t: string)
    requires |t| > 0 && t[0] == '}'
    ensures Cut(Quoted(t)) == "\""
  {
    var v := Quoted(t);
    assert v == ['"'] + t + ['"'];
    assert v[1] == '}' && v[0] != '}';
    IndexOfIs(v, '}', 1);
  }

  /**
   * An accepted line whose last value starts with `}` makes
   * `getMapFromJsonLog` throw: such a value can only be taken as a url, its
   * entry is quoted, and the last piece, cut at the first `}`, leaves the
   * value a lone quote.
   */
  lemma LastBraceThrows(render: Renderer, line: string)
    requires Validate(render, line).result.Success?
    requires var toks := Values(line, ','); |toks| == 4 && |toks[3]| > 0 && toks[3][0] == '}'
    ensures !ReadBack(Validate(render, line).buf).ok
  {
    var toks := Values(line, ',');
    var p := Scan(render, "{}", toks);
    ValidateAccepted(render, line);
    var t := toks[3];
    assert Fits(p.taken[3], t);
    BraceOnlyUrl(p.taken[3], t);
    QuotedBraceCut(t);
    assert Stored(render, p.taken[3], t, true) == "\"";
    ValidatedDocument(render, line);
  }
}
