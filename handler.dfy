/**
 * The handler object: the text buffer `jsonLog` that `isValid` builds and
 * the document map that `getMapFromJsonLog` fills, with the methods that
 * update them step by step. Each method is proved against the functions
 * of `Text`, `Classify` and `Document`, whose properties are proved there.
 * A thrown exception is a `Failure` carrying its message; inside
 * `getMapFromJsonLog` an index error is `false`, which `insertLog` passes
 * on as a `Failure`.
 */
module Handler {
  import opened Wrappers
  import opened Text
  import opened Shapes
  import opened Classify
  import opened Document

  /** The exception `getMapFromJsonLog` throws when a `substring` index is out of range. */
  const IndexError := "StringIndexOutOfBoundsException"

  class LogHandler {
    /** The buffer `{...}` the entries are inserted into. */
    var jsonLog: string
    /** The attribute/value pairs read back from the buffer. */
    var documentContent: map<string, string>
    /** How numbers and dates are written into the buffer. */
    const render: Renderer

    /** The buffer always looks like `{...}`. */
    predicate Valid()
      reads this
    {
      Braced(jsonLog)
    }

    /** A fresh handler: an empty document and the buffer `{}`. */
    constructor(render: Renderer)
      ensures Valid()
      ensures jsonLog == "{}" && documentContent == map[] && this.render == render
    {
      this.render := render;
      jsonLog := "{}";
      documentContent := map[];
    }

    /** `getValues`: the trimmed pieces of `s` between the separators, in order. */
    method GetValues(s: string, sep: char) returns (values: seq<string>)
      ensures values == Values(s, sep)
    {
      var partLog := s;
      values := [];
      while sep in partLog
        invariant values + Values(partLog, sep) == Values(s, sep)
        decreases |partLog|
      {
        var k := IndexOf(partLog, sep);
        var rest := partLog[k + 1..];
        var t := Trim(partLog[..k]);
        ValuesStep(partLog, sep);
        AppendCons(values, t, Values(rest, sep));
        values := values + [t];
        partLog := rest;
      }
      ValuesLast(partLog, sep);
      values := values + [Trim(partLog)];
    }

    /** `isFull`: true when `s` holds exactly three commas, otherwise "not enough values". */
    method IsFull(s: string) returns (r: Result<bool, string>)
      ensures r == Full(s)
    {
      var partLog := s;
      var i := 0;
      while ',' in partLog
        invariant i + Count(partLog, ',') == Count(s, ',')
        decreases |partLog|
      {
        CountAfterFirst(partLog, ',');
        i := i + 1;
        partLog := partLog[IndexOf(partLog, ',') + 1..];
      }
      if i != 3 {
        return Failure("not enough values");
      }
      return Success(true);
    }

    /** `appendJsonLogWithString`: a quote, the text and a quote go in before the closing character. */
    method AppendJsonLogWithString(attr: string)
      requires Valid()
      modifies this
      ensures Valid()
      ensures jsonLog == Insert(old(jsonLog), Quoted(attr))
      ensures documentContent == old(documentContent)
    {
      ghost var b := jsonLog;
      jsonLog := Insert(jsonLog, "\"");
      jsonLog := Insert(jsonLog, attr);
      InsertTwice(b, "\"", attr);
      jsonLog := Insert(jsonLog, "\"");
      InsertTwice(b, "\"" + attr, "\"");
    }

    /** `appendJsonLog`: the entry `"attr": value` goes in, a string value quoted, any other as its text. */
    method AppendJsonLog(attr: string, value: Value)
      requires Valid()
      modifies this
      ensures Valid()
      ensures jsonLog == Insert(old(jsonLog), EntryText(attr, value))
      ensures documentContent == old(documentContent)
    {
      ghost var b := jsonLog;
      AppendJsonLogWithString(attr);
      jsonLog := Insert(jsonLog, ": ");
      InsertTwice(b, Quoted(attr), ": ");
      ghost var head := Quoted(attr) + ": ";
      match value
      case Str(s) =>
        AppendJsonLogWithString(s);
        InsertTwice(b, head, Quoted(s));
      case Other(t) =>
        jsonLog := Insert(jsonLog, t);
        InsertTwice(b, head, t);
    }

    /**
     * The tests of `matchPattern`'s loop, in turn: ip, duration, datetime,
     * url, each asking that the key is not yet in the buffer and that the
     * value has the shape. `None` when no test passes.
     */
    method ChooseCategory(value: string) returns (choice: Option<Category>)
      ensures choice == Choose(jsonLog, value)
    {
      ChooseChain(jsonLog, value);
      if Open(jsonLog, Ip) && Fits(Ip, value) {
        choice := Some(Ip);
      } else if Open(jsonLog, Duration) && Fits(Duration, value) {
        choice := Some(Duration);
      } else if Open(jsonLog, DateTime) && Fits(DateTime, value) {
        choice := Some(DateTime);
      } else if Open(jsonLog, Url) && Fits(Url, value) {
        choice := Some(Url);
      } else {
        choice := None;
      }
    }

    /**
     * One turn of `matchPattern`'s loop: a comma unless this is the first
     * value, then the entry of the category whose test passes first, with
     * the value as a string for ip and url, the parsed number for duration
     * and the date `getDateTime` reads for datetime. `None` is the
     * "incorrect value" throw.
     */
    method MatchValue(value: string, first: bool,
                      ghost buf0: string, ghost values: seq<string>, ghost i: nat, ghost taken: seq<Category>)
      returns (choice: Option<Category>)
      requires Valid()
      requires |buf0| > 0 && i < |values| && values[i] == value && first == (i == 0)
      requires Scan(render, buf0, values[..i]) == Pass(jsonLog, taken, false)
      modifies this
      ensures Valid()
      ensures Scan(render, buf0, values[..i + 1])
           == Pass(jsonLog, if choice.Some? then taken + [choice.value] else taken, choice.None?)
      ensures documentContent == old(documentContent)
    {
      ScanAt(render, buf0, values, i);
      ghost var q := Pass(jsonLog, taken, false);
      if !first {
        jsonLog := Insert(jsonLog, ",");
      }
      ghost var b := jsonLog;
      choice := ChooseCategory(value);
      match choice
      case None =>
        StepThrows(render, q, value, first, b);
      case Some(c) =>
        StepTakes(render, q, value, first, b, c);
        if c == DateTime {
          DateTimeValue(render, b, value);
        }
        AppendEntry(c, value);
    }

    /**
     * The entry `matchPattern` appends for a value of category `c`: the
     * value as a string for ip and url, the parsed number for duration and
     * the date `getDateTime` reads for datetime.
     */
    method AppendEntry(c: Category, value: string)
      requires Valid()
      requires c == DateTime ==> GetDateTime(value).Some?
      modifies this
      ensures Valid()
      ensures jsonLog == Insert(old(jsonLog), EntryText(Key(c), ValueOf(render, c, value)))
      ensures documentContent == old(documentContent)
    {
      match c
      case Ip =>
        AppendJsonLog("ip", Str(value));
      case Duration =>
        AppendJsonLog("duration", Other(render.number(value)));
      case DateTime =>
        var t := GetDateTime(value);
        AppendJsonLog("datetime", Other(render.date(t.value)));
      case Url =>
        AppendJsonLog("url", Str(value));
    }

    /**
     * The loop of `matchPattern`: one turn of `MatchValue` per value,
     * stopping at the first "incorrect value". `failed` tells whether it
     * stopped there.
     */
    method MatchValues(values: seq<string>) returns (failed: bool)
      requires Valid()
      modifies this
      ensures Valid()
      ensures var p := Scan(render, old(jsonLog), values); jsonLog == p.buf && failed == p.failed
      ensures documentContent == old(documentContent)
    {
      ghost var buf0 := jsonLog;
      ghost var taken: seq<Category> := [];
      var i := 0;
      while i < |values|
        invariant 0 <= i <= |values|
        invariant Valid()
        invariant Scan(render, buf0, values[..i]) == Pass(jsonLog, taken, false)
        invariant documentContent == old(documentContent)
      {
        var value := values[i];
        var choice := MatchValue(value, i == 0, buf0, values, i, taken);
        if choice.None? {
          ScanStops(render, buf0, values, i + 1);
          return true;
        }
        taken := taken + [choice.value];
        i := i + 1;
      }
      assert values[..i] == values;
      return false;
    }

    /**
     * `matchPattern`: the values of the line, matched in turn; "incorrect
     * value" at the first that fits no open category, otherwise the comma
     * count of the buffer is checked.
     */
    method MatchPattern(csvLog: string) returns (r: Result<bool, string>)
      requires Valid()
      modifies this
      ensures Valid()
      ensures var p := Scan(render, old(jsonLog), Values(csvLog, ','));
        && jsonLog == p.buf
        && r == if p.failed then Failure("incorrect value") else Full(p.buf)
      ensures documentContent == old(documentContent)
    {
      var values := GetValues(csvLog, ',');
      var failed := MatchValues(values);
      if failed {
        return Failure("incorrect value");
      }
      r := IsFull(jsonLog);
    }

    /**
     * `isValid`: clear the document, reset the buffer to `{}`, then
     * `isFull(line) && matchPattern(line)`.
     */
    method IsValid(csvLog: string) returns (r: Result<bool, string>)
      modifies this
      ensures Valid()
      ensures documentContent == map[]
      ensures Verdict(jsonLog, r) == Validate(render, csvLog)
    {
      documentContent := map[];
      jsonLog := "{}";
      var full := IsFull(csvLog);
      if full != Success(true) {
        FullNeverFalse(csvLog);
        return full;
      }
      r := MatchPattern(csvLog);
      ValidateNeverFalse(render, csvLog);
    }

    /**
     * The head of `getMapFromJsonLog`'s loop: split the piece at its first
     * colon, strip the quotes of the attribute and put the pair into the
     * document. `None`, with the document untouched, where a `substring`
     * or `removeOddQuotes` throws: on the attribute, or on a value that is
     * a lone quote, which fails both typed parses before it is stripped.
     */
    method PutPiece(piece: string) returns (pair: Option<(string, string)>)
      modifies this
      ensures pair == Pair(piece)
      ensures jsonLog == old(jsonLog)
      ensures documentContent
           == if pair.Some? then old(documentContent)[pair.value.0 := pair.value.1] else old(documentContent)
    {
      var c := IndexOf(piece, ':');
      if c == -1 || c + 2 > |piece| {
        return None;
      }
      var attr := piece[..c];
      var value := piece[c + 2..];
      var key := RemoveOddQuotes(attr);
      if key.None? || RemoveOddQuotes(value).None? {
        return None;
      }
      documentContent := documentContent[key.value := value];
      return Some((key.value, value));
    }

    /**
     * The loop of `getMapFromJsonLog`, from the text `partLog` still to
     * read and its first piece: each pair is put into the document in
     * turn; `false` where a `substring` or `removeOddQuotes` throws, with
     * the pairs put before it kept.
     */
    method PutSegments(partLog: string, piece: string) returns (ok: bool)
      modifies this
      ensures jsonLog == old(jsonLog)
      ensures var sg := Segments(partLog, piece);
        ok == sg.ok && documentContent == PutAll(old(documentContent), sg.pairs)
    {
      ghost var sg := Segments(partLog, piece);
      ghost var m := documentContent;
      var rest := partLog;
      var next := piece;
      while |rest| > 0
        invariant jsonLog == old(jsonLog)
        invariant Segments(rest, next).ok == sg.ok
        invariant PutAll(documentContent, Segments(rest, next).pairs) == PutAll(m, sg.pairs)
        decreases |rest|
      {
        ghost var cur := rest;
        ghost var d := documentContent;
        var pair := PutPiece(next);
        if pair.None? {
          SegmentsBad(cur, next);
          return false;
        }
        var p := pair.value;
        if ',' in rest {
          rest := rest[IndexOf(rest, ',') + 1..];
          var following := NextSet(rest);
          if following.None? {
            SegmentsStuck(cur, next, p, rest);
            return false;
          }
          SegmentsMore(cur, next, p, rest, following.value);
          PutAllCons(d, p, Segments(rest, following.value).pairs);
          next := following.value;
        } else {
          SegmentsLast(cur, next, p);
          rest := "";
        }
      }
      ok := true;
    }

    /**
     * `getMapFromJsonLog`: the first piece runs from after the `{` to the
     * first comma (`false` when that `substring` throws), then the loop
     * of `PutSegments` reads the rest.
     */
    method GetMapFromJsonLog() returns (ok: bool)
      modifies this
      ensures jsonLog == old(jsonLog)
      ensures var rd := ReadBack(old(jsonLog));
        ok == rd.ok && documentContent == PutAll(old(documentContent), rd.pairs)
    {
      var partLog := jsonLog;
      var k := IndexOf(partLog, ',');
      if k < 1 {
        return false;
      }
      ok := PutSegments(partLog, partLog[1..k]);
    }

    /**
     * `insertLog` up to the store: validate the line, and when it is
     * accepted read the buffer back into the document. A rejected line
     * passes its exception on, with the document already cleared by
     * `isValid`; an accepted one throws in the read-back
     * exactly when a stored value is a lone quote, and otherwise leaves
     * the document holding exactly the four keys.
     */
    method InsertLog(csvLog: string) returns (r: Result<bool, string>)
      modifies this
      ensures Valid()
      ensures jsonLog == Validate(render, csvLog).buf
      ensures Validate(render, csvLog).result.Failure? ==>
        r == Validate(render, csvLog).result && documentContent == map[]
      ensures Validate(render, csvLog).result.Success? ==>
        documentContent == PutAll(map[], ReadBack(jsonLog).pairs) &&
        (r == if ReadBack(jsonLog).ok then Success(true) else Failure(IndexError))
      ensures r.Success? ==> r.value && documentContent.Keys == Keys
    {
      r := IsValid(csvLog);
      if r == Success(true) {
        ValidatedDocument(render, csvLog);
        var ok := GetMapFromJsonLog();
        if !ok {
          r := Failure(IndexError);
        }
      }
    }
  }
}
