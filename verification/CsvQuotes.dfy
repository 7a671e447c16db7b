/** Fields with quoted passages anywhere in them: what the scanner reads off every line of one field. */
module CsvQuotes {
  import opened Basics
  import opened CsvLine
  import opened Stream
  import opened CsvTable

  /** No comma and no quote, all on one line. */
  predicate Plain(text: string) { OneLine(text) && ',' !in text && '"' !in text }

  /** Plain text, a passage in quotes, and the one character that follows the closing quote. */
  datatype Passage = Passage(plain: string, quoted: string, after: char) {
    predicate Valid() { Plain(plain) && OneLine(quoted) && Plain([after]) }
  }

  /** The end of a field: plain text, then possibly a passage whose quote is closed, or left open, there. */
  datatype End = Bare(plain: string) | Closed(plain: string, quoted: string) | Open(plain: string, quoted: string) {
    predicate Valid() { Plain(plain) && (Bare? || OneLine(quoted)) }

    function Written(): string {
      match this
      case Bare(p) => p
      case Closed(p, q) => p + "\"" + Doubled(q) + "\""
      case Open(p, q) => p + "\"" + Doubled(q)
    }

    function Meant(): string {
      if Bare? then plain else plain + quoted
    }
  }

  predicate AllValid(passages: seq<Passage>) {
    forall p <- passages :: p.Valid()
  }

  function Written(passages: seq<Passage>, end: End): string {
    if passages == [] then end.Written()
    else
      var p := passages[0];
      p.plain + ("\"" + Doubled(p.quoted) + "\"" + [p.after] + Written(passages[1..], end))
  }

  /** Quotes enclose text, doubled ones stand for one, and the character after a closing quote is lost. */
  function Meant(passages: seq<Passage>, end: End): string {
    if passages == [] then end.Meant()
    else passages[0].plain + passages[0].quoted + Meant(passages[1..], end)
  }

  lemma ScanQuoted(s: Scanner, quoted: string, rest: string)
    requires s.state == UnquotedField
    ensures Scan(s, "\"" + Doubled(quoted) + rest)
         == Scan(s.(state := QuotedField, current := s.current + quoted), rest)
  {
    var open := s.(state := QuotedField);
    ScanConcat(s, "\"" + Doubled(quoted), rest);
    ScanConcat(s, "\"", Doubled(quoted));
    assert Scan(s, "\"") == Scan(open, "") == open;
    ScanDoubled(open, quoted);
  }

  lemma ScanClosing(s: Scanner, after: char, rest: string)
    requires s.state == QuotedField && after != ',' && after != '"'
    ensures Scan(s, "\"" + [after] + rest) == Scan(s.(state := UnquotedField), rest)
  {
    var text := "\"" + [after] + rest;
    assert text[1..] == [after] + rest && text[1..][1..] == rest;
  }

  /** The scanner at the first quote of a text, and past the passage that it opens. */
  lemma PastPassage(s: Scanner, plain: string, quoted: string, rest: string)
    requires s.state == UnquotedField && Plain(plain)
    ensures var at := s.current + plain;
      Scan(s, plain + ("\"" + Doubled(quoted) + rest)) == Scan(s.(state := QuotedField, current := at + quoted), rest)
  {
    ScanConcat(s, plain, "\"" + Doubled(quoted) + rest);
    ScanPlain(s, plain);
    ScanQuoted(s.(current := s.current + plain), quoted, rest);
  }

  lemma Regroup(a: string, b: string, c: string, d: string, e: string)
    ensures a + b + c + d + e == a + b + (c + d + e)
    ensures a + b + c + d == a + (b + c + d) && a + b + c == a + (b + c + "")
  {
  }

  lemma ScanPassage(s: Scanner, p: Passage, rest: string)
    requires s.state == UnquotedField && p.Valid()
    ensures Scan(s, p.plain + ("\"" + Doubled(p.quoted) + "\"" + [p.after] + rest))
         == Scan(s.(current := s.current + (p.plain + p.quoted)), rest)
  {
    assert p.after in [p.after];
    Regroup("\"", Doubled(p.quoted), "\"", [p.after], rest);
    PastPassage(s, p.plain, p.quoted, "\"" + [p.after] + rest);
    ScanClosing(s.(state := QuotedField, current := s.current + p.plain + p.quoted), p.after, rest);
    ConcatAssoc(s.current, p.plain, p.quoted);
  }

  lemma WrittenEnd(plain: string, quoted: string, rest: string)
    requires rest == "" || rest == "\""
    ensures (if rest == "" then Open(plain, quoted) else Closed(plain, quoted)).Written()
         == plain + ("\"" + Doubled(quoted) + rest)
  {
    Regroup(plain, "\"", Doubled(quoted), rest, "");
  }

  lemma ScanEnd(s: Scanner, end: End)
    requires s.state == UnquotedField && end.Valid()
    ensures Scan(s, end.Written()).Fields() == s.closed + [s.current + end.Meant()]
  {
    if end.Bare? {
      ScanPlain(s, end.plain);
    } else {
      var rest := if end.Closed? then "\"" else "";
      WrittenEnd(end.plain, end.quoted, rest);
      PastPassage(s, end.plain, end.quoted, rest);
      EndsThere(s.(state := QuotedField, current := s.current + end.plain + end.quoted), rest);
      ConcatAssoc(s.current, end.plain, end.quoted);
    }
  }

  lemma EndsThere(u: Scanner, rest: string)
    requires u.state == QuotedField && (rest == "" || rest == "\"")
    ensures Scan(u, rest).Fields() == u.Fields()
  {
    if rest != "" {
      assert Scan(u, rest) == Scan(Feed(u, '"'), "");
    }
  }

  lemma {:induction false} ScanWritten(s: Scanner, passages: seq<Passage>, end: End)
    requires s.state == UnquotedField && AllValid(passages) && end.Valid()
    ensures Scan(s, Written(passages, end)).Fields() == s.closed + [s.current + Meant(passages, end)]
    decreases passages
  {
    if passages == [] {
      ScanEnd(s, end);
    } else {
      var p := passages[0];
      assert p.Valid();
      ScanPassage(s, p, Written(passages[1..], end));
      var t := s.(current := s.current + (p.plain + p.quoted));
      ScanWritten(t, passages[1..], end);
      assert t.current + Meant(passages[1..], end) == s.current + Meant(passages, end);
    }
  }

  lemma {:induction false} WrittenOneLine(passages: seq<Passage>, end: End)
    requires AllValid(passages) && end.Valid()
    ensures OneLine(Written(passages, end))
  {
    if passages == [] {
      if !end.Bare? { DoubledOneLine(end.quoted); }
    } else {
      var p := passages[0];
      assert p.Valid() && p.after in [p.after];
      DoubledOneLine(p.quoted);
      WrittenOneLine(passages[1..], end);
    }
  }

  lemma DoubledOneLine(text: string)
    requires OneLine(text)
    ensures OneLine(Doubled(text))
  {
    DoubledClean(text, '\n');
    DoubledClean(text, '\r');
  }

  /** A field of any number of quoted passages, wherever they stand, reads as what it means. */
  lemma PassagesRead(passages: seq<Passage>, end: End)
    requires AllValid(passages) && end.Valid()
    ensures ParseLine(Written(passages, end)) == [Meant(passages, end)]
  {
    WrittenOneLine(passages, end);
    StripClean(Written(passages, end));
    ScanWritten(START, passages, end);
    assert START.current + Meant(passages, end) == Meant(passages, end);
  }

  /** In particular one character after a closing quote is dropped, and what follows it is kept. */
  lemma AfterClosingQuote(x: string, c: char, y: string)
    requires '\n' !in x && '\r' !in x && c != ',' && c != '"' && c != '\n' && c != '\r'
    requires '\n' !in y && '\r' !in y && ',' !in y && '"' !in y
    ensures ParseLine("\"" + Doubled(x) + "\"" + [c] + y) == [x + y]
  {
    var p := Passage("", x, c);
    assert Written([], Bare(y)) == y && Meant([], Bare(y)) == y;
    assert Written([p], Bare(y)) == "" + ("\"" + Doubled(x) + "\"" + [c] + Written([], Bare(y)));
    assert Written([p], Bare(y)) == "\"" + Doubled(x) + "\"" + [c] + y;
    assert Meant([p], Bare(y)) == "" + x + Meant([], Bare(y)) == x + y;
    PassagesRead([p], Bare(y));
  }

  // Every line of one field is of this kind

  /** What stands in quotes at the start of text, and what comes after it. */
  lemma {:induction false} Undouble(text: string) returns (quoted: string, rest: string)
    ensures text == Doubled(quoted) + rest && |rest| <= |text|
    ensures forall c | c in quoted || c in rest :: c in text
    ensures rest == "" || (rest[0] == '"' && (|rest| == 1 || rest[1] != '"'))
  {
    if text == "" || (text[0] == '"' && (|text| == 1 || text[1] != '"')) {
      quoted, rest := "", text;
    } else {
      var n := if text[0] == '"' then 2 else 1;
      var more;
      more, rest := Undouble(text[n..]);
      quoted := [text[0]] + more;
      assert quoted[1..] == more && text == text[..n] + text[n..];
      assert Doubled(quoted) == text[..n] + Doubled(more);
    }
  }

  lemma FirstQuote(text: string, k: nat) returns (quoted: string, rest: string)
    requires OneLine(text) && k < |text| && text[k] == '"'
    ensures text == text[..k] + ("\"" + Doubled(quoted) + rest) && |rest| < |text|
    ensures OneLine(quoted) && OneLine(rest)
    ensures rest == "" || (rest[0] == '"' && (|rest| == 1 || rest[1] != '"'))
  {
    var tail := text[k + 1..];
    quoted, rest := Undouble(tail);
    assert OneLine(tail);
    ConcatAssoc("\"", Doubled(quoted), rest);
    assert text == text[..k] + ("\"" + tail);
  }

  /** The passages of a line that the scanner takes for one field. */
  lemma {:induction false} EveryField(s: Scanner, text: string) returns (passages: seq<Passage>, end: End)
    requires s.state == UnquotedField && OneLine(text) && |Scan(s, text).Fields()| == |s.Fields()|
    ensures AllValid(passages) && end.Valid() && Written(passages, end) == text
    decreases |text|
  {
    var k := IndexOf(text, '"');
    var plain := text[..k];
    NoCommaBefore(s, text, k);
    if k == |text| {
      assert plain == text;
      return [], Bare(text);
    }
    var quoted, rest := FirstQuote(text, k);
    PastPassage(s, plain, quoted, rest);
    if |rest| <= 1 {
      end := if rest == "" then Open(plain, quoted) else Closed(plain, quoted);
      WrittenEnd(plain, quoted, rest);
      return [], end;
    }
    passages, end :=
      EveryRest(s.(state := QuotedField, current := s.current + plain + quoted), rest, Passage(plain, quoted, rest[1]));
  }

  lemma {:induction false} EveryRest(u: Scanner, rest: string, p: Passage) returns (passages: seq<Passage>, end: End)
    requires u.state == QuotedField && OneLine(rest) && |Scan(u, rest).Fields()| == |u.Fields()|
    requires |rest| > 1 && rest[0] == '"' && rest[1] != '"' && p.after == rest[1]
    requires Plain(p.plain) && OneLine(p.quoted)
    ensures AllValid(passages) && end.Valid()
    ensures Written(passages, end) == p.plain + ("\"" + Doubled(p.quoted) + rest)
    decreases |rest|
  {
    var more := rest[2..];
    assert rest == "\"" + [p.after] + more;
    AfterIsPlain(u, p.after, more);
    ScanClosing(u, p.after, more);
    var others;
    others, end := EveryField(u.(state := UnquotedField), more);
    passages := [p] + others;
    assert p.Valid() && passages[1..] == others;
    assert "\"" + Doubled(p.quoted) + "\"" + [p.after] + more == "\"" + Doubled(p.quoted) + rest;
  }

  /** A comma outside quotes would end the field. */
  lemma NoCommaBefore(s: Scanner, text: string, k: nat)
    requires s.state == UnquotedField && k <= |text| && '"' !in text[..k]
    requires |Scan(s, text).Fields()| == |s.Fields()|
    ensures ',' !in text[..k]
  {
    if ',' in text[..k] {
      var j := IndexOf(text[..k], ',');
      assert text[..k][..j] == text[..j] && text[..k][j] == text[j];
      assert text == text[..j] + text[j..] && text[j..][0] == ',';
      CommaEnds(s, text[..j], text[j..]);
    }
  }

  lemma CommaEnds(s: Scanner, a: string, b: string)
    requires s.state == UnquotedField && ',' !in a && '"' !in a && b != "" && b[0] == ','
    ensures |Scan(s, a + b).Fields()| > |s.Fields()|
  {
    ScanConcat(s, a, b);
    ScanPlain(s, a);
    ScanFieldCount(Feed(s.(current := s.current + a), ','), b[1..]);
  }

  lemma AfterIsPlain(u: Scanner, after: char, more: string)
    requires u.state == QuotedField && after != '"'
    requires |Scan(u, "\"" + [after] + more).Fields()| == |u.Fields()|
    ensures after != ','
  {
    var text := "\"" + [after] + more;
    assert text[1..] == [after] + more && text[1..][1..] == more;
    ScanFieldCount(Feed(Feed(u, '"'), after), more);
  }

  /** The fields of every line: a line the reader takes for one field is made of passages, and reads as
      what they mean. */
  lemma OneFieldLines(line: string) returns (passages: seq<Passage>, end: End)
    requires OneLine(line) && |ParseLine(line)| == 1
    ensures AllValid(passages) && end.Valid() && Written(passages, end) == line
    ensures ParseLine(line) == [Meant(passages, end)]
  {
    StripClean(line);
    passages, end := EveryField(START, line);
    PassagesRead(passages, end);
  }
}
