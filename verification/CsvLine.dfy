/** One CSV line: the three-state scanner of CSVRow::next as a function of the characters read. */
module CsvLine {
  import opened Basics

  datatype State = UnquotedField | QuotedField | QuotedQuote

  /** The fields already ended by a comma, and the field being read. */
  datatype Scanner = Scanner(state: State, closed: seq<string>, current: string) {
    function Fields(): seq<string> { closed + [current] }
  }

  const START := Scanner(UnquotedField, [], "")

  function Feed(s: Scanner, c: char): Scanner {
    match s.state
    case UnquotedField =>
      if c == ',' then Scanner(UnquotedField, s.Fields(), "")
      else if c == '"' then s.(state := QuotedField)
      else s.(current := s.current + [c])
    case QuotedField =>
      if c == '"' then s.(state := QuotedQuote)
      else s.(current := s.current + [c])
    case QuotedQuote =>
      if c == ',' then Scanner(UnquotedField, s.Fields(), "")
      else if c == '"' then Scanner(QuotedField, s.closed, s.current + ['"'])
      else s.(state := UnquotedField)
  }

  function Scan(s: Scanner, text: string): Scanner
    decreases text
  {
    if text == "" then s else Scan(Feed(s, text[0]), text[1..])
  }

  function Strip(line: string): string {
    Without(Without(line, '\n'), '\r')
  }

  function ParseLine(line: string): seq<string> {
    Scan(START, Strip(line)).Fields()
  }

  /** The commas of text that the scanner reads outside an open quote. */
  function SeparatorsFrom(state: State, text: string): nat
    decreases text
  {
    if text == "" then 0
    else (if text[0] == ',' && state != QuotedField then 1 else 0)
         + SeparatorsFrom(Feed(Scanner(state, [], ""), text[0]).state, text[1..])
  }

  lemma {:induction false} ScanConcat(s: Scanner, a: string, b: string)
    ensures Scan(s, a + b) == Scan(Scan(s, a), b)
    decreases a
  {
    if a == "" {
      assert a + b == b;
    } else {
      assert (a + b)[1..] == a[1..] + b;
      ScanConcat(Feed(s, a[0]), a[1..], b);
    }
  }

  /** Scanning does not look at the fields it has closed. */
  lemma {:induction false} ScanFrame(s: Scanner, pre: seq<string>, text: string)
    ensures Scan(s.(closed := pre + s.closed), text) ==
            Scan(s, text).(closed := pre + Scan(s, text).closed)
    decreases text
  {
    if text != "" {
      var t := Feed(s, text[0]);
      assert pre + s.Fields() == pre + s.closed + [s.current];
      assert Feed(s.(closed := pre + s.closed), text[0]) == t.(closed := pre + t.closed);
      ScanFrame(t, pre, text[1..]);
    }
  }

  /** The closed fields only grow, and inside the current field its text only grows. */
  lemma {:induction false} ScanExtends(s: Scanner, text: string)
    ensures s.closed <= Scan(s, text).closed
    ensures |s.closed| < |Scan(s, text).Fields()| && s.current <= Scan(s, text).Fields()[|s.closed|]
    decreases text
  {
    if text != "" {
      var t := Feed(s, text[0]);
      ScanExtends(t, text[1..]);
      if t.closed != s.closed {
        assert t.closed[|s.closed|] == s.current;
        assert Scan(s, text).closed[|s.closed|] == s.current;
      }
    }
  }

  lemma StripConcat(a: string, b: string)
    ensures Strip(a + b) == Strip(a) + Strip(b)
  {
    WithoutConcat(a, b, '\n');
    WithoutConcat(Without(a, '\n'), Without(b, '\n'), '\r');
  }

  lemma StripClean(s: string)
    requires '\n' !in s && '\r' !in s
    ensures Strip(s) == s
  {
    WithoutAbsent(s, '\n');
    WithoutAbsent(s, '\r');
  }

  lemma StripIdempotent(s: string)
    ensures Strip(Strip(s)) == Strip(s)
    ensures '\n' !in Strip(s) && '\r' !in Strip(s)
  {
    var t := Without(s, '\n');
    WithoutRemoves(s, '\n', '\n');
    WithoutRemoves(t, '\r', '\n');
    WithoutRemoves(t, '\r', '\r');
    StripClean(Strip(s));
  }

  /** Reading a comma between two texts: the scanner state after the first decides what it means. */
  lemma ScanJoined(x: string, y: string)
    ensures Scan(START, x + "," + y) == Scan(Feed(Scan(START, x), ','), y)
  {
    var s := Scan(START, x);
    ScanConcat(START, x + ",", y);
    ScanConcat(START, x, ",");
    assert Scan(s, ",") == Scan(Feed(s, ','), "");
  }

  lemma JoinOutsideQuote(x: string, y: string)
    requires Scan(START, x).state != QuotedField
    ensures Scan(START, x + "," + y).Fields() == Scan(START, x).Fields() + Scan(START, y).Fields()
  {
    var s := Scan(START, x);
    var r := Scan(START, y);
    ScanJoined(x, y);
    assert Feed(s, ',') == START.(closed := s.Fields() + START.closed);
    ScanFrame(START, s.Fields(), y);
    assert s.Fields() + r.closed + [r.current] == s.Fields() + r.Fields();
  }

  lemma JoinInsideQuote(x: string, y: string)
    requires Scan(START, x).state == QuotedField
    ensures Scan(START, x + "," + y).Fields() != Scan(START, x).Fields() + Scan(START, y).Fields()
  {
    var s := Scan(START, x);
    var n := |s.closed|;
    var t := Feed(s, ',');
    ScanJoined(x, y);
    ScanExtends(t, y);
    assert s.Fields()[n] == s.current;
    assert |Scan(t, y).Fields()[n]| > |s.current|;
  }

  /** Gluing two lines with a comma glues their field lists exactly when the first
      line does not leave a quote open. */
  lemma ParserComposition(a: string, b: string)
    ensures ParseLine(a + "," + b) == ParseLine(a) + ParseLine(b)
       <==> Scan(START, Strip(a)).state != QuotedField
  {
    StripConcat(a + ",", b);
    StripConcat(a, ",");
    StripClean(",");
    if Scan(START, Strip(a)).state != QuotedField {
      JoinOutsideQuote(Strip(a), Strip(b));
    } else {
      JoinInsideQuote(Strip(a), Strip(b));
    }
  }

  lemma {:induction false} ScanFieldCount(s: Scanner, text: string)
    ensures |Scan(s, text).Fields()| == |s.Fields()| + SeparatorsFrom(s.state, text)
    decreases text
  {
    if text != "" {
      ScanFieldCount(Feed(s, text[0]), text[1..]);
    }
  }

  /** A line has one field more than it has commas outside open quotes. */
  lemma FieldCount(line: string)
    ensures |ParseLine(line)| == 1 + SeparatorsFrom(UnquotedField, Strip(line))
  {
    ScanFieldCount(START, Strip(line));
  }
}
