/** std::istream as far as std::getline observes it. */
module Stream {
  /** Unread characters, eofbit and failbit. */
  datatype StreamState = StreamState(rest: string, eof: bool, fail: bool) {
    predicate Good() { !eof && !fail }
  }

  datatype Got = Got(stream: StreamState, line: string)

  function IndexOf(s: string, c: char): (k: nat)
    ensures k <= |s| && c !in s[..k] && (k < |s| ==> s[k] == c)
  {
    if s == "" || s[0] == c then 0 else 1 + IndexOf(s[1..], c)
  }

  /** getline(stream, buffer, delim): a stream that is not good leaves the buffer alone and fails. */
  function Extract(s: StreamState, buffer: string, delim: char): Got {
    if !s.Good() then Got(s.(fail := true), buffer)
    else
      var k := IndexOf(s.rest, delim);
      if k < |s.rest| then Got(StreamState(s.rest[k + 1..], false, false), s.rest[..k])
      else Got(StreamState("", true, s.rest == ""), s.rest)
  }

  /** The pieces of text ended by delim, and a last one when text does not end with delim. */
  function Pieces(text: string, delim: char): seq<string>
    decreases |text|
  {
    if text == "" then []
    else
      var k := IndexOf(text, delim);
      if k < |text| then [text[..k]] + Pieces(text[k + 1..], delim) else [text]
  }

  /** What repeated getline calls can still deliver. */
  function Pending(s: StreamState, delim: char): seq<string> {
    if s.Good() then Pieces(s.rest, delim) else []
  }

  /** getline delivers the pieces one after the other, and fails exactly when none is left. */
  lemma GetlineDelivers(s: StreamState, buffer: string, delim: char)
    ensures var g := Extract(s, buffer, delim);
      if Pending(s, delim) == [] then g.stream.fail && Pending(g.stream, delim) == []
      else !g.stream.fail && g.line == Pending(s, delim)[0] && Pending(g.stream, delim) == Pending(s, delim)[1..]
  {
  }

  class IStream {
    var rest: string
    var eof: bool
    var fail: bool

    function State(): StreamState
      reads this
    {
      StreamState(rest, eof, fail)
    }

    constructor (text: string)
      ensures State() == StreamState(text, false, false)
    {
      rest, eof, fail := text, false, false;
    }

    predicate Good()
      reads this
    {
      State().Good()
    }

    method Getline(buffer: string, delim: char) returns (line: string)
      modifies this
      ensures State() == Extract(old(State()), buffer, delim).stream
      ensures line == Extract(old(State()), buffer, delim).line
    {
      line := buffer;
      if !Good() {
        fail := true;
        return;
      }
      line := "";
      var text := rest;
      var k := 0;
      while k < |text| && text[k] != delim
        invariant k <= |text| && line == text[..k] && delim !in line
        invariant rest == text && !eof && !fail
      {
        line := line + [text[k]];
        k := k + 1;
      }
      FirstOccurrence(text, delim, k);
      if k < |text| {
        rest := text[k + 1..];
      } else {
        rest, eof, fail := "", true, k == 0;
      }
    }
  }

  lemma {:induction false} FirstOccurrence(s: string, c: char, k: nat)
    requires k <= |s| && c !in s[..k] && (k < |s| ==> s[k] == c)
    ensures IndexOf(s, c) == k
  {
    if s != "" && s[0] != c {
      assert s[1..][..k - 1] == s[..k][1..];
      FirstOccurrence(s[1..], c, k - 1);
    }
  }
}
