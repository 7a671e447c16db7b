/** The one reused row of CSVIterator, never cleared, against a fresh row for every line. */
module RowIndependence {
  import opened Basics
  import opened CsvReader
  import opened Transformers

  ghost predicate SameValues(m: Values, n: Values) {
    forall c :: Get(m, c) == Get(n, c)
  }

  /** The two rows answer alike outside these columns. */
  ghost predicate SameExcept(m: Values, n: Values, columns: set<string>) {
    forall c | c !in columns :: Get(m, c) == Get(n, c)
  }

  /** The last set of column c, if any, is to a nonempty value; filled says so of the actions before. */
  predicate LeftFilled(actions: seq<Action>, c: string, filled: bool)
    decreases actions
  {
    if actions == [] then filled
    else LeftFilled(actions[1..], c, if SetsColumn(actions[0], c) then actions[0].value != "" else filled)
  }

  predicate SetsColumn(a: Action, c: string) { a.kind == Set && a.column == c }

  /** The columns outside the header that the chain can leave filled: only a set fills an empty column. */
  function Scratch(actions: seq<Action>, columns: seq<string>): set<string> {
    set a | a in actions && a.column !in columns && LeftFilled(actions, a.column, false) :: a.column
  }

  lemma {:induction false} FilledIsSet(actions: seq<Action>, c: string, filled: bool)
    requires LeftFilled(actions, c, filled)
    ensures filled || exists a <- actions :: SetsColumn(a, c) && a.value != ""
    decreases actions
  {
    if actions != [] {
      FilledIsSet(actions[1..], c, if SetsColumn(actions[0], c) then actions[0].value != "" else filled);
    }
  }

  /** Columns that neither the header has nor the chain can leave filled are empty. */
  ghost predicate OnlyKnown(m: Values, columns: seq<string>, scratch: set<string>) {
    forall c | c !in columns && c !in scratch :: Get(m, c) == ""
  }

  /** The columns whose values an action looks at. */
  predicate Reads(a: Action, c: string) {
    (a.kind != Set && a.column == c) || ((a.kind == Append || a.kind == Prepend) && a.fromColumn == c)
  }

  predicate ReadsNone(a: Action, columns: set<string>) {
    (a.kind == Set || a.column !in columns)
    && (a.kind == Append || a.kind == Prepend ==> a.fromColumn !in columns)
  }

  lemma ReadsNoneMeaning(a: Action, columns: set<string>)
    ensures ReadsNone(a, columns) <==> forall c | c in columns :: !Reads(a, c)
  {
    if ReadsNone(a, columns) {
    } else if a.kind != Set && a.column in columns {
      assert Reads(a, a.column);
    } else {
      assert Reads(a, a.fromColumn);
    }
  }

  /** What is left of stale columns once an action has run. */
  function StillStale(a: Action, stale: set<string>): set<string> {
    if a.kind == Set then stale - {a.column} else stale
  }

  /** No action reads a stale column before a set of that column earlier in the list. */
  predicate SetsBeforeReads(actions: seq<Action>, stale: set<string>)
    decreases actions
  {
    actions == [] || (ReadsNone(actions[0], stale) && SetsBeforeReads(actions[1..], StillStale(actions[0], stale)))
  }

  /** The chain can be run on a reused row: the columns outside the header that it leaves filled are set
      before they are read. */
  predicate ReusableChain(actions: seq<Action>, columns: seq<string>) {
    SetsBeforeReads(actions, Scratch(actions, columns))
  }

  /** In particular a chain that sets no column outside the header, whatever it reads or appends to. */
  lemma HeaderOnlyReusable(actions: seq<Action>, columns: seq<string>)
    requires forall a <- actions :: a.kind == Set ==> a.column in columns || a.value == ""
    ensures ReusableChain(actions, columns)
  {
    forall c | c in Scratch(actions, columns) ensures false {
      FilledIsSet(actions, c, false);
    }
    assert Scratch(actions, columns) == {};
    NothingStale(actions);
  }

  lemma {:induction false} NothingStale(actions: seq<Action>)
    ensures SetsBeforeReads(actions, {})
  {
    if actions != [] {
      assert StillStale(actions[0], {}) == {};
      NothingStale(actions[1..]);
    }
  }

  /** A row built from one line alone. */
  function FreshRow(columns: seq<string>, fields: seq<string>, actions: seq<Action>): Values
    requires |fields| <= |columns|
  {
    ActAll(actions, Store(map[], columns, fields))
  }

  /** The values publish sees line after line: parsed over, and transformed in, what the last line left. */
  function ReusedRows(base: Values, columns: seq<string>, rows: seq<seq<string>>, actions: seq<Action>)
    : (ms: seq<Values>)
    requires forall r <- rows :: |r| <= |columns|
    ensures |ms| == |rows|
    decreases rows
  {
    if rows == [] then []
    else
      assert rows[0] in rows;
      var m := ActAll(actions, Store(base, columns, rows[0]));
      [m] + ReusedRows(m, columns, rows[1..], actions)
  }

  lemma {:induction false} StoreOverwrites(m: Values, n: Values, columns: seq<string>, fields: seq<string>, c: string)
    requires |fields| <= |columns|
    ensures c in columns[..|fields|] ==> Get(Store(m, columns, fields), c) == Get(Store(n, columns, fields), c)
    ensures c !in columns[..|fields|] ==> Get(Store(m, columns, fields), c) == Get(m, c)
    decreases fields
  {
    if fields != [] {
      var k := |fields| - 1;
      StoreOverwrites(m, n, columns, fields[..k], c);
      assert columns[..|fields|] == columns[..k] + [columns[k]];
    }
  }

  /** What an action makes of its own column, given the values of that and of the other one. */
  function ValueAfter(a: Action, own: string, other: string): string {
    match a.kind
    case Set => a.value
    case BaseTransformer => if own == "" then own else "BASE " + own
    case Unuuid => Dashless(own)
    case Map => if own == "" || own !in a.lookup then own else a.lookup[own]
    case _ => Glued(a, own, other)
  }

  /** What append or prepend makes of its own value and the other one. */
  function Glued(a: Action, own: string, other: string): string {
    if own == "" || other == "" then own else if a.kind == Append then own + other else other + own
  }

  /** An action gives its own column that value and leaves all others as they are. */
  lemma ActValue(a: Action, m: Values, c: string)
    ensures Get(Act(a, m), c)
         == if c == a.column then ValueAfter(a, Get(m, a.column), Get(m, a.fromColumn)) else Get(m, c)
  {
  }

  /** The new value of any column depends on three old values only. */
  lemma ActDepends(a: Action, m: Values, n: Values, c: string)
    requires Get(m, a.column) == Get(n, a.column)
    requires Get(m, a.fromColumn) == Get(n, a.fromColumn)
    requires Get(m, c) == Get(n, c)
    ensures Get(Act(a, m), c) == Get(Act(a, n), c)
  {
    ActValue(a, m, c);
    ActValue(a, n, c);
  }

  /** A kind without a second column depends on two. */
  lemma ActDependsOwn(a: Action, m: Values, n: Values, c: string)
    requires a.kind != Append && a.kind != Prepend
    requires Get(m, a.column) == Get(n, a.column) && Get(m, c) == Get(n, c)
    ensures Get(Act(a, m), c) == Get(Act(a, n), c)
  {
    ActValue(a, m, c);
    ActValue(a, n, c);
  }

  lemma ActRespects(a: Action, m: Values, n: Values)
    requires SameValues(m, n)
    ensures SameValues(Act(a, m), Act(a, n))
  {
    forall c ensures Get(Act(a, m), c) == Get(Act(a, n), c) {
      ActDepends(a, m, n, c);
    }
  }

  lemma {:induction false} ActAllRespects(actions: seq<Action>, m: Values, n: Values)
    requires SameValues(m, n)
    ensures SameValues(ActAll(actions, m), ActAll(actions, n))
    decreases actions
  {
    if actions != [] {
      ActRespects(actions[0], m, n);
      ActAllRespects(actions[1..], Act(actions[0], m), Act(actions[0], n));
    }
  }

  /** A transformer changes the value of its own column at most. */
  lemma ActFrame(a: Action, m: Values, c: string)
    requires c != a.column
    ensures Get(Act(a, m), c) == Get(m, c)
  {
  }

  /** A column that is not left filled ends up empty. */
  lemma {:induction false} EndsEmpty(actions: seq<Action>, m: Values, c: string, filled: bool)
    requires !LeftFilled(actions, c, filled) && (!filled ==> Get(m, c) == "")
    ensures Get(ActAll(actions, m), c) == ""
    decreases actions
  {
    if actions != [] {
      var a := actions[0];
      EmptyAfter(a, m, c);
      EndsEmpty(actions[1..], Act(a, m), c, if SetsColumn(a, c) then a.value != "" else filled);
    }
  }

  lemma EmptyAfter(a: Action, m: Values, c: string)
    ensures SetsColumn(a, c) ==> Get(Act(a, m), c) == a.value
    ensures !SetsColumn(a, c) && Get(m, c) == "" ==> Get(Act(a, m), c) == ""
  {
    if a.column != c { ActFrame(a, m, c); }
  }

  lemma {:induction false} ActAllFrame(actions: seq<Action>, m: Values, c: string)
    requires forall a <- actions :: a.column != c
    ensures Get(ActAll(actions, m), c) == Get(m, c)
    decreases actions
  {
    if actions != [] {
      ActFrame(actions[0], m, c);
      ActAllFrame(actions[1..], Act(actions[0], m), c);
    }
  }

  lemma ActSameExcept(a: Action, m: Values, n: Values, stale: set<string>)
    requires SameExcept(m, n, stale) && ReadsNone(a, stale)
    ensures SameExcept(Act(a, m), Act(a, n), StillStale(a, stale))
  {
    forall c | c !in StillStale(a, stale) ensures Get(Act(a, m), c) == Get(Act(a, n), c) {
      if a.kind == Set {
        if c != a.column {
          ActFrame(a, m, c);
          ActFrame(a, n, c);
        }
      } else if a.kind == Append || a.kind == Prepend {
        ActDepends(a, m, n, c);
      } else {
        ActDependsOwn(a, m, n, c);
      }
    }
  }

  /** A column that is written and never read while stale ends up set: no difference survives the chain. */
  lemma {:induction false} ActAllSame(actions: seq<Action>, m: Values, n: Values, stale: set<string>)
    requires SameExcept(m, n, stale) && SetsBeforeReads(actions, stale)
    requires forall c <- stale :: exists a :: a in actions && a.column == c
    ensures SameValues(ActAll(actions, m), ActAll(actions, n))
    decreases actions
  {
    if actions == [] {
      assert stale == {};
    } else {
      var a, rest := actions[0], StillStale(actions[0], stale);
      ActSameExcept(a, m, n, stale);
      forall c <- rest ensures exists b :: b in actions[1..] && b.column == c {
        var b :| b in actions && b.column == c;
        assert b != a && b in actions[1..];
      }
      ActAllSame(actions[1..], Act(a, m), Act(a, n), rest);
    }
  }

  lemma OneLine(base: Values, columns: seq<string>, fields: seq<string>, actions: seq<Action>)
    requires |fields| == |columns| && OnlyKnown(base, columns, Scratch(actions, columns))
    requires ReusableChain(actions, columns)
    ensures var m := ActAll(actions, Store(base, columns, fields));
      SameValues(m, FreshRow(columns, fields, actions)) && OnlyKnown(m, columns, Scratch(actions, columns))
  {
    assert columns[..|fields|] == columns;
    var scratch := Scratch(actions, columns);
    var m, n := Store(base, columns, fields), Store(map[], columns, fields);
    forall c | c !in scratch ensures Get(m, c) == Get(n, c) && (c !in columns ==> Get(m, c) == "") {
      StoreOverwrites(base, map[], columns, fields, c);
      StoreOverwrites(map[], base, columns, fields, c);
    }
    forall c <- scratch ensures exists a :: a in actions && a.column == c {
      var a :| a in actions && a.column !in columns && a.column == c;
    }
    ActAllSame(actions, m, n, scratch);
    forall c | c !in columns && c !in scratch ensures Get(ActAll(actions, m), c) == "" {
      if LeftFilled(actions, c, false) {
        FilledIsSet(actions, c, false);
      }
      EndsEmpty(actions, m, c, false);
    }
  }

  /** Over a whole file: with every line of header width and a chain that sets the columns outside the
      header it leaves filled before it reads them, the reused row shows for each line what a fresh row would. */
  lemma {:induction false} RowsIndependent(base: Values, columns: seq<string>, rows: seq<seq<string>>,
                                           actions: seq<Action>, i: nat)
    requires forall r <- rows :: |r| == |columns|
    requires OnlyKnown(base, columns, Scratch(actions, columns)) && ReusableChain(actions, columns)
    requires i < |rows|
    ensures SameValues(ReusedRows(base, columns, rows, actions)[i], FreshRow(columns, rows[i], actions))
    decreases rows
  {
    assert rows[0] in rows;
    OneLine(base, columns, rows[0], actions);
    if i > 0 {
      RowsIndependent(ActAll(actions, Store(base, columns, rows[0])), columns, rows[1..], actions, i - 1);
    }
  }

  lemma StoreRespects(m: Values, n: Values, columns: seq<string>, fields: seq<string>)
    requires SameValues(m, n) && |fields| <= |columns|
    ensures SameValues(Store(m, columns, fields), Store(n, columns, fields))
  {
    forall c ensures Get(Store(m, columns, fields), c) == Get(Store(n, columns, fields), c) {
      assert Get(m, c) == Get(n, c);
      StoreOverwrites(m, n, columns, fields, c);
      StoreOverwrites(n, m, columns, fields, c);
    }
  }

  /** Line i of a file shows what a row of its own would. */
  ghost predicate ShowsOwn(columns: seq<string>, actions: seq<Action>, rows: seq<seq<string>>, i: nat) {
    && i < |rows| && (forall r <- rows :: |r| == |columns|)
    && SameValues(ReusedRows(map[], columns, rows, actions)[i], FreshRow(columns, rows[i], actions))
  }

  /** Whether a chain keeps lines independent is decided by the files of two lines. */
  lemma TwoLinesDecide(columns: seq<string>, actions: seq<Action>)
    ensures (forall f: seq<string>, g: seq<string> | |f| == |g| == |columns| :: ShowsOwn(columns, actions, [f, g], 1))
      <==> (forall rows: seq<seq<string>>, i: nat | i < |rows| && (forall r <- rows :: |r| == |columns|) ::
              ShowsOwn(columns, actions, rows, i))
  {
    if forall f: seq<string>, g: seq<string> | |f| == |g| == |columns| :: ShowsOwn(columns, actions, [f, g], 1) {
      forall rows: seq<seq<string>>, i: nat | i < |rows| && (forall r <- rows :: |r| == |columns|)
        ensures ShowsOwn(columns, actions, rows, i)
      {
        LineByLine(columns, actions, rows, i);
      }
    }
  }

  lemma {:induction false} LineByLine(columns: seq<string>, actions: seq<Action>, rows: seq<seq<string>>, i: nat)
    requires forall f: seq<string>, g: seq<string> | |f| == |g| == |columns| :: ShowsOwn(columns, actions, [f, g], 1)
    requires i < |rows| && forall r <- rows :: |r| == |columns|
    ensures ShowsOwn(columns, actions, rows, i)
  {
    ReusedAt(map[], columns, rows, actions, i);
    if i > 0 {
      LineByLine(columns, actions, rows, i - 1);
      var f, g, ms := rows[i - 1], rows[i], ReusedRows(map[], columns, rows, actions);
      assert f in rows && g in rows && ShowsOwn(columns, actions, [f, g], 1);
      ReusedAt(map[], columns, [f, g], actions, 0);
      ReusedAt(map[], columns, [f, g], actions, 1);
      var own := FreshRow(columns, f, actions);
      StoreRespects(ms[i - 1], own, columns, g);
      ActAllRespects(actions, Store(ms[i - 1], columns, g), Store(own, columns, g));
    }
  }

  /** Without transformers, a parsed line hides all earlier lines exactly from the columns it has
      fields for: the width condition cannot be dropped. */
  lemma {:induction false} ShortLineKeepsStale(columns: seq<string>, fields: seq<string>, c: string)
    requires |fields| <= |columns|
    ensures (forall base :: Get(Store(base, columns, fields), c) == Get(Store(map[], columns, fields), c))
       <==> c in columns[..|fields|]
  {
    if c in columns[..|fields|] {
      forall base ensures Get(Store(base, columns, fields), c) == Get(Store(map[], columns, fields), c) {
        StoreOverwrites(base, map[], columns, fields, c);
      }
    } else {
      var base := map[c := "stale"];
      StoreOverwrites(base, map[], columns, fields, c);
      StoreOverwrites(map[], base, columns, fields, c);
      assert Get(base, c) != Get(map[], c);
    }
  }

  // Chains that leak

  /** Action i glues the outside column x to the header column h, which no other action writes; x is written
      only after it, and left at the nonempty value v by a set. */
  ghost predicate Leaky(actions: seq<Action>, columns: seq<string>, i: nat, x: string, v: string) {
    && i < |actions| && (actions[i].kind == Append || actions[i].kind == Prepend)
    && actions[i].column in columns && actions[i].fromColumn == x && x !in columns && v != ""
    && (forall a <- actions[..i] :: a.column != x && a.column != actions[i].column)
    && (forall a <- actions[i + 1..] :: a.column != actions[i].column)
    && LeavesSet(actions[i + 1..], x, v)
  }

  /** The last action on x sets it to v. */
  ghost predicate LeavesSet(actions: seq<Action>, x: string, v: string) {
    exists j | 0 <= j < |actions| :: actions[j].kind == Set && actions[j].column == x && actions[j].value == v
      && forall a <- actions[j + 1..] :: a.column != x
  }

  lemma {:induction false} ActAllConcat(a: seq<Action>, b: seq<Action>, m: Values)
    ensures ActAll(a + b, m) == ActAll(b, ActAll(a, m))
    decreases a
  {
    if a == [] {
      assert a + b == b;
    } else {
      assert (a + b)[1..] == a[1..] + b;
      ActAllConcat(a[1..], b, Act(a[0], m));
    }
  }

  /** A chain is its first i actions, then action i, then the others. */
  lemma ActAllSplit(actions: seq<Action>, i: nat, m: Values)
    requires i < |actions|
    ensures ActAll(actions, m) == ActAll(actions[i + 1..], Act(actions[i], ActAll(actions[..i], m)))
  {
    assert actions == actions[..i] + actions[i..];
    ActAllConcat(actions[..i], actions[i..], m);
    TakeNext(actions, i);
  }

  lemma LeftAtSet(actions: seq<Action>, x: string, v: string, m: Values)
    requires LeavesSet(actions, x, v)
    ensures Get(ActAll(actions, m), x) == v
  {
    var j :| 0 <= j < |actions| && actions[j].kind == Set && actions[j].column == x && actions[j].value == v
      && forall a <- actions[j + 1..] :: a.column != x;
    ActAllSplit(actions, j, m);
    ActAllFrame(actions[j + 1..], Act(actions[j], ActAll(actions[..j], m)), x);
  }

  /** One line of a leaky chain: h is glued to what x held before the line, and x is left at v. */
  lemma LeakyLine(base: Values, columns: seq<string>, fields: seq<string>, actions: seq<Action>, i: nat, x: string,
                  v: string)
    requires |fields| == |columns| && Leaky(actions, columns, i, x, v)
    ensures var m := ActAll(actions, Store(base, columns, fields));
      var h := actions[i].column;
      && Get(m, x) == v
      && Get(m, h) == Glued(actions[i], Get(Store(map[], columns, fields), h), Get(base, x))
  {
    var a, h := actions[i], actions[i].column;
    var m0 := Store(base, columns, fields);
    var m1 := ActAll(actions[..i], m0);
    assert columns[..|fields|] == columns;
    StoreOverwrites(base, map[], columns, fields, h);
    StoreOverwrites(base, map[], columns, fields, x);
    ActAllFrame(actions[..i], m0, h);
    ActAllFrame(actions[..i], m0, x);
    ActAllSplit(actions, i, m0);
    ActAllFrame(actions[i + 1..], Act(a, m1), h);
    LeftAtSet(actions[i + 1..], x, v, Act(a, m1));
  }

  /** Line k finds what line k - 1 has left. */
  lemma {:induction false} ReusedAt(base: Values, columns: seq<string>, rows: seq<seq<string>>, actions: seq<Action>,
                                    k: nat)
    requires (forall r <- rows :: |r| <= |columns|) && k < |rows|
    ensures |rows[k]| <= |columns|
    ensures var ms := ReusedRows(base, columns, rows, actions);
      ms[k] == ActAll(actions, Store(if k == 0 then base else ms[k - 1], columns, rows[k]))
    decreases rows
  {
    assert rows[0] in rows && rows[k] in rows;
    if k > 0 {
      ReusedAt(ActAll(actions, Store(base, columns, rows[0])), columns, rows[1..], actions, k - 1);
    }
  }

  /** A leaky chain leaks in every file of header width: every line after the first that has a value in h
      shows it with v glued on, although a row built from that line alone shows the value itself. */
  lemma LeakyChainLeaks(base: Values, columns: seq<string>, rows: seq<seq<string>>, actions: seq<Action>, i: nat,
                        x: string, v: string, k: nat)
    requires (forall r <- rows :: |r| == |columns|) && Leaky(actions, columns, i, x, v) && 0 < k < |rows|
    requires Get(Store(map[], columns, rows[k]), actions[i].column) != ""
    ensures var a, own := actions[i], Get(Store(map[], columns, rows[k]), actions[i].column);
      && Get(FreshRow(columns, rows[k], actions), a.column) == own
      && Get(ReusedRows(base, columns, rows, actions)[k], a.column) == Glued(a, own, v) != own
  {
    assert rows[k] in rows && rows[k - 1] in rows;
    ReusedAt(base, columns, rows, actions, k - 1);
    ReusedAt(base, columns, rows, actions, k);
    var ms := ReusedRows(base, columns, rows, actions);
    LeakyLine(if k == 1 then base else ms[k - 2], columns, rows[k - 1], actions, i, x, v);
    LeakyLine(ms[k - 1], columns, rows[k], actions, i, x, v);
    LeakyLine(map[], columns, rows[k], actions, i, x, v);
    var own := Get(Store(map[], columns, rows[k]), actions[i].column);
    assert |Glued(actions[i], own, v)| == |own| + |v|;
  }

  /** No leaky chain is a reusable one. */
  lemma LeakyNotReusable(actions: seq<Action>, columns: seq<string>, i: nat, x: string, v: string)
    requires Leaky(actions, columns, i, x, v)
    ensures !ReusableChain(actions, columns)
  {
    var j :| 0 <= j < |actions| - (i + 1) && actions[i + 1..][j].kind == Set && actions[i + 1..][j].column == x;
    LastSetFills(actions[i + 1..], x, v, false);
    LeftFilledFrom(actions, i + 1, x, false);
    assert actions[i + 1 + j] in actions && x in Scratch(actions, columns);
    ReadTooEarly(actions, Scratch(actions, columns), i, x);
  }

  lemma {:induction false} LastSetFills(actions: seq<Action>, x: string, v: string, filled: bool)
    requires LeavesSet(actions, x, v) && v != ""
    ensures LeftFilled(actions, x, true) && LeftFilled(actions, x, filled)
    decreases actions
  {
    var j :| 0 <= j < |actions| && actions[j].kind == Set && actions[j].column == x && actions[j].value == v
      && forall a <- actions[j + 1..] :: a.column != x;
    if j == 0 {
      StaysFilled(actions[1..], x, true);
    } else {
      assert actions[1..][j - 1] == actions[j] && actions[1..][j..] == actions[j + 1..];
      LastSetFills(actions[1..], x, v, true);
      LastSetFills(actions[1..], x, v, false);
    }
  }

  lemma {:induction false} StaysFilled(actions: seq<Action>, x: string, filled: bool)
    requires forall a <- actions :: a.column != x
    ensures LeftFilled(actions, x, filled) == filled
    decreases actions
  {
    if actions != [] {
      StaysFilled(actions[1..], x, filled);
    }
  }

  /** If the actions from n on leave x filled whatever went before, so does the chain. */
  lemma {:induction false} LeftFilledFrom(actions: seq<Action>, n: nat, x: string, filled: bool)
    requires n <= |actions| && LeftFilled(actions[n..], x, true) && LeftFilled(actions[n..], x, false)
    ensures LeftFilled(actions, x, filled)
    decreases n
  {
    if n == 0 {
      assert actions[0..] == actions;
    } else {
      assert actions[1..][n - 1..] == actions[n..];
      LeftFilledFrom(actions[1..], n - 1, x, true);
      LeftFilledFrom(actions[1..], n - 1, x, false);
    }
  }

  lemma {:induction false} ReadTooEarly(actions: seq<Action>, stale: set<string>, i: nat, x: string)
    requires i < |actions| && x in stale && Reads(actions[i], x) && forall a <- actions[..i] :: a.column != x
    ensures !SetsBeforeReads(actions, stale)
    decreases actions
  {
    ReadsNoneMeaning(actions[0], stale);
    if i > 0 {
      assert actions[0] in actions[..i] && actions[1..][..i - 1] == actions[..i][1..];
      ReadTooEarly(actions[1..], StillStale(actions[0], stale), i - 1, x);
    }
  }
}
