/** The decorator chain: Factory, Decorator*, BaseTransformer and ConfigParser::transformers. */
module Transformers {
  import opened Basics
  import opened CsvReader

  /** The types registered with the factory; all but BaseTransformer derive from Decorator. */
  datatype Kind = BaseTransformer | Append | Prepend | Unuuid | Map | Set

  /** Factory's static map once every DecoratorRegister has run. */
  const REGISTRY: map<string, Kind> := map[
    "void" := BaseTransformer, "append" := Append, "prepend" := Prepend,
    "unuuid" := Unuuid, "map" := Map, "set" := Set
  ]

  function Registered(typeName: string): Option<Kind> {
    if typeName in REGISTRY then Some(REGISTRY[typeName]) else None
  }

  /** One item of the "transforms" list. */
  datatype Entry = Entry(typeName: string, column: string, fromColumn: string, value: string,
                         lookup: seq<(string, string)>)
  {
    predicate Known() { Registered(typeName).Some? }

    /** A type that is not a Decorator: it does not keep what it was given to wrap. */
    predicate Discards() { Registered(typeName) == Some(BaseTransformer) }
  }

  /** What a single transformer does to a row, with everything wrapped inside it left out. */
  datatype Action = Action(kind: Kind, column: string, fromColumn: string, value: string, lookup: map<string, string>)

  /** std::map::insert: the first value given to a key stays. */
  function InsertAll(m: map<string, string>, pairs: seq<(string, string)>): map<string, string>
    decreases pairs
  {
    if pairs == [] then m
    else InsertAll(if pairs[0].0 in m then m else m[pairs[0].0 := pairs[0].1], pairs[1..])
  }

  function ToAction(e: Entry): Action
    requires e.Known()
  {
    var kind := Registered(e.typeName).value;
    Action(kind, e.column,
           if kind == Append || kind == Prepend then e.fromColumn else "",
           if kind == Set then e.value else "",
           if kind == Map then InsertAll(map[], e.lookup) else map[])
  }

  function LowerChar(c: char): char {
    if 'A' <= c <= 'Z' then c - 'A' + 'a' else c
  }

  function Lower(s: string): string {
    if s == "" then "" else [LowerChar(s[0])] + Lower(s[1..])
  }

  function Dashless(s: string): string {
    Lower(Without(s, '-'))
  }

  /** One action on the values of a row, default insertions of operator[] included. */
  function Act(a: Action, m: Values): Values {
    var t := Touch(m, a.column);
    var own := Get(m, a.column);
    match a.kind
    case BaseTransformer => if own == "" then t else t[a.column := "BASE " + own]
    case Unuuid => if own == "" then t else t[a.column := Dashless(own)]
    case Map => if own == "" || own !in a.lookup then t else t[a.column := a.lookup[own]]
    case Set => m[a.column := a.value]
    case Append =>
      if own == "" then t
      else
        var u := Touch(t, a.fromColumn);
        if Get(t, a.fromColumn) == "" then u else u[a.column := own + Get(t, a.fromColumn)]
    case Prepend =>
      if own == "" then t
      else
        var u := Touch(t, a.fromColumn);
        if Get(t, a.fromColumn) == "" then u else u[a.column := Get(t, a.fromColumn) + own]
  }

  /** The actions one after the other, the first of the list first. */
  function ActAll(actions: seq<Action>, m: Values): Values
    decreases actions
  {
    if actions == [] then m else ActAll(actions[1..], Act(actions[0], m))
  }

  lemma {:induction false} ActAllSnoc(actions: seq<Action>, a: Action, m: Values)
    ensures ActAll(actions + [a], m) == Act(a, ActAll(actions, m))
    decreases actions
  {
    if actions == [] {
      assert ActAll([a], m) == ActAll([], Act(a, m));
    } else {
      assert (actions + [a])[1..] == actions[1..] + [a];
      ActAllSnoc(actions[1..], a, Act(actions[0], m));
    }
  }

  class Transformer {
    const kind: Kind
    const column: string
    const wrapped: Transformer?
    var fromColumn: string
    var value: string
    var lookup: map<string, string>
    ghost const Repr: set<Transformer>

    ghost predicate Valid()
      reads Repr
      decreases Repr
    {
      this in Repr
      && (wrapped != null ==> wrapped in Repr && wrapped.Repr == Repr - {this} && wrapped.Valid())
    }

    function Own(): Action
      reads this
    {
      Action(kind, column, fromColumn, value, lookup)
    }

    /** The actions of the whole nested object, innermost first. */
    ghost function Actions(): seq<Action>
      requires Valid()
      reads Repr
      decreases Repr
    {
      (if wrapped == null then [] else wrapped.Actions()) + [Own()]
    }

    /** create_T: a decorator keeps what it wraps, any other type drops it. */
    constructor (kind: Kind, column: string, inner: Transformer?)
      requires inner != null ==> inner.Valid()
      ensures Valid() && fresh(Repr - if inner == null then {} else inner.Repr)
      ensures Own() == Action(kind, column, "", "", map[])
      ensures wrapped == if kind == BaseTransformer then null else inner
      ensures fresh(this)
    {
      this.kind, this.column := kind, column;
      wrapped := if kind == BaseTransformer then null else inner;
      fromColumn, value, lookup := "", "", map[];
      Repr := if kind == BaseTransformer || inner == null then {this} else {this} + inner.Repr;
    }

    /** Decorator::Operation, the wrapped transformer first. */
    method Delegate(row: CSVRow)
      requires Valid()
      modifies row`mapData
      ensures row.mapData == if wrapped == null then old(row.mapData) else ActAll(wrapped.Actions(), old(row.mapData))
      decreases Repr, 0
    {
      if wrapped != null {
        wrapped.Operation(row);
      }
    }

    method Operation(row: CSVRow)
      requires Valid()
      modifies row`mapData
      ensures row.mapData == ActAll(Actions(), old(row.mapData))
      decreases Repr, 1
    {
      Delegate(row);
      ghost var inner := row.mapData;
      match kind {
        case BaseTransformer => OperationBase(row);
        case Append => OperationAppend(row);
        case Prepend => OperationPrepend(row);
        case Unuuid => OperationUnuuid(row);
        case Map => OperationMap(row);
        case Set => row.Put(column, value);
      }
      ActAllSnoc(if wrapped == null then [] else wrapped.Actions(), Own(), old(row.mapData));
    }

    method OperationBase(row: CSVRow)
      requires kind == BaseTransformer
      modifies row`mapData
      ensures row.mapData == Act(Own(), old(row.mapData))
    {
      var own := row.At(column);
      if own != "" {
        row.Put(column, "BASE " + own);
      }
    }

    method OperationAppend(row: CSVRow)
      requires kind == Append
      modifies row`mapData
      ensures row.mapData == Act(Own(), old(row.mapData))
    {
      var own := row.At(column);
      if own != "" {
        var other := row.At(fromColumn);
        if other != "" {
          row.Put(column, own + other);
        }
      }
    }

    method OperationPrepend(row: CSVRow)
      requires kind == Prepend
      modifies row`mapData
      ensures row.mapData == Act(Own(), old(row.mapData))
    {
      var own := row.At(column);
      if own != "" {
        var other := row.At(fromColumn);
        if other != "" {
          row.Put(column, other + own);
        }
      }
    }

    method OperationUnuuid(row: CSVRow)
      requires kind == Unuuid
      modifies row`mapData
      ensures row.mapData == Act(Own(), old(row.mapData))
    {
      var own := row.At(column);
      if own != "" {
        var kept := "";
        for k := 0 to |own|
          invariant row.mapData == Touch(old(row.mapData), column)
          invariant kept == Dashless(own[..k])
        {
          DashlessSnoc(own, k);
          if own[k] != '-' {
            kept := kept + [LowerChar(own[k])];
          }
        }
        assert own[..|own|] == own;
        row.Put(column, kept);
      }
    }

    method OperationMap(row: CSVRow)
      requires kind == Map
      modifies row`mapData
      ensures row.mapData == Act(Own(), old(row.mapData))
    {
      var own := row.At(column);
      if own != "" && own in lookup {
        row.Put(column, lookup[own]);
      }
    }
  }

  lemma {:induction false} LowerConcat(a: string, b: string)
    ensures Lower(a + b) == Lower(a) + Lower(b)
  {
    if a == "" {
      assert a + b == b;
    } else {
      assert (a + b)[1..] == a[1..] + b;
      LowerConcat(a[1..], b);
    }
  }

  lemma DashlessSnoc(s: string, k: nat)
    requires k < |s|
    ensures Dashless(s[..k + 1]) == Dashless(s[..k]) + if s[k] == '-' then "" else [LowerChar(s[k])]
  {
    assert s[..k + 1] == s[..k] + [s[k]];
    WithoutConcat(s[..k], [s[k]], '-');
    LowerConcat(Without(s[..k], '-'), Without([s[k]], '-'));
    assert Without([s[k]], '-') == if s[k] == '-' then "" else [s[k]];
    assert Lower([s[k]]) == [LowerChar(s[k])] + Lower("");
  }

  /** unuuid leaves no dash and no capital, and applying it again changes nothing. */
  lemma {:induction false} DashlessNormal(s: string)
    ensures '-' !in Dashless(s) && forall c <- Dashless(s) :: LowerChar(c) == c
    ensures Dashless(Dashless(s)) == Dashless(s)
  {
    if s != "" {
      DashlessNormal(s[1..]);
      var head := if s[0] == '-' then "" else [LowerChar(s[0])];
      DashlessSnoc([s[0]], 0);
      assert [s[0]][..1] == [s[0]] && [s[0]][..0] == "";
      assert s == [s[0]] + s[1..];
      WithoutConcat([s[0]], s[1..], '-');
      LowerConcat(Without([s[0]], '-'), Without(s[1..], '-'));
      if head != "" {
        DashlessSnoc(head, 0);
        assert head[..1] == head && head[..0] == "";
      }
      WithoutConcat(head, Dashless(s[1..]), '-');
      LowerConcat(Without(head, '-'), Without(Dashless(s[1..]), '-'));
    }
  }

  /** Factory::get_instance: null for a name that was never registered. */
  method GetInstance(typeName: string, column: string, inner: Transformer?) returns (t: Transformer?)
    requires inner != null ==> inner.Valid()
    ensures t == null <==> Registered(typeName).None?
    ensures t != null ==> t.Valid() && fresh(t) && fresh(t.Repr - if inner == null then {} else inner.Repr)
    ensures t != null ==> t.Own() == Action(Registered(typeName).value, column, "", "", map[])
    ensures t != null ==> t.wrapped == if t.kind == BaseTransformer then null else inner
  {
    match Registered(typeName) {
      case None => t := null;
      case Some(kind) => t := new Transformer(kind, column, inner);
    }
  }

  /** What the loop holds in last_ptr after these entries. */
  function Compiled(entries: seq<Entry>): seq<Action> {
    if entries == [] then []
    else
      var n := |entries| - 1;
      if !entries[n].Known() then []
      else if entries[n].Discards() then [ToAction(entries[n])]
      else Compiled(entries[..n]) + [ToAction(entries[n])]
  }

  /** The type-specific fields, filled in after construction. */
  method Configure(t: Transformer, d: Entry)
    requires t.Valid() && Registered(d.typeName) == Some(t.kind)
    requires t.Own() == Action(t.kind, d.column, "", "", map[])
    modifies t
    ensures t.Own() == ToAction(d)
  {
    match t.kind {
      case Map =>
        var k := 0;
        while k < |d.lookup|
          invariant k <= |d.lookup| && t.fromColumn == "" && t.value == ""
          invariant InsertAll(t.lookup, d.lookup[k..]) == InsertAll(map[], d.lookup)
        {
          if d.lookup[k].0 !in t.lookup {
            t.lookup := t.lookup[d.lookup[k].0 := d.lookup[k].1];
          }
          k := k + 1;
        }
      case Append => t.fromColumn := d.fromColumn;
      case Prepend => t.fromColumn := d.fromColumn;
      case Set => t.value := d.value;
      case _ =>
    }
  }

  /** ConfigParser::transformers: at most one object, and the number of shutdown signals sent.
      last_ptr is moved into the factory call, so an unknown type loses what was built so far. */
  method CompileTransformers(entries: seq<Entry>) returns (transformers: seq<Transformer>, signals: nat)
    ensures Compiled(entries) == [] <==> transformers == []
    ensures |transformers| <= 1
    ensures transformers != [] ==> transformers[0].Valid() && transformers[0].Actions() == Compiled(entries)
    ensures signals == UnknownTypes(entries)
  {
    var last: Transformer? := null;
    signals := 0;
    for k := 0 to |entries|
      invariant last == null <==> Compiled(entries[..k]) == []
      invariant last != null ==> last.Valid() && fresh(last.Repr) && last.Actions() == Compiled(entries[..k])
      invariant signals == UnknownTypes(entries[..k])
    {
      var d := entries[k];
      assert entries[..k + 1][..k] == entries[..k];
      var ptr := GetInstance(d.typeName, d.column, last);
      last := null;
      if ptr != null {
        ghost var inner := if ptr.wrapped == null then [] else ptr.wrapped.Actions();
        Configure(ptr, d);
        assert ptr.Actions() == inner + [ToAction(d)];
        last := ptr;
      } else {
        signals := signals + 1;
      }
    }
    assert entries[..|entries|] == entries;
    transformers := if last != null then [last] else [];
  }

  function UnknownTypes(entries: seq<Entry>): nat {
    if entries == [] then 0
    else
      var n := |entries| - 1;
      UnknownTypes(entries[..n]) + if !entries[n].Known() then 1 else 0
  }

  // Left-to-right meaning

  /** k is where the surviving part of the list begins: at its last void entry, right after its
      last unknown entry if that comes later, and at the first entry if there is neither. */
  ghost predicate SurvivesFrom(entries: seq<Entry>, k: nat) {
    && k <= |entries|
    && (forall i | k <= i < |entries| :: entries[i].Known())
    && (forall i | k < i < |entries| :: !entries[i].Discards())
    && (k == 0 || (k < |entries| && entries[k].Discards()) || !entries[k - 1].Known())
  }

  function ToActions(entries: seq<Entry>): seq<Action>
    requires forall e <- entries :: e.Known()
  {
    if entries == [] then [] else [ToAction(entries[0])] + ToActions(entries[1..])
  }

  lemma {:induction false} ToActionsSnoc(entries: seq<Entry>, e: Entry)
    requires forall d <- entries + [e] :: d.Known()
    ensures ToActions(entries + [e]) == ToActions(entries) + [ToAction(e)]
  {
    if entries == [] {
      assert ToActions([e]) == [ToAction(e)] + ToActions([]);
    } else {
      assert (entries + [e])[1..] == entries[1..] + [e];
      assert forall d <- entries[1..] + [e] :: d in entries + [e];
      ToActionsSnoc(entries[1..], e);
    }
  }

  /** The point exists and is unique. */
  lemma {:induction false} SurvivorExists(entries: seq<Entry>) returns (k: nat)
    ensures SurvivesFrom(entries, k)
    ensures forall j | SurvivesFrom(entries, j) :: j == k
  {
    var n := |entries| - 1;
    if entries == [] || !entries[n].Known() {
      k := |entries|;
    } else if entries[n].Discards() {
      k := n;
    } else {
      k := SurvivorExists(entries[..n]);
      forall j | SurvivesFrom(entries, j) ensures j == k {
        assert SurvivesFrom(entries[..n], j);
      }
    }
  }

  lemma SurvivorsKnown(entries: seq<Entry>, k: nat)
    requires SurvivesFrom(entries, k)
    ensures forall e <- entries[k..] :: e.Known()
  {
  }

  lemma SurvivesInit(entries: seq<Entry>, k: nat)
    requires SurvivesFrom(entries, k) && k + 1 < |entries|
    ensures SurvivesFrom(entries[..|entries| - 1], k)
  {
    var init := entries[..|entries| - 1];
    assert forall i | 0 <= i < |init| :: init[i] == entries[i];
  }

  /** The last entry, when it is a decorator, is one more layer around the rest. */
  lemma CompiledSnoc(entries: seq<Entry>)
    requires entries != []
    requires var e := entries[|entries| - 1]; e.Known() && !e.Discards()
    ensures Compiled(entries) == Compiled(entries[..|entries| - 1]) + [ToAction(entries[|entries| - 1])]
  {
  }

  lemma CompiledUnknown(entries: seq<Entry>)
    requires entries != [] && !entries[|entries| - 1].Known()
    ensures Compiled(entries) == []
  {
  }

  lemma CompiledFirst(entries: seq<Entry>, k: nat)
    requires SurvivesFrom(entries, k) && k + 1 == |entries| && !entries[k].Discards()
    ensures Compiled(entries) == [ToAction(entries[k])]
  {
    if k > 0 {
      CompiledUnknown(entries[..k]);
    }
    CompiledSnoc(entries);
    assert [] + [ToAction(entries[k])] == [ToAction(entries[k])];
  }

  lemma CompiledLast(entries: seq<Entry>, k: nat)
    requires SurvivesFrom(entries, k) && k + 1 == |entries| && entries[k].Known()
    ensures Compiled(entries) == [ToAction(entries[k])]
  {
    if !entries[k].Discards() {
      CompiledFirst(entries, k);
    }
  }

  lemma ToActionsOne(e: Entry)
    requires e.Known()
    ensures ToActions([e]) == [ToAction(e)]
  {
    assert ToActions([e]) == [ToAction(e)] + ToActions([]);
  }

  /** One more decorator around the survivors of all entries but the last. */
  lemma CompiledMore(init: seq<Entry>, last: Entry, survivors: seq<Entry>)
    requires last.Known() && !last.Discards() && forall e <- survivors + [last] :: e.Known()
    requires (forall e <- survivors :: e.Known()) && Compiled(init) == ToActions(survivors)
    ensures Compiled(init + [last]) == ToActions(survivors + [last])
  {
    assert (init + [last])[..|init|] == init;
    CompiledSnoc(init + [last]);
    ToActionsSnoc(survivors, last);
  }

  lemma {:induction false} CompiledSurvivors(entries: seq<Entry>, k: nat)
    requires SurvivesFrom(entries, k) && forall e <- entries[k..] :: e.Known()
    ensures Compiled(entries) == ToActions(entries[k..])
    decreases |entries|
  {
    if k == |entries| {
      if k > 0 { CompiledUnknown(entries); }
    } else if k == |entries| - 1 {
      assert entries[k..] == [entries[k]] && entries[k] in entries[k..];
      CompiledLast(entries, k);
      ToActionsOne(entries[k]);
    } else {
      var init, last := entries[..|entries| - 1], entries[|entries| - 1];
      assert entries == init + [last];
      SurvivesInit(entries, k);
      SurvivorsKnown(init, k);
      CompiledSurvivors(init, k);
      assert entries[k..] == init[k..] + [last];
      CompiledMore(init, last, init[k..]);
    }
  }

  /** Running the nested object built for a list equals applying the surviving entries from left
      to right; with recognised types and no void entry that is the whole list. */
  lemma ChainMeaning(entries: seq<Entry>, k: nat, m: Values)
    requires SurvivesFrom(entries, k)
    ensures forall e <- entries[k..] :: e.Known()
    ensures ActAll(Compiled(entries), m) == ApplyEntries(entries[k..], m)
    ensures (forall e <- entries :: e.Known() && !e.Discards()) ==> k == 0
  {
    SurvivorsKnown(entries, k);
    CompiledSurvivors(entries, k);
    ApplyEntriesMeaning(entries[k..], m);
  }

  /** The config read as a program: each entry acts on the row its predecessors left. */
  function ApplyEntries(entries: seq<Entry>, m: Values): Values
    requires forall e <- entries :: e.Known()
  {
    if entries == [] then m
    else
      var n := |entries| - 1;
      Act(ToAction(entries[n]), ApplyEntries(entries[..n], m))
  }

  lemma {:induction false} ApplyEntriesMeaning(entries: seq<Entry>, m: Values)
    requires forall e <- entries :: e.Known()
    ensures ActAll(ToActions(entries), m) == ApplyEntries(entries, m)
  {
    if entries != [] {
      var n := |entries| - 1;
      ApplyEntriesMeaning(entries[..n], m);
      assert entries == entries[..n] + [entries[n]];
      ToActionsSnoc(entries[..n], entries[n]);
      ActAllSnoc(ToActions(entries[..n]), ToAction(entries[n]), m);
    }
  }

  /** The whole path of a row: compile the list, run the object if there is one. */
  method CompileAndRun(entries: seq<Entry>, row: CSVRow, ghost k: nat)
    requires SurvivesFrom(entries, k)
    modifies row`mapData
    ensures forall e <- entries[k..] :: e.Known()
    ensures row.mapData == ApplyEntries(entries[k..], old(row.mapData))
  {
    ChainMeaning(entries, k, row.mapData);
    var transformers, _ := CompileTransformers(entries);
    for i := 0 to |transformers|
      invariant transformers != [] ==> transformers[0].Valid() && transformers[0].Actions() == Compiled(entries)
      invariant row.mapData == if i == 0 then old(row.mapData) else ActAll(Compiled(entries), old(row.mapData))
    {
      transformers[i].Operation(row);
    }
  }
}
