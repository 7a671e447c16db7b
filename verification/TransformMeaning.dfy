/** What each type name of a "transforms" list does to a row. */
module TransformMeaning {
  import opened Basics
  import opened CsvReader
  import opened RowIndependence
  import opened Transformers

  /** There are six types, and void is the one that discards what was built before it. */
  lemma KnownTypes(e: Entry)
    ensures e.Known() <==> e.typeName in ["void", "append", "prepend", "unuuid", "map", "set"]
    ensures e.Discards() <==> e.typeName == "void"
  {
  }

  /** One shutdown signal for each entry of any other name. */
  lemma OneSignalEach(entries: seq<Entry>, e: Entry)
    ensures UnknownTypes([]) == 0
    ensures UnknownTypes(entries + [e])
         == UnknownTypes(entries) + if e.typeName in ["void", "append", "prepend", "unuuid", "map", "set"] then 0 else 1
  {
    assert (entries + [e])[..|entries|] == entries;
    KnownTypes(e);
  }

  /** An entry on its own changes its column at most. */
  lemma OneEntry(e: Entry, m: Values)
    requires e.Known()
    ensures ApplyEntries([e], m) == Act(ToAction(e), m)
    ensures forall c | c != e.column :: Get(ApplyEntries([e], m), c) == Get(m, c)
  {
    assert [e][..0] == [] && ApplyEntries([], m) == m;
    forall c | c != e.column ensures Get(ApplyEntries([e], m), c) == Get(m, c) {
      ActValue(ToAction(e), m, c);
    }
  }

  lemma AppendMeans(e: Entry, m: Values)
    requires e.typeName == "append"
    ensures e.Known()
    ensures var own, other := Get(m, e.column), Get(m, e.fromColumn);
      Get(ApplyEntries([e], m), e.column) == if own != "" && other != "" then own + other else own
  {
    OneEntry(e, m);
    ActValue(ToAction(e), m, e.column);
  }

  lemma PrependMeans(e: Entry, m: Values)
    requires e.typeName == "prepend"
    ensures e.Known()
    ensures var own, other := Get(m, e.column), Get(m, e.fromColumn);
      Get(ApplyEntries([e], m), e.column) == if own != "" && other != "" then other + own else own
  {
    OneEntry(e, m);
    ActValue(ToAction(e), m, e.column);
  }

  lemma SetMeans(e: Entry, m: Values)
    requires e.typeName == "set"
    ensures e.Known() && Get(ApplyEntries([e], m), e.column) == e.value
  {
    OneEntry(e, m);
    ActValue(ToAction(e), m, e.column);
  }

  lemma VoidMeans(e: Entry, m: Values)
    requires e.typeName == "void"
    ensures e.Known()
    ensures var own := Get(m, e.column);
      Get(ApplyEntries([e], m), e.column) == if own == "" then "" else "BASE " + own
  {
    OneEntry(e, m);
    ActValue(ToAction(e), m, e.column);
  }

  lemma UnuuidMeans(e: Entry, m: Values)
    requires e.typeName == "unuuid"
    ensures e.Known() && Get(ApplyEntries([e], m), e.column) == Dashless(Get(m, e.column))
  {
    OneEntry(e, m);
    ActValue(ToAction(e), m, e.column);
  }

  /** Dashless works character by character: a dash goes, a capital becomes its small letter, anything else stays. */
  lemma DashlessByCharacter(a: string, c: char, b: string)
    ensures Dashless("") == ""
    ensures Dashless(a + [c] + b) == Dashless(a) + Dashless([c]) + Dashless(b)
    ensures Dashless([c])
         == if c == '-' then "" else if 'A' <= c <= 'Z' then [(c as int + 32) as char] else [c]
  {
    DashlessConcat(a + [c], b);
    DashlessConcat(a, [c]);
    DashlessSnoc([c], 0);
    assert [c][..1] == [c] && [c][..0] == "";
  }

  lemma DashlessConcat(a: string, b: string)
    ensures Dashless(a + b) == Dashless(a) + Dashless(b)
  {
    WithoutConcat(a, b, '-');
    LowerConcat(Without(a, '-'), Without(b, '-'));
  }

  /** The pair of the lookup list that decides for key: the first one, if there is any. */
  lemma {:induction false} FirstPairStays(m: map<string, string>, pairs: seq<(string, string)>, key: string)
    ensures key in InsertAll(m, pairs) <==> key in m || exists p <- pairs :: p.0 == key
    ensures key in m ==> InsertAll(m, pairs)[key] == m[key]
    ensures key !in m ==> forall i | 0 <= i < |pairs| && pairs[i].0 == key
      && (forall j | 0 <= j < i :: pairs[j].0 != key) :: InsertAll(m, pairs)[key] == pairs[i].1
    decreases pairs
  {
    if pairs != [] {
      var next := if pairs[0].0 in m then m else m[pairs[0].0 := pairs[0].1];
      FirstPairStays(next, pairs[1..], key);
      assert pairs == [pairs[0]] + pairs[1..];
      forall i | 0 < i < |pairs| && pairs[i].0 == key && (forall j | 0 <= j < i :: pairs[j].0 != key)
        ensures pairs[1..][i - 1] == pairs[i] && forall j | 0 <= j < i - 1 :: pairs[1..][j].0 != key
      {
      }
    }
  }

  /** map: a nonempty value that is the key of some pair becomes the value of the first such pair. */
  lemma MapMeans(e: Entry, m: Values)
    requires e.typeName == "map"
    ensures e.Known()
    ensures var own := Get(m, e.column);
      && (own == "" || (forall p <- e.lookup :: p.0 != own) ==> Get(ApplyEntries([e], m), e.column) == own)
      && forall i | own != "" && 0 <= i < |e.lookup| && e.lookup[i].0 == own
           && (forall j | 0 <= j < i :: e.lookup[j].0 != own) :: Get(ApplyEntries([e], m), e.column) == e.lookup[i].1
  {
    OneEntry(e, m);
    ActValue(ToAction(e), m, e.column);
    FirstPairStays(map[], e.lookup, Get(m, e.column));
  }

  /** A list is its entries one after the other, the first one first. */
  lemma EntryByEntry(entries: seq<Entry>, e: Entry, m: Values)
    requires e.Known() && forall d <- entries :: d.Known()
    ensures forall d <- entries + [e] :: d.Known()
    ensures ApplyEntries(entries + [e], m) == ApplyEntries([e], ApplyEntries(entries, m))
  {
    assert (entries + [e])[..|entries|] == entries;
    OneEntry(e, ApplyEntries(entries, m));
  }
}
