/** Ownership of files in the pipeline: what every step keeps. */
module PipelineFiles {
  import opened Basics
  import opened FileSystem
  import opened Pipeline

  /** No name of o is a name of q. */
  predicate Disjoint(o: Path, q: Path) {
    && o != q && o != InProgress(q) && o != Done(q)
    && InProgress(o) != q && InProgress(o) != InProgress(q) && InProgress(o) != Done(q)
    && Done(o) != q && Done(o) != InProgress(q) && Done(o) != Done(q)
  }

  lemma ApartDisjoint(o: Path, q: Path)
    ensures Apart(o, q) <==> Disjoint(o, q)
  {
    NamesDiffer(o, q);
    NamesDiffer(q, o);
  }

  /** The one of its three names o exists under. */
  datatype Place = Waiting | Working | Finished | Nowhere

  function PlaceOf(files: Files, o: Path): Place {
    if o in files && InProgress(o) !in files && Done(o) !in files then Waiting
    else if o !in files && InProgress(o) in files && Done(o) !in files then Working
    else if o !in files && InProgress(o) !in files && Done(o) in files then Finished
    else Nowhere
  }

  function ContentOf(files: Files, o: Path): Option<string> {
    match PlaceOf(files, o)
    case Waiting => Some(files[o])
    case Working => Some(files[InProgress(o)])
    case Finished => Some(files[Done(o)])
    case Nowhere => None
  }

  predicate IsNameOf(f: Path, o: Path) {
    f == o || f == InProgress(o) || f == Done(o)
  }

  ghost predicate Named(originals: map<Path, string>, f: Path) {
    exists o :: o in originals && IsNameOf(f, o)
  }

  /** Originals do not share names, and each of them exists, whole, under exactly one of its names. */
  ghost predicate FilesInv(s: State) {
    && (forall o, q | o in s.originals && q in s.originals && o != q :: Disjoint(o, q))
    && (forall o <- s.originals :: ContentOf(s.files, o) == Some(s.originals[o]))
    && (forall f <- s.files :: Named(s.originals, f))
  }

  ghost predicate OwnersInv(s: State) {
    && (forall i | 0 <= i < |s.processors| :: Sound(s, i))
    && (forall i, j | 0 <= i < |s.processors| && 0 <= j < |s.processors| && i != j :: NotShared(s, i, j))
    && (forall o <- s.originals :: PlaceOf(s.files, o) == Working ==> HasOwner(s, o))
  }

  /** What processor i owns is an original in progress. */
  ghost predicate Sound(s: State, i: nat)
    requires i < |s.processors|
  {
    var pc := s.processors[i];
    pc.Claimed? || pc.Reading? || pc.Finishing? ==> pc.path in s.originals && PlaceOf(s.files, pc.path) == Working
  }

  ghost predicate NotShared(s: State, i: nat, j: nat)
    requires i < |s.processors| && j < |s.processors|
  {
    forall o | s.processors[i].Owns(o) :: !s.processors[j].Owns(o)
  }

  ghost predicate HasOwner(s: State, o: Path) {
    exists i | 0 <= i < |s.processors| :: s.processors[i].Owns(o)
  }

  /** Claims are of distinct originals that have left their first name; so are reads, with the content. */
  ghost predicate ClaimsInv(s: State) {
    && (forall k | 0 <= k < |s.claims| ::
          s.claims[k] in s.originals && PlaceOf(s.files, s.claims[k]) != Waiting)
    && (forall k, l | 0 <= k < l < |s.claims| :: s.claims[k] != s.claims[l])
    && (forall o <- s.originals :: PlaceOf(s.files, o) != Waiting ==> o in s.claims)
  }

  ghost predicate ReadsInv(s: State) {
    && (forall k | 0 <= k < |s.readLog| ::
          var r := s.readLog[k];
          r.path in s.originals && r.content == s.originals[r.path] && PlaceOf(s.files, r.path) != Waiting)
    && (forall k, l | 0 <= k < l < |s.readLog| :: s.readLog[k].path != s.readLog[l].path)
    && (forall k, i | 0 <= k < |s.readLog| && 0 <= i < |s.processors| && s.processors[i].Claimed? ::
          s.readLog[k].path != s.processors[i].path)
  }

  // The three ways files change

  lemma CreateKeepsOthers(s: State, p: Path, content: string, o: Path)
    requires FilesInv(s) && Enabled(s, Create(p, content)) && o in s.originals
    ensures Disjoint(o, p) && Disjoint(p, o)
    ensures PlaceOf(s.files[p := content], o) == PlaceOf(s.files, o)
    ensures ContentOf(s.files[p := content], o) == ContentOf(s.files, o)
  {
    ApartDisjoint(p, o);
    ApartDisjoint(o, p);
  }

  lemma {:induction false} CreatePlaces(s: State, p: Path, content: string)
    requires FilesInv(s) && Enabled(s, Create(p, content))
    ensures PlaceOf(s.files[p := content], p) == Waiting && p !in s.originals
    ensures ContentOf(s.files[p := content], p) == Some(content)
  {
    if p in s.originals {
      CreateKeepsOthers(s, p, content, p);
      assert false;
    }
    NamesDiffer(p, p);
    forall f <- s.files ensures f != InProgress(p) && f != Done(p) {
      assert Named(s.originals, f);
      var o :| o in s.originals && IsNameOf(f, o);
      CreateKeepsOthers(s, p, content, o);
    }
  }

  /** A rename between two names of an original p. */
  lemma RenameKeepsOthers(s: State, p: Path, src: Path, dst: Path, o: Path)
    requires FilesInv(s) && p in s.originals && o in s.originals && o != p
    requires IsNameOf(src, p) && IsNameOf(dst, p)
    ensures PlaceOf(Renamed(s.files, src, dst), o) == PlaceOf(s.files, o)
    ensures ContentOf(Renamed(s.files, src, dst), o) == ContentOf(s.files, o)
  {
    assert Disjoint(o, p) && Disjoint(p, o);
  }

  lemma ClaimPlaces(s: State, p: Path)
    requires FilesInv(s) && p in s.originals && p in s.files
    ensures PlaceOf(Renamed(s.files, p, InProgress(p)), p) == Working
    ensures ContentOf(Renamed(s.files, p, InProgress(p)), p) == ContentOf(s.files, p)
  {
    NamesDiffer(p, p);
  }

  lemma FinishPlaces(s: State, p: Path)
    requires FilesInv(s) && p in s.originals && PlaceOf(s.files, p) == Working
    ensures PlaceOf(Renamed(s.files, InProgress(p), Done(p)), p) == Finished
    ensures ContentOf(Renamed(s.files, InProgress(p), Done(p)), p) == ContentOf(s.files, p)
  {
    NamesDiffer(p, p);
  }

  lemma RenameNamed(s: State, p: Path, src: Path, dst: Path)
    requires FilesInv(s) && p in s.originals && IsNameOf(dst, p)
    ensures forall f <- Renamed(s.files, src, dst) :: Named(s.originals, f)
  {
    forall f <- Renamed(s.files, src, dst) ensures Named(s.originals, f) {
      if f == dst {
        assert p in s.originals && IsNameOf(f, p);
      }
    }
  }

  /** A path that was admitted and exists is an original. */
  lemma ExistingIsOriginal(s: State, p: Path)
    requires FilesInv(s) && p in s.files && (p in s.originals || !Reserved(p))
    ensures p in s.originals && PlaceOf(s.files, p) == Waiting
  {
    assert Named(s.originals, p);
    var o :| o in s.originals && IsNameOf(p, o);
    NamesDiffer(o, o);
    assert ContentOf(s.files, p) == Some(s.originals[p]);
  }

  /** What a processor is about to claim was admitted. */
  ghost predicate ClaimsAdmitted(s: State, step: Step) {
    Claiming(s, step) ==> s.processors[step.i].path in s.originals || !Reserved(s.processors[step.i].path)
  }

  /** The step is a claim whose rename succeeds. */
  predicate Claiming(s: State, step: Step) {
    step.Works? && step.i < |s.processors| && Succeeds(s, s.processors[step.i], step.action)
  }

  predicate Completing(s: State, step: Step) {
    step.Works? && step.i < |s.processors| && step.action.Finishes? && s.processors[step.i].Finishing?
  }

  ghost predicate OwnershipInv(s: State) {
    FilesInv(s) && OwnersInv(s) && ClaimsInv(s) && ReadsInv(s)
  }

  lemma ClaimAfter(s: State, step: Step, o: Path)
    requires FilesInv(s) && Enabled(s, step) && Claiming(s, step) && ClaimsAdmitted(s, step) && o in s.originals
    ensures var t, p := Apply(s, step), s.processors[step.i].path;
      && t.originals == s.originals && ContentOf(t.files, o) == ContentOf(s.files, o)
      && PlaceOf(t.files, o) == if o == p then Working else PlaceOf(s.files, o)
  {
    var p := s.processors[step.i].path;
    ExistingIsOriginal(s, p);
    if o == p {
      ClaimPlaces(s, p);
    } else {
      RenameKeepsOthers(s, p, p, InProgress(p), o);
    }
  }

  lemma FinishAfter(s: State, step: Step, o: Path)
    requires FilesInv(s) && OwnersInv(s) && Enabled(s, step) && Completing(s, step) && o in s.originals
    ensures var t, p := Apply(s, step), s.processors[step.i].path;
      && t.originals == s.originals && ContentOf(t.files, o) == ContentOf(s.files, o)
      && PlaceOf(t.files, o) == if o == p then Finished else PlaceOf(s.files, o)
  {
    var p := s.processors[step.i].path;
    assert Sound(s, step.i);
    if o == p {
      FinishPlaces(s, p);
    } else {
      RenameKeepsOthers(s, p, InProgress(p), Done(p), o);
    }
  }

  lemma FilesStay(s: State, step: Step)
    requires Enabled(s, step) && !step.Create? && !Claiming(s, step) && !Completing(s, step)
    ensures Apply(s, step).files == s.files && Apply(s, step).originals == s.originals
  {
  }

  /** What a step does to the place and content of every original; the file it claims or finishes is moved. */
  lemma {:induction false} PlacesAfter(s: State, step: Step, o: Path)
    requires FilesInv(s) && OwnersInv(s) && Enabled(s, step) && ClaimsAdmitted(s, step) && o in s.originals
    ensures o in Apply(s, step).originals && Apply(s, step).originals[o] == s.originals[o]
    ensures ContentOf(Apply(s, step).files, o) == ContentOf(s.files, o)
    ensures PlaceOf(Apply(s, step).files, o)
      == if Claiming(s, step) && o == s.processors[step.i].path then Working
         else if Completing(s, step) && o == s.processors[step.i].path then Finished
         else PlaceOf(s.files, o)
  {
    if step.Create? {
      CreateKeepsOthers(s, step.path, step.content, o);
      CreatePlaces(s, step.path, step.content);
    } else if Claiming(s, step) {
      ClaimAfter(s, step, o);
    } else if Completing(s, step) {
      FinishAfter(s, step, o);
    } else {
      FilesStay(s, step);
    }
  }

  lemma {:induction false} FilesKept(s: State, step: Step)
    requires FilesInv(s) && OwnersInv(s) && Enabled(s, step) && ClaimsAdmitted(s, step)
    ensures FilesInv(Apply(s, step))
  {
    var t := Apply(s, step);
    forall o <- t.originals ensures ContentOf(t.files, o) == Some(t.originals[o]) {
      if o in s.originals {
        PlacesAfter(s, step, o);
      } else {
        CreatePlaces(s, step.path, step.content);
      }
    }
    forall o, q | o in t.originals && q in t.originals && o != q ensures Disjoint(o, q) {
      if o !in s.originals {
        CreateKeepsOthers(s, step.path, step.content, q);
      } else if q !in s.originals {
        CreateKeepsOthers(s, step.path, step.content, o);
      }
    }
    NamedKept(s, step);
  }

  lemma NamedKept(s: State, step: Step)
    requires FilesInv(s) && OwnersInv(s) && Enabled(s, step) && ClaimsAdmitted(s, step)
    ensures forall f <- Apply(s, step).files :: Named(Apply(s, step).originals, f)
  {
    if step.Create? {
      CreateNamed(s, step.path, step.content, Apply(s, step).files, Apply(s, step).originals);
    } else if Claiming(s, step) {
      var p := s.processors[step.i].path;
      ExistingIsOriginal(s, p);
      RenameNamed(s, p, p, InProgress(p));
    } else if Completing(s, step) {
      var p := s.processors[step.i].path;
      assert Sound(s, step.i);
      RenameNamed(s, p, InProgress(p), Done(p));
    } else {
      FilesStay(s, step);
    }
  }

  lemma CreateNamed(s: State, p: Path, content: string, files: Files, originals: map<Path, string>)
    requires FilesInv(s) && files == s.files[p := content] && originals == s.originals[p := content]
    ensures forall f <- files :: Named(originals, f)
  {
    forall f <- files ensures Named(originals, f) {
      if f == p {
        assert p in originals && IsNameOf(f, p);
      } else {
        assert Named(s.originals, f);
        var o :| o in s.originals && IsNameOf(f, o);
        assert o in originals && IsNameOf(f, o);
      }
    }
  }
}
