/** Ownership, claims and reads in the pipeline: kept by every step, and the theorems about whole runs. */
module PipelineOwnership {
  import opened Basics
  import opened FileSystem
  import opened Pipeline
  import opened PipelineFiles
  import opened PipelinePaths

  lemma {:induction false} ClaimedPath(s: State, step: Step)
    requires OwnershipInv(s) && Enabled(s, step) && ClaimsAdmitted(s, step) && Claiming(s, step)
    ensures var p := s.processors[step.i].path;
      p in s.originals && PlaceOf(s.files, p) == Waiting && p !in s.claims
      && PlaceOf(Apply(s, step).files, p) == Working
  {
    var p := s.processors[step.i].path;
    ExistingIsOriginal(s, p);
    PlacesAfter(s, step, p);
  }

  /** A step of another processor, or of nobody, leaves processor i where it is. */
  lemma OthersStay(s: State, step: Step, i: nat)
    requires Enabled(s, step) && i < |s.processors| && !(step.Works? && step.i == i)
    ensures |Apply(s, step).processors| == |s.processors| && Apply(s, step).processors[i] == s.processors[i]
  {
  }

  lemma NextOwns(s: State, pc: Processor, action: Action, o: Path)
    requires Ready(pc, action, s.queue)
    ensures NextPc(s, pc, action).Owns(o)
       <==> (pc.Owns(o) && !action.Finishes?) || (Succeeds(s, pc, action) && pc.path == o)
  {
  }

  /** A processor comes to own a file only by a successful claim, and gives it up only by finishing it. */
  lemma OwnsAfter(s: State, step: Step, i: nat, o: Path)
    requires Enabled(s, step) && i < |s.processors|
    ensures |Apply(s, step).processors| == |s.processors|
    ensures Apply(s, step).processors[i].Owns(o)
       <==> (s.processors[i].Owns(o) && !(Completing(s, step) && step.i == i))
            || (Claiming(s, step) && step.i == i && s.processors[i].path == o)
  {
    if step.Works? && step.i == i {
      NextOwns(s, s.processors[i], step.action, o);
    } else {
      OthersStay(s, step, i);
    }
  }

  lemma SoundKept(s: State, step: Step, i: nat)
    requires OwnershipInv(s) && Enabled(s, step) && ClaimsAdmitted(s, step) && i < |s.processors|
    ensures |Apply(s, step).processors| == |s.processors| && Sound(Apply(s, step), i)
  {
    OwnsAfter(s, step, i, "");
    var pc := Apply(s, step).processors[i];
    if pc.Claimed? || pc.Reading? || pc.Finishing? {
      OwnsAfter(s, step, i, pc.path);
      if Claiming(s, step) && step.i == i {
        ClaimedPath(s, step);
      } else {
        assert s.processors[i].Owns(pc.path) && Sound(s, i);
        PlacesAfter(s, step, pc.path);
        if Completing(s, step) {
          assert NotShared(s, i, step.i) && Sound(s, step.i);
        }
      }
    }
  }

  lemma NotSharedKept(s: State, step: Step, i: nat, j: nat)
    requires OwnershipInv(s) && Enabled(s, step) && ClaimsAdmitted(s, step)
    requires i < |s.processors| && j < |s.processors| && i != j
    ensures |Apply(s, step).processors| == |s.processors| && NotShared(Apply(s, step), i, j)
  {
    var t := Apply(s, step);
    assert NotShared(s, i, j) && Sound(s, i) && Sound(s, j);
    if Claiming(s, step) { ClaimedPath(s, step); }
    forall o ensures t.processors[i].Owns(o) ==> !t.processors[j].Owns(o) {
      OwnsAfter(s, step, i, o);
      OwnsAfter(s, step, j, o);
    }
  }

  lemma {:induction false} HasOwnerKept(s: State, step: Step, o: Path)
    requires OwnershipInv(s) && Enabled(s, step) && ClaimsAdmitted(s, step) && o in s.originals
    requires PlaceOf(Apply(s, step).files, o) == Working
    ensures HasOwner(Apply(s, step), o)
  {
    var t := Apply(s, step);
    PlacesAfter(s, step, o);
    if Claiming(s, step) && s.processors[step.i].path == o {
      OwnsAfter(s, step, step.i, o);
    } else {
      assert HasOwner(s, o);
      var i :| 0 <= i < |s.processors| && s.processors[i].Owns(o);
      OwnsAfter(s, step, i, o);
    }
  }

  lemma OwnersKept(s: State, step: Step)
    requires OwnershipInv(s) && Enabled(s, step) && ClaimsAdmitted(s, step)
    ensures OwnersInv(Apply(s, step))
  {
    var t := Apply(s, step);
    assert |t.processors| == |s.processors|;
    forall i | 0 <= i < |t.processors| ensures Sound(t, i) { SoundKept(s, step, i); }
    forall i, j | 0 <= i < |t.processors| && 0 <= j < |t.processors| && i != j ensures NotShared(t, i, j) {
      NotSharedKept(s, step, i, j);
    }
    forall o <- t.originals ensures PlaceOf(t.files, o) == Working ==> HasOwner(t, o) {
      if o !in s.originals {
        CreatePlaces(s, step.path, step.content);
      } else if PlaceOf(t.files, o) == Working {
        HasOwnerKept(s, step, o);
      }
    }
  }

  /** An original that has left its first name never gets it back. */
  lemma NeverWaitingAgain(s: State, step: Step, o: Path)
    requires OwnershipInv(s) && Enabled(s, step) && ClaimsAdmitted(s, step)
    requires o in s.originals && PlaceOf(s.files, o) != Waiting
    ensures o in Apply(s, step).originals && PlaceOf(Apply(s, step).files, o) != Waiting
  {
    PlacesAfter(s, step, o);
  }

  lemma ClaimsMoved(s: State, step: Step, k: nat)
    requires OwnershipInv(s) && Enabled(s, step) && ClaimsAdmitted(s, step) && k < |Apply(s, step).claims|
    ensures var t := Apply(s, step); t.claims[k] in t.originals && PlaceOf(t.files, t.claims[k]) != Waiting
  {
    if Claiming(s, step) { ClaimedPath(s, step); }
    if k < |s.claims| { NeverWaitingAgain(s, step, s.claims[k]); }
  }

  lemma {:induction false} MovedClaimed(s: State, step: Step, o: Path)
    requires OwnershipInv(s) && Enabled(s, step) && ClaimsAdmitted(s, step) && o in Apply(s, step).originals
    ensures PlaceOf(Apply(s, step).files, o) != Waiting ==> o in Apply(s, step).claims
  {
    if o in s.originals {
      PlacesAfter(s, step, o);
    } else {
      CreatePlaces(s, step.path, step.content);
    }
  }

  lemma ClaimsDistinct(s: State, step: Step, k: nat, l: nat)
    requires OwnershipInv(s) && Enabled(s, step) && ClaimsAdmitted(s, step) && k < l < |Apply(s, step).claims|
    ensures Apply(s, step).claims[k] != Apply(s, step).claims[l]
  {
    if Claiming(s, step) { ClaimedPath(s, step); }
  }

  lemma ClaimsKept(s: State, step: Step)
    requires OwnershipInv(s) && Enabled(s, step) && ClaimsAdmitted(s, step)
    ensures ClaimsInv(Apply(s, step))
  {
    var t := Apply(s, step);
    forall k | 0 <= k < |t.claims| ensures t.claims[k] in t.originals && PlaceOf(t.files, t.claims[k]) != Waiting {
      ClaimsMoved(s, step, k);
    }
    forall k, l | 0 <= k < l < |t.claims| ensures t.claims[k] != t.claims[l] { ClaimsDistinct(s, step, k, l); }
    forall o <- t.originals ensures PlaceOf(t.files, o) != Waiting ==> o in t.claims { MovedClaimed(s, step, o); }
  }

  lemma OpenFinds(s: State, i: nat)
    requires OwnershipInv(s) && Enabled(s, Works(i, Opens))
    ensures var p := s.processors[i].path;
      p in s.originals && InProgress(p) in s.files && s.files[InProgress(p)] == s.originals[p]
      && PlaceOf(s.files, p) == Working
  {
    assert Sound(s, i);
    assert ContentOf(s.files, s.processors[i].path) == Some(s.originals[s.processors[i].path]);
  }

  predicate Opening(s: State, step: Step) {
    step.Works? && step.action.Opens? && step.i < |s.processors| && s.processors[step.i].Claimed?
  }

  /** Opening is the only step that reads; what it reads is the original content. */
  lemma ReadsAfter(s: State, step: Step)
    requires OwnershipInv(s) && Enabled(s, step)
    ensures Opening(s, step) ==>
      var p := s.processors[step.i].path;
      && p in s.originals && PlaceOf(s.files, p) == Working
      && Apply(s, step).readLog == s.readLog + [Read(step.i, p, s.originals[p])]
    ensures !Opening(s, step) ==> Apply(s, step).readLog == s.readLog
  {
    if Opening(s, step) { OpenFinds(s, step.i); }
  }

  lemma ReadsOfOriginals(s: State, step: Step, k: nat)
    requires OwnershipInv(s) && Enabled(s, step) && ClaimsAdmitted(s, step) && k < |Apply(s, step).readLog|
    ensures var t := Apply(s, step);
      var r := t.readLog[k];
      r.path in t.originals && r.content == t.originals[r.path] && PlaceOf(t.files, r.path) != Waiting
  {
    ReadsAfter(s, step);
    var p := Apply(s, step).readLog[k].path;
    assert p in s.originals && PlaceOf(s.files, p) != Waiting;
    PlacesAfter(s, step, p);
  }

  lemma ReadsDistinct(s: State, step: Step, k: nat, l: nat)
    requires OwnershipInv(s) && Enabled(s, step) && k < l < |Apply(s, step).readLog|
    ensures Apply(s, step).readLog[k].path != Apply(s, step).readLog[l].path
  {
    ReadsAfter(s, step);
  }

  /** A path just claimed was waiting, so it has not been read. */
  lemma JustClaimed(s: State, step: Step, k: nat)
    requires OwnershipInv(s) && Enabled(s, step) && ClaimsAdmitted(s, step) && Claiming(s, step) && k < |s.readLog|
    ensures s.readLog[k].path != s.processors[step.i].path
  {
    ClaimedPath(s, step);
  }

  lemma {:induction false} ReadNotClaimed(s: State, step: Step, k: nat, i: nat)
    requires OwnershipInv(s) && Enabled(s, step) && ClaimsAdmitted(s, step)
    requires k < |Apply(s, step).readLog| && i < |Apply(s, step).processors| && Apply(s, step).processors[i].Claimed?
    ensures Apply(s, step).readLog[k].path != Apply(s, step).processors[i].path
  {
    ReadsAfter(s, step);
    if Claiming(s, step) && step.i == i {
      JustClaimed(s, step, k);
    } else {
      ClaimedBefore(s, step, i);
      if Opening(s, step) {
        assert step.i != i && NotShared(s, step.i, i) && s.processors[step.i].Owns(s.processors[step.i].path);
      }
    }
  }

  lemma ClaimedBefore(s: State, step: Step, i: nat)
    requires Enabled(s, step) && i < |s.processors| && i < |Apply(s, step).processors|
    requires Apply(s, step).processors[i].Claimed? && !(Claiming(s, step) && step.i == i)
    ensures s.processors[i] == Apply(s, step).processors[i] && !(step.Works? && step.i == i)
  {
  }

  lemma ReadsKept(s: State, step: Step)
    requires OwnershipInv(s) && Enabled(s, step) && ClaimsAdmitted(s, step)
    ensures ReadsInv(Apply(s, step))
  {
    var t := Apply(s, step);
    forall k | 0 <= k < |t.readLog| ensures var r := t.readLog[k];
      r.path in t.originals && r.content == t.originals[r.path] && PlaceOf(t.files, r.path) != Waiting
    {
      ReadsOfOriginals(s, step, k);
    }
    forall k, l | 0 <= k < l < |t.readLog| ensures t.readLog[k].path != t.readLog[l].path {
      ReadsDistinct(s, step, k, l);
    }
    forall k, i | 0 <= k < |t.readLog| && 0 <= i < |t.processors| && t.processors[i].Claimed?
      ensures t.readLog[k].path != t.processors[i].path
    {
      ReadNotClaimed(s, step, k, i);
    }
  }

  lemma OwnershipKept(s: State, step: Step)
    requires OwnershipInv(s) && Enabled(s, step) && ClaimsAdmitted(s, step)
    ensures OwnershipInv(Apply(s, step))
  {
    FilesKept(s, step);
    OwnersKept(s, step);
    ClaimsKept(s, step);
    ReadsKept(s, step);
  }

  // Whole runs

  ghost predicate Inv(s: State) {
    OwnershipInv(s) && PathsInv(s) && ShutdownInv(s)
  }

  lemma InitialWaiting(s: State, o: Path)
    requires Initial(s) && o in s.originals
    ensures PlaceOf(s.files, o) == Waiting
  {
    NamesDiffer(o, o);
    assert InProgress(o) in s.originals ==> Apart(o, InProgress(o));
    assert Done(o) in s.originals ==> Apart(o, Done(o));
  }

  lemma {:induction false} InitialFiles(s: State)
    requires Initial(s)
    ensures OwnershipInv(s)
  {
    forall o, q | o in s.originals && q in s.originals && o != q ensures Disjoint(o, q) {
      ApartDisjoint(o, q);
    }
    forall o <- s.originals ensures PlaceOf(s.files, o) == Waiting { InitialWaiting(s, o); }
    forall f <- s.files ensures Named(s.originals, f) {
      assert f in s.originals && IsNameOf(f, f);
    }
    forall i | 0 <= i < |s.processors| ensures Sound(s, i) { assert s.processors[i] == Test; }
  }

  lemma InitialPaths(s: State)
    requires Initial(s)
    ensures PathsInv(s) && ShutdownInv(s)
  {
    forall p ensures Balanced(s, p) {
      NothingHeld(s.processors, p);
    }
  }

  lemma AdmittedClaim(s: State, step: Step)
    requires Inv(s) && Enabled(s, step)
    ensures ClaimsAdmitted(s, step)
  {
    if Claiming(s, step) { HeldWasAdmitted(s, step.i); }
  }

  lemma InvKept(s: State, step: Step)
    requires Inv(s) && Enabled(s, step)
    ensures Inv(Apply(s, step)) && |Apply(s, step).processors| == |s.processors|
  {
    AdmittedClaim(s, step);
    OwnershipKept(s, step);
    PathsKept(s, step);
    ShutdownKept(s, step);
  }

  lemma InvNext(s: State, t: State)
    requires Inv(s) && Next(s, t)
    ensures Inv(t) && |t.processors| == |s.processors|
  {
    var step :| Enabled(s, step) && t == Apply(s, step);
    InvKept(s, step);
  }

  lemma {:induction false} InvHolds(run: seq<State>, k: nat)
    requires IsRun(run) && k < |run|
    ensures Inv(run[k]) && |run[k].processors| == |run[0].processors|
  {
    if k == 0 {
      InitialFiles(run[0]);
      InitialPaths(run[0]);
    } else {
      InvHolds(run, k - 1);
      assert StepAt(run, k - 1);
      InvNext(run[k - 1], run[k]);
    }
  }

  /** Single owner. At any moment of any run, with any number of processors and of queue entries for a
      path: every file from outside exists, with its content, under exactly one of its three names; it
      is under the in-progress name exactly while a processor owns it, and no two processors do. */
  lemma SingleOwner(run: seq<State>, k: nat, o: Path)
    requires IsRun(run) && k < |run| && o in run[k].originals
    ensures ContentOf(run[k].files, o) == Some(run[k].originals[o])
    ensures PlaceOf(run[k].files, o) == Working <==> HasOwner(run[k], o)
    ensures forall i, j | 0 <= i < j < |run[k].processors| && run[k].processors[i].Owns(o) ::
      !run[k].processors[j].Owns(o)
  {
    InvHolds(run, k);
    var s := run[k];
    if HasOwner(s, o) {
      var i :| 0 <= i < |s.processors| && s.processors[i].Owns(o);
      assert Sound(s, i);
    }
    forall i, j | 0 <= i < j < |s.processors| && s.processors[i].Owns(o) ensures !s.processors[j].Owns(o) {
      assert NotShared(s, i, j);
    }
  }

  /** Every file is claimed at most once and read at most once, by one processor, and what is read is
      the content it was created with. */
  lemma ReadAtMostOnce(run: seq<State>, k: nat, a: nat, b: nat)
    requires IsRun(run) && k < |run| && a < |run[k].readLog| && b < |run[k].readLog|
    ensures forall x, y | 0 <= x < y < |run[k].claims| :: run[k].claims[x] != run[k].claims[y]
    ensures run[k].readLog[a].path == run[k].readLog[b].path ==> a == b
    ensures var r := run[k].readLog[a];
      r.path in run[k].originals && r.content == run[k].originals[r.path] && r.path in run[k].claims
  {
    InvHolds(run, k);
  }

  /** Conservation: the admitted paths are, as a multiset, those pending, in the poller's hand, queued, in
      processors' hands, and handled; dequeues happen in the order of the enqueues. */
  lemma PathConservation(run: seq<State>, k: nat, p: Path)
    requires IsRun(run) && k < |run|
    ensures var s := run[k];
      multiset(s.admitted)[p]
        == multiset(s.filePaths)[p] + s.poller.Held(p) + multiset(s.queue)[p] + HeldByAll(s.processors, p)
           + s.handled[p]
    ensures run[k].enqueued == run[k].dequeued + run[k].queue
    ensures "" !in run[k].admitted
  {
    InvHolds(run, k);
    assert Balanced(run[k], p);
  }

  /** After the flag each processor starts at most one more step and claims at most one more file. */
  lemma AtMostOneMoreStep(run: seq<State>, k: nat, i: nat)
    requires IsRun(run) && k < |run| && i < |run[k].processors|
    ensures i < |run[k].stepsAfter| && run[k].stepsAfter[i] <= 1
    ensures i < |run[k].claimsAfter| && run[k].claimsAfter[i] <= 1
  {
    InvHolds(run, k);
    assert Bounded(run[k], i);
  }

  /** Nor does the poller: after the flag it starts at most one more step. */
  lemma PollerAtMostOneMoreStep(run: seq<State>, k: nat)
    requires IsRun(run) && k < |run|
    ensures run[k].pollsAfter <= 1
  {
    InvHolds(run, k);
  }

  lemma EnqueuesRunOutNext(s: State, t: State)
    requires Next(s, t) && s.shutdown
    ensures t.shutdown && |t.enqueued| + EnqueuesLeft(t.poller) <= |s.enqueued| + EnqueuesLeft(s.poller)
  {
    var step :| Enabled(s, step) && t == Apply(s, step);
    EnqueuesRunOut(s, step);
  }

  /** Between any moment with the flag up and any later one at most one more path is enqueued, and none
      once the poller is back at the flag test. */
  lemma {:induction false} AtMostOneMoreEnqueue(run: seq<State>, a: nat, b: nat)
    requires IsRun(run) && a <= b < |run| && run[a].shutdown
    ensures run[b].shutdown
    ensures |run[b].enqueued| + EnqueuesLeft(run[b].poller) <= |run[a].enqueued| + EnqueuesLeft(run[a].poller)
    ensures |run[b].enqueued| <= |run[a].enqueued| + 1
    decreases b
  {
    if a < b {
      AtMostOneMoreEnqueue(run, a, b - 1);
      assert StepAt(run, b - 1);
      EnqueuesRunOutNext(run[b - 1], run[b]);
    }
  }

  lemma ClaimsCountedNext(s: State, t: State)
    requires Inv(s) && Next(s, t) && s.shutdown
    ensures t.shutdown && EarlyClaims(t) == EarlyClaims(s)
  {
    var step :| Enabled(s, step) && t == Apply(s, step);
    ClaimsCounted(s, step);
  }

  lemma ClaimsCountedAt(run: seq<State>, k: nat)
    requires IsRun(run) && k + 1 < |run| && run[k].shutdown
    ensures run[k + 1].shutdown && EarlyClaims(run[k + 1]) == EarlyClaims(run[k])
  {
    InvHolds(run, k);
    assert StepAt(run, k);
    ClaimsCountedNext(run[k], run[k + 1]);
  }

  lemma {:induction false} ClaimsSinceFlag(run: seq<State>, a: nat, b: nat)
    requires IsRun(run) && a <= b < |run| && run[a].shutdown
    ensures run[b].shutdown && EarlyClaims(run[b]) == EarlyClaims(run[a])
    decreases b
  {
    if a < b {
      ClaimsSinceFlag(run, a, b - 1);
      ClaimsCountedAt(run, b - 1);
    }
  }

  /** N processors claim at most N files between any moment with the flag up and any later one. */
  lemma AtMostNMoreClaims(run: seq<State>, a: nat, b: nat)
    requires IsRun(run) && a <= b < |run| && run[a].shutdown
    ensures |run[b].claims| <= |run[a].claims| + |run[0].processors|
  {
    ClaimsSinceFlag(run, a, b);
    InvHolds(run, b);
    var s := run[b];
    forall j | 0 <= j < |s.claimsAfter| ensures s.claimsAfter[j] <= 1 { assert Bounded(s, j); }
    SumBounded(s.claimsAfter);
  }

  /** Once every processor has returned, every file that was ever claimed is under its done name,
      whatever its rows raised, and every other one is still waiting under its own. */
  lemma NothingLeftInProgress(run: seq<State>, k: nat, o: Path)
    requires IsRun(run) && k < |run| && o in run[k].originals
    requires forall i | 0 <= i < |run[k].processors| :: run[k].processors[i].Returned?
    ensures PlaceOf(run[k].files, o) == if o in run[k].claims then Finished else Waiting
  {
    InvHolds(run, k);
    assert ContentOf(run[k].files, o) == Some(run[k].originals[o]);
    assert !HasOwner(run[k], o);
  }
}
