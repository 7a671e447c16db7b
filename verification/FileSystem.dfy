/** The directory as a map from path to content, and the names a file goes through. */
module FileSystem {
  import opened Basics

  type Files = map<string, string>

  /** rename(2): atomic, replaces the target, fails when the source does not exist. */
  function Renamed(files: Files, src: string, dst: string): Files {
    if src in files then (files - {src})[dst := files[src]] else files
  }

  function InProgress(path: string): string { path + "_inprogress" }

  function Done(path: string): string { path + "_done" }

  /** Names a poller does not take for new files. */
  predicate Reserved(path: string) {
    EndsWith(path, "_inprogress") || EndsWith(path, "_done")
  }

  class Directory {
    var files: Files

    constructor (files: Files)
      ensures this.files == files
    {
      this.files := files;
    }

    method Rename(src: string, dst: string) returns (ok: bool)
      modifies this
      ensures ok <==> src in old(files)
      ensures files == Renamed(old(files), src, dst)
    {
      ok := src in files;
      if ok {
        var content := files[src];
        files := (files - {src})[dst := content];
      }
    }
  }

  /** What a finished or an unfinished handle leaves of the files. */
  function Claimed(files: Files, path: string): Files {
    Renamed(files, path, InProgress(path))
  }

  function Finished(files: Files, path: string): Files {
    Renamed(Claimed(files, path), InProgress(path), Done(path))
  }

  /** The content moves from path to the done name, and nothing else moves. */
  lemma FinishedMoves(files: Files, path: string)
    requires path in files
    ensures Finished(files, path) == (files - {path, path + "_inprogress"})[path + "_done" := files[path]]
    ensures Claimed(files, path) == (files - {path})[path + "_inprogress" := files[path]]
  {
    assert |InProgress(path)| != |Done(path)|;
    var a, b := Finished(files, path), (files - {path, InProgress(path)})[Done(path) := files[path]];
    assert a.Keys == b.Keys;
    assert forall p <- a.Keys :: a[p] == b[p];
  }

  lemma NamesDiffer(p: string, q: string)
    ensures InProgress(p) != Done(q) && InProgress(p) != p && Done(p) != p
    ensures InProgress(p) == InProgress(q) ==> p == q
    ensures Done(p) == Done(q) ==> p == q
    ensures Reserved(InProgress(p)) && Reserved(Done(p))
  {
    var a, b := InProgress(p), Done(q);
    assert a[|a| - 1] == 's' && b[|b| - 1] == 'e';
    assert InProgress(p)[..|p|] == p && InProgress(q)[..|q|] == q;
    assert Done(p)[..|p|] == p && Done(q)[..|q|] == q;
  }

  /** Handling a file leaves all other files as they are exactly when its in-progress name was free and
      its done name was free (or held the very same content): why the names of new files must be fresh. */
  lemma OthersUntouched(files: Files, path: string)
    requires path in files
    ensures (forall f | f in files && f != path :: f in Finished(files, path) && Finished(files, path)[f] == files[f])
       <==> InProgress(path) !in files && (Done(path) in files ==> files[Done(path)] == files[path])
  {
    NamesDiffer(path, path);
    FinishedMoves(files, path);
    var after := Finished(files, path);
    if forall f | f in files && f != path :: f in after && after[f] == files[f] {
      assert InProgress(path) in files ==> InProgress(path) in after;
      assert Done(path) in files ==> after[Done(path)] == files[Done(path)];
    }
  }
}
