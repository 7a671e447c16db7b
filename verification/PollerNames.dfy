/** What the poller reads off an inotify record and off a listing, in terms of names and suffixes. */
module PollerNames {
  import opened Basics
  import opened FileSystem
  import opened Framing
  import opened DirectoryPoller

  lemma EndsWithMeans(s: string, suffix: string)
    ensures EndsWith(s, suffix) <==> exists pre :: s == pre + suffix
  {
    if EndsWith(s, suffix) {
      assert s == s[..|s| - |suffix|] + suffix;
    }
  }

  /** Listed at start-up are the files without the done suffix, later those without either suffix. */
  lemma ShouldAddMeans(f: string)
    ensures ShouldAddFile(f, true) <==> !exists pre :: f == pre + "_done"
    ensures ShouldAddFile(f, false) <==> (!exists pre :: f == pre + "_done") && !exists pre :: f == pre + "_inprogress"
  {
    EndsWithMeans(f, "_done");
    EndsWithMeans(f, "_inprogress");
  }

  lemma ReservedMeans(f: string)
    ensures Reserved(f) <==> (exists pre :: f == pre + "_done") || exists pre :: f == pre + "_inprogress"
  {
    EndsWithMeans(f, "_done");
    EndsWithMeans(f, "_inprogress");
  }

  /** Such files are added in the order of the listing, each as often as it is listed. */
  lemma {:induction false} AddedInOrder(first: string, files: seq<string>, startingUp: bool)
    ensures Added([first] + files, startingUp)
         == (if ShouldAddFile(first, startingUp) then [first] else []) + Added(files, startingUp)
    decreases |files|
  {
    if files == [] {
      assert [first] + files == [first] && [first][..0] == [];
    } else {
      var n := |files| - 1;
      assert ([first] + files)[..n + 1] == [first] + files[..n];
      AddedInOrder(first, files[..n], startingUp);
      ConcatAssoc(if ShouldAddFile(first, startingUp) then [first] else [], Added(files[..n], startingUp),
                  if ShouldAddFile(files[n], startingUp) then [files[n]] else []);
    }
  }

  /** The name in a padded name field: the bytes before the first NUL, in order. */
  lemma {:induction false} CStringReads(name: seq<byte>, pad: seq<byte>)
    requires 0 !in name
    ensures var s := CString(name + [0] + pad);
      |s| == |name| && forall j | 0 <= j < |name| :: s[j] == name[j] as char
  {
    var field := name + [0] + pad;
    if name != [] {
      assert field[1..] == name[1..] + [0] + pad;
      CStringReads(name[1..], pad);
    }
  }

  /** One record: a name is admitted, under the directory, exactly if the event is the closing of a file that
      is neither a directory nor just created, and the path has no reserved suffix. */
  lemma RecordAdmits(dir: string, e: Event, name: seq<byte>, pad: seq<byte>, path: string)
    requires e.nameField == name + [0] + pad && 0 !in name
    requires |path| == |dir| + 1 + |name| && path[..|dir|] == dir && path[|dir|] == '/'
    requires forall j | 0 <= j < |name| :: path[|dir| + 1 + j] == name[j] as char
    ensures AdmittedPaths(dir, [e])
         == if (e.mask / 8 % 2 == 1 || e.mask / 16 % 2 == 1) && e.mask / 256 % 2 == 0
              && e.mask / 0x4000_0000 % 2 == 0 && ShouldAddFile(path, false)
            then [path] else []
  {
    CStringReads(name, pad);
    PathIs(dir, CString(e.nameField), path);
    OneRecord(dir, e);
    ClosingBits(e.mask);
  }

  lemma PathIs(dir: string, name: string, path: string)
    requires |path| == |dir| + 1 + |name| && path[..|dir|] == dir && path[|dir|] == '/'
    requires forall j | 0 <= j < |name| :: path[|dir| + 1 + j] == name[j]
    ensures path == dir + "/" + name
  {
    assert path == path[..|dir|] + [path[|dir|]] + path[|dir| + 1..];
  }

  lemma OneRecord(dir: string, e: Event)
    ensures AdmittedPaths(dir, [e]) == if Admits(dir, e) then [dir + "/" + CString(e.nameField)] else []
  {
    assert AdmittedPaths(dir, []) == [];
  }

  lemma ClosingBits(mask: int)
    ensures HasFlag(mask, IN_CREATE) <==> mask / 256 % 2 == 1
    ensures HasFlag(mask, IN_CLOSE_WRITE) || HasFlag(mask, IN_CLOSE_NOWRITE)
       <==> mask / 8 % 2 == 1 || mask / 16 % 2 == 1
  {
  }

  /** A record without a name field admits nothing; records are taken one after the other. */
  lemma {:induction false} RecordByRecord(dir: string, events: seq<Event>, e: Event)
    ensures AdmittedPaths(dir, events + [e]) == AdmittedPaths(dir, events) + AdmittedPaths(dir, [e])
    ensures e.nameField == [] ==> AdmittedPaths(dir, [e]) == []
  {
    if events == [] {
      assert events + [e] == [e];
    } else {
      assert (events + [e])[1..] == events[1..] + [e];
      RecordByRecord(dir, events[1..], e);
      ConcatAssoc(if Admits(dir, events[0]) then [dir + "/" + CString(events[0].nameField)] else [],
                  AdmittedPaths(dir, events[1..]), AdmittedPaths(dir, [e]));
    }
  }

  /** The listing of a later snapshot: a file is new exactly if the last snapshot did not have it. */
  lemma {:induction false} FreshInOrder(last: set<string>, first: string, files: seq<string>)
    ensures Fresh(last, [first] + files) == (if first in last then [] else [first]) + Fresh(last, files)
    decreases |files|
  {
    if files == [] {
      assert [first] + files == [first] && [first][..0] == [];
    } else {
      var n := |files| - 1;
      assert ([first] + files)[..n + 1] == [first] + files[..n];
      FreshInOrder(last, first, files[..n]);
      ConcatAssoc(if first in last then [] else [first], Fresh(last, files[..n]),
                  if files[n] in last then [] else [files[n]]);
    }
  }
}
