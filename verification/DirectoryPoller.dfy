/** DirectoryPoller: the start-up listing, the walk over inotify records (Linux), and the comparison of
    directory snapshots (macOS). */
module DirectoryPoller {
  import opened Basics
  import opened FileSystem
  import opened Framing

  predicate ShouldAddFile(f: string, startingUp: bool) {
    (startingUp || !EndsWith(f, "_inprogress")) && !EndsWith(f, "_done")
  }

  /** The files of a listing that are added, in its order. */
  function Added(files: seq<string>, startingUp: bool): seq<string> {
    if files == [] then []
    else
      var n := |files| - 1;
      Added(files[..n], startingUp) + if ShouldAddFile(files[n], startingUp) then [files[n]] else []
  }

  // One inotify_event: int wd; uint32_t mask, cookie, len; char name[len]

  const EVENT_SIZE := 16
  const IN_CLOSE_WRITE := 0x8
  const IN_CLOSE_NOWRITE := 0x10
  const IN_CREATE := 0x100
  const IN_ISDIR := 0x4000_0000

  /** mask & flag, for a flag of one bit. */
  predicate HasFlag(mask: int, flag: int)
    requires flag > 0
  {
    mask / flag % 2 == 1
  }

  datatype Event = Event(wd: int, mask: int, cookie: int, nameField: seq<byte>) {
    /** A name field, when there is one, is padded with at least one NUL. */
    predicate Valid() {
      && 0 <= wd < 0x1_0000_0000 && 0 <= mask < 0x1_0000_0000 && 0 <= cookie < 0x1_0000_0000
      && |nameField| < 0x1_0000_0000 && (nameField == [] || 0 in nameField)
    }

    function Bytes(): (bytes: seq<byte>)
      requires Valid()
      ensures |bytes| == EVENT_SIZE + |nameField|
    {
      LittleEndian(wd) + LittleEndian(mask) + LittleEndian(cookie) + LittleEndian(|nameField|) + nameField
    }
  }

  predicate ValidEvents(events: seq<Event>) {
    forall e <- events :: e.Valid()
  }

  function AllBytes(events: seq<Event>): seq<byte>
    requires ValidEvents(events)
  {
    if events == [] then []
    else
      assert events[0] in events;
      events[0].Bytes() + AllBytes(events[1..])
  }

  lemma NoBytesNoEvents(events: seq<Event>)
    requires ValidEvents(events)
    ensures AllBytes(events) == [] <==> events == []
  {
    if events != [] {
      assert events[0] in events;
      assert |events[0].Bytes() + AllBytes(events[1..])| > 0;
    }
  }

  /** A C string: the characters before the first NUL. */
  function CString(bytes: seq<byte>): string {
    if bytes == [] || bytes[0] == 0 then "" else [bytes[0] as char] + CString(bytes[1..])
  }

  lemma {:induction false} CStringPrefix(bytes: seq<byte>, more: seq<byte>)
    requires 0 in bytes
    ensures CString(bytes + more) == CString(bytes)
  {
    if bytes[0] != 0 {
      assert (bytes + more)[1..] == bytes[1..] + more;
      CStringPrefix(bytes[1..], more);
    }
  }

  /** The events that admit a path: closed, not created, not of a directory, with a name. */
  predicate Admits(dir: string, e: Event) {
    && e.nameField != [] && !HasFlag(e.mask, IN_CREATE)
    && (HasFlag(e.mask, IN_CLOSE_WRITE) || HasFlag(e.mask, IN_CLOSE_NOWRITE)) && !HasFlag(e.mask, IN_ISDIR)
    && !Reserved(dir + "/" + CString(e.nameField))
  }

  function AdmittedPaths(dir: string, events: seq<Event>): seq<string> {
    if events == [] then []
    else
      var first := if Admits(dir, events[0]) then [dir + "/" + CString(events[0].nameField)] else [];
      first + AdmittedPaths(dir, events[1..])
  }

  /** What a poll admits is never the empty "nothing", and carries no reserved suffix. */
  lemma {:induction false} AdmittedNames(dir: string, events: seq<Event>)
    ensures forall p <- AdmittedPaths(dir, events) :: p != "" && !Reserved(p)
  {
    if events != [] {
      AdmittedNames(dir, events[1..]);
      assert dir + "/" + CString(events[0].nameField) != "";
    }
  }

  lemma LittleEndianRoundTrip(u: int)
    requires 0 <= u < 0x1_0000_0000
    ensures var b := LittleEndian(u); Joined(b[3], b[2], b[1], b[0]) == u
  {
    var a, b, c, d := ByteParts(u);
  }

  /** The fields found at the start of a buffer that begins with the record of e. */
  lemma FieldsAt(b: seq<byte>, e: Event, rest: seq<byte>)
    requires e.Valid() && b == e.Bytes() + rest
    ensures |b| >= EVENT_SIZE + |e.nameField|
    ensures Joined(b[7], b[6], b[5], b[4]) == e.mask
    ensures Joined(b[15], b[14], b[13], b[12]) == |e.nameField|
    ensures b[EVENT_SIZE..] == e.nameField + rest && b[EVENT_SIZE + |e.nameField|..] == rest
  {
    LittleEndianRoundTrip(e.mask);
    LittleEndianRoundTrip(|e.nameField|);
    var m, n := LittleEndian(e.mask), LittleEndian(|e.nameField|);
    assert b[4] == m[0] && b[5] == m[1] && b[6] == m[2] && b[7] == m[3];
    assert b[12] == n[0] && b[13] == n[1] && b[14] == n[2] && b[15] == n[3];
  }

  class DirectoryPoller {
    const dir: string
    var filePaths: seq<string>
    var lastFiles: set<string>

    /** listing is the directory in the order of the sorted set it is kept in. */
    constructor (dir: string, listing: seq<string>)
      ensures this.dir == dir && filePaths == Added(listing, true)
      ensures lastFiles == set f | f in listing
    {
      this.dir := dir;
      lastFiles := set f | f in listing;
      filePaths := [];
      new;
      for k := 0 to |listing|
        invariant this.dir == dir && lastFiles == set f | f in listing
        invariant filePaths == Added(listing[..k], true)
      {
        TakeNext(listing, k);
        if ShouldAddFile(listing[k], true) {
          filePaths := filePaths + [listing[k]];
        }
      }
      TakeAll(listing);
    }

    /** The mask and len fields of the struct at i. */
    method ReadHeader(buffer: array<byte>, i: nat, length: nat) returns (mask: int, len: int)
      requires i + EVENT_SIZE <= length <= buffer.Length
      ensures var b := buffer[i..length];
        mask == Joined(b[7], b[6], b[5], b[4]) && len == Joined(b[15], b[14], b[13], b[12])
    {
      mask := Joined(buffer[i + 7], buffer[i + 6], buffer[i + 5], buffer[i + 4]);
      len := Joined(buffer[i + 15], buffer[i + 14], buffer[i + 13], buffer[i + 12]);
    }

    /** The body of the record loop: the record at i; the result is the index of the next one. */
    method Visit(buffer: array<byte>, i: nat, length: nat, ghost e: Event, ghost rest: seq<byte>) returns (next: nat)
      requires i <= length <= buffer.Length && e.Valid() && buffer[i..length] == e.Bytes() + rest
      modifies this`filePaths
      ensures next == i + EVENT_SIZE + |e.nameField| <= length && buffer[next..length] == rest
      ensures filePaths == old(filePaths) + if Admits(dir, e) then [dir + "/" + CString(e.nameField)] else []
    {
      ghost var b := buffer[i..length];
      FieldsAt(b, e, rest);
      var mask, len := ReadHeader(buffer, i, length);
      assert buffer[i + EVENT_SIZE..length] == b[EVENT_SIZE..];
      if len != 0 {
        CStringPrefix(e.nameField, rest);
        if HasFlag(mask, IN_CREATE) {
          // logged only
        } else if HasFlag(mask, IN_CLOSE_WRITE) || HasFlag(mask, IN_CLOSE_NOWRITE) {
          if !HasFlag(mask, IN_ISDIR) {
            var fileName := dir + "/" + CString(buffer[i + EVENT_SIZE..length]);
            if ShouldAddFile(fileName, false) {
              filePaths := filePaths + [fileName];
            }
          }
        }
      }
      next := i + EVENT_SIZE + len;
      assert buffer[next..length] == b[EVENT_SIZE + |e.nameField|..];
    }

    /** The walk over a buffer that read has filled with complete records: it ends exactly at length,
        having visited each record once, in order. A failed read has a negative length. */
    method Walk(buffer: array<byte>, length: int, ghost events: seq<Event>) returns (i: nat)
      requires ValidEvents(events) && length <= buffer.Length
      requires if length < 0 then events == [] else buffer[..length] == AllBytes(events)
      modifies this`filePaths
      ensures length >= 0 ==> i == length
      ensures filePaths == old(filePaths) + AdmittedPaths(dir, events)
    {
      i := 0;
      ghost var todo := events;
      while i < length
        invariant length >= 0 ==> i <= length
        invariant ValidEvents(todo) && (length < 0 ==> todo == [])
        invariant length >= 0 ==> buffer[i..length] == AllBytes(todo)
        invariant filePaths + AdmittedPaths(dir, todo) == old(filePaths) + AdmittedPaths(dir, events)
        decreases |todo|
      {
        ghost var before, e := filePaths, todo[0];
        assert e in todo;
        i := Visit(buffer, i, length, e, AllBytes(todo[1..]));
        ConcatAssoc(before, if Admits(dir, e) then [dir + "/" + CString(e.nameField)] else [],
                    AdmittedPaths(dir, todo[1..]));
        todo := todo[1..];
      }
      if length >= 0 {
        NoBytesNoEvents(todo);
      }
    }

    /** The end of poll: the last pending path, or "" for nothing. */
    method PopPending() returns (result: string)
      modifies this`filePaths
      ensures old(filePaths) == [] ==> result == "" && filePaths == []
      ensures old(filePaths) != [] ==> old(filePaths) == filePaths + [result]
    {
      if filePaths == [] {
        return "";
      }
      result := filePaths[|filePaths| - 1];
      filePaths := filePaths[..|filePaths| - 1];
    }

    /** poll on Linux; ready is what select reports. */
    method Poll(ready: bool, buffer: array<byte>, length: int, ghost events: seq<Event>) returns (result: string)
      requires ValidEvents(events) && length <= buffer.Length
      requires if length < 0 then events == [] else buffer[..length] == AllBytes(events)
      modifies this`filePaths
      ensures var pending := if old(filePaths) != [] || !ready then old(filePaths) else AdmittedPaths(dir, events);
        if pending == [] then result == "" && filePaths == [] else pending == filePaths + [result]
    {
      if filePaths != [] {
        result := PopPending();
        return;
      }
      if ready {
        var i := Walk(buffer, length, events);
        assert [] + AdmittedPaths(dir, events) == AdmittedPaths(dir, events);
      }
      result := PopPending();
    }

    /** The NOTE_WRITE branch of poll on macOS: current is the new listing in set order. */
    method Scan(current: seq<string>)
      modifies this`filePaths, this`lastFiles
      ensures filePaths == old(filePaths) + Added(Fresh(old(lastFiles), current), false)
      ensures lastFiles == set f | f in current
    {
      var added: seq<string> := [];
      for k := 0 to |current|
        invariant added == Fresh(lastFiles, current[..k]) && lastFiles == old(lastFiles) && filePaths == old(filePaths)
      {
        TakeNext(current, k);
        if current[k] !in lastFiles {
          added := added + [current[k]];
        }
      }
      TakeAll(current);
      for k := 0 to |added|
        invariant filePaths == old(filePaths) + Added(added[..k], false)
      {
        TakeNext(added, k);
        if ShouldAddFile(added[k], false) {
          filePaths := filePaths + [added[k]];
        }
      }
      TakeAll(added);
      lastFiles := set f | f in current;
    }
  }

  // Snapshots

  /** set_difference(current, last), in the order of current. */
  function Fresh(last: set<string>, current: seq<string>): seq<string> {
    if current == [] then []
    else
      var n := |current| - 1;
      Fresh(last, current[..n]) + if current[n] in last then [] else [current[n]]
  }

  predicate NoDuplicates(files: seq<string>) {
    forall i, j | 0 <= i < j < |files| :: files[i] != files[j]
  }

  function AsSet(files: seq<string>): set<string> {
    set f | f in files
  }

  /** Everything scans admit over a sequence of snapshots, after the listing last. */
  function Admissions(last: set<string>, snapshots: seq<seq<string>>): seq<string>
    decreases snapshots
  {
    if snapshots == [] then []
    else Added(Fresh(last, snapshots[0]), false) + Admissions(AsSet(snapshots[0]), snapshots[1..])
  }

  /** How often p goes from absent to present. */
  function Appearances(p: string, last: set<string>, snapshots: seq<seq<string>>): nat
    decreases snapshots
  {
    if snapshots == [] then 0
    else (if p !in last && p in snapshots[0] then 1 else 0) + Appearances(p, AsSet(snapshots[0]), snapshots[1..])
  }

  lemma {:induction false} FreshCount(last: set<string>, current: seq<string>, p: string)
    requires NoDuplicates(current)
    ensures multiset(Added(Fresh(last, current), false))[p]
         == if p in current && p !in last && !Reserved(p) then 1 else 0
  {
    if current != [] {
      var n := |current| - 1;
      InitNoDuplicates(current);
      FreshCount(last, current[..n], p);
      FreshCountSnoc(last, current, p);
    }
  }

  lemma InitNoDuplicates(files: seq<string>)
    requires files != [] && NoDuplicates(files)
    ensures var n := |files| - 1; NoDuplicates(files[..n]) && files[n] !in files[..n]
    ensures forall f :: f in files <==> f in files[..|files| - 1] || f == files[|files| - 1]
  {
    var n := |files| - 1;
    assert forall i, j | 0 <= i < j < n :: files[..n][i] == files[i] && files[..n][j] == files[j];
    assert files == files[..n] + [files[n]];
  }

  lemma FreshCountSnoc(last: set<string>, current: seq<string>, p: string)
    requires current != []
    ensures var n := |current| - 1;
      multiset(Added(Fresh(last, current), false))[p]
        == multiset(Added(Fresh(last, current[..n]), false))[p]
           + if current[n] == p && p !in last && !Reserved(p) then 1 else 0
  {
    var n := |current| - 1;
    AddedSnoc(Fresh(last, current[..n]), current[n], p);
    assert Fresh(last, current[..n]) + [] == Fresh(last, current[..n]);
  }

  lemma AddedSnoc(files: seq<string>, f: string, p: string)
    ensures multiset(Added(files + [f], false))[p]
         == multiset(Added(files, false))[p] + if f == p && !Reserved(p) then 1 else 0
  {
    assert (files + [f])[..|files|] == files;
    assert Added(files, false) + [] == Added(files, false);
  }

  /** A path without a reserved suffix is admitted exactly once for every time it appears, any other never. */
  lemma {:induction false} SnapshotAdmission(p: string, last: set<string>, snapshots: seq<seq<string>>)
    requires forall s <- snapshots :: NoDuplicates(s)
    ensures multiset(Admissions(last, snapshots))[p] == if Reserved(p) then 0 else Appearances(p, last, snapshots)
    decreases snapshots
  {
    if snapshots != [] {
      assert snapshots[0] in snapshots;
      FreshCount(last, snapshots[0], p);
      SnapshotAdmission(p, AsSet(snapshots[0]), snapshots[1..]);
    }
  }

  /** Scan after scan: the pending paths grow by exactly those admissions, and m_last_files is the latest snapshot. */
  method ScanAll(poller: DirectoryPoller, snapshots: seq<seq<string>>)
    modifies poller`filePaths, poller`lastFiles
    ensures poller.filePaths == old(poller.filePaths) + Admissions(old(poller.lastFiles), snapshots)
    ensures snapshots != [] ==> poller.lastFiles == AsSet(snapshots[|snapshots| - 1])
  {
    var k := 0;
    while k < |snapshots|
      invariant k <= |snapshots|
      invariant poller.filePaths + Admissions(poller.lastFiles, snapshots[k..])
             == old(poller.filePaths) + Admissions(old(poller.lastFiles), snapshots)
      invariant k > 0 ==> poller.lastFiles == AsSet(snapshots[k - 1])
    {
      TakeNext(snapshots, k);
      ConcatAssoc(poller.filePaths, Added(Fresh(poller.lastFiles, snapshots[k]), false),
                  Admissions(AsSet(snapshots[k]), snapshots[k + 1..]));
      poller.Scan(snapshots[k]);
      k := k + 1;
    }
  }
}
