/** ZoneIdentifierCleaner: a registry of watched folders, each with one FileSystemWatcher, and the
    removal of the "Zone.Identifier" alternate data stream from single files and whole folders.
    The operating system is an input (Platform); the events the cleaner raises are appended to a log. */
module ZoneIdentifier {
  import opened Wrappers
  import opened Text

  /** What kernel32's DeleteFile reports for a path: success, or failure with the thread's last
      Win32 error code (Marshal.GetLastWin32Error). */
  datatype DeleteResult = Deleted | Failed(code: int)

  /** The file system as the cleaner observes it. */
  datatype Platform = Platform(
    directories: set<string>,             // the paths for which Directory.Exists holds
    files: set<string>,                   // the paths for which File.Exists holds
    watchable: set<string>,               // the paths on which a FileSystemWatcher starts without throwing
    deleteFile: string -> DeleteResult)   // the outcome of DeleteFile on a path

  /** ERROR_FILE_NOT_FOUND: the file carries no Zone.Identifier stream. */
  const ErrorFileNotFound := 2

  /** The name of the file's Zone.Identifier stream, in alternate-data-stream notation. */
  function StreamPath(filePath: string): (adsPath: string)
    ensures |adsPath| == |filePath| + 16 && adsPath[..|filePath|] == filePath
    ensures adsPath[|filePath|..] == ":Zone.Identifier"
  {
    filePath + ":Zone.Identifier"
  }

  /** The two events of the cleaner; the Win32Exception of an error is represented by its code. */
  datatype Event = FileProcessed(path: string) | ErrorOccurred(path: string, code: int)

  /** The outcome of one TryRemoveZoneIdentifier call: its return value and the events it raised. */
  datatype Attempt = Attempt(removed: bool, events: seq<Event>)

  /** The decision TryRemoveZoneIdentifier makes for one file. It reports success exactly when the
      file exists and its stream was deleted, and then raises FileProcessed once. A missing file and
      a missing stream (error 2) are silent failures. Every other error raises ErrorOccurred once
      with its code; no failure escapes as an exception. */
  function RemovalAttempt(p: Platform, filePath: string): (a: Attempt)
    ensures a.removed <==> filePath in p.files && p.deleteFile(StreamPath(filePath)).Deleted?
    ensures a.removed ==> a.events == [FileProcessed(filePath)]
    ensures !a.removed && a.events == [] <==>
              filePath !in p.files || p.deleteFile(StreamPath(filePath)) == Failed(ErrorFileNotFound)
    ensures !a.removed && a.events != [] ==>
              a.events == [ErrorOccurred(filePath, p.deleteFile(StreamPath(filePath)).code)]
  {
    if filePath !in p.files then Attempt(false, [])
    else match p.deleteFile(StreamPath(filePath))
      case Deleted => Attempt(true, [FileProcessed(filePath)])
      case Failed(error) =>
        if error == ErrorFileNotFound then Attempt(false, [])
        else Attempt(false, [ErrorOccurred(filePath, error)])
  }

  /** The number of files of a sweep for which the removal succeeded. */
  function SweepCount(p: Platform, files: seq<string>): (n: nat)
    ensures n <= |files|
  {
    if files == [] then 0
    else SweepCount(p, files[..|files| - 1])
         + (if RemovalAttempt(p, files[|files| - 1]).removed then 1 else 0)
  }

  /** The events raised by a sweep, in file order. */
  function SweepEvents(p: Platform, files: seq<string>): (es: seq<Event>)
    ensures |es| <= |files|
    ensures forall e :: e in es ==> e.path in files
  {
    if files == [] then []
    else SweepEvents(p, files[..|files| - 1]) + RemovalAttempt(p, files[|files| - 1]).events
  }

  /** The number of FileProcessed events in a log. */
  function ProcessedCount(es: seq<Event>): nat {
    if es == [] then 0
    else ProcessedCount(es[..|es| - 1]) + (if es[|es| - 1].FileProcessed? then 1 else 0)
  }

  lemma {:induction false} ProcessedCountAppend(a: seq<Event>, b: seq<Event>)
    ensures ProcessedCount(a + b) == ProcessedCount(a) + ProcessedCount(b)
    decreases |b|
  {
    if b != [] {
      assert (a + b)[..|a + b| - 1] == a + b[..|b| - 1];
      ProcessedCountAppend(a, b[..|b| - 1]);
    } else {
      assert a + b == a;
    }
  }

  /** A sweep's count is the number of FileProcessed events it raised. */
  lemma {:induction false} SweepCountIsProcessedEvents(p: Platform, files: seq<string>)
    ensures SweepCount(p, files) == ProcessedCount(SweepEvents(p, files))
    decreases |files|
  {
    if files != [] {
      var init, last := files[..|files| - 1], files[|files| - 1];
      SweepCountIsProcessedEvents(p, init);
      ProcessedCountAppend(SweepEvents(p, init), RemovalAttempt(p, last).events);
      var a := RemovalAttempt(p, last);
      assert ProcessedCount(a.events) == if a.removed then 1 else 0 by {
        if a.events != [] {
          assert a.events[..|a.events| - 1] == [];
        }
      }
    }
  }

  /** A sweep counts every file exactly when the stream of every file was removed. */
  lemma {:induction false} SweepCountAll(p: Platform, files: seq<string>)
    ensures SweepCount(p, files) == |files| <==>
              forall f :: f in files ==> RemovalAttempt(p, f).removed
    decreases |files|
  {
    if files != [] {
      var init, last := files[..|files| - 1], files[|files| - 1];
      SweepCountAll(p, init);
      assert files == init + [last];
      if SweepCount(p, files) == |files| {
        assert SweepCount(p, init) == |init|;
      }
    }
  }

  /** A sweep counts nothing exactly when no file had its stream removed. */
  lemma {:induction false} SweepCountNone(p: Platform, files: seq<string>)
    ensures SweepCount(p, files) == 0 <==>
              forall f :: f in files ==> !RemovalAttempt(p, f).removed
    decreases |files|
  {
    if files != [] {
      var init, last := files[..|files| - 1], files[|files| - 1];
      SweepCountNone(p, init);
      assert files == init + [last];
    }
  }

  /** The guard at the top of OnFileEvent: an event without a path or about a directory schedules
      nothing; any other event schedules a removal attempt on exactly its path. */
  function DebounceTarget(p: Platform, fullPath: Option<string>): (target: Option<string>)
    ensures target.Some? <==> fullPath.Some? && fullPath.value !in p.directories
    ensures target.Some? ==> target == fullPath
  {
    if fullPath.None? || fullPath.value in p.directories then None else fullPath
  }

  /** The watcher lookup of RemovePath (Enumerable.FirstOrDefault): the first position whose path
      equals `path` ignoring case, or |ws| when there is none. */
  method FirstIndexIgnoreCase(ws: seq<string>, path: string) returns (i: nat)
    ensures i <= |ws|
    ensures i < |ws| <==> ContainsIgnoreCase(ws, path)
    ensures i < |ws| ==> Fold(ws[i]) == Fold(path)
    ensures forall k :: 0 <= k < i ==> Fold(ws[k]) != Fold(path)
  {
    i := 0;
    while i < |ws| && Fold(ws[i]) != Fold(path)
      invariant i <= |ws|
      invariant forall k :: 0 <= k < i ==> Fold(ws[k]) != Fold(path)
    {
      i := i + 1;
    }
  }

  /** The number of entries equal to `path` ignoring case. */
  function MatchCount(ws: seq<string>, path: string): nat {
    if ws == [] then 0
    else MatchCount(ws[..|ws| - 1], path) + (if Fold(ws[|ws| - 1]) == Fold(path) then 1 else 0)
  }

  /** In a watcher list without case-insensitive duplicates, a path equal ignoring case to some
      watcher's path matches exactly one watcher, and any other path matches none. */
  lemma {:induction false} OneWatcherPerPath(ws: seq<string>, path: string)
    requires NoDupIgnoreCase(ws)
    ensures MatchCount(ws, path) == if ContainsIgnoreCase(ws, path) then 1 else 0
    decreases |ws|
  {
    if ws != [] {
      var init := ws[..|ws| - 1];
      OneWatcherPerPath(init, path);
      if ContainsIgnoreCase(init, path) {
        var k :| 0 <= k < |init| && Fold(init[k]) == Fold(path);
        assert Fold(ws[k]) != Fold(ws[|ws| - 1]);
      }
      if Fold(ws[|ws| - 1]) != Fold(path) && ContainsIgnoreCase(ws, path) {
        var k :| 0 <= k < |ws| && Fold(ws[k]) == Fold(path);
        assert init[k] == ws[k];
      }
    }
  }

  /** The registry invariant: no two watcher paths are equal ignoring case, every watcher path is
      held by the monitored set, and the set (a HashSet under OrdinalIgnoreCase) never holds two
      strings equal ignoring case. A monitored path may lack a watcher when starting it threw. */
  ghost predicate Registry(watchers: seq<string>, monitored: set<string>) {
    NoDupIgnoreCase(watchers)
    && (forall w :: w in watchers ==> w in monitored)
    && (forall x, y :: x in monitored && y in monitored && Fold(x) == Fold(y) ==> x == y)
  }

  /** Every monitored path has its watcher. */
  ghost predicate Covers(watchers: seq<string>, monitored: set<string>) {
    (set w | w in watchers) == monitored
  }

  /** When every monitored path has its watcher, there are as many watchers as monitored paths, no
      two monitored paths are equal ignoring case, and the case-insensitive keys of both sides agree. */
  lemma {:induction false} RegistryCorrespondence(watchers: seq<string>, monitored: set<string>)
    requires NoDupIgnoreCase(watchers) && Covers(watchers, monitored)
    ensures |watchers| == |monitored|
    ensures forall x, y :: x in monitored && y in monitored && Fold(x) == Fold(y) ==> x == y
    ensures (set w | w in watchers :: Fold(w)) == (set m | m in monitored :: Fold(m))
    decreases |watchers|
  {
    if watchers != [] {
      var init, last := watchers[..|watchers| - 1], watchers[|watchers| - 1];
      assert watchers == init + [last];
      var rest := set w | w in init;
      assert NoDupIgnoreCase(init) && Covers(init, rest);
      RegistryCorrespondence(init, rest);
      assert last !in rest;
      assert monitored == rest + {last};
    }
    forall x, y | x in monitored && y in monitored && Fold(x) == Fold(y)
      ensures x == y
    {
      var i :| 0 <= i < |watchers| && watchers[i] == x;
      var j :| 0 <= j < |watchers| && watchers[j] == y;
      assert !(i < j) && !(j < i);
    }
  }

  /** Dropping the watcher at index i keeps the list free of case-insensitive duplicates, keeps
      the others in order, and removes exactly that path from the set of watcher paths. */
  lemma RemoveWatcherAt(ws: seq<string>, i: nat)
    requires NoDupIgnoreCase(ws) && i < |ws|
    ensures var rest := ws[..i] + ws[i + 1..];
            NoDupIgnoreCase(rest) && (set w | w in rest) == (set w | w in ws) - {ws[i]}
  {
    var rest := ws[..i] + ws[i + 1..];
    assert forall k :: 0 <= k < |rest| ==> rest[k] == ws[if k < i then k else k + 1];
    forall w | w in ws && w != ws[i]
      ensures w in rest
    {
      var k :| 0 <= k < |ws| && ws[k] == w;
      assert rest[if k < i then k else k - 1] == w;
    }
    forall w | w in rest
      ensures w != ws[i]
    {
      var k :| 0 <= k < |rest| && rest[k] == w;
      assert Fold(ws[if k < i then k else k + 1]) != Fold(ws[i]);
    }
  }

  /** In a set without case-insensitive duplicates, dropping every string equal to m0 ignoring case
      drops m0 alone, and its key leaves the set of keys. */
  lemma RemoveKey(monitored: set<string>, m0: string)
    requires m0 in monitored
    requires forall x, y :: x in monitored && y in monitored && Fold(x) == Fold(y) ==> x == y
    ensures (set m | m in monitored && Fold(m) != Fold(m0)) == monitored - {m0}
    ensures (set m | m in monitored - {m0} :: Fold(m)) == (set m | m in monitored :: Fold(m)) - {Fold(m0)}
  {
  }

  /** When every monitored path has its watcher, a monitored path (in any casing) has exactly one
      watcher and any other path has none. */
  lemma {:induction false} MonitoredPathHasOneWatcher(watchers: seq<string>, monitored: set<string>, path: string)
    requires Registry(watchers, monitored) && Covers(watchers, monitored)
    ensures MatchCount(watchers, path) == if Fold(path) in (set m | m in monitored :: Fold(m)) then 1 else 0
  {
    RegistryCorrespondence(watchers, monitored);
    OneWatcherPerPath(watchers, path);
    if Fold(path) in (set w | w in watchers :: Fold(w)) {
      var w :| w in watchers && Fold(w) == Fold(path);
      var k :| 0 <= k < |watchers| && watchers[k] == w;
      assert ContainsIgnoreCase(watchers, path);
    }
  }

  class ZoneIdentifierCleaner {
    /** The Path of each FileSystemWatcher in _watchers, in list order. */
    var watchers: seq<string>
    /** The strings held by _monitoredPaths (each in the casing it was first added with). */
    var monitored: set<string>
    var disposed: bool
    /** Every FileProcessed and ErrorOccurred event raised so far, in order. */
    var log: seq<Event>

    ghost predicate Valid()
      reads this
    {
      Registry(watchers, monitored)
    }

    /** Every monitored path has its watcher: the case as long as no watcher failed to start. */
    ghost predicate Covered()
      reads this
    {
      Covers(watchers, monitored)
    }

    /** The case-insensitive keys of the monitored paths. */
    ghost function Keys(): set<string>
      reads this
    {
      set m | m in monitored :: Fold(m)
    }

    constructor ()
      ensures Valid() && Covered()
      ensures watchers == [] && monitored == {} && !disposed && log == []
    {
      watchers, monitored, disposed, log := [], {}, false, [];
    }

    /** MonitoredPaths: a snapshot list of the monitored set, in the set's (unspecified) order. */
    method MonitoredPaths() returns (paths: seq<string>)
      ensures (set x | x in paths) == monitored && |paths| == |monitored|
      ensures forall i, j :: 0 <= i < j < |paths| ==> paths[i] != paths[j]
    {
      paths := [];
      var rest := monitored;
      while rest != {}
        invariant (set x | x in paths) + rest == monitored
        invariant forall x :: x in paths ==> x !in rest
        invariant forall i, j :: 0 <= i < j < |paths| ==> paths[i] != paths[j]
        invariant |paths| + |rest| == |monitored|
        decreases |rest|
      {
        var x :| x in rest;
        paths := paths + [x];
        rest := rest - {x};
      }
    }

    /** AddPath: a path that is not an existing directory, or that is already monitored under any
        casing, changes nothing. Otherwise the path joins the set first; then either its watcher
        starts and is appended, or starting it throws, the exception leaves AddPath (`thrown`) and
        the path stays in the set without a watcher. */
    method AddPath(p: Platform, path: string) returns (thrown: bool)
      requires Valid()
      modifies this`watchers, this`monitored
      ensures Valid()
      ensures path !in p.directories || Fold(path) in old(Keys()) ==>
                !thrown && watchers == old(watchers) && monitored == old(monitored)
      ensures path in p.directories && Fold(path) !in old(Keys()) ==>
                monitored == old(monitored) + {path}
                && thrown == (path !in p.watchable)
                && watchers == if thrown then old(watchers) else old(watchers) + [path]
      ensures path in p.directories ==> Fold(path) in Keys()
      ensures old(Covered()) && !thrown ==> Covered()
    {
      if path !in p.directories {
        return false;
      }
      // HashSet.Add under OrdinalIgnoreCase reports false when an equal key is present
      if exists m :: m in monitored && Fold(m) == Fold(path) {
        return false;
      }
      assert !ContainsIgnoreCase(watchers, path) by {
        forall k | 0 <= k < |watchers|
          ensures Fold(watchers[k]) != Fold(path)
        {
          assert watchers[k] in monitored;
        }
      }
      monitored := monitored + {path};
      // new FileSystemWatcher(path) { ..., EnableRaisingEvents = true } may throw
      if path !in p.watchable {
        return true;
      }
      watchers := watchers + [path];
      return false;
    }

    /** RemovePath: a path not monitored under any casing changes nothing. Otherwise its key leaves
        the set, and the one watcher whose path equals it ignoring case, if there is one, is removed
        while the others stay in order. */
    method RemovePath(path: string)
      requires Valid()
      modifies this`watchers, this`monitored
      ensures Valid()
      ensures Fold(path) !in old(Keys()) ==> watchers == old(watchers) && monitored == old(monitored)
      ensures Fold(path) in old(Keys()) ==>
                Keys() == old(Keys()) - {Fold(path)} && |monitored| == |old(monitored)| - 1
      ensures Fold(path) in old(Keys()) ==>
                exists m0 :: m0 in old(monitored) && Fold(m0) == Fold(path)
                             && monitored == old(monitored) - {m0}
      ensures !ContainsIgnoreCase(old(watchers), path) ==> watchers == old(watchers)
      ensures ContainsIgnoreCase(old(watchers), path) ==>
                |watchers| == |old(watchers)| - 1
                && exists i :: 0 <= i < |old(watchers)| && Fold(old(watchers)[i]) == Fold(path)
                               && watchers == old(watchers)[..i] + old(watchers)[i + 1..]
      ensures old(Covered()) ==> Covered()
    {
      // HashSet.Remove under OrdinalIgnoreCase reports false when no equal key is present
      if !exists m :: m in monitored && Fold(m) == Fold(path) {
        assert !ContainsIgnoreCase(watchers, path) by {
          forall k | 0 <= k < |watchers|
            ensures Fold(watchers[k]) != Fold(path)
          {
            assert watchers[k] in monitored;
          }
        }
        return;
      }
      ghost var m0 :| m0 in monitored && Fold(m0) == Fold(path);
      RemoveKey(monitored, m0);
      monitored := set m | m in monitored && Fold(m) != Fold(path);
      assert monitored == old(monitored) - {m0};
      var i := FirstIndexIgnoreCase(watchers, path);
      if i < |watchers| {
        assert watchers[i] == m0;
        RemoveWatcherAt(watchers, i);
        watchers := watchers[..i] + watchers[i + 1..];
      } else {
        assert m0 !in watchers;
      }
    }

    /** Dispose: the first call empties both collections; later calls change nothing. */
    method Dispose()
      requires Valid()
      modifies this`watchers, this`monitored, this`disposed
      ensures Valid() && disposed
      ensures old(disposed) ==> watchers == old(watchers) && monitored == old(monitored)
      ensures !old(disposed) ==> watchers == [] && monitored == {} && Covered()
    {
      if disposed {
        return;
      }
      disposed := true;
      watchers := [];
      monitored := {};
    }

    /** TryRemoveZoneIdentifier: returns the decision of RemovalAttempt and raises its events. */
    method TryRemoveZoneIdentifier(p: Platform, filePath: string) returns (removed: bool)
      modifies this`log
      ensures removed == RemovalAttempt(p, filePath).removed
      ensures log == old(log) + RemovalAttempt(p, filePath).events
    {
      if filePath !in p.files {
        return false;
      }
      var adsPath := StreamPath(filePath);
      var result := p.deleteFile(adsPath);
      if result.Deleted? {
        log := log + [FileProcessed(filePath)];
        return true;
      }
      var error := result.code;
      if error == ErrorFileNotFound {
        return false;
      }
      // the Win32Exception thrown here is caught and reported as ErrorOccurred
      log := log + [ErrorOccurred(filePath, error)];
      return false;
    }

    /** CleanFolder: 0 for a missing folder; otherwise one removal attempt per enumerated file, in
        order, returning how many succeeded. `files` is what Directory.EnumerateFiles yields. */
    method CleanFolder(p: Platform, folderPath: string, files: seq<string>) returns (count: nat)
      modifies this`log
      ensures folderPath !in p.directories ==> count == 0 && log == old(log)
      ensures folderPath in p.directories ==>
                count == SweepCount(p, files) && log == old(log) + SweepEvents(p, files)
    {
      if folderPath !in p.directories {
        return 0;
      }
      count := 0;
      for i := 0 to |files|
        invariant count == SweepCount(p, files[..i])
        invariant log == old(log) + SweepEvents(p, files[..i])
      {
        assert files[..i + 1][..i] == files[..i];
        var removed := TryRemoveZoneIdentifier(p, files[i]);
        if removed {
          count := count + 1;
        }
      }
      assert files[..|files|] == files;
    }
  }
}
