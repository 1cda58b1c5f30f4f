/** The rotating log writer (crates/keyro-core/src/logging.rs), imperative as the
  program is. Each method is proved to make a step of `LogRotation`. */
module RotatingLog {
  import opened LogNames
  import opened LogDisk
  import opened LogCleanup
  import opened LogGuarantees
  import opened LogRotation
  import opened LogFields

  datatype OpenError = InvalidInput(message: string)
  datatype OpenResult = Opened(state: LogState) | Rejected(error: OpenError)

  method ValidateRetention(r: Retention) returns (error: string)
    requires r.maxFileBytes <= U64_MAX && r.maxTotalBytes <= U64_MAX && r.maxFiles <= U64_MAX
    ensures error == "" <==> Accepted(r)
    ensures error ==
      if r.maxFileBytes == 0 then "log max_file_bytes must be greater than zero"
      else if r.maxTotalBytes == 0 then "log max_total_bytes must be greater than zero"
      else if r.maxFiles == 0 then "log max_files must be greater than zero"
      else if r.maxTotalBytes < r.maxFileBytes then "log max_total_bytes must be at least max_file_bytes"
      else ""
  {
    if r.maxFileBytes == 0 { return "log max_file_bytes must be greater than zero"; }
    if r.maxTotalBytes == 0 { return "log max_total_bytes must be greater than zero"; }
    if r.maxFiles == 0 { return "log max_files must be greater than zero"; }
    if r.maxTotalBytes < r.maxFileBytes { return "log max_total_bytes must be at least max_file_bytes"; }
    return "";
  }

  /** The entries of a directory, in an order of the file system's choosing. */
  method ReadDir(names: set<Name>) returns (listing: seq<Name>)
    ensures Enumerates(listing, names)
  {
    listing := [];
    var rest := names;
    while rest != {}
      invariant rest <= names
      invariant Enumerates(listing, names - rest)
      decreases |rest|
    {
      var n :| n in rest;
      listing, rest := listing + [n], rest - {n};
    }
    assert names - {} == names;
  }

  class LogState {
    const retention: Retention
    var disk: Disk
    var file: InodeId
    var clock: int

    ghost predicate Valid()
      reads this
    {
      Accepted(retention) && State().Valid() && State().HandleIsCurrent()
    }

    function State(): World
      reads this
    {
      World(disk, file, clock)
    }

    constructor (retention: Retention, disk: Disk, now: int)
      requires Accepted(retention) && disk.Valid()
      ensures Valid() && this.retention == retention && State() == OpenCurrent(disk, now)
    {
      this.retention := retention;
      var current := OpenCurrent(disk, now);
      this.disk, this.file, this.clock := current.disk, current.file, now;
    }

    /** `RotatingLogWriter::new`: clean up what is there, then open the current log. */
    static method Open(r: Retention, found: Disk, now: int) returns (result: OpenResult, ghost listing: seq<Name>)
      requires r.maxFileBytes <= U64_MAX && r.maxTotalBytes <= U64_MAX && r.maxFiles <= U64_MAX
      requires found.Valid()
      ensures result.Opened? <==> Accepted(r)
      ensures result.Opened? ==>
                && result.state.Valid() && result.state.retention == r
                && Enumerates(listing, found.names.Keys)
                && result.state.State() == OpenCurrent(Cleanup(r, now, found, listing), now)
    {
      listing := [];
      var error := ValidateRetention(r);
      if error != "" {
        return Rejected(InvalidInput(error)), listing;
      }
      var cleaned;
      cleaned, listing := CleanupLogs(r, found, now);
      var state := new LogState(r, cleaned, now);
      result := Opened(state);
    }

    /** `cleanup_logs`, on the directory it is given. */
    static method CleanupLogs(r: Retention, found: Disk, now: int) returns (left: Disk, ghost listing: seq<Name>)
      requires Accepted(r) && found.Valid()
      ensures Enumerates(listing, found.names.Keys)
      ensures left == Cleanup(r, now, found, listing) && left.Valid()
    {
      var entries := ReadDir(found.names.Keys);
      listing := entries;
      var retained;
      left, retained := RemoveUnfit(r, found, now, entries);
      retained := NewestFirst(retained);
      left := RemoveSurplus(r, found, now, entries, left, retained);
    }

    /** Its first loop: removes the logs that are too old or too big, and lists the others. */
    static method RemoveUnfit(r: Retention, found: Disk, now: int, entries: seq<Name>)
      returns (left: Disk, retained: seq<LogFile>)
      requires found.Valid() && Enumerates(entries, found.names.Keys)
      ensures left == found.Without(Doomed(r, now, found, entries, |entries|)) && left.Valid()
      ensures retained == Retained(r, now, found, entries, |entries|)
    {
      var cutoff := Cutoff(r, now);
      left, retained := found, [];
      ghost var gone: set<Name> := {};
      for i := 0 to |entries|
        invariant retained == Retained(r, now, found, entries, i)
        invariant gone == Doomed(r, now, found, entries, i)
        invariant left == found.Without(gone) && forall j | i <= j < |entries| :: entries[j] !in gone
      {
        var path := entries[i];
        assert path in entries;
        if IsKeyroLog(path) {
          var modified, size := left.Modified(path), left.Size(path);
          if modified < cutoff || size > r.maxFileBytes {
            WithoutMore(found, gone, path);
            left, gone := left.Without({path}), gone + {path};
          } else {
            retained := retained + [LogFile(path, path == Current, modified, size)];
          }
        }
      }
    }

    /** Its second loop: keeps the current log, and others as long as there is room. */
    static method RemoveSurplus(r: Retention, ghost found: Disk, ghost now: int, ghost entries: seq<Name>, fit: Disk,
                                retained: seq<LogFile>)
      returns (left: Disk)
      requires Accepted(r) && found.Valid() && Enumerates(entries, found.names.Keys)
      requires fit == found.Without(Doomed(r, now, found, entries, |entries|)) && fit.Valid()
      requires retained == SweepList(r, now, found, entries)
      ensures left == Cleanup(r, now, found, entries) && left.Valid()
    {
      var currentIndex := PositionOfCurrent(retained);
      var totalBytes: nat := if currentIndex < |retained| then retained[currentIndex].size else 0;
      var keptFiles: nat := if currentIndex < |retained| then 1 else 0;
      StartAgrees(r, now, found, entries, currentIndex);
      ghost var start, gone := Start(r, now, found), Doomed(r, now, found, entries, |entries|);
      ghost var removed: set<Name> := {};
      left := fit;
      for index := 0 to |retained|
        invariant Sweep(r, start, retained, index) == Tally(keptFiles, totalBytes, removed)
        invariant left == found.Without(gone + removed)
      {
        if index != currentIndex {
          var logFile := retained[index];
          if keptFiles >= r.maxFiles || SaturatingAdd(totalBytes, logFile.size) > r.maxTotalBytes {
            WithoutMore(found, gone + removed, logFile.name);
            assert gone + removed + {logFile.name} == gone + (removed + {logFile.name});
            left, removed := left.Without({logFile.name}), removed + {logFile.name};
          } else {
            keptFiles := keptFiles + 1;
            totalBytes := SaturatingAdd(totalBytes, logFile.size);
          }
        }
      }
    }

    static lemma {:induction false} WithoutMore(d: Disk, gone: set<Name>, n: Name)
      ensures d.Without(gone).Without({n}) == d.Without(gone + {n})
    {
    }

    /** The index of the current log, or the length of the list. */
    static method PositionOfCurrent(files: seq<LogFile>) returns (index: nat)
      ensures index <= |files|
      ensures index < |files| ==> files[index].isCurrent
      ensures forall i | 0 <= i < index :: !files[i].isCurrent
    {
      index := 0;
      while index < |files| && !files[index].isCurrent
        invariant index <= |files|
        invariant forall i | 0 <= i < index :: !files[i].isCurrent
      {
        index := index + 1;
      }
    }

    /** The position found is that of the one current log among the survivors. */
    static lemma {:induction false} StartAgrees(r: Retention, now: int, d: Disk, listing: seq<Name>, index: nat)
      requires Accepted(r) && d.Valid() && Enumerates(listing, d.names.Keys)
      requires var files := SweepList(r, now, d, listing);
        && index <= |files| && (index < |files| ==> files[index].isCurrent)
        && (forall i | 0 <= i < index :: !files[i].isCurrent)
      ensures var files := SweepList(r, now, d, listing);
        && Start(r, now, d) == (if index < |files| then Tally(1, files[index].size, {}) else Tally(0, 0, {}))
        && (forall i | 0 <= i < |files| :: files[i].isCurrent <==> i == index)
    {
      var files := SweepList(r, now, d, listing);
      SweepListLists(r, now, d, listing);
      assert forall i | 0 <= i < |files| :: files[i] in files;
      if Current in Survivors(r, now, d) {
        var k := IndexOf(files, Survivors(r, now, d), Current);
        assert files[k].isCurrent;
      }
    }

    /** `rotate_logs`, on the directory it is given. */
    static method RotateLogs(r: Retention, found: Disk, now: int) returns (left: Disk, ghost listing: seq<Name>)
      requires Accepted(r) && found.Valid()
      ensures RotationListed(r, found, listing)
      ensures left == RotateDisk(r, now, found, listing) && left.Valid()
    {
      var slots := if r.maxFiles > 0 then r.maxFiles - 1 else 0;
      left, listing := found, [];
      if slots == 0 {
        if Current in left.names {
          left := left.Without({Current});
        }
        return;
      }
      left := ShiftLogs(found, slots);
      ShiftIsValid(found, slots);
      assert left == Rotating(r, found);
      left, listing := CleanupLogs(r, left, now);
    }

    /** Its renames: the last slot is freed, and then each file moves one slot on. */
    static method ShiftLogs(found: Disk, slots: nat) returns (left: Disk)
      requires slots > 0
      ensures left == found.(names := Shift(found.names, slots))
    {
      left := found;
      ChainStarts(found.names, slots);
      if Rotated(slots - 1) in left.names {
        left := left.Without({Rotated(slots - 1)});
      }
      assert left.names == found.names - {Rotated(slots - 1)};

      for index := slots downto 1
        invariant left == found.(names := left.names)
        invariant ChainMoved(found.names, left.names, slots, index)
      {
        var source, target := Rotated(index - 1), Rotated(index);
        ChainMoves(found.names, left.names, slots, index);
        if source in left.names {
          left := left.(names := Renamed(left.names, source, target));
        }
      }

      ChainEnds(found.names, left.names, slots);
      if Current in left.names {
        left := left.(names := Renamed(left.names, Current, Rotated(0)));
      }
    }

    method RotateFile(now: int) returns (ghost listing: seq<Name>)
      requires Accepted(retention) && State().Valid()
      modifies this
      ensures RotationListed(retention, old(disk), listing)
      ensures State() == Rotate(retention, now, old(State()), listing)
    {
      var left;
      left, listing := RotateLogs(retention, disk, now);
      var current := OpenCurrent(left, now);
      disk, file, clock := current.disk, current.file, now;
    }

    method CleanupRetention(now: int) returns (ghost call: Call)
      requires Valid() && clock <= now
      modifies this
      ensures Valid()
      ensures call.Maintenance? && call.now == now && Possible(retention, old(State()), call)
      ensures State() == After(retention, old(State()), call)
      ensures Bounded(retention, now, disk)
      ensures file != old(file) <==>
        || |old(disk.inodes[file].bytes)| >= retention.maxFileBytes
        || old(disk.inodes[file].modified) < now - retention.maxAge
      ensures file == old(file) ==> OnlyGone(old(disk), disk)
    {
      ghost var rotateListing: seq<Name> := [];
      if |disk.inodes[file].bytes| >= retention.maxFileBytes || disk.inodes[file].modified < Cutoff(retention, now) {
        rotateListing := RotateFile(now);
      }
      ghost var listing;
      disk, listing := CleanupLogs(retention, disk, now);
      clock := now;
      call := Maintenance(now, rotateListing, listing);
      CallGuarantees(retention, old(State()), call);
      MaintenanceRotatesIff(retention, old(State()), call);
    }

    /** Takes a full file or all of `buf`; see `WriteTakes`. */
    method WriteBuffer(buf: seq<byte>, now: int) returns (written: nat, ghost call: Call)
      requires Valid() && clock <= now && Representable(State(), |buf|)
      modifies this
      ensures Valid()
      ensures call.Write? && call.buf == buf && call.now == now && Possible(retention, old(State()), call)
      ensures State() == After(retention, old(State()), call) && written == Taken(retention, old(State()), call)
      ensures buf != [] ==> Bounded(retention, now, disk)
      ensures written == if |buf| <= retention.maxFileBytes then |buf| else retention.maxFileBytes
      ensures buf != [] ==>
        (file == old(file) <==> old(|disk.inodes[file].bytes|) + |buf| < retention.maxFileBytes)
      ensures buf != [] && file == old(file) ==>
        disk.inodes == old(disk.inodes)[file := Inode(old(disk.inodes[file].bytes) + buf, now)]
    {
      call := Write(buf, now, [], [], []);
      if buf == [] {
        return 0, call;
      }
      ghost var roomListing: seq<Name> := [];
      var currentSize := |disk.inodes[file].bytes|;
      if currentSize >= retention.maxFileBytes
         || (currentSize > 0 && SaturatingAdd(currentSize, |buf|) > retention.maxFileBytes)
      {
        roomListing := RotateFile(now);
        RotateIsFresh(retention, now, old(State()), roomListing);
      }

      currentSize := |disk.inodes[file].bytes|;
      var available := if retention.maxFileBytes > currentSize then retention.maxFileBytes - currentSize else 0;
      var length := if available < |buf| then available else |buf|;
      ghost var maintenance := AppendAndClean(buf, length, now, old(State()), roomListing);
      written := length;
      call := Write(buf, now, roomListing, maintenance.rotateListing, maintenance.listing);
      WriteTakes(retention, old(State()), call);
      WriteRotatesIff(retention, old(State()), call);
    }

    /** The second half of a write: append to the file, then `cleanup_retention`. */
    method AppendAndClean(buf: seq<byte>, length: nat, now: int, ghost before: World, ghost roomListing: seq<Name>)
      returns (ghost maintenance: Call)
      requires Accepted(retention) && before.Valid() && before.clock <= now && buf != [] && Representable(before, |buf|)
      requires WriteRotates(retention, before, |buf|) ==> RotationListed(retention, before.disk, roomListing)
      requires State() == MadeRoom(retention, now, before, |buf|, roomListing) && State().HandleIsCurrent()
      requires length == Accepts(retention, State(), |buf|)
      modifies this
      ensures Valid() && maintenance.Maintenance? && maintenance.now == now
      ensures var call := Write(buf, now, roomListing, maintenance.rotateListing, maintenance.listing);
        Possible(retention, before, call) && State() == After(retention, before, call)
      ensures Bounded(retention, now, disk)
    {
      var appended := Append(now, State(), buf[..length]);
      disk, clock := appended.disk, now;
      maintenance := CleanupRetention(now);
      WriteThenMaintain(retention, before, buf, roomListing, maintenance);
    }

    /** `Write::write_all` with this writer: it ends without an error, the log has
      accepted exactly `buf`, and it took one write for each full file and one for
      the rest, whatever the log looked like. */
    method WriteAll(buf: seq<byte>) returns (ghost calls: seq<Call>)
      requires Valid() && Representable(State(), |buf|)
      modifies this
      ensures Valid() && Run(retention, old(State()), calls) && State() == Reached(retention, old(State()), calls)
      ensures Stream(retention, old(State()), calls) == buf
      ensures |calls| == WritesNeeded(|buf|, retention.maxFileBytes)
    {
      calls := [];
      var rest := buf;
      while rest != []
        invariant Valid() && State() == Reached(retention, old(State()), calls)
        invariant Writing(retention, old(State()), calls, rest, buf)
        decreases |rest|
      {
        var now: int := *;
        now := if now < clock then clock else now;
        var written;
        ghost var call;
        written, call := WriteBuffer(rest, now);
        WriteAllRound(retention, old(State()), calls, call, buf);
        calls := calls + [call];
        rest := rest[written..];
      }
    }
  }
}
