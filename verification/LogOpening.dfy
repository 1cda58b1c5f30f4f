/** When opening the log exceeds a limit. `RotatingLogWriter::new` cleans up before it
  creates the current file, so the file it creates is not counted
  (crates/keyro-core/src/logging.rs). */
module LogOpening {
  import opened LogNames
  import opened LogDisk
  import opened LogCleanup
  import opened LogGuarantees
  import opened LogRotation
  import opened LogStream
  import opened LogHoles

  /** The directory after opening the log on `found`. */
  function Opened(r: Retention, now: int, found: Disk, listing: seq<Name>): Disk
    requires Accepted(r) && found.Valid() && Enumerates(listing, found.names.Keys)
  {
    CleanupBounds(r, now, found, listing);
    OpenCurrent(Cleanup(r, now, found, listing), now).disk
  }

  /** The byte budget admits any `max_files` of these files. */
  ghost predicate AnyFit(r: Retention, d: Disk, files: set<Name>)
    requires d.Valid() && files <= d.names.Keys
  {
    forall part | part <= files && |part| <= r.maxFiles :: Fits(r, d, part)
  }

  /** With room for `max_files` full files, as the defaults have, the budget admits any. */
  lemma {:induction false} RoomForAny(r: Retention, now: int, d: Disk)
    requires Accepted(r) && d.Valid()
    requires r.maxTotalBytes == U64_MAX || r.maxTotalBytes >= r.maxFiles * r.maxFileBytes
    ensures AnyFit(r, d, Survivors(r, now, d))
  {
    forall part | part <= Survivors(r, now, d) && |part| <= r.maxFiles
      ensures Fits(r, d, part)
    {
      TotalBounded(d, part, r.maxFileBytes);
      AtMost(|part|, r.maxFiles, r.maxFileBytes);
    }
  }

  /** What is left decides: the new file must still be within the count. */
  lemma {:induction false} OpenedIsBounded(r: Retention, now: int, found: Disk, listing: seq<Name>)
    requires Accepted(r) && found.Valid() && Enumerates(listing, found.names.Keys)
    ensures var left := Cleanup(r, now, found, listing);
      Bounded(r, now, Opened(r, now, found, listing)) <==>
        Current in Survivors(r, now, found) || |left.Logs()| < r.maxFiles
  {
    var left := Cleanup(r, now, found, listing);
    CleanupBounds(r, now, found, listing);
    if Current !in left.names {
      FreshFileCounts(r, now, left);
    }
  }

  /** Whatever the byte budget: opening meets every limit if the current file is young
    and small enough, or fewer than `max_files` logs are. */
  lemma {:induction false} OpenBoundedIf(r: Retention, now: int, found: Disk, listing: seq<Name>)
    requires Accepted(r) && found.Valid() && Enumerates(listing, found.names.Keys)
    requires Current in Survivors(r, now, found) || |Survivors(r, now, found)| < r.maxFiles
    ensures Bounded(r, now, Opened(r, now, found, listing))
  {
    OpenedIsBounded(r, now, found, listing);
    CleanupBounds(r, now, found, listing);
    SubsetSize(Cleanup(r, now, found, listing).Logs(), Survivors(r, now, found));
  }

  /** If the byte budget admits any `max_files` of the logs found, that is the exact
    condition on the directory found. */
  lemma {:induction false} OpenBoundedIff(r: Retention, now: int, found: Disk, listing: seq<Name>)
    requires Accepted(r) && found.Valid() && Enumerates(listing, found.names.Keys)
    requires AnyFit(r, found, Survivors(r, now, found))
    ensures Bounded(r, now, Opened(r, now, found, listing))
      <==> Current in Survivors(r, now, found) || |Survivors(r, now, found)| < r.maxFiles
  {
    var survivors, left := Survivors(r, now, found), Cleanup(r, now, found, listing);
    if Current in survivors || |survivors| < r.maxFiles {
      OpenBoundedIf(r, now, found, listing);
    } else {
      OpenedIsBounded(r, now, found, listing);
      if |left.Logs()| < r.maxFiles {
        NothingLeftOut(r, now, found, listing);
      }
    }
  }

  lemma {:induction false} AnyOneFits(r: Retention, d: Disk, files: set<Name>, part: set<Name>, n: Name)
    requires d.Valid() && files <= d.names.Keys && AnyFit(r, d, files)
    requires part <= files && n in files && |part| < r.maxFiles
    ensures part + {n} <= d.names.Keys && Fits(r, d, part + {n})
  {
    assert part + {n} <= files;
  }

  /** A pass that could keep one more file kept all it may. */
  lemma {:induction false} NothingLeftOut(r: Retention, now: int, found: Disk, listing: seq<Name>)
    requires Accepted(r) && found.Valid() && Enumerates(listing, found.names.Keys)
    requires AnyFit(r, found, Survivors(r, now, found)) && Current !in Survivors(r, now, found)
    requires |Cleanup(r, now, found, listing).Logs()| < r.maxFiles
    ensures Cleanup(r, now, found, listing).Logs() == Survivors(r, now, found)
  {
    var left := Cleanup(r, now, found, listing);
    CleanupBounds(r, now, found, listing);
    forall n | n in Survivors(r, now, found)
      ensures n in left.Logs()
    {
      GreedyIff(r, now, found, listing, n);
      var before := KeptBefore(found, left, n);
      SubsetSize(before, left.Logs());
      AnyOneFits(r, found, Survivors(r, now, found), before, n);
    }
  }

  // ------------------------------------------------------------------------
  // Directories on which opening goes wrong
  // ------------------------------------------------------------------------

  /** `count` empty rotated logs and no current log. */
  function EmptyLogs(count: nat, now: int): Disk {
    Disk(map n | n in RotatedNames(count) :: IdOf(n), map id: InodeId | 0 <= id < count :: EmptyInode(id, now), count)
  }

  function IdOf(n: Name): InodeId {
    if n.Rotated? then n.index else 0
  }

  function EmptyInode(id: InodeId, now: int): Inode {
    Inode([], now)
  }

  lemma {:induction false} EmptyLogsAre(count: nat, now: int)
    ensures var d := EmptyLogs(count, now);
      && d.Valid() && d.Logs() == d.names.Keys && Current !in d.names
      && |d.names.Keys| == count && TotalBytes(d, d.names.Keys) == 0
      && forall n | n in d.names :: d.At(n) == Inode([], now)
  {
    var d := EmptyLogs(count, now);
    RotatedNamesCount(count);
    assert d.names.Keys == RotatedNames(count);
    assert forall n :: n in d.Logs() <==> n in d.names;
    TotalOfEqual(d, d.names.Keys, 0);
  }

  /** Under every setting: `max_files` empty young logs without a current one, and
    opening leaves one log too many. */
  lemma {:induction false} OpeningCanExceed(r: Retention, now: int, listing: seq<Name>)
    requires Accepted(r) && Enumerates(listing, EmptyLogs(r.maxFiles, now).names.Keys)
    ensures EmptyLogs(r.maxFiles, now).Valid()
    ensures var d := Opened(r, now, EmptyLogs(r.maxFiles, now), listing);
      !Bounded(r, now, d) && |d.Logs()| == r.maxFiles + 1
  {
    var found := EmptyLogs(r.maxFiles, now);
    EmptyLogsAre(r.maxFiles, now);
    CleanupIdleIff(r, now, found, listing);
    FreshLogs(now, found);
  }

  /** One file of 2 bytes and two of 1 byte, equally old. */
  function ThreeLogs(): Disk {
    Disk(map[Rotated(0) := 0, Rotated(1) := 1, Rotated(2) := 2],
         map[0 := Inode([0, 0], 0), 1 := Inode([0], 0), 2 := Inode([0], 0)], 3)
  }

  ghost predicate IsThreeLogs(d: Disk) {
    && d.Valid() && d.names.Keys == {Rotated(0), Rotated(1), Rotated(2)}
    && d.Size(Rotated(0)) == 2 && d.Size(Rotated(1)) == 1 && d.Size(Rotated(2)) == 1
    && forall n | n in d.names :: d.Modified(n) == 0
  }

  /** Room for 2 files of 2 bytes, and for 2 bytes in all. */
  ghost predicate IsTight(r: Retention) {
    Accepted(r) && r.maxFileBytes == r.maxTotalBytes == r.maxFiles == 2
  }

  /** If the budget does not admit any `max_files` of them, the directory found does not
    decide: of two orders of listing the same directory, one exceeds the count and the
    other does not. So no condition on the directory alone is exact there. */
  lemma {:induction false} OpeningDependsOnListing(r: Retention)
    requires IsTight(r)
    ensures exists d: Disk, one: seq<Name>, other: seq<Name> |
      d.Valid() && Enumerates(one, d.names.Keys) && Enumerates(other, d.names.Keys) ::
      Bounded(r, 0, Opened(r, 0, d, one)) && !Bounded(r, 0, Opened(r, 0, d, other))
  {
    var d, one, other := ThreeLogs(), [Rotated(0), Rotated(1), Rotated(2)], [Rotated(1), Rotated(2), Rotated(0)];
    OneOrder(r, d, one, other);
  }

  lemma {:induction false} OneOrder(r: Retention, d: Disk, one: seq<Name>, other: seq<Name>)
    requires IsTight(r) && IsThreeLogs(d)
    requires one == [Rotated(0), Rotated(1), Rotated(2)] && other == [Rotated(1), Rotated(2), Rotated(0)]
    ensures Enumerates(one, d.names.Keys) && Enumerates(other, d.names.Keys)
    ensures Bounded(r, 0, Opened(r, 0, d, one)) && !Bounded(r, 0, Opened(r, 0, d, other))
  {
    ThreeEnumerated(d, one, other);
    BigFirstLeavesOne(r, d, one);
    BigLastLeavesTwo(r, d, other);
    OpenedIsBounded(r, 0, d, one);
    OpenedIsBounded(r, 0, d, other);
  }

  lemma {:induction false} ThreeEnumerated(d: Disk, one: seq<Name>, other: seq<Name>)
    requires IsThreeLogs(d)
    requires one == [Rotated(0), Rotated(1), Rotated(2)] && other == [Rotated(1), Rotated(2), Rotated(0)]
    ensures Enumerates(one, d.names.Keys) && Enumerates(other, d.names.Keys)
  {
  }

  lemma {:induction false} ThreeLogsTotals(d: Disk)
    requires IsThreeLogs(d)
    ensures d.Logs() == d.names.Keys
    ensures TotalBytes(d, {Rotated(0)}) == TotalBytes(d, {Rotated(1), Rotated(2)}) == 2
    ensures TotalBytes(d, d.names.Keys) == 4
    ensures d.names.Keys - {Rotated(0)} == {Rotated(1), Rotated(2)}
  {
    TotalRemove(d, {Rotated(0)}, Rotated(0));
    TotalRemove(d, {Rotated(1), Rotated(2)}, Rotated(1));
    TotalRemove(d, {Rotated(2)}, Rotated(2));
    assert {Rotated(1), Rotated(2)} - {Rotated(1)} == {Rotated(2)};
    assert d.names.Keys - {Rotated(0)} == {Rotated(1), Rotated(2)};
    TotalRemove(d, d.names.Keys, Rotated(0));
  }

  lemma {:induction false} BigLastLeavesTwo(r: Retention, d: Disk, listing: seq<Name>)
    requires IsTight(r) && IsThreeLogs(d) && Enumerates(listing, d.names.Keys)
    requires listing != [] && listing[|listing| - 1] == Rotated(0)
    ensures |Cleanup(r, 0, d, listing).Logs()| == 2
  {
    ThreeLogsTotals(d);
    LastOneGoes(r, 0, d, listing, 0);
    assert d.Without({Rotated(0)}).Logs() == {Rotated(1), Rotated(2)};
  }

  /** Next to the big file there is no room. */
  lemma {:induction false} BigFirstLeavesOne(r: Retention, d: Disk, listing: seq<Name>)
    requires IsTight(r) && IsThreeLogs(d) && Enumerates(listing, d.names.Keys)
    requires listing != [] && listing[0] == Rotated(0)
    ensures |Cleanup(r, 0, d, listing).Logs()| == 1
  {
    ThreeLogsTotals(d);
    FirstOneStays(r, d, listing);
    CleanupBounds(r, 0, d, listing);
    var left := Cleanup(r, 0, d, listing);
    TotalAgrees(d, left, left.Logs());
    forall n | n in left.Logs()
      ensures n == Rotated(0)
    {
      if n != Rotated(0) {
        TwoAreTooMany(d, left.Logs(), n);
      }
    }
    assert left.Logs() == {Rotated(0)};
  }

  lemma {:induction false} TwoAreTooMany(d: Disk, files: set<Name>, n: Name)
    requires IsThreeLogs(d) && files <= d.names.Keys && Rotated(0) in files && n in files && n != Rotated(0)
    ensures TotalBytes(d, files) > 2
  {
    TotalRemove(d, files, Rotated(0));
    TotalRemove(d, files - {Rotated(0)}, n);
  }

  /** Among equally old files the one listed first stays if it fits. */
  lemma {:induction false} FirstOneStays(r: Retention, d: Disk, listing: seq<Name>)
    requires Accepted(r) && d.Valid() && Enumerates(listing, d.names.Keys)
    requires forall n | n in d.names :: IsKeyroLog(n) && n != Current && Survives(r, 0, d, n) && d.Modified(n) == 0
    requires listing != [] && Fits(r, d, {listing[0]})
    ensures listing[0] in Cleanup(r, 0, d, listing).names
  {
    var files, start, current := SweepList(r, 0, d, listing), Start(r, 0, d), CurrentSet(r, 0, d);
    SweepListInOrder(r, 0, d, listing, 0);
    SweepReady(r, 0, d, listing);
    SweepAccounts(r, d, start, current, files, 0);
    RoundCounts(r, d, start, current, files, 0);
    assert current + {listing[0]} == {listing[0]};
    KeptGrows(r, start, current, files, 1, |files|);
    CleanupKeeps(r, 0, d, listing);
    assert listing[0] in Cleanup(r, 0, d, listing).Logs();
  }

  lemma {:induction false} KeptGrows(r: Retention, start: Tally, current: set<Name>, files: seq<LogFile>, k: nat,
                                     m: nat)
    requires k <= m <= |files|
    ensures Kept(r, start, current, files, k) <= Kept(r, start, current, files, m)
    decreases m
  {
    if k < m {
      KeptGrows(r, start, current, files, k, m - 1);
    }
  }
}
