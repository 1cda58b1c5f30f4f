/** The settings under which the log always holds the end of what it accepted, and
  runs that leave a hole in the log under all others
  (crates/keyro-core/src/logging.rs, the loop that skips a file that does not fit
  and goes on to older ones). */
module LogHoles {
  import opened LogNames
  import opened LogDisk
  import opened LogCleanup
  import opened LogGuarantees
  import opened LogRotation
  import opened LogStream
  import opened LogMarks

  /** A log opened on a directory without logs, and any calls to it. */
  ghost predicate RunFromNothing(r: Retention, found: Disk, now: int, first: seq<Name>, calls: seq<Call>)
    requires Accepted(r)
  {
    && found.Valid() && found.Logs() == {}
    && Enumerates(first, found.names.Keys)
    && Run(r, OpenCurrent(Cleanup(r, now, found, first), now), calls)
  }

  /** The log is an unbroken chain that holds the last bytes accepted. */
  ghost predicate HoldsTheEnd(r: Retention, w: World, stream: seq<byte>)
    requires w.Valid()
  {
    exists k: nat :: Holds(r, w, k, stream)
  }

  lemma {:induction false} EndIsASuffix(r: Retention, w: World, stream: seq<byte>)
    requires w.Valid() && HoldsTheEnd(r, w, stream)
    ensures KeepsASuffix(r, w, stream)
  {
    var k: nat :| Holds(r, w, k, stream);
    HoldingKeepsASuffix(r, w, k, stream);
  }

  /** After every run from nothing, the log is such a chain. */
  ghost predicate AlwaysHoldsTheEnd(r: Retention)
    requires Accepted(r)
  {
    forall found: Disk, now: int, first: seq<Name>, calls: seq<Call> | RunFromNothing(r, found, now, first, calls) ::
      var w := OpenCurrent(Cleanup(r, now, found, first), now);
      HoldsTheEnd(r, Reached(r, w, calls), Stream(r, w, calls))
  }

  /** After every run from nothing, the bytes in the log are the last bytes accepted. */
  ghost predicate AlwaysKeepsASuffix(r: Retention)
    requires Accepted(r)
  {
    forall found: Disk, now: int, first: seq<Name>, calls: seq<Call> | RunFromNothing(r, found, now, first, calls) ::
      var w := OpenCurrent(Cleanup(r, now, found, first), now);
      KeepsASuffix(r, Reached(r, w, calls), Stream(r, w, calls))
  }

  /** The condition on the settings is exact, for the files and for the bytes in them. */
  lemma {:induction false} AlwaysHoldsTheEndIff(r: Retention)
    requires Accepted(r)
    ensures AlwaysHoldsTheEnd(r) <==> HoleFree(r)
    ensures AlwaysKeepsASuffix(r) <==> HoleFree(r)
  {
    if HoleFree(r) {
      HoleFreeHolds(r);
    } else {
      var calls := HoleRun(r);
      assert RunFromNothing(r, Nothing(), 0, [], calls);
      HoleIsNoEnd(r, Reached(r, NewLog(r), calls), 0, Stream(r, NewLog(r), calls));
    }
  }

  lemma {:induction false} HoleFreeHolds(r: Retention)
    requires Accepted(r) && HoleFree(r)
    ensures AlwaysHoldsTheEnd(r) && AlwaysKeepsASuffix(r)
  {
    forall found: Disk, now: int, first: seq<Name>, calls: seq<Call> | RunFromNothing(r, found, now, first, calls)
      ensures var w := OpenCurrent(Cleanup(r, now, found, first), now);
        var reached, stream := Reached(r, w, calls), Stream(r, w, calls);
        HoldsTheEnd(r, reached, stream) && KeepsASuffix(r, reached, stream)
    {
      var w := OpenCurrent(Cleanup(r, now, found, first), now);
      var k := LogHoldsTheEnd(r, found, now, first, calls);
      HoldingKeepsASuffix(r, Reached(r, w, calls), k, Stream(r, w, calls));
    }
  }

  /** `LogRetention::default`, ages in seconds. */
  const DEFAULTS := Retention(5 * 1024 * 1024, 50 * 1024 * 1024, 10, 14 * 24 * 60 * 60)

  lemma {:induction false} DefaultsHoldTheEnd()
    ensures Accepted(DEFAULTS) && AlwaysHoldsTheEnd(DEFAULTS) && AlwaysKeepsASuffix(DEFAULTS)
  {
    AlwaysHoldsTheEndIff(DEFAULTS);
  }

  function Nothing(): Disk {
    Disk(map[], map[], 0)
  }

  /** The log opened on nothing at time 0. */
  function NewLog(r: Retention): World
    requires Accepted(r)
  {
    OpenCurrent(Cleanup(r, 0, Nothing(), []), 0)
  }

  // ------------------------------------------------------------------------
  // A run that leaves a hole
  // ------------------------------------------------------------------------

  /** A directory of `full` full rotated files and, if there is one, a current file of
    `c` bytes, all written at time 0. */
  ghost predicate Stack(d: Disk, hasCurrent: bool, c: nat, full: nat, most: nat) {
    && d.Valid()
    && (forall n: Name :: n in d.names <==> (n == Current && hasCurrent) || (n.Rotated? && n.index < full))
    && (forall m, n | m in d.names && n in d.names && m != n :: d.names[m] != d.names[n])
    && (forall n | n in d.names :: d.Modified(n) == 0)
    && (forall n | n in d.names :: d.Size(n) == if n == Current then c else most)
  }

  /** The oldest file can start the stream. */
  ghost predicate CanStart(d: Disk, full: nat)
    requires d.Valid()
  {
    var oldest := if full > 0 then Rotated(full - 1) else Current;
    oldest in d.names && MayBeFirst(d.At(oldest).bytes)
  }

  lemma {:induction false} StackStarts(d: Disk, hasCurrent: bool, c: nat, full: nat, most: nat)
    requires Stack(d, hasCurrent, c, full, most) && CanStart(d, full) && full > 0 && most > 0
    ensures StartsInSlot(d, full)
  {
    assert d.Size(Rotated(full - 1)) == most;
  }

  lemma {:induction false} StackTotal(d: Disk, hasCurrent: bool, c: nat, full: nat, most: nat)
    requires Stack(d, hasCurrent, c, full, most)
    ensures d.Logs() == d.names.Keys
    ensures |d.names.Keys| == full + (if hasCurrent then 1 else 0)
    ensures TotalBytes(d, d.names.Keys) == FullBytes(full, most) + (if hasCurrent then c else 0)
  {
    StackNames(d, hasCurrent, c, full, most);
    RotatedNamesCount(full);
    RotatedTotal(d, full, most);
    if hasCurrent {
      TotalAdd(d, RotatedNames(full), Current);
    }
  }

  lemma {:induction false} StackNames(d: Disk, hasCurrent: bool, c: nat, full: nat, most: nat)
    requires Stack(d, hasCurrent, c, full, most)
    ensures d.Logs() == d.names.Keys == if hasCurrent then RotatedNames(full) + {Current} else RotatedNames(full)
  {
    RotatedNamesCount(full);
    assert forall n :: n in d.Logs() <==> n in d.names;
  }

  lemma {:induction false} RotatedTotal(d: Disk, full: nat, most: nat)
    requires d.Valid() && forall i | 0 <= i < full :: Rotated(i) in d.names && d.Size(Rotated(i)) == most
    ensures RotatedNames(full) <= d.names.Keys && TotalBytes(d, RotatedNames(full)) == FullBytes(full, most)
  {
    RotatedNamesCount(full);
    assert forall n | n in RotatedNames(full) :: n == Rotated(n.index);
    TotalOfEqual(d, RotatedNames(full), most);
    FullBytesIs(full, most);
  }

  /** A stack that fits is left as it is. */
  lemma {:induction false} StackStays(r: Retention, d: Disk, hasCurrent: bool, c: nat, full: nat, listing: seq<Name>)
    requires Accepted(r) && Stack(d, hasCurrent, c, full, r.maxFileBytes) && c <= r.maxFileBytes
    requires Enumerates(listing, d.names.Keys)
    requires full + (if hasCurrent then 1 else 0) <= r.maxFiles
    requires FullBytes(full, r.maxFileBytes) + (if hasCurrent then c else 0) <= r.maxTotalBytes
    ensures Cleanup(r, 0, d, listing) == d
  {
    StackTotal(d, hasCurrent, c, full, r.maxFileBytes);
    CleanupIdleIff(r, 0, d, listing);
  }

  /** The newest rotated file last. */
  function NewestLast(hasCurrent: bool, full: nat): seq<Name>
    requires full > 0
  {
    (if hasCurrent then [Current] else []) + seq(full - 1, i requires 0 <= i => Rotated(i + 1)) + [Rotated(0)]
  }

  lemma {:induction false} NewestLastEnumerates(hasCurrent: bool, full: nat, names: set<Name>)
    requires full > 0
    requires forall n: Name :: n in names <==> (n == Current && hasCurrent) || (n.Rotated? && n.index < full)
    ensures Enumerates(NewestLast(hasCurrent, full), names)
  {
    var listing, start := NewestLast(hasCurrent, full), if hasCurrent then 1 else 0;
    NewestLastAt(hasCurrent, full);
    forall n | n in names
      ensures n in listing
    {
      if n == Current {
        assert listing[0] == n;
      } else if n.index == 0 {
        assert listing[|listing| - 1] == n;
      } else {
        assert listing[start + (n.index - 1)] == n;
      }
    }
  }

  lemma {:induction false} NewestLastAt(hasCurrent: bool, full: nat)
    requires full > 0
    ensures var listing, start := NewestLast(hasCurrent, full), if hasCurrent then 1 else 0;
      && |listing| == start + full
      && (hasCurrent ==> listing[0] == Current)
      && (forall i | start <= i < |listing| - 1 :: listing[i] == Rotated(i - start + 1))
      && listing[|listing| - 1] == Rotated(0)
  {
  }

  /** If all but the newest rotated file fit, that one goes. */
  lemma {:induction false} StackLosesNewest(r: Retention, d: Disk, hasCurrent: bool, c: nat, full: nat)
    requires Accepted(r) && r.maxTotalBytes < U64_MAX && full > 0
    requires Stack(d, hasCurrent, c, full, r.maxFileBytes) && c <= r.maxFileBytes
    requires full - 1 + (if hasCurrent then 1 else 0) <= r.maxFiles
    requires var rest := FullBytes(full - 1, r.maxFileBytes) + (if hasCurrent then c else 0);
      rest <= r.maxTotalBytes < rest + r.maxFileBytes
    ensures Enumerates(NewestLast(hasCurrent, full), d.names.Keys)
    ensures Cleanup(r, 0, d, NewestLast(hasCurrent, full)) == d.Without({Rotated(0)})
  {
    NewestLastEnumerates(hasCurrent, full, d.names.Keys);
    StackTotal(d, hasCurrent, c, full, r.maxFileBytes);
    TotalRemove(d, d.names.Keys, Rotated(0));
    LastOneGoes(r, 0, d, NewestLast(hasCurrent, full), 0);
  }

  // ------------------------------------------------------------------------
  // A pass over files that are all equally old
  // ------------------------------------------------------------------------

  lemma {:induction false} TiesKeepOrder(files: seq<LogFile>, time: int)
    requires forall f | f in files :: f.modified == time
    ensures NewestFirst(files) == files
  {
    if files != [] {
      var prefix := files[..|files| - 1];
      TiesKeepOrder(prefix, time);
      assert prefix == [] || prefix[|prefix| - 1] in files;
    }
  }

  lemma {:induction false} AllRetained(r: Retention, now: int, d: Disk, listing: seq<Name>, k: nat)
    requires d.Valid() && k <= |listing|
    requires forall n | n in listing :: n in d.names && IsKeyroLog(n) && Survives(r, now, d, n)
    ensures |Retained(r, now, d, listing, k)| == k
    ensures forall i | 0 <= i < k :: Retained(r, now, d, listing, k)[i] == Describe(d, listing[i])
  {
    if k > 0 {
      AllRetained(r, now, d, listing, k - 1);
    }
  }

  /** With everything written at the same time, the list is in listing order. */
  lemma {:induction false} SweepListInOrder(r: Retention, now: int, d: Disk, listing: seq<Name>, time: int)
    requires d.Valid()
    requires forall n | n in listing :: n in d.names && IsKeyroLog(n) && Survives(r, now, d, n) && d.Modified(n) == time
    ensures var files := SweepList(r, now, d, listing);
      |files| == |listing| && forall i | 0 <= i < |files| :: files[i] == Describe(d, listing[i])
  {
    AllRetained(r, now, d, listing, |listing|);
    TiesKeepOrder(Retained(r, now, d, listing, |listing|), time);
  }

  /** If everything but the file listed last fits, exactly that file goes. */
  lemma {:induction false} LastOneGoes(r: Retention, now: int, d: Disk, listing: seq<Name>, time: int)
    requires Accepted(r) && d.Valid() && Enumerates(listing, d.names.Keys)
    requires forall n | n in d.names :: IsKeyroLog(n) && Survives(r, now, d, n) && d.Modified(n) == time
    requires listing != [] && listing[|listing| - 1] != Current
    requires Fits(r, d, d.names.Keys - {listing[|listing| - 1]}) && !Fits(r, d, d.names.Keys)
    ensures Cleanup(r, now, d, listing) == d.Without({listing[|listing| - 1]})
  {
    var files := SweepList(r, now, d, listing);
    SweepListInOrder(r, now, d, listing, time);
    LastRound(r, now, d, listing, time);
    DoomedAreNotSurvivors(r, now, d, listing);
    assert d.Logs() - Survivors(r, now, d) == {};
    assert {} + {listing[|listing| - 1]} == {listing[|listing| - 1]};
  }

  lemma {:induction false} LastRound(r: Retention, now: int, d: Disk, listing: seq<Name>, time: int)
    requires Accepted(r) && d.Valid() && Enumerates(listing, d.names.Keys)
    requires forall n | n in d.names :: IsKeyroLog(n) && Survives(r, now, d, n) && d.Modified(n) == time
    requires listing != [] && listing[|listing| - 1] != Current
    requires Fits(r, d, d.names.Keys - {listing[|listing| - 1]}) && !Fits(r, d, d.names.Keys)
    ensures var files := SweepList(r, now, d, listing);
      Sweep(r, Start(r, now, d), files, |files|).removed == {listing[|listing| - 1]}
  {
    var files := SweepList(r, now, d, listing);
    SweepListInOrder(r, now, d, listing, time);
    SweepReady(r, now, d, listing);
    OnlyLastRemoved(r, d, Start(r, now, d), CurrentSet(r, now, d), files, listing);
  }

  /** The files in listing order, the last one without room next to all others. */
  ghost predicate AllButLastFit(r: Retention, d: Disk, start: Tally, current: set<Name>, files: seq<LogFile>,
                                listing: seq<Name>) {
    && d.Valid() && Faithful(d, files) && Starts(r, d, start, current)
    && Enumerates(listing, d.names.Keys) && listing != []
    && |files| == |listing| && (forall i | 0 <= i < |files| :: files[i] == Describe(d, listing[i]))
    && (Current in d.names ==> Current in current)
    && listing[|listing| - 1] != Current
    && Fits(r, d, d.names.Keys - {listing[|listing| - 1]}) && !Fits(r, d, d.names.Keys)
  }

  lemma {:induction false} OnlyLastRemoved(r: Retention, d: Disk, start: Tally, current: set<Name>, files: seq<LogFile>,
                                           listing: seq<Name>)
    requires Accepted(r) && AllButLastFit(r, d, start, current, files, listing)
    ensures Sweep(r, start, files, |files|).removed == {listing[|listing| - 1]}
  {
    var m := |listing| - 1;
    KeptBeforeLast(r, d, start, current, files, listing);
    LastIsFull(r, d, start, current, files, m);
  }

  lemma {:induction false} LastIsFull(r: Retention, d: Disk, start: Tally, current: set<Name>, files: seq<LogFile>,
                                      m: nat)
    requires Accepted(r) && d.Valid() && Faithful(d, files) && Starts(r, d, start, current) && |files| == m + 1
    requires files[m].name in d.names && files[m].name != Current && !Fits(r, d, d.names.Keys)
    requires Sweep(r, start, files, m).removed == {}
    requires Kept(r, start, current, files, m) == d.names.Keys - {files[m].name}
    ensures Sweep(r, start, files, |files|).removed == {files[m].name}
  {
    assert files[m] in files;
    SweepAccounts(r, d, start, current, files, m);
    RoundCounts(r, d, start, current, files, m);
    assert d.names.Keys - {files[m].name} + {files[m].name} == d.names.Keys;
  }

  lemma {:induction false} KeptBeforeLast(r: Retention, d: Disk, start: Tally, current: set<Name>, files: seq<LogFile>,
                                          listing: seq<Name>)
    requires Accepted(r) && AllButLastFit(r, d, start, current, files, listing)
    ensures Sweep(r, start, files, |files| - 1).removed == {}
    ensures Kept(r, start, current, files, |files| - 1) == d.names.Keys - {listing[|listing| - 1]}
  {
    var m, all := |listing| - 1, d.names.Keys - {listing[|listing| - 1]};
    assert forall i | 0 <= i < m :: listing[i] in listing && listing[i] != listing[m];
    SweepKeepsAll(r, d, start, current, files, m, all);
    AllKept(r, start, current, files, listing);
  }

  /** What is not removed before the last round is kept. */
  lemma {:induction false} AllKept(r: Retention, start: Tally, current: set<Name>, files: seq<LogFile>,
                                   listing: seq<Name>)
    requires |files| == |listing| > 0
    requires forall i | 0 <= i < |files| ::
      files[i].name == listing[i] && (files[i].isCurrent <==> listing[i] == Current)
    requires Current in listing ==> Current in current
    requires Sweep(r, start, files, |files| - 1).removed == {}
    ensures forall n | n in listing && n != listing[|listing| - 1] :: n in Kept(r, start, current, files, |files| - 1)
  {
    SweepCovers(r, start, current, files, |files| - 1);
    CurrentStays(r, start, current, files, |files| - 1);
  }

  lemma {:induction false} CurrentStays(r: Retention, start: Tally, current: set<Name>, files: seq<LogFile>, k: nat)
    requires k <= |files|
    ensures current <= Kept(r, start, current, files, k)
  {
    if k > 0 {
      CurrentStays(r, start, current, files, k - 1);
    }
  }

  // ------------------------------------------------------------------------
  // The calls of the run
  // ------------------------------------------------------------------------

  /** The log after `full` full files were written at time 0. */
  ghost predicate Stacked(r: Retention, w: World, full: nat) {
    Stack(w.disk, true, 0, full, r.maxFileBytes) && CanStart(w.disk, full) && w.HandleIsCurrent() && w.clock == 0
  }

  /** Appending to the empty current file of a stack. */
  lemma {:induction false} AppendToStack(r: Retention, w: World, full: nat, buf: seq<byte>)
    requires Accepted(r) && w.Valid() && Stacked(r, w, full) && 0 < |buf| <= r.maxFileBytes
    requires full == 0 ==> MayBeFirst(buf)
    ensures !WriteRotates(r, w, |buf|) && Representable(w, |buf|)
    ensures var w' := Appended(r, 0, w, buf, []);
      && w'.HandleIsCurrent() && w'.FileSize() == |buf| && w'.clock == 0
      && Stack(w'.disk, true, |buf|, full, r.maxFileBytes) && CanStart(w'.disk, full)
      && Cutoff(r, 0) <= w'.disk.inodes[w'.file].modified
  {
    assert buf[..|buf|] == buf;
    var d, e := w.disk, Appended(r, 0, w, buf, []).disk;
    assert e.names == d.names;
    forall n | n in d.names && n != Current
      ensures e.At(n) == d.At(n)
    {
      assert d.names[n] != d.names[Current];
    }
  }

  /** Rotating a full current file on top of a stack. */
  lemma {:induction false} ShiftStack(d: Disk, full: nat, most: nat, slots: nat)
    requires Stack(d, true, most, full, most) && full < slots
    ensures Stack(d.(names := Shift(d.names, slots)), false, 0, full + 1, most)
  {
    ShiftIsExact(d.names, slots);
    ShiftIsValid(d, slots);
    var e := d.(names := Shift(d.names, slots));
    DistinctAfterShift(d.names, e.names, slots);
    forall n: Name
      ensures n in e.names <==> n.Rotated? && n.index < full + 1
    {
    }
    forall n | n in e.names
      ensures e.Modified(n) == 0 && e.Size(n) == most
    {
      assert e.At(n) == d.At(Origin(n, slots));
    }
  }

  /** Different names stay different files. */
  lemma {:induction false} DistinctAfterShift(before: map<Name, InodeId>, after: map<Name, InodeId>, slots: nat)
    requires IsShift(before, after, slots)
    requires forall m, n | m in before && n in before && m != n :: before[m] != before[n]
    requires forall n | n in before :: n == Current || (n.Rotated? && n.index < slots - 1)
    ensures forall m, n | m in after && n in after && m != n :: after[m] != after[n]
  {
    forall m, n | m in after && n in after && m != n
      ensures after[m] != after[n]
    {
      assert Origin(m, slots) != Origin(n, slots);
    }
  }

  lemma {:induction false} ShiftStart(d: Disk, full: nat, slots: nat)
    requires d.Valid() && Current in d.names && CanStart(d, full) && full < slots
    ensures var e := d.(names := Shift(d.names, slots)); e.Valid() && CanStart(e, full + 1)
  {
    ShiftIsExact(d.names, slots);
    ShiftIsValid(d, slots);
    assert Origin(Rotated(full), slots) == if full > 0 then Rotated(full - 1) else Current;
  }

  lemma {:induction false} OpenStack(r: Retention, d: Disk, full: nat)
    requires Stack(d, false, 0, full, r.maxFileBytes) && (full > 0 ==> CanStart(d, full))
    ensures Stacked(r, OpenCurrent(d, 0), full)
  {
    var e := OpenCurrent(d, 0).disk;
    assert forall n | n in d.names :: e.At(n) == d.At(n);
  }

  /** A write that fills the current file of a stack, found in the order `shifted` when
    the rotation lists it. */
  lemma {:induction false} FillFile(r: Retention, w: World, full: nat, shifted: seq<Name>)
    requires Accepted(r) && w.Valid() && Stacked(r, w, full) && full < Slots(r)
    ensures var w2 := Appended(r, 0, w, SomeBytes(full == 0, r.maxFileBytes), []);
      && !WriteRotates(r, w, r.maxFileBytes) && Representable(w, r.maxFileBytes) && NeedsRotation(r, 0, w2)
      && Stack(Rotating(r, w2.disk), false, 0, full + 1, r.maxFileBytes) && CanStart(Rotating(r, w2.disk), full + 1)
      && Settled(r, 0, w2, shifted) == OpenCurrent(Cleanup(r, 0, Rotating(r, w2.disk), shifted), 0)
  {
    var buf := SomeBytes(full == 0, r.maxFileBytes);
    AppendToStack(r, w, full, buf);
    var w2 := Appended(r, 0, w, buf, []);
    ShiftStack(w2.disk, full, r.maxFileBytes, Slots(r));
    ShiftStart(w2.disk, full, Slots(r));
  }

  /** Such a write as a call. */
  lemma {:induction false} FillCall(r: Retention, w: World, buf: seq<byte>, shifted: seq<Name>, listing: seq<Name>)
    returns (c: Call)
    requires Accepted(r) && w.Valid() && w.clock == 0 && buf != [] && Slots(r) > 0
    requires !WriteRotates(r, w, |buf|) && Representable(w, |buf|)
    requires var w2 := Appended(r, 0, w, buf, []);
      var d := Rotating(r, w2.disk);
      && NeedsRotation(r, 0, w2) && d.Valid() && Enumerates(shifted, d.names.Keys)
      && Settled(r, 0, w2, shifted) == OpenCurrent(Cleanup(r, 0, d, shifted), 0)
      && Enumerates(listing, OpenCurrent(Cleanup(r, 0, d, shifted), 0).disk.names.Keys)
    ensures c.Write? && c.buf == buf && Possible(r, w, c)
    ensures var settled := OpenCurrent(Cleanup(r, 0, Rotating(r, Appended(r, 0, w, buf, []).disk), shifted), 0);
      After(r, w, c) == World(Cleanup(r, 0, settled.disk, listing), settled.file, 0)
  {
    c := Write(buf, 0, [], shifted, listing);
  }

  /** A stack that fits is as it was after the passes of a rotation. */
  lemma {:induction false} StackSettles(r: Retention, d: Disk, full: nat)
    returns (shifted: seq<Name>, listing: seq<Name>)
    requires Accepted(r) && full < Slots(r) && FullBytes(full + 1, r.maxFileBytes) <= r.maxTotalBytes
    requires Stack(d, false, 0, full + 1, r.maxFileBytes) && CanStart(d, full + 1)
    ensures Enumerates(shifted, d.names.Keys) && Cleanup(r, 0, d, shifted) == d
    ensures var settled := OpenCurrent(d, 0);
      && Enumerates(listing, settled.disk.names.Keys) && Cleanup(r, 0, settled.disk, listing) == settled.disk
      && Stacked(r, settled, full + 1)
  {
    shifted := StackIdle(r, d, false, full + 1);
    OpenStack(r, d, full + 1);
    listing := StackIdle(r, OpenCurrent(d, 0).disk, true, full + 1);
  }

  lemma {:induction false} StackIdle(r: Retention, d: Disk, hasCurrent: bool, full: nat) returns (listing: seq<Name>)
    requires Accepted(r) && 0 < full < r.maxFiles && FullBytes(full, r.maxFileBytes) <= r.maxTotalBytes
    requires Stack(d, hasCurrent, 0, full, r.maxFileBytes)
    ensures Enumerates(listing, d.names.Keys) && Cleanup(r, 0, d, listing) == d
  {
    listing := NewestLast(hasCurrent, full);
    NewestLastEnumerates(hasCurrent, full, d.names.Keys);
    StackStays(r, d, hasCurrent, 0, full, listing);
  }

  /** While there is room, a full file is added to the stack. */
  lemma {:induction false} StackOneMore(r: Retention, w: World, full: nat) returns (c: Call)
    requires Accepted(r) && w.Valid() && Stacked(r, w, full) && full < Slots(r)
    requires FullBytes(full + 1, r.maxFileBytes) <= r.maxTotalBytes
    ensures MarkedCall(r, w, c, full == 0) && |c.buf| == r.maxFileBytes && Stacked(r, After(r, w, c), full + 1)
  {
    var buf := SomeBytes(full == 0, r.maxFileBytes);
    FillFile(r, w, full, []);
    var shifted, listing := StackSettles(r, Rotating(r, Appended(r, 0, w, buf, []).disk), full);
    FillFile(r, w, full, shifted);
    c := FillCall(r, w, buf, shifted, listing);
  }

  /** The runs that write such a stack of `length` bytes, and nothing else. */
  ghost function StackRuns(r: Retention, full: nat, length: nat): iset<seq<Call>>
    requires Accepted(r)
  {
    iset calls: seq<Call> |
      && Marked(r, NewLog(r), calls, length) && Stacked(r, Reached(r, NewLog(r), calls), full)
      && (length == 0 <==> full == 0)
  }

  lemma {:induction false} NothingStacked(r: Retention)
    requires Accepted(r)
    ensures [] in StackRuns(r, 0, 0)
  {
    StartIsStacked(r);
    NothingMarked(r, NewLog(r));
  }

  lemma {:induction false} StackRun(r: Retention, full: nat) returns (calls: seq<Call>)
    requires Accepted(r) && full <= Slots(r) && FullBytes(full, r.maxFileBytes) <= r.maxTotalBytes
    ensures calls in StackRuns(r, full, FullBytes(full, r.maxFileBytes))
  {
    NothingStacked(r);
    calls := [];
    var n: nat, length: nat := 0, 0;
    while n < full
      invariant n <= full && length == FullBytes(n, r.maxFileBytes) && calls in StackRuns(r, n, length)
    {
      FullBytesGrow(n + 1, full, r.maxFileBytes);
      var next, total := n + 1, length + r.maxFileBytes;
      calls := StackNext(r, calls, n, length, next, total);
      n, length := next, total;
    }
  }

  lemma {:induction false} FullBytesGrow(n: nat, full: nat, most: nat)
    requires n <= full
    ensures FullBytes(n, most) <= FullBytes(full, most)
    decreases full
  {
    if n < full {
      FullBytesGrow(n, full - 1, most);
    }
  }

  lemma {:induction false} StackNext(r: Retention, before: seq<Call>, full: nat, length: nat, next: nat, total: nat)
    returns (calls: seq<Call>)
    requires Accepted(r) && full < Slots(r) && FullBytes(next, r.maxFileBytes) <= r.maxTotalBytes
    requires before in StackRuns(r, full, length) && next == full + 1 && total == length + r.maxFileBytes
    ensures calls in StackRuns(r, next, total)
  {
    calls := StackThen(r, before, full, length);
  }

  lemma {:induction false} StackThen(r: Retention, before: seq<Call>, full: nat, length: nat)
    returns (calls: seq<Call>)
    requires Accepted(r) && full < Slots(r) && FullBytes(full + 1, r.maxFileBytes) <= r.maxTotalBytes
    requires Marked(r, NewLog(r), before, length) && Stacked(r, Reached(r, NewLog(r), before), full)
    requires length == 0 <==> full == 0
    ensures Marked(r, NewLog(r), calls, length + r.maxFileBytes)
    ensures Stacked(r, Reached(r, NewLog(r), calls), full + 1)
  {
    var c := StackOneMore(r, Reached(r, NewLog(r), before), full);
    MarkedThen(r, NewLog(r), before, c, length);
    calls := before + [c];
  }

  /** A newer rotated file is gone and an older one is not. */
  predicate HoleAt(names: map<Name, InodeId>, i: nat) {
    Rotated(i) !in names && Rotated(i + 1) in names
  }

  /** One more full file than the byte budget has room for. */
  lemma {:induction false} FillTooMany(r: Retention, w: World, full: nat) returns (c: Call)
    requires Accepted(r) && r.maxTotalBytes < U64_MAX && w.Valid() && Stacked(r, w, full) && 0 < full < Slots(r)
    requires FullBytes(full, r.maxFileBytes) <= r.maxTotalBytes < FullBytes(full + 1, r.maxFileBytes)
    ensures MarkedCall(r, w, c, full == 0) && |c.buf| == r.maxFileBytes
    ensures HoleAt(After(r, w, c).disk.names, 0) && StartsInSlot(After(r, w, c).disk, full + 1)
  {
    var shifted := NewestLast(false, full + 1);
    var buf := SomeBytes(full == 0, r.maxFileBytes);
    FillFile(r, w, full, shifted);
    var d := Rotating(r, Appended(r, 0, w, buf, []).disk);
    TooMany(r, d, full);
    var left := d.Without({Rotated(0)});
    var listing := SomeListing(OpenCurrent(left, 0).disk.names.Keys);
    c := FillCall(r, w, buf, shifted, listing);
    HoleStays(r, left, full, listing);
  }

  lemma {:induction false} TooMany(r: Retention, d: Disk, full: nat)
    requires Accepted(r) && r.maxTotalBytes < U64_MAX && 0 < full < Slots(r)
    requires FullBytes(full, r.maxFileBytes) <= r.maxTotalBytes < FullBytes(full + 1, r.maxFileBytes)
    requires Stack(d, false, 0, full + 1, r.maxFileBytes) && CanStart(d, full + 1)
    ensures Enumerates(NewestLast(false, full + 1), d.names.Keys)
    ensures var left := d.Without({Rotated(0)});
      && Cleanup(r, 0, d, NewestLast(false, full + 1)) == left
      && (forall n: Name :: n in left.names <==> n.Rotated? && 1 <= n.index <= full)
      && (forall n | n in left.names :: left.Size(n) == r.maxFileBytes && left.Modified(n) == 0)
      && StartsInSlot(left, full + 1)
  {
    StackLosesNewest(r, d, false, 0, full + 1);
    StackBelow(d, full, r.maxFileBytes);
  }

  lemma {:induction false} StackBelow(d: Disk, full: nat, most: nat)
    requires Stack(d, false, 0, full + 1, most) && CanStart(d, full + 1) && 0 < full && 0 < most
    ensures var left := d.Without({Rotated(0)});
      && (forall n: Name :: n in left.names <==> n.Rotated? && 1 <= n.index <= full)
      && (forall n | n in left.names :: left.Size(n) == most && left.Modified(n) == 0)
      && StartsInSlot(left, full + 1)
  {
    StackStarts(d, false, 0, full + 1, most);
    KeptStarts(d, d.Without({Rotated(0)}), full + 1);
  }

  /** What is left fits, so the last pass of the call leaves it. */
  lemma {:induction false} HoleStays(r: Retention, left: Disk, full: nat, listing: seq<Name>)
    requires Accepted(r) && left.Valid() && 0 < full < r.maxFiles && FullBytes(full, r.maxFileBytes) <= r.maxTotalBytes
    requires forall n: Name :: n in left.names <==> n.Rotated? && 1 <= n.index <= full
    requires forall n | n in left.names :: left.Size(n) == r.maxFileBytes && left.Modified(n) == 0
    requires StartsInSlot(left, full + 1) && Enumerates(listing, OpenCurrent(left, 0).disk.names.Keys)
    ensures var d := Cleanup(r, 0, OpenCurrent(left, 0).disk, listing);
      HoleAt(d.names, 0) && StartsInSlot(d, full + 1)
  {
    OlderTotal(left, full, r.maxFileBytes);
    FreshIsBounded(r, 0, left);
    CleanupIdleIff(r, 0, OpenCurrent(left, 0).disk, listing);
    OpenedStarts(left, 0, full + 1);
    assert Rotated(1) in left.names && Rotated(0) !in left.names;
  }

  lemma {:induction false} OlderTotal(left: Disk, full: nat, most: nat)
    requires left.Valid() && forall n: Name :: n in left.names <==> n.Rotated? && 1 <= n.index <= full
    requires forall n | n in left.names :: left.Size(n) == most
    ensures left.Logs() == left.names.Keys && |left.Logs()| == full
    ensures TotalBytes(left, left.Logs()) == FullBytes(full, most)
  {
    RotatedNamesCount(full + 1);
    assert left.Logs() == left.names.Keys == RotatedNames(full + 1) - {Rotated(0)};
    TotalOfEqual(left, left.names.Keys, most);
    FullBytesIs(full, most);
  }

  /** A fresh file within the count keeps every limit. */
  lemma {:induction false} FreshIsBounded(r: Retention, now: int, left: Disk)
    requires Accepted(r) && left.Valid() && Current !in left.names && Bounded(r, now, left)
    requires |left.Logs()| < r.maxFiles
    ensures Bounded(r, now, OpenCurrent(left, now).disk)
  {
    FreshFileCounts(r, now, left);
  }

  /** A current file for which the byte budget has no room next to the stack. */
  lemma {:induction false} FillCurrent(r: Retention, w: World, full: nat) returns (c: Call)
    requires Accepted(r) && r.maxTotalBytes < U64_MAX && w.Valid() && Stacked(r, w, full) && 1 < full <= Slots(r)
    requires FullBytes(full, r.maxFileBytes) <= r.maxTotalBytes < FullBytes(full, r.maxFileBytes) + r.maxFileBytes - 1
    ensures MarkedCall(r, w, c, full == 0) && |c.buf| == r.maxFileBytes - 1
    ensures HoleAt(After(r, w, c).disk.names, 0) && StartsInSlot(After(r, w, c).disk, full)
  {
    var buf := SomeBytes(full == 0, r.maxFileBytes - 1);
    AppendToStack(r, w, full, buf);
    var w2 := Appended(r, 0, w, buf, []);
    TooManyBytes(r, w2.disk, full);
    c := PlainCall(r, w, buf, NewestLast(true, full));
  }

  lemma {:induction false} TooManyBytes(r: Retention, d: Disk, full: nat)
    requires Accepted(r) && r.maxTotalBytes < U64_MAX && 1 < full <= Slots(r)
    requires FullBytes(full, r.maxFileBytes) <= r.maxTotalBytes < FullBytes(full, r.maxFileBytes) + r.maxFileBytes - 1
    requires Stack(d, true, r.maxFileBytes - 1, full, r.maxFileBytes) && CanStart(d, full)
    ensures Enumerates(NewestLast(true, full), d.names.Keys)
    ensures var left := Cleanup(r, 0, d, NewestLast(true, full));
      HoleAt(left.names, 0) && StartsInSlot(left, full)
  {
    StackLosesNewest(r, d, true, r.maxFileBytes - 1, full);
    StackStarts(d, true, r.maxFileBytes - 1, full, r.maxFileBytes);
    KeptStarts(d, d.Without({Rotated(0)}), full);
  }

  /** A write that does not rotate the log, as a call. */
  lemma {:induction false} PlainCall(r: Retention, w: World, buf: seq<byte>, listing: seq<Name>) returns (c: Call)
    requires Accepted(r) && w.Valid() && w.clock == 0 && buf != []
    requires !WriteRotates(r, w, |buf|) && Representable(w, |buf|)
    requires var w2 := Appended(r, 0, w, buf, []);
      !NeedsRotation(r, 0, w2) && Enumerates(listing, w2.disk.names.Keys)
    ensures c.Write? && c.buf == buf && Possible(r, w, c)
    ensures After(r, w, c).disk == Cleanup(r, 0, Appended(r, 0, w, buf, []).disk, listing)
  {
    c := Write(buf, 0, [], [], listing);
  }

  /** Under settings that are not hole-free, a run that ends with a hole: the newest
    rotated file is gone, the one below it is not, and the bytes in the log are not the
    last bytes accepted. */
  lemma {:induction false} HoleRun(r: Retention) returns (calls: seq<Call>)
    requires Accepted(r) && !HoleFree(r)
    ensures Run(r, NewLog(r), calls) && HoleAt(Reached(r, NewLog(r), calls).disk.names, 0)
    ensures !KeepsASuffix(r, Reached(r, NewLog(r), calls), Stream(r, NewLog(r), calls))
  {
    var full := HowManyFit(r);
    var length := FullBytes(full, r.maxFileBytes);
    calls := StackRun(r, full);
    var c, m := FillOneMore(r, Reached(r, NewLog(r), calls), full);
    MarkedThen(r, NewLog(r), calls, c, length);
    StartOutlives(r, NewLog(r), calls, c, length, m);
    calls := calls + [c];
  }

  lemma {:induction false} StartIsStacked(r: Retention)
    requires Accepted(r)
    ensures Stacked(r, NewLog(r), 0)
  {
    CleanupBounds(r, 0, Nothing(), []);
    assert Cleanup(r, 0, Nothing(), []).names == map[];
    OpenStack(r, Cleanup(r, 0, Nothing(), []), 0);
  }

  lemma {:induction false} FillOneMore(r: Retention, w: World, full: nat) returns (c: Call, m: nat)
    requires Accepted(r) && !HoleFree(r) && w.Valid() && Stacked(r, w, full) && 0 < full <= Slots(r)
    requires FullBytes(full, r.maxFileBytes) <= r.maxTotalBytes
    requires if full < Slots(r) then r.maxTotalBytes < FullBytes(full + 1, r.maxFileBytes)
             else r.maxTotalBytes < FullBytes(full, r.maxFileBytes) + r.maxFileBytes - 1
    ensures MarkedCall(r, w, c, full == 0) && FullBytes(full, r.maxFileBytes) + |c.buf| > r.maxTotalBytes
    ensures HoleAt(After(r, w, c).disk.names, 0) && StartsInSlot(After(r, w, c).disk, m) && m <= Slots(r)
  {
    if full < Slots(r) {
      c := FillTooMany(r, w, full);
      m := full + 1;
    } else {
      c := FillCurrent(r, w, full);
      m := full;
    }
  }

  lemma {:induction false} HoleIsNoEnd(r: Retention, w: World, i: nat, stream: seq<byte>)
    requires w.Valid() && HoleAt(w.disk.names, i)
    ensures !HoldsTheEnd(r, w, stream)
  {
    assert Rotated(i + 1) in w.disk.Logs() && Rotated(i) !in w.disk.Logs();
  }

  /** As many full files as the byte budget has room for. */
  lemma {:induction false} HowManyFit(r: Retention) returns (full: nat)
    requires Accepted(r) && !HoleFree(r)
    ensures 0 < full <= Slots(r) && FullBytes(full, r.maxFileBytes) <= r.maxTotalBytes
    ensures if full < Slots(r) then r.maxTotalBytes < FullBytes(full + 1, r.maxFileBytes)
            else r.maxTotalBytes < FullBytes(full, r.maxFileBytes) + r.maxFileBytes - 1
  {
    full := 1;
    while full < Slots(r) && FullBytes(full + 1, r.maxFileBytes) <= r.maxTotalBytes
      invariant 0 < full <= Slots(r) && FullBytes(full, r.maxFileBytes) <= r.maxTotalBytes
    {
      full := full + 1;
    }
    FullBytesIs(full, r.maxFileBytes);
    OneMore(r.maxFiles, r.maxFileBytes);
  }
}
