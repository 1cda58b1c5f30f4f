/** What the log still holds: the record just written, and everything while there is
  room (crates/keyro-core/src/logging.rs). */
module LogRecords {
  import opened LogNames
  import opened LogDisk
  import opened LogCleanup
  import opened LogGuarantees
  import opened LogRotation
  import opened LogStream

  // ------------------------------------------------------------------------
  // One record
  // ------------------------------------------------------------------------

  /** Some log of the directory ends with the record. */
  ghost predicate EndsALog(d: Disk, record: seq<byte>)
    requires d.Valid()
  {
    exists n :: n in d.Logs() && IsSuffix(record, d.At(n).bytes)
  }

  /** The size of the file a record is written to, before it is. */
  function SizeBefore(r: Retention, w: World, length: nat): nat
    requires w.Valid()
  {
    if WriteRotates(r, w, length) then 0 else w.FileSize()
  }

  /** A record no longer than a file is whole at the end of a log when its write
    returns, if and only if there can be rotated files or it did not fill its file.
    With `max_files` 1 a file is deleted in the call that fills it. */
  lemma {:induction false} RecordEndsALogIff(r: Retention, w: World, c: Call, k: nat, stream: seq<byte>)
    requires Accepted(r) && HoleFree(r) && w.Valid() && Holds(r, w, k, stream)
    requires c.Write? && Possible(r, w, c) && 0 < |c.buf| <= r.maxFileBytes
    ensures EndsALog(After(r, w, c).disk, c.buf)
      <==> r.maxFiles > 1 || SizeBefore(r, w, |c.buf|) + |c.buf| < r.maxFileBytes
  {
    RecordAppended(r, w, c);
    var appended := Appended(r, c.now, w, c.buf, c.roomListing);
    if appended.FileSize() < r.maxFileBytes {
      CurrentStaysPut(r, c.now, appended, c.rotateListing, c.listing);
    } else if r.maxFiles > 1 {
      HoleFreeIsClosing(r, w, c);
      var mid := AppendedHolds(r, w, c, k, stream);
      FullFileIsKept(r, c.now, appended, c.rotateListing, c.listing, mid);
    } else {
      FullFileIsLost(r, w, c, k, stream);
    }
  }

  /** The record is at the end of the file that is written to. */
  lemma {:induction false} RecordAppended(r: Retention, w: World, c: Call)
    requires Accepted(r) && w.Valid() && w.HandleIsCurrent()
    requires c.Write? && Possible(r, w, c) && 0 < |c.buf| <= r.maxFileBytes
    ensures var appended := Appended(r, c.now, w, c.buf, c.roomListing);
      && appended.HandleIsCurrent()
      && IsSuffix(c.buf, appended.disk.At(Current).bytes)
      && appended.FileSize() == SizeBefore(r, w, |c.buf|) + |c.buf|
      && appended.disk.Modified(Current) == c.now
  {
    if WriteRotates(r, w, |c.buf|) {
      RotateIsFresh(r, c.now, w, c.roomListing);
    }
    WriteTakes(r, w, c);
    assert c.buf[..|c.buf|] == c.buf;
  }

  /** A young file that is not full stays where it is. */
  lemma {:induction false} CurrentStaysPut(r: Retention, now: int, w: World, rotateListing: seq<Name>,
                                           listing: seq<Name>)
    requires Accepted(r) && w.Valid() && w.HandleIsCurrent() && MaintenanceListed(r, now, w, rotateListing, listing)
    requires w.FileSize() < r.maxFileBytes && w.disk.Modified(Current) == now
    ensures var d := Maintain(r, now, w, rotateListing, listing).disk;
      Current in d.Logs() && d.At(Current) == w.disk.At(Current)
  {
    CleanupBounds(r, now, w.disk, listing);
  }

  /** Under hole-free settings everything young fits without a current file, or with
    an empty one. */
  lemma {:induction false} HoleFreeFits(r: Retention, clock: int, d: Disk, k: nat, hasCurrent: bool)
    requires Accepted(r) && HoleFree(r) && d.Valid() && Chain(r, clock, d, k, hasCurrent)
    requires hasCurrent ==> Current in d.names && d.Size(Current) == 0
    ensures Fits(r, d, d.Logs())
  {
    if r.maxFiles > 2 {
      ChainFits(r, clock, d, k, hasCurrent);
    } else {
      FewFit(r, clock, d, k, hasCurrent);
    }
  }

  lemma {:induction false} FewFit(r: Retention, clock: int, d: Disk, k: nat, hasCurrent: bool)
    requires Accepted(r) && r.maxFiles <= 2 && d.Valid() && Chain(r, clock, d, k, hasCurrent)
    requires hasCurrent ==> Current in d.names && d.Size(Current) == 0
    ensures Fits(r, d, d.Logs())
  {
    ChainHas(r, clock, d, k, hasCurrent);
    RotatedNamesCount(k);
    assert d.Logs() == Above(k, hasCurrent);
    assert RotatedNames(k) <= d.Logs();
    TotalBounded(d, RotatedNames(k), r.maxFileBytes);
    AtMost(k, 1, r.maxFileBytes);
    if hasCurrent {
      TotalAdd(d, RotatedNames(k), Current);
    }
  }

  /** A young log stays if everything fits. */
  lemma {:induction false} YoungStays(r: Retention, now: int, d: Disk, listing: seq<Name>, n: Name)
    requires Accepted(r) && d.Valid() && Enumerates(listing, d.names.Keys)
    requires Fits(r, d, d.Logs()) && n in Survivors(r, now, d)
    ensures var e := Cleanup(r, now, d, listing);
      e.Valid() && n in e.Logs() && e.At(n) == d.At(n)
  {
    FitsSubset(r, d, Survivors(r, now, d), d.Logs());
    OnlyExpiredGoesIff(r, now, d, listing);
    CleanupBounds(r, now, d, listing);
    WithoutKeeps(d, Survivors(r, now, d));
  }

  /** With a slot to rotate into, the full file becomes the newest rotated one. */
  lemma {:induction false} FullFileIsKept(r: Retention, now: int, w: World, rotateListing: seq<Name>,
                                          listing: seq<Name>, k: nat)
    requires Accepted(r) && HoleFree(r) && r.maxFiles > 1 && w.Valid() && w.HandleIsCurrent()
    requires Chain(r, now, w.disk, k, true) && MaintenanceListed(r, now, w, rotateListing, listing)
    requires w.FileSize() == r.maxFileBytes && w.disk.Modified(Current) == now
    ensures var d := Maintain(r, now, w, rotateListing, listing).disk;
      Rotated(0) in d.Logs() && d.At(Rotated(0)) == w.disk.At(Current)
  {
    FullFileIsRotated(r, now, w, rotateListing, k);
    FullFileIsFitted(r, now, w, rotateListing, k);
    YoungStays(r, now, Settled(r, now, w, rotateListing).disk, listing, Rotated(0));
  }

  lemma {:induction false} FullFileIsRotated(r: Retention, now: int, w: World, rotateListing: seq<Name>, k: nat)
    requires Accepted(r) && HoleFree(r) && r.maxFiles > 1 && w.Valid() && w.HandleIsCurrent()
    requires Chain(r, now, w.disk, k, true) && RotationListed(r, w.disk, rotateListing)
    requires w.FileSize() == r.maxFileBytes && w.disk.Modified(Current) == now
    ensures var d := Settled(r, now, w, rotateListing).disk;
      Rotated(0) in Survivors(r, now, d) && d.At(Rotated(0)) == w.disk.At(Current)
  {
    var e := Rotating(r, w.disk);
    var end := ShiftExtendsChain(r, now, w.disk, k);
    NewestIsOld(r, w.disk);
    HoleFreeFits(r, now, e, end, false);
    YoungStays(r, now, e, rotateListing, Rotated(0));
    StaysOpened(r, now, e, rotateListing, end);
  }

  lemma {:induction false} StaysOpened(r: Retention, now: int, e: Disk, listing: seq<Name>, k: nat)
    requires Accepted(r) && e.Valid() && Enumerates(listing, e.names.Keys) && Chain(r, now, e, k, false)
    requires Cleanup(r, now, e, listing).Valid() && Rotated(0) in Cleanup(r, now, e, listing).Logs()
    ensures var left, d := Cleanup(r, now, e, listing), OpenCurrent(Cleanup(r, now, e, listing), now).disk;
      Rotated(0) in d.Logs() && d.At(Rotated(0)) == left.At(Rotated(0))
  {
    CleanupBounds(r, now, e, listing);
    ChainHas(r, now, e, k, false);
    FreshLogs(now, Cleanup(r, now, e, listing));
  }

  lemma {:induction false} NewestIsOld(r: Retention, d: Disk)
    requires Slots(r) > 0 && d.Valid() && Current in d.names
    ensures var e := Rotating(r, d);
      e.Valid() && Rotated(0) in e.Logs() && e.At(Rotated(0)) == d.At(Current)
  {
    ShiftIsExact(d.names, Slots(r));
    ShiftIsValid(d, Slots(r));
    assert Origin(Rotated(0), Slots(r)) == Current;
  }

  lemma {:induction false} FullFileIsFitted(r: Retention, now: int, w: World, rotateListing: seq<Name>, k: nat)
    requires Accepted(r) && HoleFree(r) && r.maxFiles > 1 && w.Valid() && w.HandleIsCurrent()
    requires Chain(r, now, w.disk, k, true) && RotationListed(r, w.disk, rotateListing)
    requires NeedsRotation(r, now, w)
    ensures var d := Settled(r, now, w, rotateListing).disk;
      Fits(r, d, d.Logs())
  {
    ShiftIsValid(w.disk, Slots(r));
    var end := RotateKeepsSuffix(r, now, w, rotateListing, k);
    HoleFreeFits(r, now, Settled(r, now, w, rotateListing).disk, end, true);
  }

  /** Without one, nothing is left of it, nor of anything before it: the one log is
    empty. */
  lemma {:induction false} FullFileIsLost(r: Retention, w: World, c: Call, k: nat, stream: seq<byte>)
    requires Accepted(r) && r.maxFiles == 1 && w.Valid() && Holds(r, w, k, stream)
    requires c.Write? && Possible(r, w, c) && 0 < |c.buf| <= r.maxFileBytes
    requires SizeBefore(r, w, |c.buf|) + |c.buf| == r.maxFileBytes
    ensures var d := After(r, w, c).disk;
      d.Logs() == {Current} && d.At(Current).bytes == [] && !EndsALog(d, c.buf)
  {
    RecordAppended(r, w, c);
    FullFileIsReplaced(r, w, c);
    HoleFreeIsClosing(r, w, c);
    CallGuarantees(r, w, c);
    var end := CallKeepsSuffix(r, w, c, k, stream);
    assert forall n :: n in After(r, w, c).disk.Logs() <==> n == Current;
  }

  // ------------------------------------------------------------------------
  // Everything, while there is room
  // ------------------------------------------------------------------------

  /** Room for `max_files` files of which the current one is not full. */
  predicate Roomy(r: Retention) {
    r.maxTotalBytes == U64_MAX || r.maxTotalBytes >= r.maxFiles * r.maxFileBytes - 1
  }

  ghost predicate Since(d: Disk, start: int)
    requires d.Valid()
  {
    forall n | n in d.Logs() :: start <= d.Modified(n)
  }

  /** A pass over young files with room for all of them is idle. */
  lemma {:induction false} PassIsIdle(r: Retention, now: int, d: Disk, listing: seq<Name>, k: nat, hasCurrent: bool,
                                      start: int)
    requires Accepted(r) && Roomy(r) && d.Valid() && Chain(r, now, d, k, hasCurrent)
    requires Enumerates(listing, d.names.Keys)
    requires hasCurrent ==> Current in d.names && d.Size(Current) < r.maxFileBytes
    requires Since(d, start) && Cutoff(r, now) <= start
    ensures Cleanup(r, now, d, listing) == d
  {
    ChainFits(r, now, d, k, hasCurrent);
    CleanupIdleIff(r, now, d, listing);
  }

  /** The log holds all of `stream`, unless every slot is taken. */
  ghost predicate HoldsAll(r: Retention, w: World, k: nat, stream: seq<byte>, start: int)
    requires w.Valid()
  {
    && Holds(r, w, k, stream) && Since(w.disk, start)
    && (k == Slots(r) || Content(w.disk, k, true) == stream)
  }

  /** A shift loses no bytes while there is a free slot. */
  lemma {:induction false} ShiftLosesNothing(r: Retention, now: int, d: Disk, k: nat, start: int)
    requires Accepted(r) && Slots(r) > 0 && d.Valid() && Chain(r, now, d, k, true) && Since(d, start)
    ensures var e, end := Rotating(r, d), if k < Slots(r) then k + 1 else Slots(r);
      && e.Valid() && Chain(r, now, e, end, false) && Since(e, start)
      && (forall i | 0 <= i < end :: Rotated(i) in e.names)
      && (forall i | 0 <= i < k :: Rotated(i) in d.names) && Current in d.names
      && (k < Slots(r) ==> Content(e, end, false) == Content(d, k, true))
  {
    var e, slots, end := Rotating(r, d), Slots(r), if k < Slots(r) then k + 1 else Slots(r);
    ShiftIsExact(d.names, slots);
    ShiftIsValid(d, slots);
    ShiftedIsChain(r, now, d, e, k, end);
    ShiftedLogs(r, now, d, e, k, end);
    ChainHas(r, now, d, k, true);
    ChainHas(r, now, e, end, false);
    ShiftedFiles(d, e, slots, end);
    if k < slots {
      ChainBytesShift(d, e, k);
    }
  }

  lemma {:induction false} RotateLosesNothing(r: Retention, now: int, w: World, listing: seq<Name>, k: nat, start: int)
    returns (end: nat)
    requires Accepted(r) && Roomy(r) && w.Valid() && Chain(r, now, w.disk, k, true) && Since(w.disk, start)
    requires RotationListed(r, w.disk, listing) && Cutoff(r, now) <= start <= now
    ensures var w' := Rotate(r, now, w, listing);
      w'.HandleIsCurrent() && w'.FileSize() == 0 && Extends(r, now, w.disk, w'.disk, k, end, start)
  {
    RotateIsFresh(r, now, w, listing);
    ChainHas(r, now, w.disk, k, true);
    if Slots(r) == 0 {
      end := RotateKeepsSuffix(r, now, w, listing, k);
      assert forall n :: n in Rotate(r, now, w, listing).disk.Logs() <==> n == Current;
    } else {
      ShiftLosesNothing(r, now, w.disk, k, start);
      end := if k < Slots(r) then k + 1 else Slots(r);
      PassIsIdle(r, now, Rotating(r, w.disk), listing, end, false, start);
      OpenLosesNothing(r, now, Rotating(r, w.disk), end, start);
    }
  }

  /** The chain `e` holds what the chain `d` held, or every slot is taken. */
  ghost predicate Extends(r: Retention, now: int, d: Disk, e: Disk, k: nat, end: nat, start: int)
    requires d.Valid() && e.Valid()
  {
    && Chain(r, now, e, end, true) && Since(e, start)
    && (forall i | 0 <= i < end :: Rotated(i) in e.names) && Current in e.names
    && (forall i | 0 <= i < k :: Rotated(i) in d.names) && Current in d.names
    && (end == Slots(r) || (k < Slots(r) && Content(e, end, true) == Content(d, k, true)))
  }

  lemma {:induction false} OpenLosesNothing(r: Retention, now: int, e: Disk, k: nat, start: int)
    requires Accepted(r) && e.Valid() && Chain(r, now, e, k, false) && Since(e, start) && start <= now
    ensures var d := OpenCurrent(e, now).disk;
      && Chain(r, now, d, k, true) && Since(d, start)
      && (forall i | 0 <= i < k :: Rotated(i) in e.names && Rotated(i) in d.names) && Current in d.names
      && Content(d, k, true) == Content(e, k, false)
  {
    ChainHas(r, now, e, k, false);
    FreshKeepsChain(r, now, e, k);
    FreshLogs(now, e);
  }

  lemma {:induction false} MaintainLosesNothing(r: Retention, now: int, w: World, rotateListing: seq<Name>,
                                                listing: seq<Name>, k: nat, start: int)
    returns (end: nat)
    requires Accepted(r) && Roomy(r) && w.Valid() && w.HandleIsCurrent() && Chain(r, now, w.disk, k, true)
    requires Since(w.disk, start)
    requires MaintenanceListed(r, now, w, rotateListing, listing) && Cutoff(r, now) <= start <= now
    ensures var w' := Maintain(r, now, w, rotateListing, listing);
      w'.HandleIsCurrent() && w'.FileSize() < r.maxFileBytes && Extends(r, now, w.disk, w'.disk, k, end, start)
  {
    ChainHas(r, now, w.disk, k, true);
    end := k;
    if NeedsRotation(r, now, w) {
      end := RotateLosesNothing(r, now, w, rotateListing, k, start);
    }
    PassIsIdle(r, now, Settled(r, now, w, rotateListing).disk, listing, end, true, start);
  }

  /** A chain has one length. */
  lemma {:induction false} ChainLength(r: Retention, clock: int, now: int, d: Disk, j: nat, k: nat)
    requires d.Valid() && Chain(r, clock, d, j, true) && Chain(r, now, d, k, true)
    ensures j == k
  {
    assert j < k ==> Rotated(j) in d.Logs();
    assert k < j ==> Rotated(k) in d.Logs();
  }

  lemma {:induction false} WriteLosesNothing(r: Retention, w: World, c: Call, k: nat, stream: seq<byte>, start: int)
    returns (end: nat)
    requires Accepted(r) && Roomy(r) && w.Valid() && HoldsAll(r, w, k, stream, start) && Possible(r, w, c)
    requires c.Write? && c.buf != [] && Cutoff(r, c.now) <= start <= w.clock
    ensures var w' := After(r, w, c);
      && Chain(r, c.now, w'.disk, end, true) && Since(w'.disk, start)
      && (forall i | 0 <= i < end :: Rotated(i) in w'.disk.names) && Current in w'.disk.names
      && (end == Slots(r) || Content(w'.disk, end, true) == stream + Added(r, w, c))
  {
    ChainLater(r, w.clock, c.now, w.disk, k, true);
    var mid, roomy := k, MadeRoom(r, c.now, w, |c.buf|, c.roomListing);
    if WriteRotates(r, w, |c.buf|) {
      mid := RotateLosesNothing(r, c.now, w, c.roomListing, k, start);
    }
    var bytes := c.buf[..Accepts(r, roomy, |c.buf|)];
    AppendKeepsChain(r, c.now, roomy, bytes, mid);
    AppendKeepsSince(c.now, roomy, bytes, start);
    end := MaintainLosesNothing(r, c.now, Appended(r, c.now, w, c.buf, c.roomListing), c.rotateListing, c.listing, mid,
                                start);
  }

  lemma {:induction false} AppendKeepsSince(now: int, w: World, bytes: seq<byte>, start: int)
    requires w.Valid() && w.FileSize() + |bytes| <= U64_MAX && Since(w.disk, start) && start <= now
    ensures Since(Append(now, w, bytes).disk, start)
  {
    var d := Append(now, w, bytes).disk;
    forall n | n in d.Logs()
      ensures start <= d.Modified(n)
    {
      assert n in w.disk.Logs();
    }
  }

  lemma {:induction false} CallLosesNothing(r: Retention, w: World, c: Call, k: nat, stream: seq<byte>, start: int)
    returns (end: nat)
    requires Accepted(r) && Roomy(r) && w.Valid() && HoldsAll(r, w, k, stream, start) && Possible(r, w, c)
    requires Cutoff(r, After(r, w, c).clock) <= start <= w.clock
    ensures HoldsAll(r, After(r, w, c), end, stream + Added(r, w, c), start)
  {
    HoleFreeIsClosing(r, w, c);
    end := CallKeepsSuffix(r, w, c, k, stream);
    if c.Write? && c.buf == [] {
      ChainLength(r, w.clock, w.clock, w.disk, k, end);
      assert stream + Added(r, w, c) == stream;
    } else if c.Write? {
      var same := WriteLosesNothing(r, w, c, k, stream, start);
      ChainLength(r, After(r, w, c).clock, c.now, After(r, w, c).disk, end, same);
    } else {
      ChainLater(r, w.clock, c.now, w.disk, k, true);
      var same := MaintainLosesNothing(r, c.now, w, c.rotateListing, c.listing, k, start);
      ChainLength(r, After(r, w, c).clock, c.now, After(r, w, c).disk, end, same);
      assert stream + Added(r, w, c) == stream;
    }
  }

  lemma {:induction false} NothingYet(r: Retention, found: Disk, now: int, first: seq<Name>) returns (k: nat)
    requires Accepted(r) && Roomy(r) && found.Valid() && found.Logs() == {} && Enumerates(first, found.names.Keys)
    ensures HoldsAll(r, OpenCurrent(Cleanup(r, now, found, first), now), k, [], now)
  {
    k := LogHoldsTheEnd(r, found, now, first, []);
    var left := Cleanup(r, now, found, first);
    CleanupBounds(r, now, found, first);
    FreshLogs(now, left);
    assert left.Logs() == {};
  }

  /** With room for `max_files` files, and until a file can have expired, the log holds
    everything it ever accepted, or all its slots are taken. */
  lemma {:induction false} NothingLostWhileThereIsRoom(r: Retention, found: Disk, now: int, first: seq<Name>,
                                                       calls: seq<Call>) returns (k: nat)
    requires Accepted(r) && Roomy(r) && found.Valid() && found.Logs() == {}
    requires Enumerates(first, found.names.Keys)
    requires Run(r, OpenCurrent(Cleanup(r, now, found, first), now), calls)
    requires Cutoff(r, Reached(r, OpenCurrent(Cleanup(r, now, found, first), now), calls).clock) <= now
    ensures var w := OpenCurrent(Cleanup(r, now, found, first), now);
      HoldsAll(r, Reached(r, w, calls), k, Stream(r, w, calls), now)
  {
    var w := OpenCurrent(Cleanup(r, now, found, first), now);
    if calls == [] {
      k := NothingYet(r, found, now, first);
    } else {
      var prefix, c := calls[..|calls| - 1], calls[|calls| - 1];
      RunKeepsHandle(r, w, prefix);
      CallGuarantees(r, Reached(r, w, prefix), c);
      k := NothingLostWhileThereIsRoom(r, found, now, first, prefix);
      k := CallLosesNothing(r, Reached(r, w, prefix), c, k, Stream(r, w, prefix), now);
    }
  }
}
