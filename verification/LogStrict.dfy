/** The log under a clock that never returns the same reading to two calls
  (crates/keyro-core/src/logging.rs): weaker settings keep it whole, and under
  settings weaker still an older, smaller file outlives a newer one. */
module LogStrict {
  import opened LogNames
  import opened LogDisk
  import opened LogCleanup
  import opened LogGuarantees
  import opened LogRotation
  import opened LogStream
  import opened LogHoles

  /** A run in which each call reads a later time than the one before. */
  ghost predicate StrictRun(r: Retention, w: World, calls: seq<Call>)
    requires Accepted(r) && w.Valid()
  {
    calls == []
    || (var prefix, c := calls[..|calls| - 1], calls[|calls| - 1];
        && StrictRun(r, w, prefix)
        && Possible(r, Reached(r, w, prefix), c) && Reached(r, w, prefix).clock < c.now)
  }

  lemma {:induction false} StrictRunIsRun(r: Retention, w: World, calls: seq<Call>)
    requires Accepted(r) && w.Valid() && StrictRun(r, w, calls)
    ensures Run(r, w, calls)
  {
    if calls != [] {
      StrictRunIsRun(r, w, calls[..|calls| - 1]);
    }
  }

  // ------------------------------------------------------------------------
  // Files of different ages
  // ------------------------------------------------------------------------

  /** The logs are those of the rotation; no two are the same file, and none is from
    after `clock`. */
  ghost predicate Apart(d: Disk, clock: int)
    requires d.Valid()
  {
    && (forall m, n | m in d.Logs() && n in d.Logs() && m != n :: d.names[m] != d.names[n])
    && (forall n | n in d.Logs() :: !n.Other? && d.Modified(n) <= clock)
  }

  /** Each rotated file is older than every one before it. */
  ghost predicate Descending(d: Disk)
    requires d.Valid()
  {
    forall i: nat, j: nat | i < j && Rotated(i) in d.names && Rotated(j) in d.names ::
      d.Modified(Rotated(j)) < d.Modified(Rotated(i))
  }

  /** No rotated file is newer than the current one; none is as new, if it holds bytes. */
  ghost predicate CurrentNewest(d: Disk)
    requires d.Valid()
  {
    Current in d.names ==>
      forall i: nat | Rotated(i) in d.names ::
        && d.Modified(Rotated(i)) <= d.Modified(Current)
        && (d.Size(Current) > 0 ==> d.Modified(Rotated(i)) < d.Modified(Current))
  }

  ghost predicate Orderly(w: World) {
    && w.Valid() && w.HandleIsCurrent()
    && Apart(w.disk, w.clock) && Descending(w.disk) && CurrentNewest(w.disk)
  }

  /** A rotation puts the current file before older ones, or before expired ones. */
  lemma {:induction false} ShiftDates(r: Retention, now: int, d: Disk, clock: int)
    requires Slots(r) > 0 && d.Valid() && Apart(d, clock) && Descending(d) && CurrentNewest(d)
    requires Current in d.names && (d.Size(Current) > 0 || d.Modified(Current) < Cutoff(r, now))
    ensures Rotating(r, d).Valid() && Dated(r, now, Rotating(r, d))
    ensures Apart(Rotating(r, d), clock) && Current !in Rotating(r, d).names
  {
    var e, slots := Rotating(r, d), Slots(r);
    ShiftIsExact(d.names, slots);
    ShiftIsValid(d, slots);
    forall n | n in e.Logs()
      ensures Origin(n, slots) in d.Logs() && e.At(n) == d.At(Origin(n, slots))
    {
    }
    ShiftApart(d, e, slots, clock);
    forall i: nat, j: nat | i < j && Rotated(i) in e.names && Rotated(j) in e.names
      && Cutoff(r, now) <= e.Modified(Rotated(j))
      ensures e.Modified(Rotated(j)) < e.Modified(Rotated(i))
    {
      SlotDates(r, now, d, e, slots, i, j);
    }
  }

  lemma {:induction false} ShiftApart(d: Disk, e: Disk, slots: nat, clock: int)
    requires d.Valid() && e.Valid() && e.inodes == d.inodes && IsShift(d.names, e.names, slots) && Apart(d, clock)
    requires forall n | n in e.Logs() :: Origin(n, slots) in d.Logs() && e.At(n) == d.At(Origin(n, slots))
    ensures Apart(e, clock)
  {
    forall m, n | m in e.Logs() && n in e.Logs() && m != n
      ensures e.names[m] != e.names[n]
    {
      assert Origin(m, slots) != Origin(n, slots);
    }
  }

  lemma {:induction false} SlotDates(r: Retention, now: int, d: Disk, e: Disk, slots: nat, i: nat, j: nat)
    requires d.Valid() && e.Valid() && e.inodes == d.inodes && IsShift(d.names, e.names, slots)
    requires Descending(d) && CurrentNewest(d) && i < j && Rotated(i) in e.names && Rotated(j) in e.names
    requires Current in d.names && (d.Size(Current) > 0 || d.Modified(Current) < Cutoff(r, now))
    requires Cutoff(r, now) <= e.Modified(Rotated(j))
    ensures e.Modified(Rotated(j)) < e.Modified(Rotated(i))
  {
    var from, to := Origin(Rotated(j), slots), Origin(Rotated(i), slots);
    assert from in d.names && to in d.names;
    assert e.At(Rotated(j)) == d.At(from) && e.At(Rotated(i)) == d.At(to);
    assert from.Rotated?;
  }

  /** A pass leaves nothing expired, so what it leaves is in order. */
  lemma {:induction false} PassOrders(r: Retention, now: int, d: Disk, listing: seq<Name>, clock: int)
    requires Accepted(r) && d.Valid() && Apart(d, clock) && Dated(r, now, d) && Enumerates(listing, d.names.Keys)
    ensures var e := Cleanup(r, now, d, listing);
      && e.Valid() && Apart(e, clock) && Descending(e)
      && (CurrentNewest(d) ==> CurrentNewest(e)) && (Current in e.names ==> Current in d.names)
  {
    var e := Cleanup(r, now, d, listing);
    CleanupBounds(r, now, d, listing);
    forall n | n in e.Logs()
      ensures n in d.Logs() && e.At(n) == d.At(n) && Survives(r, now, d, n)
    {
    }
    PartOrders(r, now, d, e, clock);
  }

  lemma {:induction false} PartOrders(r: Retention, now: int, d: Disk, e: Disk, clock: int)
    requires d.Valid() && e.Valid() && Apart(d, clock) && Dated(r, now, d)
    requires forall n | n in e.Logs() ::
      n in d.Logs() && e.names[n] == d.names[n] && e.At(n) == d.At(n) && Survives(r, now, d, n)
    ensures Apart(e, clock) && Descending(e)
    ensures CurrentNewest(d) ==> CurrentNewest(e)
  {
    assert forall i: nat | Rotated(i) in e.names :: Rotated(i) in e.Logs();
    assert Current in e.names ==> Current in e.Logs();
  }

  /** A fresh current file is as new as any. */
  lemma {:induction false} OpenOrders(e: Disk, clock: int, now: int)
    requires e.Valid() && Apart(e, clock) && Descending(e) && Current !in e.names && clock <= now
    ensures Orderly(OpenCurrent(e, now))
    ensures var d := OpenCurrent(e, now).disk;
      forall i: nat | Rotated(i) in d.names :: d.Modified(Rotated(i)) <= clock
  {
    var d := OpenCurrent(e, now).disk;
    FreshLogs(now, e);
    assert forall i: nat | Rotated(i) in d.names :: Rotated(i) in e.Logs() && d.At(Rotated(i)) == e.At(Rotated(i));
  }

  lemma {:induction false} ApartLater(d: Disk, clock: int, now: int)
    requires d.Valid() && Apart(d, clock) && clock <= now
    ensures Apart(d, now)
  {
  }

  lemma {:induction false} DescendingIsDated(r: Retention, now: int, d: Disk)
    requires d.Valid() && Descending(d)
    ensures Dated(r, now, d)
  {
  }

  /** A rotation of an orderly log at a later time, or of one written at that time. */
  lemma {:induction false} RotateOrders(r: Retention, now: int, w: World, listing: seq<Name>)
    requires Accepted(r) && Orderly(w) && w.clock <= now && RotationListed(r, w.disk, listing)
    requires w.FileSize() > 0 || w.disk.Modified(Current) < Cutoff(r, now)
    ensures Slots(r) > 0 ==> Rotating(r, w.disk).Valid() && Dated(r, now, Rotating(r, w.disk))
    ensures var w' := Rotate(r, now, w, listing);
      && Orderly(w') && w'.clock == now
      && forall i: nat | Rotated(i) in w'.disk.names :: w'.disk.Modified(Rotated(i)) <= w.clock
  {
    if Slots(r) == 0 {
      WithoutCurrentOrders(w.disk, w.clock);
      OpenOrders(Rotating(r, w.disk), w.clock, now);
    } else {
      ShiftDates(r, now, w.disk, w.clock);
      PassOrders(r, now, Rotating(r, w.disk), listing, w.clock);
      OpenOrders(Cleanup(r, now, Rotating(r, w.disk), listing), w.clock, now);
    }
  }

  lemma {:induction false} WithoutCurrentOrders(d: Disk, now: int)
    requires d.Valid() && Apart(d, now) && Descending(d)
    ensures var e := d.Without({Current});
      e.Valid() && Apart(e, now) && Descending(e) && Current !in e.names
  {
    assert forall n | n in d.Without({Current}).Logs() :: n in d.Logs();
  }

  lemma {:induction false} MaintainOrders(r: Retention, now: int, w: World, rotateListing: seq<Name>,
                                          listing: seq<Name>)
    requires Accepted(r) && Orderly(w) && w.clock <= now
    requires MaintenanceListed(r, now, w, rotateListing, listing)
    ensures RoomAboveLast(r) ==> ClosingMaintenance(r, now, w, rotateListing)
    ensures Orderly(Maintain(r, now, w, rotateListing, listing))
    ensures Maintain(r, now, w, rotateListing, listing).clock == now
  {
    if NeedsRotation(r, now, w) {
      RotateOrders(r, now, w, rotateListing);
    } else {
      ApartLater(w.disk, w.clock, now);
    }
    var settled := Settled(r, now, w, rotateListing);
    DescendingIsDated(r, now, settled.disk);
    PassOrders(r, now, settled.disk, listing, now);
    MaintainGuarantees(r, now, w, rotateListing, listing);
  }

  /** What is appended is newer than every rotated file. */
  lemma {:induction false} AppendOrders(now: int, w: World, bytes: seq<byte>)
    requires Orderly(w) && w.FileSize() + |bytes| <= U64_MAX && w.clock <= now
    requires forall i: nat | Rotated(i) in w.disk.names :: w.disk.Modified(Rotated(i)) < now
    ensures Orderly(Append(now, w, bytes)) && Append(now, w, bytes).clock == now
  {
  }

  /** A call at a later time keeps an orderly log orderly, and none of its passes can
    open a hole. */
  lemma {:induction false} StrictCallOrders(r: Retention, w: World, c: Call)
    requires Accepted(r) && Orderly(w) && Possible(r, w, c) && w.clock < c.now
    ensures RoomAboveLast(r) ==> ClosingCall(r, w, c)
    ensures Orderly(After(r, w, c))
  {
    match c
    case Maintenance(now, rotateListing, listing) => MaintainOrders(r, now, w, rotateListing, listing);
    case Write(buf, now, roomListing, rotateListing, listing) =>
      if buf != [] {
        StrictAppendOrders(r, w, c);
        MaintainOrders(r, now, Appended(r, now, w, buf, roomListing), rotateListing, listing);
      }
  }

  lemma {:induction false} StrictAppendOrders(r: Retention, w: World, c: Call)
    requires Accepted(r) && Orderly(w) && Possible(r, w, c) && w.clock < c.now
    requires c.Write? && c.buf != []
    ensures RoomAboveLast(r) && WriteRotates(r, w, |c.buf|) ==> ClosingRotation(r, c.now, w.disk)
    ensures var w' := Appended(r, c.now, w, c.buf, c.roomListing); Orderly(w') && w'.clock == c.now
  {
    var roomy := MadeRoom(r, c.now, w, |c.buf|, c.roomListing);
    if WriteRotates(r, w, |c.buf|) {
      RotateOrders(r, c.now, w, c.roomListing);
    } else {
      assert forall i: nat | Rotated(i) in w.disk.names :: Rotated(i) in w.disk.Logs();
    }
    AppendOrders(c.now, roomy, c.buf[..Accepts(r, roomy, |c.buf|)]);
  }

  /** From a directory without logs, after any run under such a clock, and with room for
    all rotated files but the oldest, the log holds the end of what it accepted. */
  lemma {:induction false} StrictLogHoldsTheEnd(r: Retention, found: Disk, now: int, first: seq<Name>, calls: seq<Call>)
    returns (k: nat)
    requires Accepted(r) && RoomAboveLast(r) && found.Valid() && found.Logs() == {}
    requires Enumerates(first, found.names.Keys)
    requires StrictRun(r, OpenCurrent(Cleanup(r, now, found, first), now), calls)
    ensures var w := OpenCurrent(Cleanup(r, now, found, first), now);
      Orderly(Reached(r, w, calls)) && Holds(r, Reached(r, w, calls), k, Stream(r, w, calls))
  {
    var w := OpenCurrent(Cleanup(r, now, found, first), now);
    if calls == [] {
      k := EmptyLogHolds(r, found, now, first);
    } else {
      var prefix, c := calls[..|calls| - 1], calls[|calls| - 1];
      k := StrictLogHoldsTheEnd(r, found, now, first, prefix);
      StrictCallOrders(r, Reached(r, w, prefix), c);
      k := CallKeepsSuffix(r, Reached(r, w, prefix), c, k, Stream(r, w, prefix));
    }
  }

  lemma {:induction false} EmptyLogHolds(r: Retention, found: Disk, now: int, first: seq<Name>) returns (k: nat)
    requires Accepted(r) && found.Valid() && found.Logs() == {} && Enumerates(first, found.names.Keys)
    ensures var w := OpenCurrent(Cleanup(r, now, found, first), now);
      Orderly(w) && Holds(r, w, k, [])
  {
    var left := Cleanup(r, now, found, first);
    CleanupBounds(r, now, found, first);
    assert left.Logs() == {};
    assert forall i: nat :: Rotated(i) !in left.names by {
      assert forall i: nat :: Rotated(i) !in left.Logs();
    }
    OpenOrders(left, now, now);
    NewLogHolds(r, found, now, first);
    k := 0;
  }
}
