/** The log under a clock that never returns the same reading to two calls, when all
  logs together may be no longer than one (crates/keyro-core/src/logging.rs). */
module LogOneFile {
  import opened LogNames
  import opened LogDisk
  import opened LogCleanup
  import opened LogGuarantees
  import opened LogRotation
  import opened LogStream
  import opened LogStrict

  /** All logs together may be as long as one full file, and no longer. */
  predicate OneFileOfBytes(r: Retention) {
    r.maxFiles > 2 && r.maxTotalBytes == r.maxFileBytes < U64_MAX
  }

  /** There is at most one rotated file, in slot 0, and it holds bytes. */
  ghost predicate Few(w: World)
    requires w.Valid()
  {
    forall j: nat | Rotated(j) in w.disk.names :: j == 0 && w.disk.Size(Rotated(0)) > 0
  }

  /** There is at most one, and the next pass keeps it only if it is full and the
    current file is empty. */
  ghost predicate Crowded(r: Retention, w: World)
    requires w.Valid()
  {
    forall j: nat | Rotated(j) in w.disk.names ::
      j == 0 && (w.disk.Size(Rotated(0)) == r.maxFileBytes || w.FileSize() + w.disk.Size(Rotated(0)) > r.maxFileBytes)
  }

  /** Between calls: at most one rotated file, and only a full one below an empty file. */
  ghost predicate OneFile(r: Retention, w: World)
    requires w.Valid()
  {
    forall j: nat | Rotated(j) in w.disk.names ::
      j == 0 && w.disk.Size(Rotated(0)) == r.maxFileBytes && w.FileSize() == 0
  }

  /** Two logs that are too long together are not both kept. */
  lemma {:induction false} NotBoth(r: Retention, now: int, d: Disk, listing: seq<Name>, m: Name, n: Name)
    requires Accepted(r) && r.maxTotalBytes < U64_MAX && d.Valid() && Enumerates(listing, d.names.Keys)
    requires m in d.Logs() && n in d.Logs() && m != n && d.Size(m) + d.Size(n) > r.maxTotalBytes
    ensures m !in Cleanup(r, now, d, listing).names || n !in Cleanup(r, now, d, listing).names
  {
    var e := Cleanup(r, now, d, listing);
    CleanupBounds(r, now, d, listing);
    if m in e.names && n in e.names {
      TotalRemove(e, e.Logs(), m);
      TotalRemove(e, e.Logs() - {m}, n);
    }
  }

  /** After the shift there are at most two files, in slots 0 and 1. */
  lemma {:induction false} ShiftedFew(r: Retention, w: World)
    requires Slots(r) > 1 && w.Valid() && w.HandleIsCurrent() && Few(w)
    ensures var d, e := w.disk, Rotating(r, w.disk);
      && e.Valid() && TwoAtMost(e) && Current !in e.names
      && Rotated(0) in e.names && e.At(Rotated(0)) == d.At(Current)
      && (Rotated(1) in e.names <==> Rotated(0) in d.names)
      && (Rotated(1) in e.names ==> e.At(Rotated(1)) == d.At(Rotated(0)))
  {
    ShiftIsExact(w.disk.names, Slots(r));
    ShiftIsValid(w.disk, Slots(r));
    assert Origin(Rotated(0), Slots(r)) == Current && Origin(Rotated(1), Slots(r)) == Rotated(0);
    forall j: nat | Rotated(j) in Rotating(r, w.disk).names
      ensures j <= 1
    {
      assert Origin(Rotated(j), Slots(r)) in w.disk.names;
    }
  }

  lemma {:induction false} ShiftedOwn(r: Retention, w: World)
    requires Slots(r) > 1 && Orderly(w)
    ensures forall n | n in Rotating(r, w.disk).Logs() :: !n.Other?
  {
    ShiftIsExact(w.disk.names, Slots(r));
    forall n | n in Rotating(r, w.disk).Logs()
      ensures !n.Other?
    {
      assert n.Other? ==> n in w.disk.Logs();
    }
  }

  /** The older of the two goes: it has expired, or there is no room next to the newer. */
  lemma {:induction false} OlderGoes(r: Retention, now: int, w: World, listing: seq<Name>)
    requires Accepted(r) && OneFileOfBytes(r) && Orderly(w) && Few(w) && RotationListed(r, w.disk, listing)
    requires w.FileSize() == r.maxFileBytes || w.disk.Modified(Current) < Cutoff(r, now)
    ensures Rotated(1) !in Cleanup(r, now, Rotating(r, w.disk), listing).names
  {
    var e := Rotating(r, w.disk);
    ShiftedFew(r, w);
    CleanupBounds(r, now, e, listing);
    var left := Cleanup(r, now, e, listing);
    if Rotated(1) in left.names {
      assert Rotated(1) in left.Logs() && Rotated(0) in e.Logs();
      assert w.disk.Modified(Rotated(0)) <= w.disk.Modified(Current);
      ShiftedOwn(r, w);
      NewerOfTwoStays(r, now, e, listing);
      NotBoth(r, now, e, listing, Rotated(0), Rotated(1));
    }
  }

  lemma {:induction false} NewerOfTwoStays(r: Retention, now: int, d: Disk, listing: seq<Name>)
    requires Accepted(r) && d.Valid() && Enumerates(listing, d.names.Keys) && TwoAtMost(d) && Current !in d.names
    requires Rotated(0) in Survivors(r, now, d) && forall n | n in d.Logs() :: !n.Other?
    requires Rotated(1) in d.names ==> d.Modified(Rotated(1)) < d.Modified(Rotated(0))
    ensures Rotated(0) in Cleanup(r, now, d, listing).names
  {
    var e := Cleanup(r, now, d, listing);
    CleanupBounds(r, now, d, listing);
    NoneNewer(d, e);
    OneFits(r, d, Rotated(0));
    GreedyIff(r, now, d, listing, Rotated(0));
  }

  lemma {:induction false} NoneNewer(d: Disk, e: Disk)
    requires d.Valid() && e.Valid() && TwoAtMost(d) && Current !in d.names && Rotated(0) in d.names
    requires Rotated(1) in d.names ==> d.Modified(Rotated(1)) < d.Modified(Rotated(0))
    requires e.inodes == d.inodes && forall n | n in e.names :: n in d.names && e.names[n] == d.names[n]
    requires forall n | n in d.Logs() :: !n.Other?
    ensures KeptBefore(d, e, Rotated(0)) == {}
  {
    forall n | n in e.Logs()
      ensures n == Rotated(0) || n == Rotated(1)
    {
      assert n in d.Logs() && n != Current;
      assert n == Rotated(n.index);
    }
  }

  lemma {:induction false} RotatedPass(r: Retention, now: int, w: World, listing: seq<Name>)
    requires Accepted(r) && OneFileOfBytes(r) && Orderly(w) && Few(w) && RotationListed(r, w.disk, listing)
    requires w.FileSize() > 0 || w.disk.Modified(Current) < Cutoff(r, now)
    requires w.FileSize() == r.maxFileBytes || w.disk.Modified(Current) < Cutoff(r, now)
      || (forall j: nat :: Rotated(j) !in w.disk.names)
    ensures var left := Cleanup(r, now, Rotating(r, w.disk), listing);
      && left.Valid() && Current !in left.names
      && forall j: nat | Rotated(j) in left.names ::
           j == 0 && left.At(Rotated(0)) == w.disk.At(Current) && w.FileSize() > 0
             && Cutoff(r, now) <= w.disk.Modified(Current)
  {
    var e := Rotating(r, w.disk);
    ShiftedFew(r, w);
    CleanupBounds(r, now, e, listing);
    var left := Cleanup(r, now, e, listing);
    if w.FileSize() == r.maxFileBytes || w.disk.Modified(Current) < Cutoff(r, now) {
      OlderGoes(r, now, w, listing);
    }
    forall j: nat | Rotated(j) in left.names
      ensures j == 0 && left.At(Rotated(0)) == w.disk.At(Current) && w.FileSize() > 0
      ensures Cutoff(r, now) <= w.disk.Modified(Current)
    {
      assert Rotated(j) in left.Logs();
    }
  }

  /** A rotation shifts at most two files, and its pass keeps the newer one at most. */
  lemma {:induction false} RotateFew(r: Retention, now: int, w: World, listing: seq<Name>)
    requires Accepted(r) && OneFileOfBytes(r) && Orderly(w) && Few(w) && w.clock <= now
    requires RotationListed(r, w.disk, listing)
    requires w.FileSize() > 0 || w.disk.Modified(Current) < Cutoff(r, now)
    requires w.FileSize() == r.maxFileBytes || w.disk.Modified(Current) < Cutoff(r, now)
      || (forall j: nat :: Rotated(j) !in w.disk.names)
    ensures ClosingRotation(r, now, w.disk)
    ensures var w' := Rotate(r, now, w, listing);
      && Orderly(w') && w'.clock == now && w'.FileSize() == 0
      && (forall i: nat | Rotated(i) in w'.disk.names :: w'.disk.Modified(Rotated(i)) <= w.clock)
      && (forall j: nat | Rotated(j) in w'.disk.names ::
            j == 0 && w'.disk.Size(Rotated(0)) == w.FileSize() > 0 && Cutoff(r, now) <= w.disk.Modified(Current))
  {
    RotateOrders(r, now, w, listing);
    RotateIsFresh(r, now, w, listing);
    ShiftedFew(r, w);
    RotatedPass(r, now, w, listing);
    var left := Cleanup(r, now, Rotating(r, w.disk), listing);
    FreshLogs(now, left);
    assert forall j: nat | Rotated(j) in left.names :: Rotated(j) in left.Logs();
  }

  /** The last pass of a call. */
  lemma {:induction false} LastPassFew(r: Retention, now: int, w: World, listing: seq<Name>)
    requires Accepted(r) && OneFileOfBytes(r) && Orderly(w) && w.clock <= now && Crowded(r, w)
    requires w.FileSize() < r.maxFileBytes
    requires Survives(r, now, w.disk, Current) && Enumerates(listing, w.disk.names.Keys)
    ensures Closing(r, now, w.disk)
    ensures OneFile(r, World(Cleanup(r, now, w.disk, listing), w.file, now))
  {
    var e := Cleanup(r, now, w.disk, listing);
    DescendingIsDated(r, now, w.disk);
    CleanupBounds(r, now, w.disk, listing);
    forall j: nat | Rotated(j) in e.names
      ensures j == 0 && e.Size(Rotated(0)) == r.maxFileBytes && w.FileSize() == 0
    {
      assert Rotated(j) in e.Logs();
      if w.FileSize() > 0 {
        NotBoth(r, now, w.disk, listing, Current, Rotated(0));
      }
    }
  }

  lemma {:induction false} MaintainFew(r: Retention, now: int, w: World, rotateListing: seq<Name>, listing: seq<Name>)
    requires Accepted(r) && OneFileOfBytes(r) && Orderly(w) && w.clock <= now && Few(w) && Crowded(r, w)
    requires w.FileSize() <= r.maxFileBytes
    requires MaintenanceListed(r, now, w, rotateListing, listing)
    ensures ClosingMaintenance(r, now, w, rotateListing)
    ensures OneFile(r, Maintain(r, now, w, rotateListing, listing))
  {
    if NeedsRotation(r, now, w) {
      RotateThenPass(r, now, w, rotateListing, listing);
    } else {
      LastPassFew(r, now, w, listing);
    }
  }

  lemma {:induction false} RotateThenPass(r: Retention, now: int, w: World, rotateListing: seq<Name>,
                                          listing: seq<Name>)
    requires Accepted(r) && OneFileOfBytes(r) && Orderly(w) && w.clock <= now && Few(w)
    requires w.FileSize() <= r.maxFileBytes
    requires NeedsRotation(r, now, w) && MaintenanceListed(r, now, w, rotateListing, listing)
    ensures ClosingMaintenance(r, now, w, rotateListing)
    ensures OneFile(r, Maintain(r, now, w, rotateListing, listing))
  {
    RotateFew(r, now, w, rotateListing);
    var settled := Rotate(r, now, w, rotateListing);
    RotateIsFresh(r, now, w, rotateListing);
    LastPassFew(r, now, settled, listing);
  }

  /** No call can open a hole, and each leaves one file of bytes at most. */
  lemma {:induction false} OneFileCall(r: Retention, w: World, c: Call)
    requires Accepted(r) && OneFileOfBytes(r) && Orderly(w) && OneFile(r, w) && w.FileSize() < r.maxFileBytes
    requires Possible(r, w, c) && w.clock < c.now
    ensures ClosingCall(r, w, c) && OneFile(r, After(r, w, c))
  {
    match c
    case Maintenance(now, rotateListing, listing) => MaintainFew(r, now, w, rotateListing, listing);
    case Write(buf, now, roomListing, rotateListing, listing) =>
      if buf != [] {
        AppendFew(r, w, c);
        MaintainFew(r, now, Appended(r, now, w, buf, roomListing), rotateListing, listing);
      }
  }

  lemma {:induction false} AppendFew(r: Retention, w: World, c: Call)
    requires Accepted(r) && OneFileOfBytes(r) && Orderly(w) && OneFile(r, w) && w.FileSize() < r.maxFileBytes
    requires Possible(r, w, c) && w.clock < c.now && c.Write? && c.buf != []
    ensures WriteRotates(r, w, |c.buf|) ==> ClosingRotation(r, c.now, w.disk)
    ensures var w' := Appended(r, c.now, w, c.buf, c.roomListing);
      Orderly(w') && w'.clock == c.now && Few(w') && Crowded(r, w') && w'.FileSize() <= r.maxFileBytes
  {
    StrictAppendOrders(r, w, c);
    var roomy := MadeRoom(r, c.now, w, |c.buf|, c.roomListing);
    if WriteRotates(r, w, |c.buf|) {
      RotateFew(r, c.now, w, c.roomListing);
    }
    AppendSizes(c.now, roomy, c.buf[..Accepts(r, roomy, |c.buf|)]);
  }

  lemma {:induction false} AppendSizes(now: int, w: World, bytes: seq<byte>)
    requires Orderly(w) && w.FileSize() + |bytes| <= U64_MAX
    ensures var w' := Append(now, w, bytes);
      && w'.disk.names == w.disk.names && w'.FileSize() == w.FileSize() + |bytes|
      && forall j: nat | Rotated(j) in w.disk.names :: w'.disk.Size(Rotated(j)) == w.disk.Size(Rotated(j))
  {
    forall j: nat | Rotated(j) in w.disk.names
      ensures w.disk.names[Rotated(j)] != w.file
    {
      assert Rotated(j) in w.disk.Logs() && Current in w.disk.Logs();
    }
  }

  lemma {:induction false} OneFileStep(r: Retention, w: World, c: Call, k: nat, stream: seq<byte>) returns (end: nat)
    requires Accepted(r) && OneFileOfBytes(r) && Orderly(w) && OneFile(r, w) && Holds(r, w, k, stream)
    requires Possible(r, w, c) && w.clock < c.now
    ensures Orderly(After(r, w, c)) && OneFile(r, After(r, w, c))
    ensures Holds(r, After(r, w, c), end, stream + Added(r, w, c))
  {
    StrictCallOrders(r, w, c);
    OneFileCall(r, w, c);
    end := CallKeepsSuffix(r, w, c, k, stream);
  }

  lemma {:induction false} OneFileStart(r: Retention, found: Disk, now: int, first: seq<Name>) returns (k: nat)
    requires Accepted(r) && found.Valid() && found.Logs() == {} && Enumerates(first, found.names.Keys)
    ensures var w := OpenCurrent(Cleanup(r, now, found, first), now);
      Orderly(w) && OneFile(r, w) && Holds(r, w, k, [])
  {
    var w := OpenCurrent(Cleanup(r, now, found, first), now);
    k := EmptyLogHolds(r, found, now, first);
    assert forall j: nat | Rotated(j) in w.disk.names :: Rotated(j) in w.disk.Logs();
  }

  lemma {:induction false} OneFileRun(r: Retention, w: World, calls: seq<Call>, k: nat) returns (end: nat)
    requires Accepted(r) && OneFileOfBytes(r) && Orderly(w) && OneFile(r, w) && Holds(r, w, k, [])
    requires StrictRun(r, w, calls)
    ensures Orderly(Reached(r, w, calls)) && OneFile(r, Reached(r, w, calls))
    ensures Holds(r, Reached(r, w, calls), end, Stream(r, w, calls))
  {
    if calls == [] {
      end := k;
    } else {
      var prefix, c := calls[..|calls| - 1], calls[|calls| - 1];
      end := OneFileRun(r, w, prefix, k);
      end := OneFileStep(r, Reached(r, w, prefix), c, end, Stream(r, w, prefix));
    }
  }

  /** So such a log holds the end of what it accepted, too. */
  lemma {:induction false} OneFileHoldsTheEnd(r: Retention, found: Disk, now: int, first: seq<Name>, calls: seq<Call>)
    returns (k: nat)
    requires Accepted(r) && OneFileOfBytes(r) && found.Valid() && found.Logs() == {}
    requires Enumerates(first, found.names.Keys)
    requires StrictRun(r, OpenCurrent(Cleanup(r, now, found, first), now), calls)
    ensures var w := OpenCurrent(Cleanup(r, now, found, first), now);
      && Orderly(Reached(r, w, calls)) && OneFile(r, Reached(r, w, calls))
      && Holds(r, Reached(r, w, calls), k, Stream(r, w, calls))
  {
    k := OneFileStart(r, found, now, first);
    k := OneFileRun(r, OpenCurrent(Cleanup(r, now, found, first), now), calls, k);
  }
}
