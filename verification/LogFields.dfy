/** What the calls to the log do, said on file names, sizes and times alone
  (crates/keyro-core/src/logging.rs). */
module LogFields {
  import opened LogNames
  import opened LogDisk
  import opened LogCleanup
  import opened LogGuarantees
  import opened LogRotation

  // ------------------------------------------------------------------------
  // A pass
  // ------------------------------------------------------------------------

  /** A file whose name does not start or does not end as those of the logs stays. */
  lemma {:induction false} OthersStay(r: Retention, now: int, d: Disk, listing: seq<Name>, n: Name)
    requires Accepted(r) && d.Valid() && Enumerates(listing, d.names.Keys) && n in d.names
    requires !("keyro-core." <= Text(n)) || !(|Text(n)| >= 4 && Text(n)[|Text(n)| - 4..] == ".log")
    ensures n in Cleanup(r, now, d, listing).names && Cleanup(r, now, d, listing).names[n] == d.names[n]
  {
    LogsHaveLogNames(n);
    CleanupBounds(r, now, d, listing);
  }

  lemma {:induction false} LogsHaveLogNames(n: Name)
    ensures IsKeyroLog(n) <==> "keyro-core." <= Text(n) && |Text(n)| >= 4 && Text(n)[|Text(n)| - 4..] == ".log"
  {
    KeyroLogByText(n);
    assert "keyro-core." <= "keyro-core.log" && "keyro-core.log"[10..] == ".log";
  }

  /** A log whose name starts and ends so, of any kind, goes if it is too old or too big;
    the current file does not go otherwise. */
  lemma {:induction false} LogsByAgeAndSize(r: Retention, now: int, d: Disk, listing: seq<Name>, n: Name)
    requires Accepted(r) && d.Valid() && Enumerates(listing, d.names.Keys) && n in d.names
    requires "keyro-core." <= Text(n) && |Text(n)| >= 4 && Text(n)[|Text(n)| - 4..] == ".log"
    ensures var file, left := d.inodes[d.names[n]], Cleanup(r, now, d, listing);
      && (file.modified < now - r.maxAge || |file.bytes| > r.maxFileBytes ==> n !in left.names)
      && (n in left.names ==> left.names[n] == d.names[n])
      && (n == Current ==> (n in left.names <==> file.modified >= now - r.maxAge && |file.bytes| <= r.maxFileBytes))
  {
    LogsHaveLogNames(n);
    CleanupBounds(r, now, d, listing);
    assert n in d.Logs();
    assert n in Cleanup(r, now, d, listing).Logs() <==> n in Cleanup(r, now, d, listing).names;
  }

  /** The current file, and other logs that are left and at least as new as `n`. */
  ghost function NewerLeft(d: Disk, left: Disk, n: Name): set<Name>
    requires d.Valid() && n in d.names
  {
    set m | m in left.names && m in d.names && m != n
      && "keyro-core." <= Text(m) && |Text(m)| >= 4 && Text(m)[|Text(m)| - 4..] == ".log"
      && (m == Current || d.inodes[d.names[m]].modified >= d.inodes[d.names[n]].modified)
  }

  lemma {:induction false} NewerLeftAre(r: Retention, now: int, d: Disk, listing: seq<Name>, n: Name)
    requires Accepted(r) && d.Valid() && Enumerates(listing, d.names.Keys) && n in d.names
    ensures var left := Cleanup(r, now, d, listing); left.Valid() && NewerLeft(d, left, n) == KeptBefore(d, left, n)
  {
    var left := Cleanup(r, now, d, listing);
    CleanupBounds(r, now, d, listing);
    forall m
      ensures m in NewerLeft(d, left, n) <==> m in KeptBefore(d, left, n)
    {
      LogsHaveLogNames(m);
    }
  }

  /** Any other log that is young and small enough goes exactly if the current file and
    the logs left that are at least as new leave no room for it. */
  lemma {:induction false} LogsByRoom(r: Retention, now: int, d: Disk, listing: seq<Name>, n: Name)
    requires Accepted(r) && d.Valid() && Enumerates(listing, d.names.Keys) && n in d.names && n != Current
    requires "keyro-core." <= Text(n) && |Text(n)| >= 4 && Text(n)[|Text(n)| - 4..] == ".log"
    requires d.inodes[d.names[n]].modified >= now - r.maxAge && |d.inodes[d.names[n]].bytes| <= r.maxFileBytes
    ensures var left := Cleanup(r, now, d, listing);
      var newer := NewerLeft(d, left, n);
      && newer <= d.names.Keys
      && (n in left.names <==>
            && |newer| + 1 <= r.maxFiles
            && (r.maxTotalBytes < 0xFFFF_FFFF_FFFF_FFFF ==>
                  TotalBytes(d, newer) + |d.inodes[d.names[n]].bytes| <= r.maxTotalBytes))
  {
    LogsHaveLogNames(n);
    NewerLeftAre(r, now, d, listing, n);
    GreedyIff(r, now, d, listing, n);
    var newer := NewerLeft(d, Cleanup(r, now, d, listing), n);
    TotalAdd(d, newer, n);
  }

  /** Opening goes on with the current file found, if it is young and small enough, and
    with a new one otherwise. */
  lemma {:induction false} OpeningByField(r: Retention, now: int, found: Disk, listing: seq<Name>)
    requires Accepted(r) && found.Valid() && Enumerates(listing, found.names.Keys)
    ensures var left := Cleanup(r, now, found, listing);
      && left.Valid()
      && var w := OpenCurrent(left, now);
      if Current in found.names && found.inodes[found.names[Current]].modified >= now - r.maxAge
         && |found.inodes[found.names[Current]].bytes| <= r.maxFileBytes
      then w.disk == left && w.file == found.names[Current]
      else
        && w.file == found.next
        && w.disk == Disk(left.names[Current := found.next], found.inodes[found.next := Inode([], now)], found.next + 1)
  {
    CleanupBounds(r, now, found, listing);
  }

  // ------------------------------------------------------------------------
  // A rotation
  // ------------------------------------------------------------------------

  /** The directory between the renames and the pass. */
  lemma {:induction false} RenamedByField(r: Retention, d: Disk)
    requires Accepted(r) && d.Valid() && Current in d.names
    ensures var e := Rotating(r, d);
      && e.Valid() && e.inodes == d.inodes && e.next == d.next
      && Current !in e.names
      && (r.maxFiles > 1 ==> Rotated(0) in e.names && e.names[Rotated(0)] == d.names[Current])
      && (forall i: nat | 0 < i < r.maxFiles - 1 ::
            && (Rotated(i) in e.names <==> Rotated(i - 1) in d.names)
            && (Rotated(i) in e.names ==> e.names[Rotated(i)] == d.names[Rotated(i - 1)]))
      && (forall n: Name | n.Other? || (n.Rotated? && n.index >= r.maxFiles - 1) ::
            && (n in e.names <==> n in d.names)
            && (n in e.names ==> e.names[n] == d.names[n]))
  {
    if r.maxFiles > 1 {
      ShiftIsExact(d.names, r.maxFiles - 1);
      ShiftIsValid(d, r.maxFiles - 1);
      var e := Rotating(r, d);
      assert Origin(Rotated(0), r.maxFiles - 1) == Current;
      forall i: nat | 0 < i < r.maxFiles - 1
        ensures Rotated(i) in e.names <==> Rotated(i - 1) in d.names
        ensures Rotated(i) in e.names ==> e.names[Rotated(i)] == d.names[Rotated(i - 1)]
      {
        assert Origin(Rotated(i), r.maxFiles - 1) == Rotated(i - 1);
      }
    }
  }

  /** After the rotation the handle is a new, empty current file. Every other entry is one
    the renames made, and no file has changed. */
  lemma {:induction false} RotationByField(r: Retention, now: int, w: World, listing: seq<Name>)
    requires Accepted(r) && w.Valid() && w.HandleIsCurrent() && RotationListed(r, w.disk, listing)
    ensures var e, w' := Rotating(r, w.disk), Rotate(r, now, w, listing);
      && w'.file == w.disk.next && w'.disk.next == w.disk.next + 1 && w'.clock == now
      && Current in w'.disk.names && w'.disk.names[Current] == w'.file
      && w'.disk.inodes == w.disk.inodes[w.disk.next := Inode([], now)]
      && (forall n | n in w'.disk.names && n != Current :: n in e.names && w'.disk.names[n] == e.names[n])
  {
    RenamedByField(r, w.disk);
    if r.maxFiles > 1 {
      CleanupBounds(r, now, Rotating(r, w.disk), listing);
    }
  }

  /** Where the entries of a directory are from, after at least one rotation. */
  ghost predicate Shifted(r: Retention, before: map<Name, InodeId>, after: map<Name, InodeId>) {
    forall n | n in after && n != Current ::
      if n.Other? || n.index >= r.maxFiles - 1 then n in before && after[n] == before[n]
      else if n.index == 0 then Current in before && after[n] == before[Current]
      else Rotated(n.index - 1) in before && after[n] == before[Rotated(n.index - 1)]
  }

  lemma {:induction false} RotationShifts(r: Retention, now: int, w: World, listing: seq<Name>)
    requires Accepted(r) && w.Valid() && w.HandleIsCurrent() && RotationListed(r, w.disk, listing)
    ensures Shifted(r, w.disk.names, Rotate(r, now, w, listing).disk.names)
  {
    RenamedByField(r, w.disk);
    RotationByField(r, now, w, listing);
    var e, w' := Rotating(r, w.disk), Rotate(r, now, w, listing);
    forall n | n in w'.disk.names && n != Current
      ensures if n.Other? || n.index >= r.maxFiles - 1 then n in w.disk.names && w'.disk.names[n] == w.disk.names[n]
              else if n.index == 0 then w'.disk.names[n] == w.disk.names[Current]
              else Rotated(n.index - 1) in w.disk.names && w'.disk.names[n] == w.disk.names[Rotated(n.index - 1)]
    {
      assert n in e.names && w'.disk.names[n] == e.names[n];
      assert n.Rotated? ==> n == Rotated(n.index);
    }
  }

  // ------------------------------------------------------------------------
  // Maintenance
  // ------------------------------------------------------------------------

  /** No file has changed, and every entry is as it was, or gone. */
  ghost predicate OnlyGone(before: Disk, after: Disk) {
    && after.inodes == before.inodes
    && forall n | n in after.names :: n in before.names && after.names[n] == before.names[n]
  }

  lemma {:induction false} PassOnlyRemoves(r: Retention, now: int, w: World, listing: seq<Name>)
    requires Accepted(r) && w.Valid() && w.HandleIsCurrent() && Enumerates(listing, w.disk.names.Keys)
    requires |w.disk.inodes[w.file].bytes| <= r.maxFileBytes && w.disk.inodes[w.file].modified >= now - r.maxAge
    ensures var e := Cleanup(r, now, w.disk, listing);
      OnlyGone(w.disk, e) && Current in e.names && e.names[Current] == w.file
  {
    CleanupBounds(r, now, w.disk, listing);
    assert Current in w.disk.Logs();
  }

  lemma {:induction false} KeptFile(r: Retention, now: int, w: World, rotateListing: seq<Name>, listing: seq<Name>)
    requires Accepted(r) && w.Valid() && w.HandleIsCurrent() && MaintenanceListed(r, now, w, rotateListing, listing)
    requires |w.disk.inodes[w.file].bytes| < r.maxFileBytes && w.disk.inodes[w.file].modified >= now - r.maxAge
    ensures var w' := Maintain(r, now, w, rotateListing, listing);
      && w'.file == w.file && w'.clock == now && Current in w'.disk.names && w'.disk.names[Current] == w.file
      && OnlyGone(w.disk, w'.disk)
  {
    PassOnlyRemoves(r, now, w, listing);
  }

  lemma {:induction false} NewFile(r: Retention, now: int, w: World, rotateListing: seq<Name>, listing: seq<Name>)
    requires Accepted(r) && w.Valid() && w.HandleIsCurrent() && MaintenanceListed(r, now, w, rotateListing, listing)
    requires |w.disk.inodes[w.file].bytes| >= r.maxFileBytes || w.disk.inodes[w.file].modified < now - r.maxAge
    ensures var w' := Maintain(r, now, w, rotateListing, listing);
      && w'.file == w.disk.next && w'.clock == now && Current in w'.disk.names && w'.disk.names[Current] == w'.file
      && w'.disk.inodes == w.disk.inodes[w.disk.next := Inode([], now)]
      && Shifted(r, w.disk.names, w'.disk.names)
  {
    var settled := Rotate(r, now, w, rotateListing);
    RotationByField(r, now, w, rotateListing);
    RotationShifts(r, now, w, rotateListing);
    PassOnlyRemoves(r, now, settled, listing);
    ShiftedPart(r, w.disk.names, settled.disk.names, Cleanup(r, now, settled.disk, listing).names);
  }

  lemma {:induction false} ShiftedPart(r: Retention, before: map<Name, InodeId>, mid: map<Name, InodeId>,
                                       after: map<Name, InodeId>)
    requires Shifted(r, before, mid)
    ensures (forall n | n in after :: n in mid && after[n] == mid[n]) ==> Shifted(r, before, after)
  {
  }

  /** Maintenance replaces the current file if and only if it is full or has expired.
    Otherwise the file stays as it is, and so do all entries it does not remove. */
  lemma {:induction false} MaintenanceRotatesIff(r: Retention, w: World, c: Call)
    requires Accepted(r) && w.Valid() && w.HandleIsCurrent() && c.Maintenance? && Possible(r, w, c)
    ensures var file, w' := w.disk.inodes[w.file], After(r, w, c);
      && w'.clock == c.now && Current in w'.disk.names && w'.disk.names[Current] == w'.file
      && (w'.file != w.file <==> |file.bytes| >= r.maxFileBytes || file.modified < c.now - r.maxAge)
      && (w'.file == w.file ==> OnlyGone(w.disk, w'.disk))
      && (w'.file != w.file ==>
            && w'.file == w.disk.next && w'.disk.inodes == w.disk.inodes[w'.file := Inode([], c.now)]
            && Shifted(r, w.disk.names, w'.disk.names))
  {
    var file := w.disk.inodes[w.file];
    if |file.bytes| >= r.maxFileBytes || file.modified < c.now - r.maxAge {
      NewFile(r, c.now, w, c.rotateListing, c.listing);
    } else {
      KeptFile(r, c.now, w, c.rotateListing, c.listing);
    }
  }

  /** It makes one pass if the file stays, */
  lemma {:induction false} OnePass(r: Retention, w: World, c: Call)
    requires Accepted(r) && w.Valid() && w.HandleIsCurrent() && c.Maintenance? && Possible(r, w, c)
    requires |w.disk.inodes[w.file].bytes| < r.maxFileBytes && w.disk.inodes[w.file].modified >= c.now - r.maxAge
    ensures Enumerates(c.listing, w.disk.names.Keys) && After(r, w, c).disk == Cleanup(r, c.now, w.disk, c.listing)
  {
  }

  /** A directory with a new current file. */
  function Reopened(left: Disk, now: int): Disk {
    Disk(left.names[Current := left.next], left.inodes[left.next := Inode([], now)], left.next + 1)
  }

  /** and otherwise one over the renamed directory, unless `max_files` is 1, and one more
    with the new current file. */
  lemma {:induction false} PassEachTime(r: Retention, w: World, c: Call) returns (left: Disk)
    requires Accepted(r) && w.Valid() && w.HandleIsCurrent() && c.Maintenance? && Possible(r, w, c)
    requires |w.disk.inodes[w.file].bytes| >= r.maxFileBytes || w.disk.inodes[w.file].modified < c.now - r.maxAge
    ensures var e := Rotating(r, w.disk);
      && e.Valid() && (r.maxFiles > 1 ==> Enumerates(c.rotateListing, e.names.Keys))
      && left == (if r.maxFiles > 1 then Cleanup(r, c.now, e, c.rotateListing) else e)
    ensures var d := Reopened(left, c.now);
      && d.Valid() && Enumerates(c.listing, d.names.Keys)
      && After(r, w, c).disk == Cleanup(r, c.now, d, c.listing)
  {
    RenamedByField(r, w.disk);
    left := RotatedDisk(r, c.now, w, c.rotateListing);
  }

  lemma {:induction false} RotatedDisk(r: Retention, now: int, w: World, listing: seq<Name>) returns (left: Disk)
    requires Accepted(r) && w.Valid() && w.HandleIsCurrent() && RotationListed(r, w.disk, listing)
    ensures Rotating(r, w.disk).Valid()
    ensures left == if r.maxFiles > 1 then Cleanup(r, now, Rotating(r, w.disk), listing) else Rotating(r, w.disk)
    ensures left.Valid() && Rotate(r, now, w, listing).disk == Reopened(left, now)
  {
    RenamedByField(r, w.disk);
    left := Rotating(r, w.disk);
    if r.maxFiles > 1 {
      CleanupBounds(r, now, left, listing);
      left := Cleanup(r, now, left, listing);
    }
  }

  // ------------------------------------------------------------------------
  // A write
  // ------------------------------------------------------------------------

  /** The current file has bytes and no room for `length` more, or is full. */
  predicate TooFull(r: Retention, size: nat, length: nat) {
    size >= r.maxFileBytes || (size > 0 && size + length > r.maxFileBytes)
  }

  /** The file a write appends to, before it does: the current one, or a new one in its
    place. */
  lemma {:induction false} RoomByField(r: Retention, w: World, length: nat, now: int, listing: seq<Name>)
    requires Accepted(r) && w.Valid() && w.HandleIsCurrent() && Representable(w, length)
    requires WriteRotates(r, w, length) ==> RotationListed(r, w.disk, listing)
    ensures WriteRotates(r, w, length) <==> TooFull(r, |w.disk.inodes[w.file].bytes|, length)
    ensures var roomy := MadeRoom(r, now, w, length, listing);
      if TooFull(r, |w.disk.inodes[w.file].bytes|, length) then
        && roomy.file == w.disk.next && roomy.disk.next == w.disk.next + 1
        && roomy.disk.inodes == w.disk.inodes[w.disk.next := Inode([], now)]
        && roomy.HandleIsCurrent() && Shifted(r, w.disk.names, roomy.disk.names)
      else roomy == w
  {
    if WriteRotates(r, w, length) {
      RotationByField(r, now, w, listing);
      RotationShifts(r, now, w, listing);
    }
  }

  /** What is in the file a write appends to, afterwards. */
  function Written(r: Retention, base: seq<byte>, buf: seq<byte>): seq<byte>
    requires |base| <= r.maxFileBytes
  {
    base + if |buf| <= r.maxFileBytes - |base| then buf else buf[..r.maxFileBytes - |base|]
  }

  lemma {:induction false} AppendedByField(r: Retention, now: int, roomy: World, buf: seq<byte>)
    requires Accepted(r) && roomy.Valid() && |roomy.disk.inodes[roomy.file].bytes| < r.maxFileBytes
    ensures var w' := Append(now, roomy, buf[..Accepts(r, roomy, |buf|)]);
      && w'.file == roomy.file && w'.disk.names == roomy.disk.names && w'.disk.next == roomy.disk.next
      && w'.disk.inodes == roomy.disk.inodes[
           roomy.file := Inode(Written(r, roomy.disk.inodes[roomy.file].bytes, buf), now)]
  {
    assert buf[..|buf|] == buf;
  }

  lemma {:induction false} FilledByField(r: Retention, w: World, c: Call)
    requires Accepted(r) && w.Valid() && w.HandleIsCurrent() && c.Write? && c.buf != [] && Possible(r, w, c)
    ensures var size := |w.disk.inodes[w.file].bytes|;
      var first := TooFull(r, size, |c.buf|);
      var target, base := if first then w.disk.next else w.file, if first then [] else w.disk.inodes[w.file].bytes;
      var w2 := Appended(r, c.now, w, c.buf, c.roomListing);
      && |base| < r.maxFileBytes && w2.HandleIsCurrent()
      && w2.file == target && w2.disk.next == (if first then w.disk.next + 1 else w.disk.next)
      && w2.disk.inodes == w.disk.inodes[target := Inode(Written(r, base, c.buf), c.now)]
      && (if first then Shifted(r, w.disk.names, w2.disk.names) else w2.disk.names == w.disk.names)
  {
    var roomy := MadeRoom(r, c.now, w, |c.buf|, c.roomListing);
    RoomByField(r, w, |c.buf|, c.now, c.roomListing);
    AppendedByField(r, c.now, roomy, c.buf);
  }

  /** A write that is not empty first replaces the current file, if that is full or has
    bytes and no room for all of the buffer. It appends the buffer, or as much as makes a
    full file, and replaces the file again if it is full then. No other file changes. */
  lemma {:induction false} WriteRotatesIff(r: Retention, w: World, c: Call)
    requires Accepted(r) && w.Valid() && w.HandleIsCurrent() && c.Write? && c.buf != [] && Possible(r, w, c)
    ensures var file, w' := w.disk.inodes[w.file], After(r, w, c);
      var first := |file.bytes| >= r.maxFileBytes
        || (|file.bytes| > 0 && |file.bytes| + |c.buf| > r.maxFileBytes);
      var target, base := if first then w.disk.next else w.file, if first then [] else file.bytes;
      && |base| < r.maxFileBytes
      && var bytes := base + (if |base| + |c.buf| <= r.maxFileBytes then c.buf else c.buf[..r.maxFileBytes - |base|]);
      var filled := w.disk.inodes[target := Inode(bytes, c.now)];
      && w'.clock == c.now && Current in w'.disk.names && w'.disk.names[Current] == w'.file
      && if |bytes| < r.maxFileBytes then w'.file == target && w'.disk.inodes == filled
         else
           && w'.file == (if first then w.disk.next + 1 else w.disk.next)
           && w'.disk.inodes == filled[w'.file := Inode([], c.now)]
  {
    FilledByField(r, w, c);
    SecondTest(r, w, c);
  }

  lemma {:induction false} SecondTest(r: Retention, w: World, c: Call)
    requires Accepted(r) && w.Valid() && c.Write? && c.buf != [] && Possible(r, w, c)
    requires Appended(r, c.now, w, c.buf, c.roomListing).HandleIsCurrent()
    ensures var w2, w' := Appended(r, c.now, w, c.buf, c.roomListing), After(r, w, c);
      && w'.clock == c.now && Current in w'.disk.names && w'.disk.names[Current] == w'.file
      && if |w2.disk.inodes[w2.file].bytes| < r.maxFileBytes then w'.file == w2.file && w'.disk.inodes == w2.disk.inodes
         else w'.file == w2.disk.next && w'.disk.inodes == w2.disk.inodes[w2.disk.next := Inode([], c.now)]
  {
    var w2 := Appended(r, c.now, w, c.buf, c.roomListing);
    if |w2.disk.inodes[w2.file].bytes| < r.maxFileBytes {
      KeptFile(r, c.now, w2, c.rotateListing, c.listing);
    } else {
      NewFile(r, c.now, w2, c.rotateListing, c.listing);
    }
  }

  /** And each entry afterwards is as it was, or moved once for each replacement. */
  lemma {:induction false} WriteMovesEntries(r: Retention, w: World, c: Call)
    requires Accepted(r) && w.Valid() && w.HandleIsCurrent() && c.Write? && c.buf != [] && Possible(r, w, c)
    ensures var size, before, after := |w.disk.inodes[w.file].bytes|, w.disk.names, After(r, w, c).disk.names;
      var first := size >= r.maxFileBytes || (size > 0 && size + |c.buf| > r.maxFileBytes);
      var full := |c.buf| >= r.maxFileBytes - (if first then 0 else size);
      if first && full then exists mid :: Shifted(r, before, mid) && Shifted(r, mid, after)
      else if first || full then Shifted(r, before, after)
      else forall n | n in after :: n in before && after[n] == before[n]
  {
    FilledByField(r, w, c);
    var w2 := Appended(r, c.now, w, c.buf, c.roomListing);
    MaintenanceRotatesIff(r, w2, Maintenance(c.now, c.rotateListing, c.listing));
    if TooFull(r, |w.disk.inodes[w.file].bytes|, |c.buf|) {
      ShiftedPart(r, w.disk.names, w2.disk.names, After(r, w, c).disk.names);
    }
  }
}
