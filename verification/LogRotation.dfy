/** The rotation chain and the steps of the rotating log
  (crates/keyro-core/src/logging.rs), as functions on the state of the log. */
module LogRotation {
  import opened LogNames
  import opened LogDisk
  import opened LogCleanup
  import opened LogGuarantees

  /** Where the chain of `slots` rotated files takes the entry `n` from. */
  function Origin(n: Name, slots: nat): Name {
    match n
    case Rotated(i) => if i == 0 then Current else if i < slots then Rotated(i - 1) else n
    case _ => n
  }

  /** Every log one slot on; the last slot's file is lost. */
  function Shift(names: map<Name, InodeId>, slots: nat): map<Name, InodeId>
    requires slots > 0
  {
    var chain := set i: nat | i < slots :: Rotated(i);
    map n | n in chain + names.Keys && n != Current && Origin(n, slots) in names :: names[Origin(n, slots)]
  }

  /** An entry is there after the shift if and only if its origin was there before,
    and it is the same file. */
  ghost predicate IsShift(before: map<Name, InodeId>, after: map<Name, InodeId>, slots: nat) {
    && Current !in after
    && (forall n | n != Current :: n in after <==> Origin(n, slots) in before)
    && (forall n | n in after :: after[n] == before[Origin(n, slots)])
  }

  lemma {:induction false} ShiftIsExact(names: map<Name, InodeId>, slots: nat)
    requires slots > 0
    ensures IsShift(names, Shift(names, slots), slots)
  {
    var chain := set i: nat | i < slots :: Rotated(i);
    forall n | n != Current && Origin(n, slots) in names
      ensures n in chain + names.Keys
    {
      if n.Rotated? && n.index < slots {
        assert n == Rotated(n.index);
      }
    }
  }

  lemma {:induction false} ShiftIsValid(d: Disk, slots: nat)
    requires d.Valid() && slots > 0
    ensures d.(names := Shift(d.names, slots)).Valid()
  {
    ShiftIsExact(d.names, slots);
  }

  /** The chain while it is at slot `index`: the slots from `index` on are filled
    from one slot lower, slot `index - 1` is free. */
  ghost predicate ChainMoved(before: map<Name, InodeId>, names: map<Name, InodeId>, slots: nat, index: nat)
    requires index > 0
  {
    forall n: Name ::
      && (n in names <==> MovedFrom(n, slots, index) in before && n != Rotated(index - 1))
      && (n in names ==> names[n] == before[MovedFrom(n, slots, index)])
  }

  function MovedFrom(n: Name, slots: nat, index: nat): Name {
    match n
    case Rotated(i) => if 0 < index <= i < slots then Rotated(i - 1) else n
    case _ => n
  }

  function Renamed(names: map<Name, InodeId>, source: Name, target: Name): map<Name, InodeId>
    requires source in names
  {
    (names - {source})[target := names[source]]
  }

  lemma {:induction false} ChainStarts(names: map<Name, InodeId>, slots: nat)
    requires slots > 0
    ensures ChainMoved(names, names - {Rotated(slots - 1)}, slots, slots)
  {
  }

  /** One round of the chain: the slot it fills is free, so no rename overwrites
    a file. */
  lemma {:induction false} ChainMoves(before: map<Name, InodeId>, names: map<Name, InodeId>, slots: nat, index: nat)
    requires 0 < index < slots && ChainMoved(before, names, slots, index + 1)
    ensures Rotated(index) !in names
    ensures ChainMoved(before,
              if Rotated(index - 1) in names then Renamed(names, Rotated(index - 1), Rotated(index)) else names,
              slots, index)
  {
  }

  lemma {:induction false} ChainEnds(before: map<Name, InodeId>, names: map<Name, InodeId>, slots: nat)
    requires slots > 0 && ChainMoved(before, names, slots, 1)
    ensures Rotated(0) !in names
    ensures Shift(before, slots) == if Current in names then Renamed(names, Current, Rotated(0)) else names
  {
    ShiftIsExact(before, slots);
    assert forall n :: MovedFrom(n, slots, 1) == n || MovedFrom(n, slots, 1) == Origin(n, slots);
  }

  // ------------------------------------------------------------------------
  // The state and its steps
  // ------------------------------------------------------------------------

  /** The directory, the open handle, and the latest clock reading. */
  datatype World = World(disk: Disk, file: InodeId, clock: int) {
    predicate Valid() {
      disk.Valid() && file in disk.inodes
    }

    function FileSize(): nat
      requires Valid()
    {
      |disk.inodes[file].bytes|
    }

    /** The handle still is the file called keyro-core.log. */
    predicate HandleIsCurrent() {
      Current in disk.names && disk.names[Current] == file
    }
  }

  function OpenCurrent(d: Disk, now: int): World
    requires d.Valid()
    ensures OpenCurrent(d, now).Valid()
  {
    if Current in d.names then World(d, d.names[Current], now)
    else World(Disk(d.names[Current := d.next], d.inodes[d.next := Inode([], now)], d.next + 1), d.next, now)
  }

  function Slots(r: Retention): nat {
    if r.maxFiles == 0 then 0 else r.maxFiles - 1
  }

  /** The directory whose listing `rotate_logs` reads. */
  function Rotating(r: Retention, d: Disk): Disk {
    if Slots(r) == 0 then d.Without({Current}) else d.(names := Shift(d.names, Slots(r)))
  }

  function RotateDisk(r: Retention, now: int, d: Disk, listing: seq<Name>): Disk
    requires d.Valid()
    ensures RotateDisk(r, now, d, listing).Valid()
  {
    if Slots(r) == 0 then Rotating(r, d)
    else
      ShiftIsValid(d, Slots(r));
      Cleanup(r, now, Rotating(r, d), listing)
  }

  function Rotate(r: Retention, now: int, w: World, listing: seq<Name>): World
    requires w.Valid()
    ensures Rotate(r, now, w, listing).Valid()
  {
    OpenCurrent(RotateDisk(r, now, w.disk, listing), now)
  }

  predicate NeedsRotation(r: Retention, now: int, w: World)
    requires w.Valid()
  {
    w.FileSize() >= r.maxFileBytes || w.disk.inodes[w.file].modified < Cutoff(r, now)
  }

  /** `cleanup_retention` up to its last cleanup pass. */
  function Settled(r: Retention, now: int, w: World, listing: seq<Name>): World
    requires w.Valid()
    ensures Settled(r, now, w, listing).Valid()
  {
    if NeedsRotation(r, now, w) then Rotate(r, now, w, listing) else w
  }

  function Maintain(r: Retention, now: int, w: World, rotateListing: seq<Name>, listing: seq<Name>): World
    requires w.Valid()
    ensures Maintain(r, now, w, rotateListing, listing).Valid()
  {
    var settled := Settled(r, now, w, rotateListing);
    World(Cleanup(r, now, settled.disk, listing), settled.file, now)
  }

  predicate WriteRotates(r: Retention, w: World, length: nat)
    requires w.Valid()
  {
    w.FileSize() >= r.maxFileBytes
    || (w.FileSize() > 0 && SaturatingAdd(w.FileSize(), length) > r.maxFileBytes)
  }

  function MadeRoom(r: Retention, now: int, w: World, length: nat, listing: seq<Name>): World
    requires w.Valid()
    ensures MadeRoom(r, now, w, length, listing).Valid()
  {
    if WriteRotates(r, w, length) then Rotate(r, now, w, listing) else w
  }

  /** What a write accepts with the handle at its current size. */
  function Accepts(r: Retention, w: World, length: nat): nat
    requires w.Valid()
  {
    var available := if r.maxFileBytes > w.FileSize() then r.maxFileBytes - w.FileSize() else 0;
    if available < length then available else length
  }

  function Append(now: int, w: World, bytes: seq<byte>): World
    requires w.Valid() && w.FileSize() + |bytes| <= U64_MAX
    ensures Append(now, w, bytes).Valid()
  {
    var inode := Inode(w.disk.inodes[w.file].bytes + bytes, now);
    World(w.disk.(inodes := w.disk.inodes[w.file := inode]), w.file, now)
  }

  /** The state before the cleanup that ends a write. */
  function Appended(r: Retention, now: int, w: World, buf: seq<byte>, listing: seq<Name>): World
    requires Accepted(r) && w.Valid()
    ensures Appended(r, now, w, buf, listing).Valid()
  {
    var roomy := MadeRoom(r, now, w, |buf|, listing);
    Append(now, roomy, buf[..Accepts(r, roomy, |buf|)])
  }

  /** A call to the log: its input, its clock reading, and the order in which it
    found the directory each time it listed it. */
  datatype Call =
    | Write(buf: seq<byte>, now: int, roomListing: seq<Name>, rotateListing: seq<Name>, listing: seq<Name>)
    | Maintenance(now: int, rotateListing: seq<Name>, listing: seq<Name>)

  function After(r: Retention, w: World, c: Call): World
    requires Accepted(r) && w.Valid()
    ensures After(r, w, c).Valid()
  {
    match c
    case Write(buf, now, roomListing, rotateListing, listing) =>
      if buf == [] then w
      else Maintain(r, now, Appended(r, now, w, buf, roomListing), rotateListing, listing)
    case Maintenance(now, rotateListing, listing) =>
      Maintain(r, now, w, rotateListing, listing)
  }

  /** The number of bytes of the input the call takes. */
  function Taken(r: Retention, w: World, c: Call): nat
    requires Accepted(r) && w.Valid()
    ensures c.Write? ==> Taken(r, w, c) <= |c.buf|
  {
    if c.Write? && c.buf != [] then
      Accepts(r, MadeRoom(r, c.now, w, |c.buf|, c.roomListing), |c.buf|)
    else 0
  }

  /** The rotation lists the directory it shifted, if it lists one. */
  ghost predicate RotationListed(r: Retention, d: Disk, listing: seq<Name>) {
    Slots(r) > 0 ==> Enumerates(listing, Rotating(r, d).names.Keys)
  }

  ghost predicate MaintenanceListed(r: Retention, now: int, w: World, rotateListing: seq<Name>, listing: seq<Name>)
    requires w.Valid()
  {
    && (NeedsRotation(r, now, w) ==> RotationListed(r, w.disk, rotateListing))
    && Enumerates(listing, Settled(r, now, w, rotateListing).disk.names.Keys)
  }

  /** No size plus length passes the largest `u64`: a slice and a file hold at most
    2^63 - 1 bytes each. So the saturating sum of a write never saturates. */
  predicate Representable(w: World, length: nat)
    requires w.Valid()
  {
    w.FileSize() + length <= U64_MAX
  }

  /** The clock does not run backwards, sizes and lengths are those of real files and
    buffers, and each listing is one of the directory it reads. */
  ghost predicate Possible(r: Retention, w: World, c: Call)
    requires Accepted(r) && w.Valid()
  {
    match c
    case Write(buf, now, roomListing, rotateListing, listing) =>
      buf != [] ==>
        && w.clock <= now && Representable(w, |buf|)
        && (WriteRotates(r, w, |buf|) ==> RotationListed(r, w.disk, roomListing))
        && MaintenanceListed(r, now, Appended(r, now, w, buf, roomListing), rotateListing, listing)
    case Maintenance(now, rotateListing, listing) =>
      w.clock <= now && MaintenanceListed(r, now, w, rotateListing, listing)
  }

  // ------------------------------------------------------------------------
  // What each step guarantees
  // ------------------------------------------------------------------------

  /** A rotation ends with a fresh, empty current file behind the handle. */
  lemma {:induction false} RotateIsFresh(r: Retention, now: int, w: World, listing: seq<Name>)
    requires Accepted(r) && w.Valid() && RotationListed(r, w.disk, listing)
    ensures var w' := Rotate(r, now, w, listing);
      w'.HandleIsCurrent() && w'.disk.inodes[w'.file] == Inode([], now)
  {
    if Slots(r) > 0 {
      ShiftIsExact(w.disk.names, Slots(r));
      ShiftIsValid(w.disk, Slots(r));
      CleanupBounds(r, now, Rotating(r, w.disk), listing);
    }
  }

  /** Maintenance keeps the handle on keyro-core.log and restores every limit. */
  lemma {:induction false} MaintainGuarantees(r: Retention, now: int, w: World, rotateListing: seq<Name>,
                                              listing: seq<Name>)
    requires Accepted(r) && w.Valid() && w.HandleIsCurrent()
    requires MaintenanceListed(r, now, w, rotateListing, listing)
    ensures var w' := Maintain(r, now, w, rotateListing, listing);
      w'.HandleIsCurrent() && Bounded(r, now, w'.disk)
  {
    var settled := Settled(r, now, w, rotateListing);
    if NeedsRotation(r, now, w) {
      RotateIsFresh(r, now, w, rotateListing);
    }
    CleanupBounds(r, now, settled.disk, listing);
    assert Survives(r, now, settled.disk, Current);
  }

  /** Each call leaves the handle on keyro-core.log, and all logs together within
    the limits unless it was the empty write. */
  lemma {:induction false} CallGuarantees(r: Retention, w: World, c: Call)
    requires Accepted(r) && w.Valid() && w.HandleIsCurrent() && Possible(r, w, c)
    ensures After(r, w, c).HandleIsCurrent()
    ensures c.Write? && c.buf == [] ==> After(r, w, c) == w
    ensures !(c.Write? && c.buf == []) ==> Bounded(r, c.now, After(r, w, c).disk) && After(r, w, c).clock == c.now
  {
    match c
    case Write(buf, now, roomListing, rotateListing, listing) =>
      if buf != [] {
        if WriteRotates(r, w, |buf|) {
          RotateIsFresh(r, now, w, roomListing);
        }
        MaintainGuarantees(r, now, Appended(r, now, w, buf, roomListing), rotateListing, listing);
      }
    case Maintenance(now, rotateListing, listing) =>
      MaintainGuarantees(r, now, w, rotateListing, listing);
  }

  lemma {:induction false} FreshFileCounts(r: Retention, now: int, left: Disk)
    requires Accepted(r) && left.Valid() && Current !in left.names
    ensures var d := OpenCurrent(left, now).disk;
      && d.Logs() == left.Logs() + {Current}
      && |d.Logs()| == |left.Logs()| + 1
      && TotalBytes(d, d.Logs()) == TotalBytes(left, left.Logs())
      && (forall n | n in left.Logs() :: d.At(n) == left.At(n))
      && Survives(r, now, d, Current)
  {
    FreshLogs(now, left);
    FreshTotal(now, left);
  }

  lemma {:induction false} FreshLogs(now: int, left: Disk)
    requires left.Valid() && Current !in left.names
    ensures var d := OpenCurrent(left, now).disk;
      && d.Logs() == left.Logs() + {Current} && |d.Logs()| == |left.Logs()| + 1
      && (forall n | n in left.Logs() :: d.At(n) == left.At(n))
      && d.At(Current) == Inode([], now)
  {
    FreshNames(now, left);
  }

  lemma {:induction false} FreshNames(now: int, left: Disk)
    requires left.Valid() && Current !in left.names
    ensures OpenCurrent(left, now).disk.Logs() == left.Logs() + {Current}
  {
  }

  lemma {:induction false} FreshTotal(now: int, left: Disk)
    requires left.Valid() && Current !in left.names
    ensures var d := OpenCurrent(left, now).disk;
      d.Logs() <= d.names.Keys && TotalBytes(d, d.Logs()) == TotalBytes(left, left.Logs())
  {
    FreshLogs(now, left);
    var d := OpenCurrent(left, now).disk;
    TotalAdd(d, left.Logs(), Current);
    TotalAgrees(left, d, left.Logs());
  }

  /** Whatever the log looks like, a write takes a full file or all it is given,
    and puts it into one file. */
  lemma {:induction false} WriteTakes(r: Retention, w: World, c: Call)
    requires Accepted(r) && w.Valid() && Possible(r, w, c) && c.Write?
    ensures Taken(r, w, c) == if |c.buf| <= r.maxFileBytes then |c.buf| else r.maxFileBytes
  {
    if c.buf != [] && WriteRotates(r, w, |c.buf|) {
      RotateIsFresh(r, c.now, w, c.roomListing);
    }
  }

  /** The writes it takes to get `length` bytes of at most `most` each into the log. */
  function WritesNeeded(length: nat, most: nat): nat
    requires most > 0
  {
    if length == 0 then 0 else if length <= most then 1 else 1 + WritesNeeded(length - most, most)
  }

  /** One write brings `write_all` one write closer to its end; if there is more to
    write, it goes into an empty file. */
  lemma {:induction false} WriteBringsCloser(r: Retention, w: World, c: Call)
    requires Accepted(r) && w.Valid() && w.HandleIsCurrent() && Possible(r, w, c) && c.Write? && c.buf != []
    ensures Taken(r, w, c) > 0
    ensures WritesNeeded(|c.buf|, r.maxFileBytes) == 1 + WritesNeeded(|c.buf| - Taken(r, w, c), r.maxFileBytes)
    ensures Representable(After(r, w, c), |c.buf| - Taken(r, w, c))
  {
    WriteTakes(r, w, c);
    RestIsRepresentable(r, w, c);
  }

  lemma {:induction false} RestIsRepresentable(r: Retention, w: World, c: Call)
    requires Accepted(r) && w.Valid() && Possible(r, w, c) && c.Write? && c.buf != []
    requires Taken(r, w, c) == if |c.buf| <= r.maxFileBytes then |c.buf| else r.maxFileBytes
    ensures Representable(After(r, w, c), |c.buf| - Taken(r, w, c))
  {
    if Taken(r, w, c) < |c.buf| {
      FullFileIsReplaced(r, w, c);
    }
  }

  /** A write that fills the file leaves an empty current file. */
  lemma {:induction false} FullFileIsReplaced(r: Retention, w: World, c: Call)
    requires Accepted(r) && w.Valid() && Possible(r, w, c) && c.Write? && c.buf != []
    requires NeedsRotation(r, c.now, Appended(r, c.now, w, c.buf, c.roomListing))
    ensures After(r, w, c).FileSize() == 0
  {
    var w2 := Appended(r, c.now, w, c.buf, c.roomListing);
    RotateIsFresh(r, c.now, w2, c.rotateListing);
    CleanupBounds(r, c.now, Settled(r, c.now, w2, c.rotateListing).disk, c.listing);
  }

  /** The number of writes is the quotient, rounded up. */
  lemma {:induction false} WritesNeededIsCeiling(length: nat, most: nat)
    requires most > 0
    ensures WritesNeeded(length, most) == (length + most - 1) / most
  {
    if length > most {
      WritesNeededIsCeiling(length - most, most);
      Quotient(length - 1, most);
    } else if length > 0 {
      Quotient(length - 1, most);
    }
  }

  lemma {:induction false} Quotient(a: nat, b: nat)
    requires b > 0
    ensures (a + b) / b == a / b + 1
  {
    var q, m := a / b, a % b;
    assert a + b == (q + 1) * b + m;
    var d := (a + b) / b;
    assert (a + b) == d * b + (a + b) % b;
    AtLeast(d - (q + 1), b);
    AtLeast(q + 1 - d, b);
    assert (d - (q + 1)) * b == d * b - (q + 1) * b;
    assert (q + 1 - d) * b == (q + 1) * b - d * b;
  }

  lemma {:induction false} AtLeast(x: int, b: nat)
    ensures x >= 1 ==> x * b >= b
  {
  }

  /** The state after a run of calls by any number of threads: the log's lock
    makes the calls a sequence. */
  function Reached(r: Retention, w: World, calls: seq<Call>): World
    requires Accepted(r) && w.Valid()
    ensures Reached(r, w, calls).Valid()
  {
    if calls == [] then w
    else After(r, Reached(r, w, calls[..|calls| - 1]), calls[|calls| - 1])
  }

  ghost predicate Run(r: Retention, w: World, calls: seq<Call>)
    requires Accepted(r) && w.Valid()
  {
    calls == []
    || (Run(r, w, calls[..|calls| - 1])
        && Possible(r, Reached(r, w, calls[..|calls| - 1]), calls[|calls| - 1]))
  }

  /** The bytes a call adds to the stream. */
  function Added(r: Retention, w: World, c: Call): seq<byte>
    requires Accepted(r) && w.Valid()
  {
    if c.Write? then c.buf[..Taken(r, w, c)] else []
  }

  /** The bytes the log accepts over a run, in order. */
  function Stream(r: Retention, w: World, calls: seq<Call>): seq<byte>
    requires Accepted(r) && w.Valid()
  {
    if calls == [] then []
    else
      Stream(r, w, calls[..|calls| - 1])
      + Added(r, Reached(r, w, calls[..|calls| - 1]), calls[|calls| - 1])
  }

  lemma {:induction false} RunThen(r: Retention, w: World, calls: seq<Call>, c: Call)
    requires Accepted(r) && w.Valid() && Run(r, w, calls) && Possible(r, Reached(r, w, calls), c)
    ensures Run(r, w, calls + [c])
    ensures Reached(r, w, calls + [c]) == After(r, Reached(r, w, calls), c)
    ensures Stream(r, w, calls + [c]) == Stream(r, w, calls) + Added(r, Reached(r, w, calls), c)
  {
    assert (calls + [c])[..|calls + [c]| - 1] == calls;
  }

  /** Where `write_all` of `buf` stands after `calls`, with `rest` still to write. */
  ghost predicate Writing(r: Retention, w: World, calls: seq<Call>, rest: seq<byte>, buf: seq<byte>)
    requires Accepted(r) && w.Valid()
  {
    && Run(r, w, calls)
    && Representable(Reached(r, w, calls), |rest|)
    && Stream(r, w, calls) + rest == buf
    && |calls| + WritesNeeded(|rest|, r.maxFileBytes) == WritesNeeded(|buf|, r.maxFileBytes)
  }

  /** One round of `write_all`. */
  lemma {:induction false} WriteAllRound(r: Retention, w: World, calls: seq<Call>, c: Call, buf: seq<byte>)
    requires Accepted(r) && w.Valid() && c.Write? && c.buf != [] && Writing(r, w, calls, c.buf, buf)
    requires Reached(r, w, calls).HandleIsCurrent() && Possible(r, Reached(r, w, calls), c)
    ensures var taken := Taken(r, Reached(r, w, calls), c);
      taken > 0 && Writing(r, w, calls + [c], c.buf[taken..], buf)
    ensures Reached(r, w, calls + [c]) == After(r, Reached(r, w, calls), c)
  {
    var before := Reached(r, w, calls);
    WriteBringsCloser(r, before, c);
    RunThen(r, w, calls, c);
    RoundStream(r, w, calls, c, buf);
  }

  lemma {:induction false} RoundStream(r: Retention, w: World, calls: seq<Call>, c: Call, buf: seq<byte>)
    requires Accepted(r) && w.Valid() && c.Write? && Run(r, w, calls) && Possible(r, Reached(r, w, calls), c)
    requires Stream(r, w, calls) + c.buf == buf
    ensures Stream(r, w, calls + [c]) + c.buf[Taken(r, Reached(r, w, calls), c)..] == buf
  {
    RunThen(r, w, calls, c);
    SplitAppend(Stream(r, w, calls), c.buf, Taken(r, Reached(r, w, calls), c));
  }

  lemma {:induction false} SplitAppend(s: seq<byte>, buf: seq<byte>, k: nat)
    requires k <= |buf|
    ensures s + buf[..k] + buf[k..] == s + buf
  {
  }

  /** A write is an append followed by maintenance. */
  lemma {:induction false} WriteThenMaintain(r: Retention, w: World, buf: seq<byte>, roomListing: seq<Name>, m: Call)
    requires Accepted(r) && w.Valid() && buf != [] && Representable(w, |buf|) && m.Maintenance? && w.clock <= m.now
    requires WriteRotates(r, w, |buf|) ==> RotationListed(r, w.disk, roomListing)
    requires Possible(r, Appended(r, m.now, w, buf, roomListing), m)
    ensures var c := Write(buf, m.now, roomListing, m.rotateListing, m.listing);
      Possible(r, w, c) && After(r, w, c) == After(r, Appended(r, m.now, w, buf, roomListing), m)
  {
  }

  /** Over every run the handle stays on keyro-core.log; cleanup never deletes the
    file being written. */
  lemma {:induction false} RunKeepsHandle(r: Retention, w: World, calls: seq<Call>)
    requires Accepted(r) && w.Valid() && w.HandleIsCurrent() && Run(r, w, calls)
    ensures Reached(r, w, calls).HandleIsCurrent() && w.clock <= Reached(r, w, calls).clock
  {
    if calls != [] {
      var prefix, c := calls[..|calls| - 1], calls[|calls| - 1];
      RunKeepsHandle(r, w, prefix);
      CallGuarantees(r, Reached(r, w, prefix), c);
    }
  }
}
