/** Streams that show what is missing: their first byte is like no other, so a log that
  still starts with it holds the end of the stream only if it holds all of it. */
module LogMarks {
  import opened LogNames
  import opened LogDisk
  import opened LogCleanup
  import opened LogGuarantees
  import opened LogRotation
  import opened LogStream

  function Zeros(n: nat): seq<byte> {
    seq(n, _ => 0)
  }

  /** The bytes in `full` full files. */
  function FullBytes(full: nat, most: nat): nat {
    if full == 0 then 0 else FullBytes(full - 1, most) + most
  }

  lemma {:induction false} FullBytesIs(full: nat, most: nat)
    ensures FullBytes(full, most) == full * most
  {
    if full > 0 {
      FullBytesIs(full - 1, most);
      OneMore(full, most);
    }
  }

  /** The first `n` bytes of such a stream, or `n` bytes further on. */
  function SomeBytes(first: bool, n: nat): seq<byte>
    requires n > 0
  {
    if first then [1] + Zeros(n - 1) else Zeros(n)
  }

  predicate IsMarked(stream: seq<byte>) {
    stream != [] && stream[0] == 1 && forall i | 0 < i < |stream| :: stream[i] == 0
  }

  /** A file that can be the first of such a stream. */
  predicate MayBeFirst(bytes: seq<byte>) {
    bytes != [] ==> bytes[0] == 1
  }

  /** The oldest file is the rotated file in slot `m - 1`, and starts the stream. */
  ghost predicate StartsInSlot(d: Disk, m: nat) {
    && d.Valid() && m > 0 && Rotated(m - 1) in d.names
    && (forall j: nat | j >= m :: Rotated(j) !in d.names)
    && d.At(Rotated(m - 1)).bytes != [] && d.At(Rotated(m - 1)).bytes[0] == 1
  }

  /** What is left of the slots below `k` is what is in their files. */
  lemma {:induction false} RemainsTotal(d: Disk, k: nat)
    requires d.Valid()
    ensures |Remains(d, k)| == TotalBytes(d, RotatedNames(k) * d.names.Keys)
  {
    if k > 0 {
      RemainsTotal(d, k - 1);
      NextSlot(d.names.Keys, k - 1);
      if Rotated(k - 1) in d.names {
        TotalAdd(d, RotatedNames(k - 1) * d.names.Keys, Rotated(k - 1));
      }
    }
  }

  lemma {:induction false} NextSlot(names: set<Name>, k: nat)
    ensures Rotated(k) !in RotatedNames(k) * names
    ensures Rotated(k) in names ==> RotatedNames(k + 1) * names == RotatedNames(k) * names + {Rotated(k)}
    ensures Rotated(k) !in names ==> RotatedNames(k + 1) * names == RotatedNames(k) * names
  {
    RotatedNamesCount(k);
  }

  lemma {:induction false} LogBytesBound(r: Retention, d: Disk)
    requires d.Valid()
    ensures |LogBytes(r, d)| <= TotalBytes(d, d.Logs())
  {
    var rotated := RotatedNames(Slots(r)) * d.names.Keys;
    RemainsTotal(d, Slots(r));
    RotatedNamesCount(Slots(r));
    if Current in d.names {
      TotalAdd(d, rotated, Current);
      TotalMonotone(d, rotated + {Current}, d.Logs());
    } else {
      TotalMonotone(d, rotated, d.Logs());
    }
  }

  lemma {:induction false} RemainsStarts(d: Disk, m: nat, k: nat)
    requires StartsInSlot(d, m) && m <= k
    ensures Remains(d, k) != [] && Remains(d, k)[0] == 1
    decreases k
  {
    if m < k {
      RemainsStarts(d, m, k - 1);
    }
  }

  /** A log that starts as the stream did, but is shorter, is no suffix of it. */
  lemma {:induction false} StartIsNoEnd(r: Retention, d: Disk, m: nat, stream: seq<byte>)
    requires StartsInSlot(d, m) && m <= Slots(r) && IsMarked(stream) && |LogBytes(r, d)| < |stream|
    ensures !IsSuffix(LogBytes(r, d), stream)
  {
    RemainsStarts(d, m, Slots(r));
    var bytes := LogBytes(r, d);
    assert bytes[0] == 1;
    assert stream[|stream| - |bytes|..][0] == stream[|stream| - |bytes|] == 0;
  }

  /** The oldest file is the same after a pass that keeps it, */
  lemma {:induction false} KeptStarts(d: Disk, e: Disk, m: nat)
    requires StartsInSlot(d, m) && e.Valid() && Rotated(m - 1) in e.names
    requires forall n | n in e.names :: n in d.names && e.At(n) == d.At(n)
    ensures StartsInSlot(e, m)
  {
  }

  /** and after a fresh current file is made. */
  lemma {:induction false} OpenedStarts(e: Disk, now: int, m: nat)
    requires StartsInSlot(e, m)
    ensures StartsInSlot(OpenCurrent(e, now).disk, m)
  {
    assert OpenCurrent(e, now).disk.At(Rotated(m - 1)) == e.At(Rotated(m - 1));
  }

  // ------------------------------------------------------------------------
  // Runs
  // ------------------------------------------------------------------------

  /** A run that has written `length` bytes of such a stream. */
  ghost predicate Marked(r: Retention, w: World, calls: seq<Call>, length: nat)
    requires Accepted(r) && w.Valid()
  {
    Run(r, w, calls) && |Stream(r, w, calls)| == length && (length > 0 ==> IsMarked(Stream(r, w, calls)))
  }

  lemma {:induction false} NothingMarked(r: Retention, w: World)
    requires Accepted(r) && w.Valid()
    ensures Marked(r, w, [], 0) && Reached(r, w, []) == w
  {
  }

  /** A write of the next bytes. */
  ghost predicate MarkedCall(r: Retention, w: World, c: Call, first: bool)
    requires Accepted(r) && w.Valid()
  {
    && Possible(r, w, c) && c.Write? && 0 < |c.buf| <= r.maxFileBytes
    && c.buf == SomeBytes(first, |c.buf|)
  }

  lemma {:induction false} MarkedMore(stream: seq<byte>, buf: seq<byte>)
    requires (stream != [] ==> IsMarked(stream)) && buf != [] && buf == SomeBytes(stream == [], |buf|)
    ensures IsMarked(stream + buf)
  {
  }

  lemma {:induction false} MarkedThen(r: Retention, w: World, calls: seq<Call>, c: Call, length: nat)
    requires Accepted(r) && w.Valid() && Marked(r, w, calls, length)
    requires MarkedCall(r, Reached(r, w, calls), c, length == 0)
    ensures Marked(r, w, calls + [c], length + |c.buf|)
    ensures Reached(r, w, calls + [c]) == After(r, Reached(r, w, calls), c)
  {
    RunThen(r, w, calls, c);
    WriteTakes(r, Reached(r, w, calls), c);
    assert c.buf[..|c.buf|] == c.buf;
    MarkedMore(Stream(r, w, calls), c.buf);
  }

  /** A log within its budget that starts as a longer stream did. */
  lemma {:induction false} KeptStart(r: Retention, now: int, w: World, m: nat, stream: seq<byte>)
    requires Accepted(r) && w.Valid() && Bounded(r, now, w.disk) && r.maxTotalBytes < U64_MAX
    requires StartsInSlot(w.disk, m) && m <= Slots(r) && IsMarked(stream) && |stream| > r.maxTotalBytes
    ensures !KeepsASuffix(r, w, stream)
  {
    LogBytesBound(r, w.disk);
    StartIsNoEnd(r, w.disk, m, stream);
  }

  /** If a write passes the budget and the oldest file stays, newer bytes are gone. */
  lemma {:induction false} StartOutlives(r: Retention, w: World, calls: seq<Call>, c: Call, length: nat, m: nat)
    requires Accepted(r) && r.maxTotalBytes < U64_MAX && w.Valid() && Marked(r, w, calls, length)
    requires Reached(r, w, calls).HandleIsCurrent() && MarkedCall(r, Reached(r, w, calls), c, length == 0)
    requires length + |c.buf| > r.maxTotalBytes
    requires StartsInSlot(After(r, Reached(r, w, calls), c).disk, m) && m <= Slots(r)
    ensures !KeepsASuffix(r, Reached(r, w, calls + [c]), Stream(r, w, calls + [c]))
  {
    MarkedThen(r, w, calls, c, length);
    CallGuarantees(r, Reached(r, w, calls), c);
    KeptStart(r, c.now, Reached(r, w, calls + [c]), m, Stream(r, w, calls + [c]));
  }
}
