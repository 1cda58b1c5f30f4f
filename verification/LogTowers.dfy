/** Runs under a clock that never returns the same reading to two calls after which an
  older, smaller file has outlived a newer one, and the exact settings under which
  there are none (crates/keyro-core/src/logging.rs, the loop that skips a file that
  does not fit and goes on to older ones). */
module LogTowers {
  import opened LogNames
  import opened LogDisk
  import opened LogCleanup
  import opened LogGuarantees
  import opened LogRotation
  import opened LogStream
  import opened LogMarks
  import opened LogHoles
  import opened LogRecords
  import opened LogStrict
  import opened LogOneFile

  // ------------------------------------------------------------------------
  // Directories as lists of sizes
  // ------------------------------------------------------------------------

  function Sum(sizes: seq<nat>, k: nat): nat
    requires k <= |sizes|
  {
    if k == 0 then 0 else Sum(sizes, k - 1) + sizes[k - 1]
  }

  /** Rotated files of these sizes, newest first, and, if there is one, a current file
    of `c` bytes; nothing else. */
  ghost predicate Tall(d: Disk, hasCurrent: bool, c: nat, sizes: seq<nat>) {
    && d.Valid()
    && (forall n: Name :: n in d.names <==> (n == Current && hasCurrent) || (n.Rotated? && n.index < |sizes|))
    && (forall i | 0 <= i < |sizes| :: d.Size(Rotated(i)) == sizes[i])
    && (hasCurrent ==> d.Size(Current) == c)
  }

  lemma {:induction false} RotatedSum(d: Disk, sizes: seq<nat>, k: nat)
    requires d.Valid() && k <= |sizes|
    requires forall i | 0 <= i < k :: Rotated(i) in d.names && d.Size(Rotated(i)) == sizes[i]
    ensures RotatedNames(k) <= d.names.Keys && TotalBytes(d, RotatedNames(k)) == Sum(sizes, k)
  {
    if k > 0 {
      RotatedSum(d, sizes, k - 1);
      NotNamedYet(k - 1);
      TotalAdd(d, RotatedNames(k - 1), Rotated(k - 1));
    }
  }

  lemma {:induction false} NotNamedYet(k: nat)
    ensures Rotated(k) !in RotatedNames(k)
  {
    RotatedNamesCount(k);
  }

  /** The newest `k` and the current file. */
  lemma {:induction false} AboveSum(d: Disk, hasCurrent: bool, c: nat, sizes: seq<nat>, k: nat)
    requires Tall(d, hasCurrent, c, sizes) && k <= |sizes|
    ensures Above(k, hasCurrent) <= d.names.Keys
    ensures |Above(k, hasCurrent)| == k + (if hasCurrent then 1 else 0)
    ensures TotalBytes(d, Above(k, hasCurrent)) == Sum(sizes, k) + (if hasCurrent then c else 0)
    ensures forall n :: n in Above(k, hasCurrent) <==> (n == Current && hasCurrent) || (n.Rotated? && n.index < k)
  {
    RotatedSum(d, sizes, k);
    RotatedNamesCount(k);
    if hasCurrent {
      TotalAdd(d, RotatedNames(k), Current);
    }
  }

  /** What a pass may keep all of. */
  predicate HasRoom(r: Retention, hasCurrent: bool, c: nat, sizes: seq<nat>) {
    && |sizes| + (if hasCurrent then 1 else 0) <= r.maxFiles
    && Sum(sizes, |sizes|) + (if hasCurrent then c else 0) <= r.maxTotalBytes
    && c <= r.maxFileBytes && forall i | 0 <= i < |sizes| :: sizes[i] <= r.maxFileBytes
  }

  lemma {:induction false} TallIdle(r: Retention, now: int, d: Disk, hasCurrent: bool, c: nat, sizes: seq<nat>,
                                    listing: seq<Name>)
    requires Accepted(r) && Tall(d, hasCurrent, c, sizes) && HasRoom(r, hasCurrent, c, sizes)
    requires Since(d, 0) && now <= r.maxAge && Enumerates(listing, d.names.Keys)
    ensures Cleanup(r, now, d, listing) == d
  {
    AboveSum(d, hasCurrent, c, sizes, |sizes|);
    TallNames(d, hasCurrent, c, sizes);
    TallSurvives(r, now, d, hasCurrent, c, sizes);
    CleanupIdleIff(r, now, d, listing);
  }

  lemma {:induction false} TallNames(d: Disk, hasCurrent: bool, c: nat, sizes: seq<nat>)
    requires Tall(d, hasCurrent, c, sizes)
    ensures d.Logs() == d.names.Keys == Above(|sizes|, hasCurrent)
  {
    AboveSum(d, hasCurrent, c, sizes, |sizes|);
    assert forall n :: n in d.Logs() <==> n in d.names;
  }

  lemma {:induction false} TallSurvives(r: Retention, now: int, d: Disk, hasCurrent: bool, c: nat, sizes: seq<nat>)
    requires Tall(d, hasCurrent, c, sizes) && Since(d, 0) && now <= r.maxAge
    requires c <= r.maxFileBytes && forall i | 0 <= i < |sizes| :: sizes[i] <= r.maxFileBytes
    ensures forall n | n in d.names :: n in Survivors(r, now, d)
  {
    forall n | n in d.names
      ensures n in Survivors(r, now, d)
    {
      assert n in d.Logs();
      assert n == Current || n == Rotated(n.index);
    }
  }

  // ------------------------------------------------------------------------
  // A pass that opens a hole
  // ------------------------------------------------------------------------

  /** The pass has room for the newest `i` rotated files, not for the next one, but
    for the one after that. */
  predicate SkipsOne(r: Retention, hasCurrent: bool, c: nat, sizes: seq<nat>, i: nat) {
    && i + 1 < |sizes| && i + 1 + (if hasCurrent then 1 else 0) <= r.maxFiles
    && c <= r.maxFileBytes && (forall j | 0 <= j < |sizes| :: sizes[j] <= r.maxFileBytes)
    && var sum := Sum(sizes, i) + (if hasCurrent then c else 0);
       sum + sizes[i + 1] <= r.maxTotalBytes < sum + sizes[i]
  }

  /** Then it keeps the older one and not the newer one. */
  lemma {:induction false} TallHole(r: Retention, now: int, d: Disk, hasCurrent: bool, c: nat, sizes: seq<nat>, i: nat,
                                    listing: seq<Name>)
    requires Accepted(r) && r.maxTotalBytes < U64_MAX
    requires Tall(d, hasCurrent, c, sizes) && SkipsOne(r, hasCurrent, c, sizes, i) && Descending(d)
    requires Since(d, 0) && now <= r.maxAge && Enumerates(listing, d.names.Keys)
    ensures var e := Cleanup(r, now, d, listing);
      Rotated(i) !in e.names && Rotated(i + 1) in e.names
  {
    PrefixKept(r, now, d, hasCurrent, c, sizes, i, listing);
    NextGoes(r, now, d, hasCurrent, c, sizes, i, listing);
    OneAfterStays(r, now, d, hasCurrent, c, sizes, i, listing);
  }

  lemma {:induction false} PrefixKept(r: Retention, now: int, d: Disk, hasCurrent: bool, c: nat, sizes: seq<nat>,
                                      i: nat, listing: seq<Name>)
    requires Accepted(r) && Tall(d, hasCurrent, c, sizes) && SkipsOne(r, hasCurrent, c, sizes, i) && Descending(d)
    requires Since(d, 0) && now <= r.maxAge && Enumerates(listing, d.names.Keys)
    ensures forall j: nat | j < i :: Rotated(j) in Cleanup(r, now, d, listing).names
  {
    forall j: nat | j < i
      ensures Rotated(j) in Cleanup(r, now, d, listing).names
    {
      SumGrows(sizes, j + 1, i);
      FittingKept(r, now, d, hasCurrent, c, sizes, j, listing);
    }
  }

  /** With files of different ages, nothing older takes room from a file. */
  lemma {:induction false} TakenByNewer(r: Retention, now: int, d: Disk, hasCurrent: bool, c: nat, sizes: seq<nat>,
                                        m: nat, listing: seq<Name>)
    requires Accepted(r) && Tall(d, hasCurrent, c, sizes) && Descending(d) && m < |sizes|
    requires Enumerates(listing, d.names.Keys)
    ensures var e := Cleanup(r, now, d, listing);
      && e.Valid() && Rotated(m) in d.names
      && KeptBefore(d, e, Rotated(m)) <= Above(m, hasCurrent)
      && KeptBefore(d, e, Rotated(m)) + {Rotated(m)} <= Above(m + 1, hasCurrent)
      && (forall n | n in e.names :: n in d.names && e.At(n) == d.At(n))
  {
    var e := Cleanup(r, now, d, listing);
    CleanupBounds(r, now, d, listing);
    AboveSum(d, hasCurrent, c, sizes, m);
    AboveSum(d, hasCurrent, c, sizes, m + 1);
    forall n | n in KeptBefore(d, e, Rotated(m))
      ensures n in Above(m, hasCurrent)
    {
      assert n in d.names && (n == Current || n == Rotated(n.index));
    }
  }

  /** What fits with everything newer is kept. */
  lemma {:induction false} FittingKept(r: Retention, now: int, d: Disk, hasCurrent: bool, c: nat, sizes: seq<nat>,
                                       m: nat, listing: seq<Name>)
    requires Accepted(r) && Tall(d, hasCurrent, c, sizes) && Descending(d) && m < |sizes| && sizes[m] <= r.maxFileBytes
    requires Since(d, 0) && now <= r.maxAge && Enumerates(listing, d.names.Keys)
    requires m + 1 + (if hasCurrent then 1 else 0) <= r.maxFiles
    requires Sum(sizes, m + 1) + (if hasCurrent then c else 0) <= r.maxTotalBytes
    ensures Rotated(m) in Cleanup(r, now, d, listing).names
  {
    AboveSum(d, hasCurrent, c, sizes, m + 1);
    NewerFits(r, now, d, hasCurrent, c, sizes, m, listing);
    SurvivesTall(r, now, d, hasCurrent, c, sizes, m);
    GreedyIff(r, now, d, listing, Rotated(m));
  }

  lemma {:induction false} SurvivesTall(r: Retention, now: int, d: Disk, hasCurrent: bool, c: nat, sizes: seq<nat>,
                                        m: nat)
    requires Tall(d, hasCurrent, c, sizes) && Since(d, 0) && now <= r.maxAge && m < |sizes|
    requires sizes[m] <= r.maxFileBytes
    ensures Rotated(m) in Survivors(r, now, d)
  {
    assert Rotated(m) in d.Logs();
  }

  lemma {:induction false} NewerFits(r: Retention, now: int, d: Disk, hasCurrent: bool, c: nat, sizes: seq<nat>, m: nat,
                                     listing: seq<Name>)
    requires Accepted(r) && Tall(d, hasCurrent, c, sizes) && Descending(d) && m < |sizes|
    requires Enumerates(listing, d.names.Keys)
    requires Above(m + 1, hasCurrent) <= d.names.Keys && Fits(r, d, Above(m + 1, hasCurrent))
    ensures var e := Cleanup(r, now, d, listing);
      && e.Valid() && Rotated(m) in d.names && KeptBefore(d, e, Rotated(m)) <= d.names.Keys
      && Fits(r, d, KeptBefore(d, e, Rotated(m)) + {Rotated(m)})
  {
    TakenByNewer(r, now, d, hasCurrent, c, sizes, m, listing);
    PartFits(r, d, KeptBefore(d, Cleanup(r, now, d, listing), Rotated(m)) + {Rotated(m)}, Above(m + 1, hasCurrent));
  }

  lemma {:induction false} PartFits(r: Retention, d: Disk, part: set<Name>, files: set<Name>)
    requires d.Valid() && part <= files && files <= d.names.Keys && Fits(r, d, files)
    ensures part <= d.names.Keys && Fits(r, d, part)
  {
    FitsSubset(r, d, part, files);
  }

  lemma {:induction false} SumGrows(sizes: seq<nat>, j: nat, k: nat)
    requires j <= k <= |sizes|
    ensures Sum(sizes, j) <= Sum(sizes, k)
    decreases k
  {
    if j < k {
      SumGrows(sizes, j, k - 1);
    }
  }

  lemma {:induction false} NextGoes(r: Retention, now: int, d: Disk, hasCurrent: bool, c: nat, sizes: seq<nat>, i: nat,
                                    listing: seq<Name>)
    requires Accepted(r) && r.maxTotalBytes < U64_MAX
    requires Tall(d, hasCurrent, c, sizes) && SkipsOne(r, hasCurrent, c, sizes, i) && Descending(d)
    requires Since(d, 0) && now <= r.maxAge && Enumerates(listing, d.names.Keys)
    requires forall j: nat | j < i :: Rotated(j) in Cleanup(r, now, d, listing).names
    ensures Rotated(i) !in Cleanup(r, now, d, listing).names
  {
    AllNewerKept(r, now, d, hasCurrent, c, sizes, i, listing);
    AboveSum(d, hasCurrent, c, sizes, i);
    TotalAdd(d, Above(i, hasCurrent), Rotated(i));
    SurvivesTall(r, now, d, hasCurrent, c, sizes, i);
    GreedyIff(r, now, d, listing, Rotated(i));
  }

  lemma {:induction false} AllNewerKept(r: Retention, now: int, d: Disk, hasCurrent: bool, c: nat, sizes: seq<nat>,
                                        i: nat, listing: seq<Name>)
    requires Accepted(r) && Tall(d, hasCurrent, c, sizes) && Descending(d) && i < |sizes| && c <= r.maxFileBytes
    requires Since(d, 0) && now <= r.maxAge && Enumerates(listing, d.names.Keys)
    requires forall j: nat | j < i :: Rotated(j) in Cleanup(r, now, d, listing).names
    ensures Cleanup(r, now, d, listing).Valid() && Rotated(i) in d.names
    ensures KeptBefore(d, Cleanup(r, now, d, listing), Rotated(i)) == Above(i, hasCurrent)
  {
    var e := Cleanup(r, now, d, listing);
    TakenByNewer(r, now, d, hasCurrent, c, sizes, i, listing);
    CurrentKept(r, now, d, hasCurrent, c, sizes, listing);
    AboveIsKept(d, e, hasCurrent, i);
  }

  lemma {:induction false} CurrentKept(r: Retention, now: int, d: Disk, hasCurrent: bool, c: nat, sizes: seq<nat>,
                                       listing: seq<Name>)
    requires Accepted(r) && Tall(d, hasCurrent, c, sizes) && c <= r.maxFileBytes
    requires Since(d, 0) && now <= r.maxAge && Enumerates(listing, d.names.Keys)
    ensures hasCurrent ==> Current in Cleanup(r, now, d, listing).names
  {
    CleanupBounds(r, now, d, listing);
    assert hasCurrent ==> Current in d.Logs();
  }

  lemma {:induction false} AboveIsKept(d: Disk, e: Disk, hasCurrent: bool, i: nat)
    requires d.Valid() && e.Valid() && Rotated(i) in d.names && Descending(d)
    requires hasCurrent ==> Current in e.names
    requires forall j: nat | j < i :: Rotated(j) in e.names
    requires forall n | n in e.names :: n in d.names && e.At(n) == d.At(n)
    ensures Above(i, hasCurrent) <= KeptBefore(d, e, Rotated(i))
  {
    RotatedNamesCount(i);
    forall n | n in Above(i, hasCurrent)
      ensures n in KeptBefore(d, e, Rotated(i))
    {
      if n != Current {
        assert n == Rotated(n.index);
        assert d.Modified(Rotated(i)) < d.Modified(Rotated(n.index));
      }
      assert n in e.Logs();
    }
  }

  lemma {:induction false} OneAfterStays(r: Retention, now: int, d: Disk, hasCurrent: bool, c: nat, sizes: seq<nat>,
                                         i: nat, listing: seq<Name>)
    requires Accepted(r) && Tall(d, hasCurrent, c, sizes) && SkipsOne(r, hasCurrent, c, sizes, i) && Descending(d)
    requires Since(d, 0) && now <= r.maxAge && Enumerates(listing, d.names.Keys)
    requires Rotated(i) !in Cleanup(r, now, d, listing).names
    ensures Rotated(i + 1) in Cleanup(r, now, d, listing).names
  {
    var e := Cleanup(r, now, d, listing);
    SurvivesTall(r, now, d, hasCurrent, c, sizes, i + 1);
    TakenByNewer(r, now, d, hasCurrent, c, sizes, i + 1, listing);
    OneMoreAbove(i, hasCurrent);
    OneAfterFits(r, d, hasCurrent, c, sizes, i);
    FitsSubset(r, d, KeptBefore(d, e, Rotated(i + 1)) + {Rotated(i + 1)}, Above(i, hasCurrent) + {Rotated(i + 1)});
    GreedyIff(r, now, d, listing, Rotated(i + 1));
  }

  lemma {:induction false} OneMoreAbove(i: nat, hasCurrent: bool)
    ensures Above(i + 1, hasCurrent) == Above(i, hasCurrent) + {Rotated(i)}
  {
  }

  lemma {:induction false} OneAfterFits(r: Retention, d: Disk, hasCurrent: bool, c: nat, sizes: seq<nat>, i: nat)
    requires Tall(d, hasCurrent, c, sizes) && SkipsOne(r, hasCurrent, c, sizes, i)
    ensures var files := Above(i, hasCurrent) + {Rotated(i + 1)}; files <= d.names.Keys && Fits(r, d, files)
  {
    AboveSum(d, hasCurrent, c, sizes, i);
    TotalAdd(d, Above(i, hasCurrent), Rotated(i + 1));
  }

  // ------------------------------------------------------------------------
  // The steps of the log on a list of sizes
  // ------------------------------------------------------------------------

  /** A rotation puts the size of the current file first. */
  lemma {:induction false} TallShift(d: Disk, c: nat, sizes: seq<nat>, slots: nat)
    requires Tall(d, true, c, sizes) && |sizes| < slots && Since(d, 0)
    ensures var e := d.(names := Shift(d.names, slots)); Tall(e, false, 0, [c] + sizes) && Since(e, 0)
  {
    ShiftIsExact(d.names, slots);
    ShiftIsValid(d, slots);
    var e := d.(names := Shift(d.names, slots));
    forall n: Name
      ensures n in e.names <==> n.Rotated? && n.index < |sizes| + 1
    {
    }
    forall i: nat | i < |sizes| + 1
      ensures e.Size(Rotated(i)) == ([c] + sizes)[i] && 0 <= e.Modified(Rotated(i))
    {
      ShiftedSlot(d, e, c, sizes, slots, i);
    }
    assert forall n | n in e.Logs() :: n == Rotated(n.index);
  }

  lemma {:induction false} ShiftedSlot(d: Disk, e: Disk, c: nat, sizes: seq<nat>, slots: nat, i: nat)
    requires Tall(d, true, c, sizes) && |sizes| < slots && Since(d, 0) && i <= |sizes|
    requires e.Valid() && e.inodes == d.inodes && IsShift(d.names, e.names, slots) && Rotated(i) in e.names
    ensures e.Size(Rotated(i)) == ([c] + sizes)[i] && 0 <= e.Modified(Rotated(i))
  {
    var from := Origin(Rotated(i), slots);
    assert from in d.Logs() && e.At(Rotated(i)) == d.At(from);
  }

  lemma {:induction false} TallOpened(e: Disk, sizes: seq<nat>, now: int)
    requires Tall(e, false, 0, sizes) && Since(e, 0) && 0 <= now
    ensures var d := OpenCurrent(e, now).disk; Tall(d, true, 0, sizes) && Since(d, 0)
  {
    FreshLogs(now, e);
    forall i | 0 <= i < |sizes|
      ensures OpenCurrent(e, now).disk.Size(Rotated(i)) == sizes[i]
    {
      assert Rotated(i) in e.Logs();
    }
  }

  lemma {:induction false} RotateIdle(r: Retention, now: int, w: World, c: nat, sizes: seq<nat>, listing: seq<Name>)
    requires Accepted(r) && w.Valid() && Tall(w.disk, true, c, sizes) && Since(w.disk, 0) && 0 <= now <= r.maxAge
    requires |sizes| < Slots(r) && HasRoom(r, false, 0, [c] + sizes) && RotationListed(r, w.disk, listing)
    ensures Rotating(r, w.disk).Valid() && Cleanup(r, now, Rotating(r, w.disk), listing) == Rotating(r, w.disk)
  {
    TallShift(w.disk, c, sizes, Slots(r));
    TallIdle(r, now, Rotating(r, w.disk), false, 0, [c] + sizes, listing);
  }

  lemma {:induction false} RotateTall(r: Retention, now: int, w: World, c: nat, sizes: seq<nat>, listing: seq<Name>)
    requires Accepted(r) && w.Valid() && Tall(w.disk, true, c, sizes) && Since(w.disk, 0) && 0 <= now <= r.maxAge
    requires |sizes| < Slots(r) && HasRoom(r, false, 0, [c] + sizes) && RotationListed(r, w.disk, listing)
    ensures var w' := Rotate(r, now, w, listing);
      && Tall(w'.disk, true, 0, [c] + sizes) && Since(w'.disk, 0) && w'.HandleIsCurrent()
      && w'.disk.Modified(Current) == now
  {
    RotateIsFresh(r, now, w, listing);
    TallShift(w.disk, c, sizes, Slots(r));
    RotateIdle(r, now, w, c, sizes, listing);
    TallOpened(Rotating(r, w.disk), [c] + sizes, now);
  }

  /** What the maintenance of a write leaves if everything fits. */
  lemma {:induction false} MaintainTall(r: Retention, now: int, w: World, c: nat, sizes: seq<nat>,
                                        rotateListing: seq<Name>, listing: seq<Name>)
    requires Accepted(r) && w.Valid() && w.HandleIsCurrent() && Tall(w.disk, true, c, sizes) && Since(w.disk, 0)
    requires w.disk.Modified(Current) == now && 0 <= now <= r.maxAge && c <= r.maxFileBytes
    requires MaintenanceListed(r, now, w, rotateListing, listing)
    requires if c < r.maxFileBytes then HasRoom(r, true, c, sizes)
      else |sizes| < Slots(r) && HasRoom(r, false, 0, [c] + sizes)
    ensures var w' := Maintain(r, now, w, rotateListing, listing);
      && Since(w'.disk, 0)
      && if c < r.maxFileBytes then Tall(w'.disk, true, c, sizes) else Tall(w'.disk, true, 0, [c] + sizes)
  {
    if c < r.maxFileBytes {
      TallIdle(r, now, w.disk, true, c, sizes, listing);
    } else {
      RotateTall(r, now, w, c, sizes, rotateListing);
      TallIdle(r, now, Settled(r, now, w, rotateListing).disk, true, 0, [c] + sizes, listing);
    }
  }

  // ------------------------------------------------------------------------
  // The oldest file stays
  // ------------------------------------------------------------------------

  lemma {:induction false} TallStarts(d: Disk, hasCurrent: bool, c: nat, sizes: seq<nat>)
    requires Tall(d, hasCurrent, c, sizes) && CanStart(d, |sizes|) && sizes != [] && sizes[|sizes| - 1] > 0
    ensures StartsInSlot(d, |sizes|)
  {
    assert d.Size(Rotated(|sizes| - 1)) > 0;
  }

  /** A rotation after which everything fits. */
  lemma {:induction false} RotateStart(r: Retention, now: int, w: World, k: nat, listing: seq<Name>)
    requires Accepted(r) && w.Valid() && Current in w.disk.names && CanStart(w.disk, k) && k < Slots(r)
    requires Rotating(r, w.disk).Valid() && Cleanup(r, now, Rotating(r, w.disk), listing) == Rotating(r, w.disk)
    ensures CanStart(Rotate(r, now, w, listing).disk, k + 1)
  {
    ShiftStart(w.disk, k, Slots(r));
    OpenedCanStart(Rotating(r, w.disk), now, k + 1);
  }

  lemma {:induction false} OpenedCanStart(e: Disk, now: int, k: nat)
    requires e.Valid() && CanStart(e, k) && k > 0
    ensures CanStart(OpenCurrent(e, now).disk, k)
  {
    assert OpenCurrent(e, now).disk.At(Rotated(k - 1)) == e.At(Rotated(k - 1));
  }

  lemma {:induction false} AppendStart(now: int, w: World, bytes: seq<byte>, k: nat)
    requires Orderly(w) && CanStart(w.disk, k) && w.FileSize() + |bytes| <= U64_MAX
    requires k == 0 && w.FileSize() == 0 ==> MayBeFirst(bytes)
    ensures CanStart(Append(now, w, bytes).disk, k)
  {
    if k > 0 {
      assert Rotated(k - 1) in w.disk.Logs() && Current in w.disk.Logs();
      assert w.disk.names[Rotated(k - 1)] != w.file;
    }
  }

  // ------------------------------------------------------------------------
  // Writes on a list of sizes
  // ------------------------------------------------------------------------

  /** The size of the current file and those of the rotated files, newest first. */
  datatype Shape = Shape(size: nat, sizes: seq<nat>) {
    function Pushed(): Shape {
      Shape(0, [size] + sizes)
    }

    /** There is a free slot, and the pass of a rotation has room. */
    predicate CanPush(r: Retention) {
      |sizes| < Slots(r) && HasRoom(r, false, 0, [size] + sizes)
    }

    predicate Rotates(r: Retention, length: nat) {
      size > 0 && size + length > r.maxFileBytes
    }

    /** With `length` more bytes, before the last rotation and pass. */
    function Grown(r: Retention, length: nat): Shape {
      if Rotates(r, length) then Shape(length, [size] + sizes) else Shape(size + length, sizes)
    }

    function Settled(r: Retention): Shape {
      if size < r.maxFileBytes then this else Pushed()
    }

    predicate CanSettle(r: Retention) {
      if size < r.maxFileBytes then HasRoom(r, true, size, sizes) else CanPush(r)
    }
  }

  /** A log of this shape, written since time 0 under such a clock. */
  ghost predicate Tower(w: World, s: Shape) {
    && Orderly(w) && Tall(w.disk, true, s.size, s.sizes) && Since(w.disk, 0) && 0 <= w.clock
    && CanStart(w.disk, |s.sizes|)
  }

  /** A write of `length` bytes one tick later. */
  lemma {:induction false} SomeWrite(r: Retention, w: World, length: nat, first: bool) returns (c: Call)
    requires Accepted(r) && w.Valid() && 0 < length <= r.maxFileBytes && Representable(w, length)
    ensures MarkedCall(r, w, c, first) && |c.buf| == length && c.now == w.clock + 1
  {
    var buf, now := SomeBytes(first, length), w.clock + 1;
    var roomListing := SomeListing(Rotating(r, w.disk).names.Keys);
    var w2 := Appended(r, now, w, buf, roomListing);
    var rotateListing := SomeListing(Rotating(r, w2.disk).names.Keys);
    var listing := SomeListing(LogRotation.Settled(r, now, w2, rotateListing).disk.names.Keys);
    c := Write(buf, now, roomListing, rotateListing, listing);
  }

  /** A call that writes `length` bytes to a tower while no file can expire. */
  ghost predicate TowerCall(r: Retention, w: World, s: Shape, c: Call, length: nat)
    requires Accepted(r)
  {
    && Tower(w, s) && s.size < r.maxFileBytes && 0 < length <= r.maxFileBytes
    && MarkedCall(r, w, c, s == Shape(0, [])) && |c.buf| == length && w.clock < c.now <= r.maxAge
    && (s.Rotates(r, length) ==> s.CanPush(r))
  }

  /** The file a write goes to, after it. */
  lemma {:induction false} AppendedTall(r: Retention, w: World, s: Shape, c: Call, length: nat)
    requires Accepted(r) && TowerCall(r, w, s, c, length)
    ensures var w' := Appended(r, c.now, w, c.buf, c.roomListing);
      && Orderly(w') && Since(w'.disk, 0) && w'.disk.Modified(Current) == c.now
      && Tall(w'.disk, true, s.Grown(r, length).size, s.Grown(r, length).sizes)
  {
    StrictAppendOrders(r, w, c);
    AppendedSizes(r, w, s, c, length);
  }

  lemma {:induction false} AppendedSizes(r: Retention, w: World, s: Shape, c: Call, length: nat)
    requires Accepted(r) && TowerCall(r, w, s, c, length)
    ensures var w' := Appended(r, c.now, w, c.buf, c.roomListing);
      Since(w'.disk, 0) && Tall(w'.disk, true, s.Grown(r, length).size, s.Grown(r, length).sizes)
  {
    RoomyTall(r, w, s, c, length);
    var roomy := MadeRoom(r, c.now, w, length, c.roomListing);
    AppendTall(c.now, roomy, c.buf, if s.Rotates(r, length) then 0 else s.size, s.Grown(r, length).sizes);
    assert c.buf[..length] == c.buf;
  }

  lemma {:induction false} RoomyTall(r: Retention, w: World, s: Shape, c: Call, length: nat)
    requires Accepted(r) && TowerCall(r, w, s, c, length)
    ensures WriteRotates(r, w, length) <==> s.Rotates(r, length)
    ensures var roomy := MadeRoom(r, c.now, w, length, c.roomListing);
      && Orderly(roomy) && Since(roomy.disk, 0)
      && Tall(roomy.disk, true, if s.Rotates(r, length) then 0 else s.size, s.Grown(r, length).sizes)
  {
    if WriteRotates(r, w, length) {
      RotateTall(r, c.now, w, s.size, s.sizes, c.roomListing);
      RotateOrders(r, c.now, w, c.roomListing);
    }
  }

  lemma {:induction false} AppendTall(now: int, w: World, bytes: seq<byte>, c: nat, sizes: seq<nat>)
    requires Orderly(w) && Tall(w.disk, true, c, sizes) && Since(w.disk, 0) && w.FileSize() + |bytes| <= U64_MAX
    requires 0 <= now
    ensures var d := Append(now, w, bytes).disk; Tall(d, true, c + |bytes|, sizes) && Since(d, 0)
  {
    AppendSizes(now, w, bytes);
    AppendKeepsSince(now, w, bytes, 0);
  }

  lemma {:induction false} AppendedStart(r: Retention, w: World, s: Shape, c: Call, length: nat)
    requires Accepted(r) && TowerCall(r, w, s, c, length)
    ensures CanStart(Appended(r, c.now, w, c.buf, c.roomListing).disk, |s.Grown(r, length).sizes|)
  {
    var roomy := MadeRoom(r, c.now, w, length, c.roomListing);
    RoomyTall(r, w, s, c, length);
    RoomyStart(r, w, s, c, length);
    AppendStart(c.now, roomy, c.buf, |s.Grown(r, length).sizes|);
    assert c.buf[..length] == c.buf;
  }

  lemma {:induction false} RoomyStart(r: Retention, w: World, s: Shape, c: Call, length: nat)
    requires Accepted(r) && TowerCall(r, w, s, c, length) && (WriteRotates(r, w, length) <==> s.Rotates(r, length))
    ensures CanStart(MadeRoom(r, c.now, w, length, c.roomListing).disk, |s.Grown(r, length).sizes|)
  {
    if WriteRotates(r, w, length) {
      RotatedStart(r, c.now, w, s, c.roomListing);
    }
  }

  lemma {:induction false} RotatedStart(r: Retention, now: int, w: World, s: Shape, listing: seq<Name>)
    requires Accepted(r) && w.Valid() && Tall(w.disk, true, s.size, s.sizes) && Since(w.disk, 0)
    requires CanStart(w.disk, |s.sizes|) && s.CanPush(r) && RotationListed(r, w.disk, listing) && 0 <= now <= r.maxAge
    ensures CanStart(Rotate(r, now, w, listing).disk, |s.sizes| + 1)
  {
    RotateIdle(r, now, w, s.size, s.sizes, listing);
    RotateStart(r, now, w, |s.sizes|, listing);
  }

  /** A write after which everything fits. */
  lemma {:induction false} TowerWrite(r: Retention, w: World, s: Shape, c: Call, length: nat)
    requires Accepted(r) && TowerCall(r, w, s, c, length) && s.Grown(r, length).CanSettle(r)
    ensures Tower(After(r, w, c), s.Grown(r, length).Settled(r)) && After(r, w, c).clock == c.now
  {
    var grown := s.Grown(r, length);
    AppendedTall(r, w, s, c, length);
    AppendedStart(r, w, s, c, length);
    StrictCallOrders(r, w, c);
    MaintainTall(r, c.now, Appended(r, c.now, w, c.buf, c.roomListing), grown.size, grown.sizes, c.rotateListing,
                 c.listing);
    MaintainStart(r, c.now, Appended(r, c.now, w, c.buf, c.roomListing), grown, c.rotateListing, c.listing);
  }

  lemma {:induction false} MaintainStart(r: Retention, now: int, w: World, s: Shape, rotateListing: seq<Name>,
                                         listing: seq<Name>)
    requires Accepted(r) && w.Valid() && w.HandleIsCurrent() && Tall(w.disk, true, s.size, s.sizes) && Since(w.disk, 0)
    requires w.disk.Modified(Current) == now && 0 <= now <= r.maxAge && s.size <= r.maxFileBytes
    requires MaintenanceListed(r, now, w, rotateListing, listing) && s.CanSettle(r) && CanStart(w.disk, |s.sizes|)
    ensures CanStart(Maintain(r, now, w, rotateListing, listing).disk, |s.Settled(r).sizes|)
  {
    if s.size < r.maxFileBytes {
      TallIdle(r, now, w.disk, true, s.size, s.sizes, listing);
    } else {
      RotatedStart(r, now, w, s, rotateListing);
      RotateTall(r, now, w, s.size, s.sizes, rotateListing);
      TallIdle(r, now, Settled(r, now, w, rotateListing).disk, true, 0, [s.size] + s.sizes, listing);
    }
  }

  // ------------------------------------------------------------------------
  // Writes that open a hole
  // ------------------------------------------------------------------------

  /** One of the passes at the end of the write skips the file before the oldest. */
  predicate SkipsLast(r: Retention, s: Shape, i: nat) {
    if s.size < r.maxFileBytes then SkipsToOldest(r, true, s.size, s.sizes, i)
    else |s.sizes| < Slots(r) && SkipsToOldest(r, false, 0, [s.size] + s.sizes, i)
  }

  predicate SkipsToOldest(r: Retention, hasCurrent: bool, c: nat, sizes: seq<nat>, i: nat) {
    SkipsOne(r, hasCurrent, c, sizes, i) && |sizes| == i + 2 && sizes[i + 1] > 0
  }

  /** A write of `length` bytes ends with such a pass. */
  predicate CanSkip(r: Retention, s: Shape, length: nat, i: nat) {
    && s.size < r.maxFileBytes && 0 < length <= r.maxFileBytes && s.size + length <= U64_MAX
    && (s.Rotates(r, length) ==> s.CanPush(r))
    && SkipsLast(r, s.Grown(r, length), i)
  }

  lemma {:induction false} HoleWrite(r: Retention, w: World, s: Shape, c: Call, length: nat, i: nat)
    requires Accepted(r) && r.maxTotalBytes < U64_MAX && TowerCall(r, w, s, c, length)
    requires SkipsLast(r, s.Grown(r, length), i)
    ensures HoleAt(After(r, w, c).disk.names, i) && StartsInSlot(After(r, w, c).disk, i + 2)
  {
    var grown, appended := s.Grown(r, length), Appended(r, c.now, w, c.buf, c.roomListing);
    AppendedTall(r, w, s, c, length);
    AppendedStart(r, w, s, c, length);
    if grown.size < r.maxFileBytes {
      HoleToOldest(r, c.now, appended.disk, true, grown.size, grown.sizes, i, c.listing);
    } else {
      RotateHole(r, c.now, appended, grown, i, c.rotateListing, c.listing);
    }
  }

  lemma {:induction false} HoleToOldest(r: Retention, now: int, d: Disk, hasCurrent: bool, c: nat, sizes: seq<nat>,
                                        i: nat, listing: seq<Name>)
    requires Accepted(r) && r.maxTotalBytes < U64_MAX
    requires Tall(d, hasCurrent, c, sizes) && SkipsToOldest(r, hasCurrent, c, sizes, i) && Descending(d)
    requires CanStart(d, |sizes|) && Since(d, 0) && now <= r.maxAge && Enumerates(listing, d.names.Keys)
    ensures var e := Cleanup(r, now, d, listing); HoleAt(e.names, i) && StartsInSlot(e, i + 2)
  {
    TallHole(r, now, d, hasCurrent, c, sizes, i, listing);
    TallStarts(d, hasCurrent, c, sizes);
    CleanupBounds(r, now, d, listing);
    KeptStarts(d, Cleanup(r, now, d, listing), i + 2);
  }

  lemma {:induction false} RotateHole(r: Retention, now: int, w: World, s: Shape, i: nat, rotateListing: seq<Name>,
                                      listing: seq<Name>)
    requires Accepted(r) && r.maxTotalBytes < U64_MAX && Orderly(w) && w.clock <= now <= r.maxAge && 0 <= now
    requires Tall(w.disk, true, s.size, s.sizes) && Since(w.disk, 0) && s.size == r.maxFileBytes && SkipsLast(r, s, i)
    requires MaintenanceListed(r, now, w, rotateListing, listing) && CanStart(w.disk, |s.sizes|)
    ensures var d := Maintain(r, now, w, rotateListing, listing).disk; HoleAt(d.names, i) && StartsInSlot(d, i + 2)
  {
    TwoPasses(r, now, w, rotateListing, listing);
    HoleAfterPasses(r, now, w, s, [s.size] + s.sizes, i, rotateListing, listing);
  }

  lemma {:induction false} HoleAfterPasses(r: Retention, now: int, w: World, s: Shape, sizes: seq<nat>, i: nat,
                                           rotateListing: seq<Name>, listing: seq<Name>)
    requires Accepted(r) && r.maxTotalBytes < U64_MAX && Orderly(w) && w.clock <= now <= r.maxAge && w.FileSize() > 0
    requires Tall(w.disk, true, s.size, s.sizes) && Since(w.disk, 0) && CanStart(w.disk, |s.sizes|)
    requires sizes == [s.size] + s.sizes && |s.sizes| < Slots(r) && SkipsToOldest(r, false, 0, sizes, i)
    requires Rotating(r, w.disk).Valid() && Enumerates(rotateListing, Rotating(r, w.disk).names.Keys)
    requires Enumerates(listing, OpenCurrent(Cleanup(r, now, Rotating(r, w.disk), rotateListing), now).disk.names.Keys)
    ensures var left := Cleanup(r, now, Rotating(r, w.disk), rotateListing);
      var d := Cleanup(r, now, OpenCurrent(left, now).disk, listing);
      HoleAt(d.names, i) && StartsInSlot(d, i + 2)
  {
    ShiftedTower(r, now, w, s, rotateListing);
    PassesOpenHole(r, now, Rotating(r, w.disk), sizes, i, rotateListing, listing);
  }

  /** The first of its two passes does. */
  lemma {:induction false} PassesOpenHole(r: Retention, now: int, e: Disk, sizes: seq<nat>, i: nat,
                                          rotateListing: seq<Name>, listing: seq<Name>)
    requires Accepted(r) && r.maxTotalBytes < U64_MAX && Tall(e, false, 0, sizes)
    requires SkipsToOldest(r, false, 0, sizes, i)
    requires |sizes| < r.maxFiles && Descending(e) && CanStart(e, |sizes|) && Since(e, 0) && now <= r.maxAge
    requires Enumerates(rotateListing, e.names.Keys)
    requires Enumerates(listing, OpenCurrent(Cleanup(r, now, e, rotateListing), now).disk.names.Keys)
    ensures var d := Cleanup(r, now, OpenCurrent(Cleanup(r, now, e, rotateListing), now).disk, listing);
      HoleAt(d.names, i) && StartsInSlot(d, i + 2)
  {
    HoleToOldest(r, now, e, false, 0, sizes, i, rotateListing);
    HoleStaysOpen(r, now, e, sizes, i, rotateListing, listing);
  }

  lemma {:induction false} ShiftedTower(r: Retention, now: int, w: World, s: Shape, listing: seq<Name>)
    requires Accepted(r) && Orderly(w) && w.clock <= now <= r.maxAge && w.FileSize() > 0
    requires Tall(w.disk, true, s.size, s.sizes) && Since(w.disk, 0) && CanStart(w.disk, |s.sizes|)
    requires |s.sizes| < Slots(r) && RotationListed(r, w.disk, listing)
    ensures var e := Rotating(r, w.disk);
      && Tall(e, false, 0, [s.size] + s.sizes) && Since(e, 0) && Descending(e) && CanStart(e, |s.sizes| + 1)
  {
    TallShift(w.disk, s.size, s.sizes, Slots(r));
    ShiftStart(w.disk, |s.sizes|, Slots(r));
    RotateOrders(r, now, w, listing);
    DatedIsDescending(r, now, Rotating(r, w.disk));
  }

  /** A maintenance that rotates makes two passes. */
  lemma {:induction false} TwoPasses(r: Retention, now: int, w: World, rotateListing: seq<Name>, listing: seq<Name>)
    requires w.Valid() && Slots(r) > 0 && NeedsRotation(r, now, w)
    requires MaintenanceListed(r, now, w, rotateListing, listing)
    ensures Rotating(r, w.disk).Valid()
    ensures var settled := OpenCurrent(Cleanup(r, now, Rotating(r, w.disk), rotateListing), now);
      && Enumerates(rotateListing, Rotating(r, w.disk).names.Keys) && Enumerates(listing, settled.disk.names.Keys)
      && Maintain(r, now, w, rotateListing, listing).disk == Cleanup(r, now, settled.disk, listing)
  {
    ShiftIsValid(w.disk, Slots(r));
  }

  lemma {:induction false} HoleStaysOpen(r: Retention, now: int, e: Disk, sizes: seq<nat>, i: nat,
                                         rotateListing: seq<Name>, listing: seq<Name>)
    requires Accepted(r) && Tall(e, false, 0, sizes) && |sizes| < r.maxFiles
    requires Enumerates(rotateListing, e.names.Keys) && HoleAt(Cleanup(r, now, e, rotateListing).names, i)
    requires StartsInSlot(Cleanup(r, now, e, rotateListing), i + 2)
    requires Enumerates(listing, OpenCurrent(Cleanup(r, now, e, rotateListing), now).disk.names.Keys)
    ensures var d := Cleanup(r, now, OpenCurrent(Cleanup(r, now, e, rotateListing), now).disk, listing);
      HoleAt(d.names, i) && StartsInSlot(d, i + 2)
  {
    OpenedIdle(r, now, e, sizes, rotateListing, listing);
    OpenedStarts(Cleanup(r, now, e, rotateListing), now, i + 2);
  }

  lemma {:induction false} DatedIsDescending(r: Retention, now: int, d: Disk)
    requires d.Valid() && Dated(r, now, d) && Since(d, 0) && now <= r.maxAge
    ensures Descending(d)
  {
    assert forall j: nat | Rotated(j) in d.names :: Rotated(j) in d.Logs();
  }

  /** The fresh file takes no room, so the last pass changes nothing. */
  lemma {:induction false} OpenedIdle(r: Retention, now: int, e: Disk, sizes: seq<nat>, rotateListing: seq<Name>,
                                      listing: seq<Name>)
    requires Accepted(r) && Tall(e, false, 0, sizes) && |sizes| < r.maxFiles
    requires Enumerates(rotateListing, e.names.Keys) && Cleanup(r, now, e, rotateListing).Valid()
    requires Enumerates(listing, OpenCurrent(Cleanup(r, now, e, rotateListing), now).disk.names.Keys)
    ensures var d := OpenCurrent(Cleanup(r, now, e, rotateListing), now).disk; Cleanup(r, now, d, listing) == d
  {
    var left := Cleanup(r, now, e, rotateListing);
    CleanupBounds(r, now, e, rotateListing);
    AboveSum(e, false, 0, sizes, |sizes|);
    TallNames(e, false, 0, sizes);
    SubsetSize(left.Logs(), e.Logs());
    FreshIsBounded(r, now, left);
    CleanupIdleIff(r, now, OpenCurrent(left, now).disk, listing);
  }

  // ------------------------------------------------------------------------
  // The runs
  // ------------------------------------------------------------------------

  /** `full` full files on top of an older one of a single byte. */
  function Column(full: nat, most: nat): seq<nat> {
    if full == 0 then [1] else [most] + Column(full - 1, most)
  }

  lemma {:induction false} ColumnAt(full: nat, most: nat, i: nat)
    ensures |Column(full, most)| == full + 1
    ensures i <= full ==> Column(full, most)[i] == if i < full then most else 1
  {
    if full > 0 {
      ColumnAt(full - 1, most, if i > 0 then i - 1 else 0);
    }
  }

  lemma {:induction false} SumCons(first: nat, sizes: seq<nat>, k: nat)
    requires k <= |sizes|
    ensures Sum([first] + sizes, k + 1) == first + Sum(sizes, k)
  {
    if k > 0 {
      SumCons(first, sizes, k - 1);
    }
  }

  lemma {:induction false} ColumnSum(full: nat, most: nat, k: nat)
    requires k <= |Column(full, most)|
    ensures Sum(Column(full, most), k) == if k <= full then FullBytes(k, most) else FullBytes(full, most) + 1
  {
    ColumnAt(full, most, if k > 0 then k - 1 else 0);
    if k > 0 {
      ColumnSum(full, most, k - 1);
    }
  }

  /** What a column needs. */
  predicate ColumnFits(r: Retention, full: nat) {
    && 1 < r.maxFileBytes && 0 < full < Slots(r) && r.maxTotalBytes < U64_MAX
    && FullBytes(full, r.maxFileBytes) + 1 <= r.maxTotalBytes && r.maxFiles <= r.maxAge
  }

  lemma {:induction false} ColumnRoom(r: Retention, full: nat)
    requires Accepted(r) && ColumnFits(r, full)
    ensures var sizes := Column(full, r.maxFileBytes);
      && |sizes| == full + 1 && Sum(sizes, |sizes|) == FullBytes(full, r.maxFileBytes) + 1
      && (forall i | 0 <= i < |sizes| :: sizes[i] <= r.maxFileBytes)
      && HasRoom(r, false, 0, sizes)
  {
    var sizes := Column(full, r.maxFileBytes);
    ColumnAt(full, r.maxFileBytes, 0);
    ColumnSum(full, r.maxFileBytes, full + 1);
    forall i | 0 <= i < |sizes|
      ensures sizes[i] <= r.maxFileBytes
    {
      ColumnAt(full, r.maxFileBytes, i);
    }
  }

  lemma {:induction false} StartIsTower(r: Retention)
    requires Accepted(r)
    ensures Tower(NewLog(r), Shape(0, [])) && NewLog(r).clock == 0
  {
    CleanupBounds(r, 0, Nothing(), []);
    var left := Cleanup(r, 0, Nothing(), []);
    assert left.names == map[];
    OpenOrders(left, 0, 0);
  }

  lemma {:induction false} RunOneMore(r: Retention, w: World, calls: seq<Call>, c: Call, length: nat)
    requires Accepted(r) && w.Valid() && StrictRun(r, w, calls) && Marked(r, w, calls, length)
    requires MarkedCall(r, Reached(r, w, calls), c, length == 0) && Reached(r, w, calls).clock < c.now
    ensures StrictRun(r, w, calls + [c]) && Marked(r, w, calls + [c], length + |c.buf|)
    ensures Reached(r, w, calls + [c]) == After(r, Reached(r, w, calls), c)
  {
    MarkedThen(r, w, calls, c, length);
    assert (calls + [c])[..|calls|] == calls;
  }

  /** The run has written `length` bytes, one call a tick, and left this shape. */
  ghost predicate Raised(r: Retention, calls: seq<Call>, s: Shape, length: nat)
    requires Accepted(r)
  {
    && StrictRun(r, NewLog(r), calls) && Marked(r, NewLog(r), calls, length)
    && Tower(Reached(r, NewLog(r), calls), s) && Reached(r, NewLog(r), calls).clock == |calls|
    && (length == 0 <==> s == Shape(0, []))
  }

  lemma {:induction false} NothingRaised(r: Retention)
    requires Accepted(r)
    ensures Raised(r, [], Shape(0, []), 0)
  {
    StartIsTower(r);
    NothingMarked(r, NewLog(r));
  }

  lemma {:induction false} RaisedNext(r: Retention, calls: seq<Call>, s: Shape, written: nat, length: nat, next: Shape)
    returns (more: seq<Call>)
    requires Accepted(r) && Raised(r, calls, s, written) && |calls| < r.maxAge && CanGrow(r, s, length)
    requires next == s.Grown(r, length).Settled(r)
    ensures |more| == |calls| + 1 && Raised(r, more, next, written + length)
  {
    var c := GrowthCall(r, Reached(r, NewLog(r), calls), s, length);
    RunOneMore(r, NewLog(r), calls, c, written);
    more := calls + [c];
  }

  /** `length` more bytes fit. */
  predicate CanGrow(r: Retention, s: Shape, length: nat) {
    && s.size < r.maxFileBytes && 0 < length <= r.maxFileBytes && s.size + length <= U64_MAX
    && (s.Rotates(r, length) ==> s.CanPush(r)) && s.Grown(r, length).CanSettle(r)
  }

  lemma {:induction false} GrowthCall(r: Retention, w: World, s: Shape, length: nat) returns (c: Call)
    requires Accepted(r) && Tower(w, s) && w.clock < r.maxAge && CanGrow(r, s, length)
    ensures MarkedCall(r, w, c, s == Shape(0, [])) && |c.buf| == length && c.now == w.clock + 1
    ensures Tower(After(r, w, c), s.Grown(r, length).Settled(r)) && After(r, w, c).clock == c.now
  {
    c := SomeWrite(r, w, length, s == Shape(0, []));
    TowerWrite(r, w, s, c, length);
  }

  lemma {:induction false} ColumnRun(r: Retention, full: nat) returns (calls: seq<Call>)
    requires Accepted(r) && ColumnFits(r, full)
    ensures |calls| == full + 1
    ensures Raised(r, calls, Shape(0, Column(full, r.maxFileBytes)), FullBytes(full, r.maxFileBytes) + 1)
  {
    var most := r.maxFileBytes;
    if full == 1 {
      FirstShapes(r, full);
      NothingRaised(r);
      var first := RaisedNext(r, [], Shape(0, []), 0, 1, Shape(1, []));
      calls := RaisedNext(r, first, Shape(1, []), 1, most, Shape(0, Column(full, most)));
    } else {
      var before := ColumnRun(r, full - 1);
      NextShape(r, full);
      var s := Shape(0, Column(full - 1, most));
      calls := RaisedNext(r, before, s, FullBytes(full - 1, most) + 1, most, Shape(0, Column(full, most)));
    }
  }

  lemma {:induction false} FirstShapes(r: Retention, full: nat)
    requires Accepted(r) && ColumnFits(r, full) && full == 1
    ensures var s := Shape(0, []); CanGrow(r, s, 1) && s.Grown(r, 1).Settled(r) == Shape(1, [])
    ensures var s, most := Shape(1, []), r.maxFileBytes;
      CanGrow(r, s, most) && s.Grown(r, most).Settled(r) == Shape(0, Column(full, most))
    ensures FullBytes(full, r.maxFileBytes) == r.maxFileBytes
  {
    var most := r.maxFileBytes;
    ColumnRoom(r, full);
    assert Column(0, most) == [1] && Column(1, most) == [most] + [1];
    assert [1] + [] == [1];
    assert Sum([1], 1) == 1;
  }

  lemma {:induction false} NextShape(r: Retention, full: nat)
    requires Accepted(r) && ColumnFits(r, full) && 1 < full
    ensures var s, most := Shape(0, Column(full - 1, r.maxFileBytes)), r.maxFileBytes;
      CanGrow(r, s, most) && s.Grown(r, most).Settled(r) == Shape(0, Column(full, most))
  {
    ColumnRoom(r, full);
  }

  // ------------------------------------------------------------------------
  // The exact settings
  // ------------------------------------------------------------------------

  /** Room for all rotated files but the oldest, or for one file and no more. */
  predicate StrictlyHoleFree(r: Retention) {
    RoomAboveLast(r) || OneFileOfBytes(r)
  }

  /** A log opened on a directory without logs, and any calls to it, no two of which
    read the same time. */
  ghost predicate StrictRunFromNothing(r: Retention, found: Disk, now: int, first: seq<Name>, calls: seq<Call>)
    requires Accepted(r)
  {
    && found.Valid() && found.Logs() == {}
    && Enumerates(first, found.names.Keys)
    && StrictRun(r, OpenCurrent(Cleanup(r, now, found, first), now), calls)
  }

  /** After every such run, the log is an unbroken chain that holds the last bytes
    accepted. */
  ghost predicate AlwaysHoldsTheEndStrictly(r: Retention)
    requires Accepted(r)
  {
    forall found: Disk, now: int, first: seq<Name>, calls: seq<Call> |
      StrictRunFromNothing(r, found, now, first, calls) ::
      var w := OpenCurrent(Cleanup(r, now, found, first), now);
      HoldsTheEnd(r, Reached(r, w, calls), Stream(r, w, calls))
  }

  /** After every such run, the bytes in the log are the last bytes accepted. */
  ghost predicate AlwaysKeepsASuffixStrictly(r: Retention)
    requires Accepted(r)
  {
    forall found: Disk, now: int, first: seq<Name>, calls: seq<Call> |
      StrictRunFromNothing(r, found, now, first, calls) ::
      var w := OpenCurrent(Cleanup(r, now, found, first), now);
      KeepsASuffix(r, Reached(r, w, calls), Stream(r, w, calls))
  }

  lemma {:induction false} StrictlyHoleFreeHolds(r: Retention)
    requires Accepted(r) && StrictlyHoleFree(r)
    ensures AlwaysHoldsTheEndStrictly(r) && AlwaysKeepsASuffixStrictly(r)
  {
    forall found: Disk, now: int, first: seq<Name>, calls: seq<Call> | StrictRunFromNothing(r, found, now, first, calls)
      ensures var w := OpenCurrent(Cleanup(r, now, found, first), now);
        var reached, stream := Reached(r, w, calls), Stream(r, w, calls);
        HoldsTheEnd(r, reached, stream) && KeepsASuffix(r, reached, stream)
    {
      var k, w := 0, OpenCurrent(Cleanup(r, now, found, first), now);
      if RoomAboveLast(r) {
        k := StrictLogHoldsTheEnd(r, found, now, first, calls);
      } else {
        k := OneFileHoldsTheEnd(r, found, now, first, calls);
      }
      HoldingKeepsASuffix(r, Reached(r, w, calls), k, Stream(r, w, calls));
    }
  }

  /** For file limits of 3 bytes and more and age limits of at least `max_files` clock
    ticks, the condition is exact, for the files and for the bytes in them: under all
    other settings there is a run after which an older, smaller file is there and a
    newer one is not. */
  lemma {:induction false} AlwaysHoldsTheEndStrictlyIff(r: Retention)
    requires Accepted(r) && 3 <= r.maxFileBytes && r.maxFiles <= r.maxAge
    ensures AlwaysHoldsTheEndStrictly(r) <==> StrictlyHoleFree(r)
    ensures AlwaysKeepsASuffixStrictly(r) <==> StrictlyHoleFree(r)
  {
    if StrictlyHoleFree(r) {
      StrictlyHoleFreeHolds(r);
    } else {
      var calls, i := StrictHoleRun(r);
      HoleIsNoEnd(r, Reached(r, NewLog(r), calls), i, Stream(r, NewLog(r), calls));
      assert StrictRunFromNothing(r, Nothing(), 0, [], calls);
    }
  }

  /** The file in slot `i` is gone, the one below it is not, and the bytes in the log
    are not the last bytes accepted. */
  ghost predicate LostAt(r: Retention, calls: seq<Call>, i: nat)
    requires Accepted(r)
  {
    && HoleAt(Reached(r, NewLog(r), calls).disk.names, i)
    && !KeepsASuffix(r, Reached(r, NewLog(r), calls), Stream(r, NewLog(r), calls))
  }

  lemma {:induction false} StrictHoleRun(r: Retention) returns (calls: seq<Call>, i: nat)
    requires Accepted(r) && 3 <= r.maxFileBytes && r.maxFiles <= r.maxAge && !StrictlyHoleFree(r)
    ensures StrictRun(r, NewLog(r), calls) && HoleAt(Reached(r, NewLog(r), calls).disk.names, i)
    ensures !KeepsASuffix(r, Reached(r, NewLog(r), calls), Stream(r, NewLog(r), calls))
  {
    var full := FullBelow(r);
    var slack := r.maxTotalBytes - FullBytes(full, r.maxFileBytes);
    i := if slack <= r.maxFileBytes - 2 then full - 1 else full;
    if slack <= r.maxFileBytes - 2 {
      calls := HoleBelowCurrent(r, full);
    } else if slack == r.maxFileBytes - 1 {
      calls := HoleBelowFull(r, full);
    } else {
      calls := HoleBelowTwo(r, full);
    }
  }

  /** Full files, and a current file that leaves no room for the oldest of them. */
  lemma {:induction false} HoleBelowCurrent(r: Retention, full: nat) returns (calls: seq<Call>)
    requires Accepted(r) && ColumnFits(r, full)
    requires r.maxTotalBytes <= FullBytes(full, r.maxFileBytes) + r.maxFileBytes - 2
    ensures StrictRun(r, NewLog(r), calls) && LostAt(r, calls, full - 1)
  {
    var column := ColumnRun(r, full);
    var length := SkipsWithCurrent(r, full);
    ColumnAt(full, r.maxFileBytes, 0);
    calls := LastWrite(r, column, Shape(0, Column(full, r.maxFileBytes)), FullBytes(full, r.maxFileBytes) + 1, length,
                       full - 1);
  }

  /** One full file too many. */
  lemma {:induction false} HoleBelowFull(r: Retention, full: nat) returns (calls: seq<Call>)
    requires Accepted(r) && ColumnFits(r, full) && full + 1 < Slots(r)
    requires r.maxTotalBytes == FullBytes(full, r.maxFileBytes) + r.maxFileBytes - 1
    ensures StrictRun(r, NewLog(r), calls) && LostAt(r, calls, full)
  {
    var column := ColumnRun(r, full);
    SkipsWithoutCurrent(r, full);
    calls := LastWrite(r, column, Shape(0, Column(full, r.maxFileBytes)), FullBytes(full, r.maxFileBytes) + 1,
                       r.maxFileBytes, full);
  }

  /** Two nearly full files on top, one of them the current file. */
  lemma {:induction false} HoleBelowTwo(r: Retention, full: nat) returns (calls: seq<Call>)
    requires Accepted(r) && 3 <= r.maxFileBytes && ColumnFits(r, full) && full + 1 < Slots(r)
    requires r.maxTotalBytes == FullBytes(full, r.maxFileBytes) + r.maxFileBytes
    ensures StrictRun(r, NewLog(r), calls) && LostAt(r, calls, full)
  {
    var taller := NearlyFull(r, full);
    NearlyFullRotates(r, full);
    calls := LastWrite(r, taller, Shape(r.maxFileBytes - 1, Column(full, r.maxFileBytes)), r.maxTotalBytes,
                       r.maxFileBytes - 1, full);
  }

  /** A write past the budget that leaves a hole above the oldest file. */
  lemma {:induction false} LastWrite(r: Retention, before: seq<Call>, s: Shape, written: nat, length: nat, i: nat)
    returns (calls: seq<Call>)
    requires Accepted(r) && r.maxTotalBytes < U64_MAX && Raised(r, before, s, written) && |before| < r.maxAge
    requires s.sizes != [] && CanSkip(r, s, length, i) && i + 2 <= Slots(r) && written + length > r.maxTotalBytes
    ensures StrictRun(r, NewLog(r), calls) && LostAt(r, calls, i)
  {
    var c := HoleCall(r, Reached(r, NewLog(r), before), s, length, i);
    LastCall(r, before, c, written, i);
    calls := before + [c];
  }

  lemma {:induction false} LastCall(r: Retention, before: seq<Call>, c: Call, written: nat, i: nat)
    requires Accepted(r) && r.maxTotalBytes < U64_MAX && StrictRun(r, NewLog(r), before)
    requires Marked(r, NewLog(r), before, written) && 0 < written && c.Write? && written + |c.buf| > r.maxTotalBytes
    requires var w := Reached(r, NewLog(r), before);
      && w.HandleIsCurrent() && MarkedCall(r, w, c, false) && w.clock < c.now
      && HoleAt(After(r, w, c).disk.names, i) && StartsInSlot(After(r, w, c).disk, i + 2) && i + 2 <= Slots(r)
    ensures StrictRun(r, NewLog(r), before + [c]) && LostAt(r, before + [c], i)
  {
    RunOneMore(r, NewLog(r), before, c, written);
    StartOutlives(r, NewLog(r), before, c, written, i + 2);
  }

  lemma {:induction false} HoleCall(r: Retention, w: World, s: Shape, length: nat, i: nat) returns (c: Call)
    requires Accepted(r) && r.maxTotalBytes < U64_MAX && Tower(w, s) && s.sizes != [] && w.clock < r.maxAge
    requires CanSkip(r, s, length, i)
    ensures MarkedCall(r, w, c, false) && |c.buf| == length && c.now == w.clock + 1
    ensures HoleAt(After(r, w, c).disk.names, i) && StartsInSlot(After(r, w, c).disk, i + 2)
  {
    c := SomeWrite(r, w, length, false);
    HoleWrite(r, w, s, c, length, i);
  }

  lemma {:induction false} NearlyFull(r: Retention, full: nat) returns (calls: seq<Call>)
    requires Accepted(r) && 3 <= r.maxFileBytes && ColumnFits(r, full) && full + 1 < Slots(r)
    requires r.maxTotalBytes == FullBytes(full, r.maxFileBytes) + r.maxFileBytes
    ensures |calls| == full + 2
    ensures Raised(r, calls, Shape(r.maxFileBytes - 1, Column(full, r.maxFileBytes)), r.maxTotalBytes)
  {
    var s := Shape(0, Column(full, r.maxFileBytes));
    var before := ColumnRun(r, full);
    NearlyFullFits(r, full);
    calls := RaisedNext(r, before, s, FullBytes(full, r.maxFileBytes) + 1, r.maxFileBytes - 1,
                        Shape(r.maxFileBytes - 1, Column(full, r.maxFileBytes)));
  }

  /** As many full files as fit next to one byte. */
  lemma {:induction false} FullBelow(r: Retention) returns (full: nat)
    requires Accepted(r) && 3 <= r.maxFileBytes && r.maxFiles <= r.maxAge && !StrictlyHoleFree(r)
    ensures ColumnFits(r, full) && r.maxTotalBytes <= FullBytes(full, r.maxFileBytes) + r.maxFileBytes
    ensures r.maxTotalBytes > FullBytes(full, r.maxFileBytes) + r.maxFileBytes - 2 ==> full + 1 < Slots(r)
  {
    var most := r.maxFileBytes;
    full := 1;
    while FullBytes(full, most) + most < r.maxTotalBytes
      invariant 0 < full < Slots(r) && FullBytes(full, most) + 1 <= r.maxTotalBytes
      decreases Slots(r) - full
    {
      TooManyFull(r, full + 1);
      full := full + 1;
    }
    FullBytesIs(full + 1, most);
  }

  lemma {:induction false} TooManyFull(r: Retention, full: nat)
    requires Accepted(r) && r.maxFiles > 2 && !RoomAboveLast(r) && FullBytes(full, r.maxFileBytes) < r.maxTotalBytes
    ensures full < Slots(r)
  {
    FullBytesIs(full, r.maxFileBytes);
    if full >= r.maxFiles - 1 {
      AtMost(r.maxFiles - 1, full, r.maxFileBytes);
    }
  }

  lemma {:induction false} SkipsWithCurrent(r: Retention, full: nat) returns (length: nat)
    requires Accepted(r) && ColumnFits(r, full)
    requires r.maxTotalBytes <= FullBytes(full, r.maxFileBytes) + r.maxFileBytes - 2
    ensures CanSkip(r, Shape(0, Column(full, r.maxFileBytes)), length, full - 1)
    ensures FullBytes(full, r.maxFileBytes) + 1 + length > r.maxTotalBytes
  {
    length := r.maxTotalBytes - FullBytes(full, r.maxFileBytes) + 1;
    ColumnRoom(r, full);
    ColumnSum(full, r.maxFileBytes, full - 1);
    ColumnAt(full, r.maxFileBytes, full - 1);
    ColumnAt(full, r.maxFileBytes, full);
  }

  lemma {:induction false} SkipsWithoutCurrent(r: Retention, full: nat)
    requires Accepted(r) && ColumnFits(r, full) && full + 1 < Slots(r)
    requires r.maxTotalBytes == FullBytes(full, r.maxFileBytes) + r.maxFileBytes - 1
    ensures CanSkip(r, Shape(0, Column(full, r.maxFileBytes)), r.maxFileBytes, full)
  {
    var most := r.maxFileBytes;
    ColumnRoom(r, full);
    ColumnSum(full + 1, most, full);
    ColumnAt(full + 1, most, full);
    ColumnAt(full + 1, most, full + 1);
    var sizes := Column(full + 1, most);
    forall j | 0 <= j < |sizes|
      ensures sizes[j] <= most
    {
      ColumnAt(full + 1, most, j);
    }
    assert Column(full + 1, most) == [most] + Column(full, most);
  }

  lemma {:induction false} NearlyFullFits(r: Retention, full: nat)
    requires Accepted(r) && 3 <= r.maxFileBytes && ColumnFits(r, full) && full + 1 < Slots(r)
    requires r.maxTotalBytes == FullBytes(full, r.maxFileBytes) + r.maxFileBytes
    ensures var s, length := Shape(0, Column(full, r.maxFileBytes)), r.maxFileBytes - 1;
      && CanGrow(r, s, length)
      && s.Grown(r, length).Settled(r) == Shape(length, Column(full, r.maxFileBytes))
  {
    ColumnRoom(r, full);
  }

  lemma {:induction false} NearlyFullRotates(r: Retention, full: nat)
    requires Accepted(r) && 3 <= r.maxFileBytes && ColumnFits(r, full) && full + 1 < Slots(r)
    requires r.maxTotalBytes == FullBytes(full, r.maxFileBytes) + r.maxFileBytes
    ensures CanSkip(r, Shape(r.maxFileBytes - 1, Column(full, r.maxFileBytes)), r.maxFileBytes - 1, full)
  {
    var most, sizes := r.maxFileBytes, Column(full, r.maxFileBytes);
    ColumnRoom(r, full);
    SumCons(most - 1, sizes, full + 1);
    SumCons(most - 1, sizes, full - 1);
    ColumnSum(full, most, full - 1);
    ColumnAt(full, most, full - 1);
    ColumnAt(full, most, full);
  }
}
