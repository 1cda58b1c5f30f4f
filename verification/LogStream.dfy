/** The rotated files and the current one together hold the end of everything the
  log ever accepted (crates/keyro-core/src/logging.rs). */
module LogStream {
  import opened LogNames
  import opened LogDisk
  import opened LogCleanup
  import opened LogGuarantees
  import opened LogRotation

  predicate IsSuffix(s: seq<byte>, t: seq<byte>) {
    |s| <= |t| && s == t[|t| - |s|..]
  }

  lemma {:induction false} SuffixTransitive(s: seq<byte>, t: seq<byte>, u: seq<byte>)
    requires IsSuffix(s, t) && IsSuffix(t, u)
    ensures IsSuffix(s, u)
  {
  }

  lemma {:induction false} SuffixAppend(s: seq<byte>, t: seq<byte>, more: seq<byte>)
    requires IsSuffix(s, t)
    ensures IsSuffix(s + more, t + more)
  {
    assert (t + more)[|t + more| - |s + more|..] == t[|t| - |s|..] + more;
  }

  /** The logs are the current file, if there is one, and an unbroken chain of `k`
    rotated files. No two entries are the same file, none is too big, and none is
    newer than the one before it. */
  ghost predicate Chain(r: Retention, clock: int, d: Disk, k: nat, hasCurrent: bool)
    requires d.Valid()
  {
    && k <= Slots(r)
    && (forall n: Name :: n in d.Logs() <==> (n == Current && hasCurrent) || (n.Rotated? && n.index < k))
    && (forall i | 0 <= i < k :: Rotated(i) in d.names) && (hasCurrent ==> Current in d.names)
    && (forall m, n | m in d.Logs() && n in d.Logs() && m != n :: d.names[m] != d.names[n])
    && (forall n | n in d.Logs() :: d.Size(n) <= r.maxFileBytes && d.Modified(n) <= clock)
    && (forall i, j | 0 <= i < j < k :: d.Modified(Rotated(j)) <= d.Modified(Rotated(i)))
    && (hasCurrent ==> forall i | 0 <= i < k :: d.Modified(Rotated(i)) <= d.Modified(Current))
  }

  /** The rotated files, oldest first. */
  function ChainBytes(d: Disk, k: nat): seq<byte>
    requires d.Valid() && forall i | 0 <= i < k :: Rotated(i) in d.names
  {
    if k == 0 then [] else d.At(Rotated(k - 1)).bytes + ChainBytes(d, k - 1)
  }

  /** The rotated files, oldest first, and then the current file. */
  function Content(d: Disk, k: nat, hasCurrent: bool): seq<byte>
    requires d.Valid() && (forall i | 0 <= i < k :: Rotated(i) in d.names) && (hasCurrent ==> Current in d.names)
  {
    ChainBytes(d, k) + (if hasCurrent then d.At(Current).bytes else [])
  }

  /** What is left of the rotated files below slot `k`, oldest first, with gaps or not. */
  function Remains(d: Disk, k: nat): seq<byte>
    requires d.Valid()
  {
    if k == 0 then []
    else (if Rotated(k - 1) in d.names then d.At(Rotated(k - 1)).bytes else []) + Remains(d, k - 1)
  }

  /** The bytes in the log, oldest first. */
  function LogBytes(r: Retention, d: Disk): seq<byte>
    requires d.Valid()
  {
    Remains(d, Slots(r)) + (if Current in d.names then d.At(Current).bytes else [])
  }

  /** The bytes in the log are the last bytes accepted. */
  ghost predicate KeepsASuffix(r: Retention, w: World, stream: seq<byte>)
    requires w.Valid()
  {
    IsSuffix(LogBytes(r, w.disk), stream)
  }

  lemma {:induction false} ChainRemains(d: Disk, k: nat, m: nat)
    requires d.Valid() && k <= m && forall i: nat :: Rotated(i) in d.names <==> i < k
    ensures Remains(d, m) == ChainBytes(d, k)
    decreases m
  {
    if k < m {
      ChainRemains(d, k, m - 1);
    } else if k > 0 {
      AllRemain(d, k);
    }
  }

  lemma {:induction false} AllRemain(d: Disk, k: nat)
    requires d.Valid() && forall i | 0 <= i < k :: Rotated(i) in d.names
    ensures Remains(d, k) == ChainBytes(d, k)
  {
    if k > 0 {
      AllRemain(d, k - 1);
    }
  }

  lemma {:induction false} ChainHas(r: Retention, clock: int, d: Disk, k: nat, hasCurrent: bool)
    requires d.Valid() && Chain(r, clock, d, k, hasCurrent)
    ensures forall i | 0 <= i < k :: Rotated(i) in d.names
    ensures hasCurrent <==> Current in d.names
  {
    assert forall i | 0 <= i < k :: Rotated(i) in d.Logs();
    assert Current in d.names <==> Current in d.Logs();
  }

  lemma {:induction false} ShorterChainIsSuffix(d: Disk, j: nat, k: nat, more: seq<byte>)
    requires d.Valid() && j <= k && forall i | 0 <= i < k :: Rotated(i) in d.names
    ensures IsSuffix(ChainBytes(d, j) + more, ChainBytes(d, k) + more)
  {
    if j < k {
      ShorterChainIsSuffix(d, j, k - 1, more);
      assert ChainBytes(d, k) + more == d.At(Rotated(k - 1)).bytes + (ChainBytes(d, k - 1) + more);
    }
  }

  lemma {:induction false} ChainBytesAgree(d: Disk, e: Disk, k: nat)
    requires d.Valid() && e.Valid()
    requires forall i | 0 <= i < k ::
      Rotated(i) in d.names && Rotated(i) in e.names && d.At(Rotated(i)).bytes == e.At(Rotated(i)).bytes
    ensures ChainBytes(d, k) == ChainBytes(e, k)
  {
    if k > 0 {
      ChainBytesAgree(d, e, k - 1);
    }
  }

  /** After a shift the chain ends with what was the current file. */
  lemma {:induction false} ChainBytesShift(d: Disk, e: Disk, k: nat)
    requires d.Valid() && e.Valid() && Current in d.names && Rotated(0) in e.names
    requires e.At(Rotated(0)).bytes == d.At(Current).bytes
    requires forall i | 0 <= i < k :: Rotated(i) in d.names
    requires forall i | 0 <= i <= k :: Rotated(i) in e.names
    requires forall i | 0 <= i < k :: e.At(Rotated(i + 1)) == d.At(Rotated(i))
    ensures ChainBytes(e, k + 1) == ChainBytes(d, k) + d.At(Current).bytes
  {
    if k > 0 {
      ChainBytesShift(d, e, k - 1);
      assert e.At(Rotated(k - 1 + 1)) == d.At(Rotated(k - 1));
      assert ChainBytes(e, k + 1) == e.At(Rotated(k)).bytes + ChainBytes(e, k);
    } else {
      assert ChainBytes(e, 1) == e.At(Rotated(0)).bytes + ChainBytes(e, 0);
    }
  }

  // ------------------------------------------------------------------------
  // Cleanup cuts the chain at its old end
  // ------------------------------------------------------------------------

  /** The settings under which the byte budget never opens a hole in the chain;
    `AlwaysHoldsTheEndIff` shows that there are no others. */
  predicate HoleFree(r: Retention) {
    || r.maxFiles <= 2
    || r.maxTotalBytes == U64_MAX
    || r.maxTotalBytes >= r.maxFiles * r.maxFileBytes - 1
  }

  function RotatedNames(k: nat): set<Name> {
    if k == 0 then {} else RotatedNames(k - 1) + {Rotated(k - 1)}
  }

  lemma {:induction false} RotatedNamesCount(k: nat)
    ensures |RotatedNames(k)| == k
    ensures forall n :: n in RotatedNames(k) <==> n.Rotated? && n.index < k
  {
    if k > 0 {
      RotatedNamesCount(k - 1);
    }
  }

  /** A chain below a current file that is not full fits into the limits. */
  lemma {:induction false} ChainFits(r: Retention, clock: int, d: Disk, k: nat, hasCurrent: bool)
    requires Accepted(r) && d.Valid() && Chain(r, clock, d, k, hasCurrent)
    requires r.maxTotalBytes == U64_MAX || r.maxTotalBytes >= r.maxFiles * r.maxFileBytes - 1
    requires hasCurrent ==> Current in d.names && d.Size(Current) < r.maxFileBytes
    ensures Fits(r, d, d.Logs())
  {
    RotatedNamesCount(k);
    var rotated := RotatedNames(k);
    ChainHas(r, clock, d, k, hasCurrent);
    assert rotated <= d.Logs();
    TotalBounded(d, rotated, r.maxFileBytes);
    Room(k, r.maxFiles, r.maxFileBytes);
    if hasCurrent {
      assert d.Logs() == rotated + {Current};
      TotalAdd(d, rotated, Current);
    } else {
      assert d.Logs() == rotated;
    }
  }

  /** `k` full files and one that is not full. */
  lemma {:induction false} Room(k: nat, files: nat, bytes: nat)
    requires k < files && bytes > 0
    ensures k * bytes + bytes - 1 <= files * bytes - 1
  {
    AtMost(k + 1, files, bytes);
    assert (k + 1) * bytes == k * bytes + bytes;
  }

  lemma {:induction false} AtMost(a: nat, b: nat, c: nat)
    requires a <= b
    ensures a * c <= b * c
  {
  }

  /** Room for all rotated files but the oldest, next to a current file. */
  predicate RoomAboveLast(r: Retention) {
    || r.maxFiles <= 2
    || r.maxTotalBytes == U64_MAX
    || r.maxTotalBytes >= (r.maxFiles - 1) * r.maxFileBytes - 1
  }

  /** Each rotated file that has not expired is older than every one before it. */
  ghost predicate Dated(r: Retention, now: int, d: Disk)
    requires d.Valid()
  {
    forall i: nat, j: nat | i < j && Rotated(i) in d.names && Rotated(j) in d.names ::
      Cutoff(r, now) <= d.Modified(Rotated(j)) ==> d.Modified(Rotated(j)) < d.Modified(Rotated(i))
  }

  /** At most two rotated files, and two only without a current one. */
  ghost predicate TwoAtMost(d: Disk) {
    forall j: nat | Rotated(j) in d.names :: j <= 1 && (j == 1 ==> Current !in d.names)
  }

  /** What keeps a pass from opening a hole: the settings, or no two files that are
    equally old and either weaker settings or few files. */
  ghost predicate Closing(r: Retention, now: int, d: Disk)
    requires d.Valid()
  {
    HoleFree(r) || (Dated(r, now, d) && (RoomAboveLast(r) || TwoAtMost(d)))
  }

  /** Then a file outlives no newer one. */
  lemma {:induction false} CleanupIsClosed(r: Retention, now: int, d: Disk, listing: seq<Name>, k: nat,
                                           hasCurrent: bool, i: nat, j: nat)
    requires Accepted(r) && d.Valid() && Closing(r, now, d) && Chain(r, now, d, k, hasCurrent)
    requires Enumerates(listing, d.names.Keys)
    requires hasCurrent ==> Current in d.names && d.Size(Current) < r.maxFileBytes
    requires i < j < k && Rotated(j) in Cleanup(r, now, d, listing).names
    ensures Rotated(i) in Cleanup(r, now, d, listing).names
  {
    ChainHas(r, now, d, k, hasCurrent);
    if HoleFree(r) {
      ChainFits(r, now, d, k, hasCurrent);
      var survivors := Survivors(r, now, d);
      FitsSubset(r, d, survivors, d.Logs());
      OnlyExpiredGoesIff(r, now, d, listing);
      WithoutKeeps(d, survivors);
      assert Rotated(j) in survivors;
      assert Rotated(i) in d.Logs() && Survives(r, now, d, Rotated(i));
    } else if RoomAboveLast(r) {
      NewerStays(r, now, d, listing, k, hasCurrent, i, j);
    } else {
      FirstOfTwoStays(r, now, d, listing, k, hasCurrent);
    }
  }

  /** The newer of two files has all the room. */
  lemma {:induction false} FirstOfTwoStays(r: Retention, now: int, d: Disk, listing: seq<Name>, k: nat,
                                           hasCurrent: bool)
    requires Accepted(r) && d.Valid() && Dated(r, now, d) && TwoAtMost(d) && Chain(r, now, d, k, hasCurrent)
    requires Enumerates(listing, d.names.Keys) && k > 1
    requires Rotated(1) in Cleanup(r, now, d, listing).names
    ensures Rotated(0) in Cleanup(r, now, d, listing).names
  {
    var e := Cleanup(r, now, d, listing);
    CleanupBounds(r, now, d, listing);
    ChainHas(r, now, d, k, hasCurrent);
    assert Rotated(1) in e.Logs();
    NewerSurvives(r, now, d, k, hasCurrent, 0, 1);
    GreedyIff(r, now, d, listing, Rotated(0));
    BeforeIsAbove(r, now, d, e, k, false, 0);
    RotatedNamesCount(1);
    assert KeptBefore(d, e, Rotated(0)) == {};
    OneFits(r, d, Rotated(0));
  }

  lemma {:induction false} OneFits(r: Retention, d: Disk, n: Name)
    requires Accepted(r) && d.Valid() && n in d.names && d.Size(n) <= r.maxFileBytes
    ensures Fits(r, d, {} + {n})
  {
    TotalAdd(d, {}, n);
  }

  /** With files of different ages, only newer files take room from a file. */
  lemma {:induction false} NewerStays(r: Retention, now: int, d: Disk, listing: seq<Name>, k: nat, hasCurrent: bool,
                                      i: nat, j: nat)
    requires Accepted(r) && r.maxFiles > 2 && RoomAboveLast(r)
    requires d.Valid() && Dated(r, now, d) && Chain(r, now, d, k, hasCurrent)
    requires Enumerates(listing, d.names.Keys)
    requires hasCurrent ==> Current in d.names && d.Size(Current) < r.maxFileBytes
    requires i < j < k && Rotated(j) in Cleanup(r, now, d, listing).names
    ensures Rotated(i) in Cleanup(r, now, d, listing).names
  {
    var e := Cleanup(r, now, d, listing);
    CleanupBounds(r, now, d, listing);
    assert Rotated(j) in e.Logs();
    NewerSurvives(r, now, d, k, hasCurrent, i, j);
    GreedyIff(r, now, d, listing, Rotated(i));
    RoomForNewer(r, now, d, e, k, hasCurrent, i);
  }

  lemma {:induction false} RoomForNewer(r: Retention, now: int, d: Disk, e: Disk, k: nat, hasCurrent: bool, i: nat)
    requires Accepted(r) && r.maxFiles > 2 && RoomAboveLast(r)
    requires d.Valid() && e.Valid() && Dated(r, now, d) && Chain(r, now, d, k, hasCurrent) && i + 1 < k
    requires hasCurrent ==> Current in d.names && d.Size(Current) < r.maxFileBytes
    requires e.Logs() <= Survivors(r, now, d) && e.inodes == d.inodes
    requires forall n | n in e.names :: n in d.names && e.names[n] == d.names[n]
    requires Rotated(i) in d.names && KeptBefore(d, e, Rotated(i)) <= d.names.Keys
    ensures Fits(r, d, KeptBefore(d, e, Rotated(i)) + {Rotated(i)})
  {
    BeforeIsAbove(r, now, d, e, k, hasCurrent, i);
    TopFits(r, now, d, k, hasCurrent, i + 1);
    NextFits(r, d, KeptBefore(d, e, Rotated(i)), Above(i + 1, hasCurrent), i);
  }

  /** The newest `m` rotated files and the current file. */
  function Above(m: nat, hasCurrent: bool): set<Name> {
    if hasCurrent then RotatedNames(m) + {Current} else RotatedNames(m)
  }

  lemma {:induction false} NextFits(r: Retention, d: Disk, before: set<Name>, above: set<Name>, i: nat)
    requires d.Valid() && before <= above <= d.names.Keys && Fits(r, d, above) && Rotated(i) in above
    ensures Fits(r, d, before + {Rotated(i)})
  {
    FitsSubset(r, d, before + {Rotated(i)}, above);
  }

  lemma {:induction false} BeforeIsAbove(r: Retention, now: int, d: Disk, e: Disk, k: nat, hasCurrent: bool, i: nat)
    requires d.Valid() && e.Valid() && Dated(r, now, d) && Chain(r, now, d, k, hasCurrent) && i < k
    requires e.Logs() <= Survivors(r, now, d) && e.inodes == d.inodes
    requires forall n | n in e.names :: n in d.names && e.names[n] == d.names[n]
    requires Rotated(i) in d.names
    ensures KeptBefore(d, e, Rotated(i)) <= Above(i + 1, hasCurrent) && Rotated(i) in Above(i + 1, hasCurrent)
  {
    forall n | n in KeptBefore(d, e, Rotated(i))
      ensures n in Above(i + 1, hasCurrent)
    {
      OneBeforeIsAbove(r, now, d, e, k, hasCurrent, i, n);
    }
    RotatedNamesCount(i + 1);
  }

  lemma {:induction false} OneBeforeIsAbove(r: Retention, now: int, d: Disk, e: Disk, k: nat, hasCurrent: bool, i: nat,
                                            n: Name)
    requires d.Valid() && e.Valid() && Dated(r, now, d) && Chain(r, now, d, k, hasCurrent) && i < k
    requires e.Logs() <= Survivors(r, now, d) && e.inodes == d.inodes
    requires forall n | n in e.names :: n in d.names && e.names[n] == d.names[n]
    requires Rotated(i) in d.names && n in KeptBefore(d, e, Rotated(i))
    ensures n in Above(i + 1, hasCurrent)
  {
    KeptIsNewer(d, e, Rotated(i), n);
    assert n in Survivors(r, now, d);
    OnlyNewerKeptBefore(r, now, d, e, k, hasCurrent, i, n);
    InAbove(n, i + 1, hasCurrent);
  }

  lemma {:induction false} KeptIsNewer(d: Disk, e: Disk, than: Name, n: Name)
    requires d.Valid() && e.Valid() && than in d.names && n in KeptBefore(d, e, than)
    requires e.inodes == d.inodes && forall m | m in e.names :: m in d.names && e.names[m] == d.names[m]
    ensures n in e.Logs() && n in d.names && (n == Current || d.Modified(n) >= d.Modified(than))
  {
  }

  lemma {:induction false} InAbove(n: Name, m: nat, hasCurrent: bool)
    ensures n in Above(m, hasCurrent) <==> (n == Current && hasCurrent) || (n.Rotated? && n.index < m)
  {
    RotatedNamesCount(m);
  }

  lemma {:induction false} OnlyNewerKeptBefore(r: Retention, now: int, d: Disk, e: Disk, k: nat, hasCurrent: bool,
                                               i: nat, n: Name)
    requires d.Valid() && e.Valid() && Dated(r, now, d) && Chain(r, now, d, k, hasCurrent) && i < k
    requires n in e.Logs() && n in d.Logs() && Rotated(i) in d.names
    requires Survives(r, now, d, n) && e.At(n) == d.At(n)
    requires n == Current || d.Modified(n) >= d.Modified(Rotated(i))
    ensures (n == Current && hasCurrent) || (n.Rotated? && n.index <= i)
  {
  }

  lemma {:induction false} NewerSurvives(r: Retention, now: int, d: Disk, k: nat, hasCurrent: bool, i: nat, j: nat)
    requires d.Valid() && Chain(r, now, d, k, hasCurrent) && i < j < k
    requires Rotated(j) in Survivors(r, now, d)
    ensures Rotated(i) in Survivors(r, now, d)
  {
    assert Rotated(i) in d.Logs() && d.Modified(Rotated(j)) <= d.Modified(Rotated(i));
  }

  /** The newest `m` rotated files, but not all there may be, fit next to the current one. */
  lemma {:induction false} TopFits(r: Retention, clock: int, d: Disk, k: nat, hasCurrent: bool, m: nat)
    requires Accepted(r) && r.maxFiles > 2 && RoomAboveLast(r) && d.Valid() && Chain(r, clock, d, k, hasCurrent)
    requires m < k
    requires hasCurrent ==> Current in d.names && d.Size(Current) < r.maxFileBytes
    ensures Above(m, hasCurrent) <= d.names.Keys && Fits(r, d, Above(m, hasCurrent))
  {
    RotatedNamesCount(m);
    ChainHas(r, clock, d, k, hasCurrent);
    var rotated := RotatedNames(m);
    assert rotated <= d.Logs();
    TotalBounded(d, rotated, r.maxFileBytes);
    Room(m, r.maxFiles - 1, r.maxFileBytes);
    if hasCurrent {
      TotalAdd(d, rotated, Current);
    }
  }

  lemma {:induction false} WhereItEnds(names: map<Name, InodeId>, k: nat) returns (end: nat)
    requires forall i, j | 0 <= i < j < k && Rotated(j) in names :: Rotated(i) in names
    ensures end <= k && forall i | 0 <= i < k :: Rotated(i) in names <==> i < end
  {
    if k == 0 || Rotated(k - 1) in names {
      end := k;
    } else {
      end := WhereItEnds(names, k - 1);
    }
  }

  /** A chain cut at its old end is a chain. */
  lemma {:induction false} CutIsChain(r: Retention, now: int, d: Disk, e: Disk, k: nat, end: nat, hasCurrent: bool)
    requires d.Valid() && e.Valid() && Chain(r, now, d, k, hasCurrent) && end <= k
    requires e.names.Keys <= d.names.Keys && forall n | n in e.names :: e.names[n] == d.names[n] && e.At(n) == d.At(n)
    requires forall i | 0 <= i < k :: Rotated(i) in e.names <==> i < end
    requires hasCurrent <==> Current in e.names
    ensures Chain(r, now, e, end, hasCurrent)
  {
    forall n: Name
      ensures n in e.Logs() <==> (n == Current && hasCurrent) || (n.Rotated? && n.index < end)
    {
      assert n in e.Logs() ==> n in d.Logs();
    }
  }

  /** A pass over a chain leaves a chain, and what it holds is the end of what the
    chain held before. */
  lemma {:induction false} CleanupCutsChain(r: Retention, now: int, d: Disk, listing: seq<Name>, k: nat,
                                            hasCurrent: bool) returns (end: nat)
    requires Accepted(r) && d.Valid() && Closing(r, now, d) && Chain(r, now, d, k, hasCurrent)
    requires Enumerates(listing, d.names.Keys)
    requires hasCurrent ==> Current in d.names && d.Size(Current) < r.maxFileBytes && Survives(r, now, d, Current)
    ensures var e := Cleanup(r, now, d, listing);
      && e.Valid() && Chain(r, now, e, end, hasCurrent)
      && (forall i | 0 <= i < end :: Rotated(i) in e.names) && (forall i | 0 <= i < k :: Rotated(i) in d.names)
      && (hasCurrent ==> Current in e.names && Current in d.names && e.At(Current) == d.At(Current))
      && IsSuffix(Content(e, end, hasCurrent), Content(d, k, hasCurrent))
  {
    var e := Cleanup(r, now, d, listing);
    CleanupBounds(r, now, d, listing);
    ChainHas(r, now, d, k, hasCurrent);
    forall i, j | 0 <= i < j < k && Rotated(j) in e.names
      ensures Rotated(i) in e.names
    {
      CleanupIsClosed(r, now, d, listing, k, hasCurrent, i, j);
    }
    end := WhereItEnds(e.names, k);
    CutIsChain(r, now, d, e, k, end, hasCurrent);
    ChainBytesAgree(d, e, end);
    ShorterChainIsSuffix(d, end, k, if hasCurrent then d.At(Current).bytes else []);
  }

  // ------------------------------------------------------------------------
  // The steps of the log on a chain
  // ------------------------------------------------------------------------

  /** Before cleanup, a rotation moves the current file into the chain. */
  lemma {:induction false} ShiftExtendsChain(r: Retention, now: int, d: Disk, k: nat) returns (end: nat)
    requires Accepted(r) && Slots(r) > 0 && d.Valid() && Chain(r, now, d, k, true)
    ensures var e := Rotating(r, d);
      && e.Valid() && Chain(r, now, e, end, false)
      && (forall i | 0 <= i < end :: Rotated(i) in e.names)
      && (forall i | 0 <= i < k :: Rotated(i) in d.names) && Current in d.names
      && IsSuffix(Content(e, end, false), Content(d, k, true))
  {
    var e, slots := Rotating(r, d), Slots(r);
    ShiftIsExact(d.names, slots);
    ShiftIsValid(d, slots);
    end := if k < slots then k + 1 else slots;
    ShiftedIsChain(r, now, d, e, k, end);
    ShiftedContent(r, now, d, e, k, end);
  }

  lemma {:induction false} ShiftedIsChain(r: Retention, now: int, d: Disk, e: Disk, k: nat, end: nat)
    requires Slots(r) > 0 && d.Valid() && e.Valid() && Chain(r, now, d, k, true)
    requires e.inodes == d.inodes && IsShift(d.names, e.names, Slots(r))
    requires end == if k < Slots(r) then k + 1 else Slots(r)
    ensures Chain(r, now, e, end, false)
  {
    ShiftedLogs(r, now, d, e, k, end);
    ShiftedApart(r, now, d, e, k, end);
    ShiftedFit(r, now, d, e, k, end);
    assert forall i | 0 <= i < end :: Rotated(i) in e.Logs();
    ShiftedInOrder(r, now, d, e, k, end);
  }

  lemma {:induction false} ShiftedFit(r: Retention, now: int, d: Disk, e: Disk, k: nat, end: nat)
    requires Slots(r) > 0 && d.Valid() && e.Valid() && Chain(r, now, d, k, true)
    requires e.inodes == d.inodes && IsShift(d.names, e.names, Slots(r))
    requires end == if k < Slots(r) then k + 1 else Slots(r)
    ensures forall n | n in e.Logs() :: e.Size(n) <= r.maxFileBytes && e.Modified(n) <= now
  {
    ShiftedLogs(r, now, d, e, k, end);
    forall n | n in e.Logs()
      ensures e.Size(n) <= r.maxFileBytes && e.Modified(n) <= now
    {
      assert e.At(n) == d.At(Origin(n, Slots(r)));
    }
  }

  lemma {:induction false} ShiftedInOrder(r: Retention, now: int, d: Disk, e: Disk, k: nat, end: nat)
    requires Slots(r) > 0 && d.Valid() && e.Valid() && Chain(r, now, d, k, true)
    requires e.inodes == d.inodes && IsShift(d.names, e.names, Slots(r))
    requires end == if k < Slots(r) then k + 1 else Slots(r)
    requires forall i | 0 <= i < end :: Rotated(i) in e.names
    ensures forall i, j | 0 <= i < j < end :: e.Modified(Rotated(j)) <= e.Modified(Rotated(i))
  {
    ChainHas(r, now, d, k, true);
    ShiftedFiles(d, e, Slots(r), end);
    forall i, j | 0 <= i < j < end
      ensures e.Modified(Rotated(j)) <= e.Modified(Rotated(i))
    {
      assert e.At(Rotated(j - 1 + 1)) == d.At(Rotated(j - 1));
      if i > 0 {
        assert e.At(Rotated(i - 1 + 1)) == d.At(Rotated(i - 1));
      }
    }
  }

  lemma {:induction false} ShiftedApart(r: Retention, now: int, d: Disk, e: Disk, k: nat, end: nat)
    requires Slots(r) > 0 && d.Valid() && e.Valid() && Chain(r, now, d, k, true)
    requires e.inodes == d.inodes && IsShift(d.names, e.names, Slots(r))
    requires end == if k < Slots(r) then k + 1 else Slots(r)
    ensures forall m, n | m in e.Logs() && n in e.Logs() && m != n :: e.names[m] != e.names[n]
  {
    ShiftedLogs(r, now, d, e, k, end);
    forall m, n | m in e.Logs() && n in e.Logs() && m != n
      ensures e.names[m] != e.names[n]
    {
      assert Origin(m, Slots(r)) != Origin(n, Slots(r));
    }
  }

  lemma {:induction false} ShiftedLogs(r: Retention, now: int, d: Disk, e: Disk, k: nat, end: nat)
    requires Slots(r) > 0 && d.Valid() && e.Valid() && Chain(r, now, d, k, true)
    requires e.inodes == d.inodes && IsShift(d.names, e.names, Slots(r))
    requires end == if k < Slots(r) then k + 1 else Slots(r)
    ensures forall n: Name :: n in e.Logs() <==> n.Rotated? && n.index < end
    ensures forall n | n in e.Logs() ::
      Origin(n, Slots(r)) in d.Logs() && e.names[n] == d.names[Origin(n, Slots(r))]
  {
    var slots := Slots(r);
    forall n: Name
      ensures n in e.Logs() <==> n.Rotated? && n.index < end
      ensures n in e.Logs() ==> Origin(n, slots) in d.Logs()
    {
      if n.Rotated? {
        assert Origin(n, slots) in d.names <==> Origin(n, slots) in d.Logs();
      }
    }
  }

  lemma {:induction false} ShiftedContent(r: Retention, now: int, d: Disk, e: Disk, k: nat, end: nat)
    requires Slots(r) > 0 && d.Valid() && e.Valid() && Chain(r, now, d, k, true) && Chain(r, now, e, end, false)
    requires e.inodes == d.inodes && IsShift(d.names, e.names, Slots(r))
    requires end == if k < Slots(r) then k + 1 else Slots(r)
    ensures (forall i | 0 <= i < end :: Rotated(i) in e.names)
    ensures (forall i | 0 <= i < k :: Rotated(i) in d.names) && Current in d.names
    ensures IsSuffix(Content(e, end, false), Content(d, k, true))
  {
    ChainHas(r, now, d, k, true);
    ChainHas(r, now, e, end, false);
    ShiftedFiles(d, e, Slots(r), end);
    ShiftedBytes(d, e, k, end);
  }

  lemma {:induction false} ShiftedBytes(d: Disk, e: Disk, k: nat, end: nat)
    requires d.Valid() && e.Valid() && 0 < end <= k + 1
    requires Current in d.names && forall i | 0 <= i < k :: Rotated(i) in d.names
    requires forall i | 0 <= i < end :: Rotated(i) in e.names
    requires e.At(Rotated(0)) == d.At(Current)
    requires forall i | 0 <= i < end - 1 :: e.At(Rotated(i + 1)) == d.At(Rotated(i))
    ensures IsSuffix(Content(e, end, false), Content(d, k, true))
  {
    ChainBytesShift(d, e, end - 1);
    ShorterChainIsSuffix(d, end - 1, k, d.At(Current).bytes);
    assert Content(e, end, false) == ChainBytes(e, end);
  }

  lemma {:induction false} ShiftedFiles(d: Disk, e: Disk, slots: nat, end: nat)
    requires d.Valid() && e.Valid() && e.inodes == d.inodes && IsShift(d.names, e.names, slots) && 0 < end <= slots
    requires Current in d.names && forall i | 0 <= i < end - 1 :: Rotated(i) in d.names
    requires forall i | 0 <= i < end :: Rotated(i) in e.names
    ensures e.At(Rotated(0)) == d.At(Current)
    ensures forall i | 0 <= i < end - 1 :: e.At(Rotated(i + 1)) == d.At(Rotated(i))
  {
    assert Origin(Rotated(0), slots) == Current;
    forall i | 0 <= i < end - 1
      ensures e.At(Rotated(i + 1)) == d.At(Rotated(i))
    {
      assert Origin(Rotated(i + 1), slots) == Rotated(i);
    }
  }

  /** The pass of a rotation is closing. */
  ghost predicate ClosingRotation(r: Retention, now: int, d: Disk)
    requires d.Valid()
  {
    Slots(r) > 0 ==> Rotating(r, d).Valid() && Closing(r, now, Rotating(r, d))
  }

  /** The passes of a maintenance are. */
  ghost predicate ClosingMaintenance(r: Retention, now: int, w: World, rotateListing: seq<Name>)
    requires w.Valid()
  {
    && (NeedsRotation(r, now, w) ==> ClosingRotation(r, now, w.disk))
    && Closing(r, now, Settled(r, now, w, rotateListing).disk)
  }

  /** All passes of a call are. */
  ghost predicate ClosingCall(r: Retention, w: World, c: Call)
    requires Accepted(r) && w.Valid()
  {
    match c
    case Maintenance(now, rotateListing, listing) => ClosingMaintenance(r, now, w, rotateListing)
    case Write(buf, now, roomListing, rotateListing, listing) =>
      buf != [] ==>
        && (WriteRotates(r, w, |buf|) ==> ClosingRotation(r, now, w.disk))
        && ClosingMaintenance(r, now, Appended(r, now, w, buf, roomListing), rotateListing)
  }

  lemma {:induction false} HoleFreeIsClosing(r: Retention, w: World, c: Call)
    requires Accepted(r) && HoleFree(r) && w.Valid()
    ensures ClosingCall(r, w, c)
  {
    forall d: Disk | d.Valid() && Slots(r) > 0
      ensures Rotating(r, d).Valid()
    {
      ShiftIsValid(d, Slots(r));
    }
  }

  /** A rotation leaves a chain below a fresh current file. */
  lemma {:induction false} RotateKeepsSuffix(r: Retention, now: int, w: World, listing: seq<Name>, k: nat)
    returns (end: nat)
    requires Accepted(r) && w.Valid() && Chain(r, now, w.disk, k, true)
    requires RotationListed(r, w.disk, listing) && ClosingRotation(r, now, w.disk)
    ensures var w' := Rotate(r, now, w, listing);
      && w'.HandleIsCurrent() && w'.disk.inodes[w'.file] == Inode([], now)
      && Chain(r, now, w'.disk, end, true)
      && (forall i | 0 <= i < end :: Rotated(i) in w'.disk.names)
      && (forall i | 0 <= i < k :: Rotated(i) in w.disk.names) && Current in w.disk.names
      && IsSuffix(Content(w'.disk, end, true), Content(w.disk, k, true))
  {
    RotateIsFresh(r, now, w, listing);
    ChainHas(r, now, w.disk, k, true);
    var e := RotateDisk(r, now, w.disk, listing);
    if Slots(r) == 0 {
      end := 0;
      FreshKeepsChain(r, now, e, 0);
    } else {
      var mid := ShiftExtendsChain(r, now, w.disk, k);
      end := CleanupCutsChain(r, now, Rotating(r, w.disk), listing, mid, false);
      FreshKeepsChain(r, now, e, end);
      SuffixTransitive(Content(e, end, false), Content(Rotating(r, w.disk), mid, false), Content(w.disk, k, true));
    }
  }

  lemma {:induction false} FreshKeepsChain(r: Retention, now: int, e: Disk, k: nat)
    requires Accepted(r) && e.Valid() && Chain(r, now, e, k, false)
    ensures var d := OpenCurrent(e, now).disk;
      && Chain(r, now, d, k, true)
      && (forall i | 0 <= i < k :: Rotated(i) in e.names && Rotated(i) in d.names) && Current in d.names
      && Content(d, k, true) == Content(e, k, false)
  {
    ChainHas(r, now, e, k, false);
    FreshIsChain(r, now, e, k);
    ChainBytesAgree(e, OpenCurrent(e, now).disk, k);
  }

  lemma {:induction false} FreshIsChain(r: Retention, now: int, e: Disk, k: nat)
    requires Accepted(r) && e.Valid() && Chain(r, now, e, k, false)
    ensures Chain(r, now, OpenCurrent(e, now).disk, k, true)
  {
    ChainHas(r, now, e, k, false);
    var d := OpenCurrent(e, now).disk;
    assert d.Logs() == e.Logs() + {Current};
  }

  /** What every run keeps: a chain of `k` files below a current file that is not
    full, holding the end of `stream`. */
  ghost predicate Holds(r: Retention, w: World, k: nat, stream: seq<byte>)
    requires w.Valid()
  {
    && w.HandleIsCurrent() && w.FileSize() < r.maxFileBytes
    && Chain(r, w.clock, w.disk, k, true)
    && (forall i | 0 <= i < k :: Rotated(i) in w.disk.names)
    && IsSuffix(Content(w.disk, k, true), stream)
  }

  /** An unbroken chain is all there is. */
  lemma {:induction false} HoldingKeepsASuffix(r: Retention, w: World, k: nat, stream: seq<byte>)
    requires w.Valid() && Holds(r, w, k, stream)
    ensures KeepsASuffix(r, w, stream)
  {
    forall i: nat
      ensures Rotated(i) in w.disk.names <==> i < k
    {
      assert Rotated(i) in w.disk.names <==> Rotated(i) in w.disk.Logs();
    }
    ChainRemains(w.disk, k, Slots(r));
  }

  lemma {:induction false} ChainLater(r: Retention, clock: int, now: int, d: Disk, k: nat, hasCurrent: bool)
    requires d.Valid() && Chain(r, clock, d, k, hasCurrent) && clock <= now
    ensures Chain(r, now, d, k, hasCurrent)
  {
  }

  lemma {:induction false} MaintainKeepsSuffix(r: Retention, now: int, w: World, rotateListing: seq<Name>,
                                               listing: seq<Name>, k: nat, stream: seq<byte>)
    returns (end: nat)
    requires Accepted(r) && w.Valid() && w.HandleIsCurrent() && Chain(r, now, w.disk, k, true)
    requires ClosingMaintenance(r, now, w, rotateListing)
    requires (forall i | 0 <= i < k :: Rotated(i) in w.disk.names) && IsSuffix(Content(w.disk, k, true), stream)
    requires MaintenanceListed(r, now, w, rotateListing, listing)
    ensures Holds(r, Maintain(r, now, w, rotateListing, listing), end, stream)
  {
    var settled, mid := Settled(r, now, w, rotateListing), k;
    if NeedsRotation(r, now, w) {
      mid := RotateKeepsSuffix(r, now, w, rotateListing, k);
      SuffixTransitive(Content(settled.disk, mid, true), Content(w.disk, k, true), stream);
    }
    assert Survives(r, now, settled.disk, Current);
    end := CleanupCutsChain(r, now, settled.disk, listing, mid, true);
    var w' := Maintain(r, now, w, rotateListing, listing);
    SuffixTransitive(Content(w'.disk, end, true), Content(settled.disk, mid, true), stream);
  }

  lemma {:induction false} AppendKeepsChain(r: Retention, now: int, w: World, bytes: seq<byte>, k: nat)
    requires Accepted(r) && w.Valid() && w.HandleIsCurrent() && Chain(r, now, w.disk, k, true)
    requires w.FileSize() + |bytes| <= r.maxFileBytes
    ensures var w' := Append(now, w, bytes);
      && w'.HandleIsCurrent() && Chain(r, now, w'.disk, k, true)
      && (forall i | 0 <= i < k :: Rotated(i) in w.disk.names && Rotated(i) in w'.disk.names)
      && Content(w'.disk, k, true) == Content(w.disk, k, true) + bytes
  {
    ChainHas(r, now, w.disk, k, true);
    var d, e := w.disk, Append(now, w, bytes).disk;
    assert e.names == d.names && e.Logs() == d.Logs();
    forall n | n in d.Logs() && n != Current
      ensures e.At(n) == d.At(n)
    {
      assert d.names[n] != d.names[Current];
    }
    forall i | 0 <= i < k
      ensures e.At(Rotated(i)) == d.At(Rotated(i))
    {
      assert Rotated(i) in d.Logs();
    }
    ChainBytesAgree(d, e, k);
  }

  lemma {:induction false} CallKeepsSuffix(r: Retention, w: World, c: Call, k: nat, stream: seq<byte>)
    returns (end: nat)
    requires Accepted(r) && w.Valid() && Holds(r, w, k, stream) && Possible(r, w, c) && ClosingCall(r, w, c)
    ensures Holds(r, After(r, w, c), end, stream + Added(r, w, c))
  {
    match c
    case Maintenance(now, rotateListing, listing) =>
      ChainLater(r, w.clock, now, w.disk, k, true);
      end := MaintainKeepsSuffix(r, now, w, rotateListing, listing, k, stream);
      assert stream + [] == stream;
    case Write(buf, now, roomListing, rotateListing, listing) =>
      if buf == [] {
        end := k;
        assert stream + [] == stream;
      } else {
        var mid := AppendedHolds(r, w, c, k, stream);
        end := MaintainKeepsSuffix(r, now, Appended(r, now, w, buf, roomListing), rotateListing, listing, mid,
                                   stream + Added(r, w, c));
      }
  }

  /** Making room cuts the chain, and appending extends what it holds. */
  lemma {:induction false} AppendedHolds(r: Retention, w: World, c: Call, k: nat, stream: seq<byte>)
    returns (mid: nat)
    requires Accepted(r) && w.Valid() && Holds(r, w, k, stream) && Possible(r, w, c) && ClosingCall(r, w, c)
    requires c.Write? && c.buf != []
    ensures var w' := Appended(r, c.now, w, c.buf, c.roomListing);
      && w'.HandleIsCurrent() && Chain(r, c.now, w'.disk, mid, true)
      && (forall i | 0 <= i < mid :: Rotated(i) in w'.disk.names)
      && IsSuffix(Content(w'.disk, mid, true), stream + Added(r, w, c))
  {
    ChainLater(r, w.clock, c.now, w.disk, k, true);
    var roomy := MadeRoom(r, c.now, w, |c.buf|, c.roomListing);
    mid := k;
    if WriteRotates(r, w, |c.buf|) {
      mid := RotateKeepsSuffix(r, c.now, w, c.roomListing, k);
      SuffixTransitive(Content(roomy.disk, mid, true), Content(w.disk, k, true), stream);
    }
    var bytes := c.buf[..Accepts(r, roomy, |c.buf|)];
    AppendKeepsChain(r, c.now, roomy, bytes, mid);
    SuffixAppend(Content(roomy.disk, mid, true), stream, bytes);
  }

  /** So does every run, from wherever it starts. */
  lemma {:induction false} RunKeepsSuffix(r: Retention, w: World, calls: seq<Call>, k: nat, stream: seq<byte>)
    returns (end: nat)
    requires Accepted(r) && HoleFree(r) && w.Valid() && Holds(r, w, k, stream) && Run(r, w, calls)
    ensures Holds(r, Reached(r, w, calls), end, stream + Stream(r, w, calls))
  {
    if calls == [] {
      end := k;
      assert stream + [] == stream;
    } else {
      var prefix, c := calls[..|calls| - 1], calls[|calls| - 1];
      var mid := RunKeepsSuffix(r, w, prefix, k, stream);
      HoleFreeIsClosing(r, Reached(r, w, prefix), c);
      end := CallKeepsSuffix(r, Reached(r, w, prefix), c, mid, stream + Stream(r, w, prefix));
      AppendTwice(stream, Stream(r, w, prefix), Added(r, Reached(r, w, prefix), c));
    }
  }

  lemma {:induction false} AppendTwice(s: seq<byte>, t: seq<byte>, u: seq<byte>)
    ensures s + t + u == s + (t + u)
  {
  }

  lemma {:induction false} NewLogHolds(r: Retention, found: Disk, now: int, first: seq<Name>)
    requires Accepted(r) && found.Valid() && found.Logs() == {} && Enumerates(first, found.names.Keys)
    ensures Holds(r, OpenCurrent(Cleanup(r, now, found, first), now), 0, [])
  {
    CleanupBounds(r, now, found, first);
    FreshKeepsChain(r, now, Cleanup(r, now, found, first), 0);
  }

  /** From a directory without logs, after any run: the rotated files are an
    unbroken chain, and from the oldest to the current one they hold exactly the
    last bytes the log accepted. */
  lemma {:induction false} LogHoldsTheEnd(r: Retention, found: Disk, now: int, first: seq<Name>, calls: seq<Call>)
    returns (k: nat)
    requires Accepted(r) && HoleFree(r) && found.Valid() && found.Logs() == {}
    requires Enumerates(first, found.names.Keys)
    requires Run(r, OpenCurrent(Cleanup(r, now, found, first), now), calls)
    ensures var w := OpenCurrent(Cleanup(r, now, found, first), now);
      Holds(r, Reached(r, w, calls), k, Stream(r, w, calls))
  {
    var w := OpenCurrent(Cleanup(r, now, found, first), now);
    NewLogHolds(r, found, now, first);
    k := RunKeepsSuffix(r, w, calls, 0, []);
    assert [] + Stream(r, w, calls) == Stream(r, w, calls);
  }
}
