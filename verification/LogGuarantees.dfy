/** What a cleanup pass guarantees, whatever the directory held and in whatever
  order it was listed. */
module LogGuarantees {
  import opened LogNames
  import opened LogDisk
  import opened LogCleanup

  /** A byte count as the program's `u64` sums report it. */
  function Saturate(n: nat): nat {
    if n > U64_MAX then U64_MAX else n
  }

  /** The count and byte budgets admit all of `files`. The program adds sizes with
    a saturating sum, so a byte budget of the largest `u64` is no limit at all. */
  ghost predicate Fits(r: Retention, d: Disk, files: set<Name>)
    requires d.Valid() && files <= d.names.Keys
  {
    && |files| <= r.maxFiles
    && (r.maxTotalBytes < U64_MAX ==> TotalBytes(d, files) <= r.maxTotalBytes)
  }

  /** All logs together meet every retention limit. */
  ghost predicate Bounded(r: Retention, now: int, d: Disk)
    requires d.Valid()
  {
    && (forall n | n in d.Logs() :: Survives(r, now, d, n))
    && Fits(r, d, d.Logs())
  }

  lemma {:induction false} FitsSubset(r: Retention, d: Disk, part: set<Name>, files: set<Name>)
    requires d.Valid() && part <= files <= d.names.Keys && Fits(r, d, files)
    ensures Fits(r, d, part)
  {
    TotalMonotone(d, part, files);
    SubsetSize(part, files);
  }

  lemma {:induction false} SubsetSize<T>(part: set<T>, files: set<T>)
    requires part <= files
    ensures |part| <= |files|
    decreases |part|
  {
    if part != {} {
      var x :| x in part;
      SubsetSize(part - {x}, files - {x});
    }
  }

  // ------------------------------------------------------------------------
  // The second loop, round by round
  // ------------------------------------------------------------------------

  /** What has been kept after `k` rounds. The current file, if it survived the
    first loop, is kept from the start. */
  ghost function Kept(r: Retention, start: Tally, current: set<Name>, files: seq<LogFile>, k: nat): set<Name>
    requires k <= |files|
  {
    if k == 0 then current
    else
      var f := files[k - 1];
      Kept(r, start, current, files, k - 1)
      + (if f.isCurrent || Full(r, Sweep(r, start, files, k - 1), f) then {} else {f.name})
  }

  /** The starting point counts the current file, if there is one. */
  ghost predicate Starts(r: Retention, d: Disk, start: Tally, current: set<Name>)
    requires d.Valid()
  {
    && (current == {} || current == {Current}) && current <= d.names.Keys
    && start == Tally(|current|, TotalBytes(d, current), {})
    && start.kept <= r.maxFiles && start.total <= r.maxTotalBytes
  }

  /** Every file is either kept or removed, at its own round. */
  lemma {:induction false} SweepSplits(r: Retention, start: Tally, current: set<Name>, files: seq<LogFile>, k: nat)
    requires k <= |files| && start.removed == {}
    requires forall i, j | 0 <= i < j < |files| :: files[i].name != files[j].name
    requires current <= {Current} && forall f | f in files :: f.isCurrent <==> f.name == Current
    ensures var t, kept := Sweep(r, start, files, k), Kept(r, start, current, files, k);
      && (forall n | n in t.removed :: n != Current && n !in kept && exists i :: 0 <= i < k && files[i].name == n)
      && (forall n | n in kept :: n in current || exists i :: 0 <= i < k && files[i].name == n)
      && current <= kept
  {
    if k > 0 {
      SweepSplits(r, start, current, files, k - 1);
      assert files[k - 1] in files;
    }
  }

  lemma {:induction false} SweepCovers(r: Retention, start: Tally, current: set<Name>, files: seq<LogFile>, k: nat)
    requires k <= |files|
    ensures forall i | 0 <= i < k && !files[i].isCurrent ::
              files[i].name in Kept(r, start, current, files, k) || files[i].name in Sweep(r, start, files, k).removed
  {
    if k > 0 {
      SweepCovers(r, start, current, files, k - 1);
    }
  }

  /** The counters describe the files kept. */
  ghost predicate Counts(r: Retention, d: Disk, t: Tally, kept: set<Name>)
    requires d.Valid()
  {
    && kept <= d.names.Keys
    && t.kept == |kept| <= r.maxFiles
    && t.total == Saturate(TotalBytes(d, kept)) <= r.maxTotalBytes
  }

  lemma {:induction false} CountOne(r: Retention, d: Disk, t: Tally, kept: set<Name>, f: LogFile)
    requires Accepted(r) && d.Valid() && Counts(r, d, t, kept)
    requires f.name in d.names && f.name !in kept && f.size == d.Size(f.name) && !f.isCurrent
    ensures Full(r, t, f) ==> Counts(r, d, Visit(r, t, f), kept)
    ensures !Full(r, t, f) ==> Counts(r, d, Visit(r, t, f), kept + {f.name})
    ensures Full(r, t, f) <==> !Fits(r, d, kept + {f.name})
  {
    TotalAdd(d, kept, f.name);
  }

  /** The counters are the count and the total of what is kept, and never pass
    the limits. */
  lemma {:induction false} SweepAccounts(r: Retention, d: Disk, start: Tally, current: set<Name>, files: seq<LogFile>,
                                         k: nat)
    requires Accepted(r) && d.Valid() && Faithful(d, files) && Starts(r, d, start, current) && k <= |files|
    ensures Counts(r, d, Sweep(r, start, files, k), Kept(r, start, current, files, k))
  {
    if k > 0 {
      SweepAccounts(r, d, start, current, files, k - 1);
      RoundCounts(r, d, start, current, files, k - 1);
    } else {
      StartCounts(r, d, start, current, files);
    }
  }

  lemma {:induction false} StartCounts(r: Retention, d: Disk, start: Tally, current: set<Name>, files: seq<LogFile>)
    requires d.Valid() && Starts(r, d, start, current)
    ensures Counts(r, d, Sweep(r, start, files, 0), Kept(r, start, current, files, 0))
  {
  }

  lemma {:induction false} RoundCounts(r: Retention, d: Disk, start: Tally, current: set<Name>, files: seq<LogFile>,
                                       k: nat)
    requires Accepted(r) && d.Valid() && Faithful(d, files) && Starts(r, d, start, current) && k < |files|
    requires Counts(r, d, Sweep(r, start, files, k), Kept(r, start, current, files, k))
    ensures Counts(r, d, Sweep(r, start, files, k + 1), Kept(r, start, current, files, k + 1))
    ensures !files[k].isCurrent ==>
              files[k].name in d.names && files[k].name !in Kept(r, start, current, files, k)
              && (Full(r, Sweep(r, start, files, k), files[k])
                  <==> !Fits(r, d, Kept(r, start, current, files, k) + {files[k].name}))
  {
    var f, kept := files[k], Kept(r, start, current, files, k);
    assert f in files && f == Describe(d, f.name);
    if f.isCurrent {
      assert Kept(r, start, current, files, k + 1) == kept;
    } else {
      SweepSplits(r, start, current, files, k);
      CountOne(r, d, Sweep(r, start, files, k), kept, f);
      assert Full(r, Sweep(r, start, files, k), f) ==> Kept(r, start, current, files, k + 1) == kept;
    }
  }

  /** A file is removed exactly when it finds no room at its round. */
  lemma {:induction false} RemovedAtItsRound(r: Retention, start: Tally, current: set<Name>, files: seq<LogFile>,
                                             k: nat, m: nat)
    requires k < m <= |files| && start.removed == {}
    requires forall i, j | 0 <= i < j < |files| :: files[i].name != files[j].name
    requires current <= {Current} && forall f | f in files :: f.isCurrent <==> f.name == Current
    requires !files[k].isCurrent
    ensures files[k].name in Sweep(r, start, files, m).removed <==> Full(r, Sweep(r, start, files, k), files[k])
    ensures Kept(r, start, current, files, k) <= Kept(r, start, current, files, m)
    decreases m
  {
    if m == k + 1 {
      SweepSplits(r, start, current, files, k);
    } else {
      RemovedAtItsRound(r, start, current, files, k, m - 1);
    }
  }

  /** While everything listed fits together, nothing is removed. */
  lemma {:induction false} SweepKeepsAll(r: Retention, d: Disk, start: Tally, current: set<Name>, files: seq<LogFile>,
                                         k: nat, all: set<Name>)
    requires Accepted(r) && d.Valid() && Faithful(d, files) && Starts(r, d, start, current) && k <= |files|
    requires all <= d.names.Keys && Fits(r, d, all)
    requires current <= all && forall i | 0 <= i < k :: files[i].name in all
    ensures Sweep(r, start, files, k).removed == {}
    ensures Kept(r, start, current, files, k) <= all
  {
    if k > 0 {
      SweepKeepsAll(r, d, start, current, files, k - 1, all);
      SweepAccounts(r, d, start, current, files, k - 1);
      RoundCounts(r, d, start, current, files, k - 1);
      if !files[k - 1].isCurrent {
        FitsSubset(r, d, Kept(r, start, current, files, k - 1) + {files[k - 1].name}, all);
      }
    }
  }

  // ------------------------------------------------------------------------
  // The pass, on the directory
  // ------------------------------------------------------------------------

  /** The current file when it survives the first loop. */
  ghost function CurrentSet(r: Retention, now: int, d: Disk): set<Name>
    requires d.Valid()
  {
    if Current in Survivors(r, now, d) then {Current} else {}
  }

  lemma {:induction false} StartStarts(r: Retention, now: int, d: Disk)
    requires Accepted(r) && d.Valid()
    ensures Starts(r, d, Start(r, now, d), CurrentSet(r, now, d))
  {
    if Current in Survivors(r, now, d) {
      TotalRemove(d, {Current}, Current);
      assert {Current} - {Current} == {};
    }
  }

  /** What the second loop keeps of the survivors. */
  ghost function KeptLogs(r: Retention, now: int, d: Disk, listing: seq<Name>): set<Name>
    requires d.Valid()
  {
    var files := SweepList(r, now, d, listing);
    Kept(r, Start(r, now, d), CurrentSet(r, now, d), files, |files|)
  }

  lemma {:induction false} DoomedAreNotSurvivors(r: Retention, now: int, d: Disk, listing: seq<Name>)
    requires d.Valid() && Enumerates(listing, d.names.Keys)
    ensures Doomed(r, now, d, listing, |listing|) == d.Logs() - Survivors(r, now, d)
  {
    DoomedListed(r, now, d, listing, |listing|);
    forall n | n in d.Logs()
      ensures exists i :: 0 <= i < |listing| && listing[i] == n
    {
      assert n in listing;
    }
  }

  lemma {:induction false} DoomedListed(r: Retention, now: int, d: Disk, listing: seq<Name>, k: nat)
    requires d.Valid() && k <= |listing|
    ensures forall n | n in Doomed(r, now, d, listing, k) :: n in d.Logs() && !Survives(r, now, d, n)
    ensures forall i | 0 <= i < k && listing[i] in d.Logs() && !Survives(r, now, d, listing[i]) ::
              listing[i] in Doomed(r, now, d, listing, k)
  {
    if k > 0 {
      DoomedListed(r, now, d, listing, k - 1);
    }
  }

  lemma {:induction false} SurvivorsSplit(r: Retention, start: Tally, current: set<Name>, files: seq<LogFile>,
                                          survivors: set<Name>)
    requires start.removed == {} && Lists(files, survivors)
    requires forall i, j | 0 <= i < j < |files| :: files[i].name != files[j].name
    requires forall f | f in files :: f.isCurrent <==> f.name == Current
    requires current == survivors * {Current}
    ensures var kept, removed := Kept(r, start, current, files, |files|), Sweep(r, start, files, |files|).removed;
      kept + removed == survivors && kept !! removed
  {
    SweepSplits(r, start, current, files, |files|);
    SweepCovers(r, start, current, files, |files|);
    var kept, removed := Kept(r, start, current, files, |files|), Sweep(r, start, files, |files|).removed;
    forall n | n in survivors
      ensures n in kept + removed
    {
      var f :| f in files && f.name == n;
      var i :| 0 <= i < |files| && files[i] == f;
    }
    forall n | n in kept + removed
      ensures n in survivors
    {
      if n !in current {
        var i :| 0 <= i < |files| && files[i].name == n;
        assert files[i] in files;
      }
    }
  }

  lemma {:induction false} WithoutKeeps(d: Disk, kept: set<Name>)
    requires kept <= d.Logs()
    ensures d.Without(d.Logs() - kept).Logs() == kept
    ensures forall n | n in d.names && !IsKeyroLog(n) :: n in d.Without(d.Logs() - kept).names
  {
  }

  /** What a pass leaves: the files the second loop kept and everything that is
    not a log. */
  lemma {:induction false} CleanupKeeps(r: Retention, now: int, d: Disk, listing: seq<Name>)
    requires Accepted(r) && d.Valid() && Enumerates(listing, d.names.Keys)
    ensures Cleanup(r, now, d, listing) == d.Without(d.Logs() - KeptLogs(r, now, d, listing))
    ensures Cleanup(r, now, d, listing).Logs() == KeptLogs(r, now, d, listing) <= Survivors(r, now, d)
    ensures forall n | n in d.names && !IsKeyroLog(n) :: n in Cleanup(r, now, d, listing).names
  {
    var files, survivors := SweepList(r, now, d, listing), Survivors(r, now, d);
    SweepListLists(r, now, d, listing);
    DoomedAreNotSurvivors(r, now, d, listing);
    assert CurrentSet(r, now, d) == survivors * {Current};
    SurvivorsSplit(r, Start(r, now, d), CurrentSet(r, now, d), files, survivors);
    var kept, removed := KeptLogs(r, now, d, listing), Sweep(r, Start(r, now, d), files, |files|).removed;
    assert d.Logs() - survivors + removed == d.Logs() - kept;
    WithoutKeeps(d, kept);
  }

  /** Facts about the list of the second loop that the proofs below start from. */
  lemma {:induction false} SweepReady(r: Retention, now: int, d: Disk, listing: seq<Name>)
    requires Accepted(r) && d.Valid() && Enumerates(listing, d.names.Keys)
    ensures var files := SweepList(r, now, d, listing);
      && Faithful(d, files) && SortedByAge(files) && Lists(files, Survivors(r, now, d))
      && (forall i | 0 <= i < |files| :: files[i].name in Survivors(r, now, d))
    ensures Starts(r, d, Start(r, now, d), CurrentSet(r, now, d))
    ensures CurrentSet(r, now, d) <= Survivors(r, now, d) <= d.Logs() <= d.names.Keys
  {
    SweepListLists(r, now, d, listing);
    StartStarts(r, now, d);
    assert forall i | 0 <= i < |SweepList(r, now, d, listing)| ::
      SweepList(r, now, d, listing)[i] in SweepList(r, now, d, listing);
  }

  lemma {:induction false} KeptLogsFit(r: Retention, now: int, d: Disk, listing: seq<Name>)
    requires Accepted(r) && d.Valid() && Enumerates(listing, d.names.Keys)
    ensures KeptLogs(r, now, d, listing) <= d.names.Keys && Fits(r, d, KeptLogs(r, now, d, listing))
    ensures Current in Survivors(r, now, d) ==> Current in KeptLogs(r, now, d, listing)
  {
    var files := SweepList(r, now, d, listing);
    var start, current := Start(r, now, d), CurrentSet(r, now, d);
    SweepReady(r, now, d, listing);
    SweepAccounts(r, d, start, current, files, |files|);
    SweepSplits(r, start, current, files, |files|);
  }

  /** A pass only deletes logs, keeps the current file whenever it is young and
    small enough, and leaves the directory within every limit. */
  lemma {:induction false} CleanupBounds(r: Retention, now: int, d: Disk, listing: seq<Name>)
    requires Accepted(r) && d.Valid() && Enumerates(listing, d.names.Keys)
    ensures var e := Cleanup(r, now, d, listing);
      && e.Valid()
      && Bounded(r, now, e)
      && e.inodes == d.inodes && e.next == d.next
      && (forall n | n in e.names :: n in d.names && e.names[n] == d.names[n])
      && (forall n | n in d.names && !IsKeyroLog(n) :: n in e.names)
      && e.Logs() <= Survivors(r, now, d)
      && (Current in e.names <==> Current in Survivors(r, now, d))
  {
    var e := Cleanup(r, now, d, listing);
    CleanupKeeps(r, now, d, listing);
    KeptLogsFit(r, now, d, listing);
    TotalAgrees(d, e, e.Logs());
    assert Current in e.names <==> Current in e.Logs();
  }

  /** Nothing but expired and oversized files goes if and only if the rest fits. */
  lemma {:induction false} OnlyExpiredGoesIff(r: Retention, now: int, d: Disk, listing: seq<Name>)
    requires Accepted(r) && d.Valid() && Enumerates(listing, d.names.Keys)
    ensures Cleanup(r, now, d, listing) == d.Without(d.Logs() - Survivors(r, now, d))
      <==> Fits(r, d, Survivors(r, now, d))
  {
    var e, files := Cleanup(r, now, d, listing), SweepList(r, now, d, listing);
    var survivors := Survivors(r, now, d);
    if Fits(r, d, survivors) {
      SweepReady(r, now, d, listing);
      SweepKeepsAll(r, d, Start(r, now, d), CurrentSet(r, now, d), files, |files|, survivors);
      DoomedAreNotSurvivors(r, now, d, listing);
      assert d.Logs() - survivors + {} == d.Logs() - survivors;
    } else if e == d.Without(d.Logs() - survivors) {
      CleanupBounds(r, now, d, listing);
      WithoutKeeps(d, survivors);
      TotalAgrees(d, e, survivors);
    }
  }

  /** A pass changes nothing if and only if every limit is met already. */
  lemma {:induction false} CleanupIdleIff(r: Retention, now: int, d: Disk, listing: seq<Name>)
    requires Accepted(r) && d.Valid() && Enumerates(listing, d.names.Keys)
    ensures Cleanup(r, now, d, listing) == d <==> Bounded(r, now, d)
  {
    if Bounded(r, now, d) {
      OnlyExpiredGoesIff(r, now, d, listing);
      assert Survivors(r, now, d) == d.Logs();
      assert d.names - {} == d.names;
    } else {
      CleanupBounds(r, now, d, listing);
    }
  }

  /** A second pass at the same time changes nothing, in whatever order the two
    passes list the directory. */
  lemma {:induction false} CleanupIdempotent(r: Retention, now: int, d: Disk, first: seq<Name>, second: seq<Name>)
    requires Accepted(r) && d.Valid() && Enumerates(first, d.names.Keys)
    requires Enumerates(second, Cleanup(r, now, d, first).names.Keys)
    ensures Cleanup(r, now, d, first).Valid()
    ensures Cleanup(r, now, Cleanup(r, now, d, first), second) == Cleanup(r, now, d, first)
  {
    CleanupBounds(r, now, d, first);
    CleanupIdleIff(r, now, Cleanup(r, now, d, first), second);
  }

  /** The current file and the kept logs at least as new as `n`. */
  ghost function KeptBefore(d: Disk, e: Disk, n: Name): set<Name>
    requires d.Valid() && e.Valid() && n in d.names
  {
    set m | m in e.Logs() && m != n && (m == Current || e.Modified(m) >= d.Modified(n))
  }

  /** Greedy and justified: a survivor other than the current file goes if and
    only if it does not fit next to the kept files at least as new. */
  lemma {:induction false} GreedyIff(r: Retention, now: int, d: Disk, listing: seq<Name>, n: Name)
    requires Accepted(r) && d.Valid() && Enumerates(listing, d.names.Keys)
    requires n in Survivors(r, now, d) && n != Current
    ensures var e := Cleanup(r, now, d, listing);
      && e.Valid() && KeptBefore(d, e, n) <= d.names.Keys
      && (n in e.names <==> Fits(r, d, KeptBefore(d, e, n) + {n}))
  {
    var e := Cleanup(r, now, d, listing);
    CleanupBounds(r, now, d, listing);
    var before := KeptBefore(d, e, n);
    if n in e.names {
      TotalAgrees(d, e, e.Logs());
      FitsSubset(r, d, before + {n}, e.Logs());
    } else {
      var kept := RemovedWithoutRoom(r, now, d, listing, n);
      if Fits(r, d, before + {n}) {
        FitsSubset(r, d, kept + {n}, before + {n});
      }
    }
  }

  /** The files kept before the round of a removed file left it no room. */
  lemma {:induction false} RemovedWithoutRoom(r: Retention, now: int, d: Disk, listing: seq<Name>, n: Name)
    returns (kept: set<Name>)
    requires Accepted(r) && d.Valid() && Enumerates(listing, d.names.Keys)
    requires Cleanup(r, now, d, listing).Valid()
    requires n in Survivors(r, now, d) && n != Current && n !in Cleanup(r, now, d, listing).names
    ensures kept <= KeptBefore(d, Cleanup(r, now, d, listing), n)
    ensures kept <= d.names.Keys && !Fits(r, d, kept + {n})
  {
    var e := Cleanup(r, now, d, listing);
    CleanupKeeps(r, now, d, listing);
    var files := SweepList(r, now, d, listing);
    var start, current := Start(r, now, d), CurrentSet(r, now, d);
    SweepReady(r, now, d, listing);
    var k := IndexOf(files, Survivors(r, now, d), n);
    assert e.Logs() == Kept(r, start, current, files, |files|);
    kept := NotKeptMeansFull(r, d, start, current, files, k);
    forall m | m in kept
      ensures m in KeptBefore(d, e, n)
    {
      assert d.Modified(m) == e.Modified(m);
    }
  }

  lemma {:induction false} IndexOf(files: seq<LogFile>, names: set<Name>, n: Name) returns (k: nat)
    requires Lists(files, names) && n in names
    ensures k < |files| && files[k].name == n
  {
    var f :| f in files && f.name == n;
    k :| 0 <= k < |files| && files[k] == f;
  }

  /** A file not kept in the end did not fit next to what was kept at its round. */
  lemma {:induction false} NotKeptMeansFull(r: Retention, d: Disk, start: Tally, current: set<Name>,
                                            files: seq<LogFile>, k: nat)
    returns (kept: set<Name>)
    requires Accepted(r) && d.Valid() && Faithful(d, files) && SortedByAge(files)
    requires Starts(r, d, start, current) && k < |files|
    requires files[k].name != Current && files[k].name !in Kept(r, start, current, files, |files|)
    ensures kept <= Kept(r, start, current, files, |files|)
    ensures kept <= d.names.Keys && files[k].name in d.names && !Fits(r, d, kept + {files[k].name})
    ensures forall m | m in kept :: m == Current || d.Modified(m) >= d.Modified(files[k].name)
  {
    assert files[k] in files;
    kept := Kept(r, start, current, files, k);
    SweepCovers(r, start, current, files, |files|);
    RemovedAtItsRound(r, start, current, files, k, |files|);
    SweepAccounts(r, d, start, current, files, k);
    RoundCounts(r, d, start, current, files, k);
    KeptAreNewer(r, d, start, current, files, k);
  }

  lemma {:induction false} KeptAreNewer(r: Retention, d: Disk, start: Tally, current: set<Name>, files: seq<LogFile>,
                                        k: nat)
    requires d.Valid() && Faithful(d, files) && SortedByAge(files)
    requires Starts(r, d, start, current) && k < |files|
    ensures forall m | m in Kept(r, start, current, files, k) ::
              m == Current || (m in d.names && d.Modified(m) >= files[k].modified)
  {
    SweepSplits(r, start, current, files, k);
    forall m | m in Kept(r, start, current, files, k) && m != Current
      ensures m in d.names && d.Modified(m) >= files[k].modified
    {
      var i :| 0 <= i < k && files[i].name == m;
      assert files[i] in files;
    }
  }
}
