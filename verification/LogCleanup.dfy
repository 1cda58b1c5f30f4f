/** Retention settings and the cleanup pass over the log directory
  (crates/keyro-core/src/logging.rs). */
module LogCleanup {
  import opened LogNames
  import opened LogDisk

  datatype Retention = Retention(maxFileBytes: nat, maxTotalBytes: nat, maxFiles: nat, maxAge: nat)

  /** The settings `validate_retention` accepts, in the ranges of their integer types. */
  predicate Accepted(r: Retention) {
    && 0 < r.maxFileBytes <= r.maxTotalBytes <= U64_MAX
    && 0 < r.maxFiles <= U64_MAX
  }

  function SaturatingAdd(a: nat, b: nat): nat {
    if a + b > U64_MAX then U64_MAX else a + b
  }

  function Cutoff(r: Retention, now: int): int {
    now - r.maxAge
  }

  /** What a pass never deletes for age or size alone. */
  predicate Survives(r: Retention, now: int, d: Disk, n: Name)
    requires d.Valid() && n in d.names
  {
    Cutoff(r, now) <= d.Modified(n) && d.Size(n) <= r.maxFileBytes
  }

  function Survivors(r: Retention, now: int, d: Disk): set<Name>
    requires d.Valid()
  {
    set n | n in d.Logs() && Survives(r, now, d, n)
  }

  ghost predicate Enumerates(listing: seq<Name>, names: set<Name>) {
    && (forall n :: n in listing <==> n in names)
    && (forall i, j | 0 <= i < j < |listing| :: listing[i] != listing[j])
  }

  /** Any directory can be listed. */
  lemma {:induction false} SomeListing(names: set<Name>) returns (listing: seq<Name>)
    ensures Enumerates(listing, names)
    decreases |names|
  {
    if names == {} {
      listing := [];
    } else {
      var n :| n in names;
      listing := SomeListing(names - {n});
      listing := listing + [n];
    }
  }

  datatype LogFile = LogFile(name: Name, isCurrent: bool, modified: int, size: nat)

  function Describe(d: Disk, n: Name): LogFile
    requires d.Valid() && n in d.names
  {
    LogFile(n, n == Current, d.Modified(n), d.Size(n))
  }

  /** Names the first loop deletes among the first `k` entries. */
  function Doomed(r: Retention, now: int, d: Disk, listing: seq<Name>, k: nat): set<Name>
    requires d.Valid() && k <= |listing|
  {
    if k == 0 then {} else
      var n := listing[k - 1];
      Doomed(r, now, d, listing, k - 1)
      + (if n in d.names && IsKeyroLog(n) && !Survives(r, now, d, n) then {n} else {})
  }

  /** Files the first loop retains from the first `k` entries, in listing order. */
  function Retained(r: Retention, now: int, d: Disk, listing: seq<Name>, k: nat): seq<LogFile>
    requires d.Valid() && k <= |listing|
  {
    if k == 0 then [] else
      var n := listing[k - 1];
      Retained(r, now, d, listing, k - 1)
      + (if n in d.names && IsKeyroLog(n) && Survives(r, now, d, n) then [Describe(d, n)] else [])
  }

  /** Insertion behind every file that is at least as new. */
  function InsertByAge(f: LogFile, sorted: seq<LogFile>): seq<LogFile> {
    if sorted == [] || sorted[|sorted| - 1].modified >= f.modified then
      sorted + [f]
    else
      InsertByAge(f, sorted[..|sorted| - 1]) + [sorted[|sorted| - 1]]
  }

  /** The stable sort by `Reverse(modified)`. */
  function NewestFirst(files: seq<LogFile>): seq<LogFile> {
    if files == [] then [] else InsertByAge(files[|files| - 1], NewestFirst(files[..|files| - 1]))
  }

  /** What the second loop has kept and deleted so far. */
  datatype Tally = Tally(kept: nat, total: nat, removed: set<Name>)

  predicate Full(r: Retention, t: Tally, f: LogFile) {
    t.kept >= r.maxFiles || SaturatingAdd(t.total, f.size) > r.maxTotalBytes
  }

  function Visit(r: Retention, t: Tally, f: LogFile): Tally {
    if f.isCurrent then t
    else if Full(r, t, f) then t.(removed := t.removed + {f.name})
    else Tally(t.kept + 1, SaturatingAdd(t.total, f.size), t.removed)
  }

  /** The second loop after its first `k` rounds. */
  function Sweep(r: Retention, start: Tally, files: seq<LogFile>, k: nat): Tally
    requires k <= |files|
  {
    if k == 0 then start else Visit(r, Sweep(r, start, files, k - 1), files[k - 1])
  }

  /** Where the second loop starts: the current file counts before any other. */
  function Start(r: Retention, now: int, d: Disk): Tally
    requires d.Valid()
  {
    if Current in Survivors(r, now, d) then Tally(1, d.Size(Current), {}) else Tally(0, 0, {})
  }

  /** The list the second loop works on. */
  function SweepList(r: Retention, now: int, d: Disk, listing: seq<Name>): seq<LogFile>
    requires d.Valid()
  {
    NewestFirst(Retained(r, now, d, listing, |listing|))
  }

  /** The directory after a cleanup pass that read it in the order `listing`. */
  function Cleanup(r: Retention, now: int, d: Disk, listing: seq<Name>): Disk
    requires d.Valid()
  {
    var files := SweepList(r, now, d, listing);
    d.Without(Doomed(r, now, d, listing, |listing|) + Sweep(r, Start(r, now, d), files, |files|).removed)
  }

  // ------------------------------------------------------------------------
  // The list the second loop works on
  // ------------------------------------------------------------------------

  /** A list of distinct logs of `d`, described as they are on disk. */
  ghost predicate Faithful(d: Disk, files: seq<LogFile>)
    requires d.Valid()
  {
    && (forall f | f in files :: f.name in d.names && IsKeyroLog(f.name) && f == Describe(d, f.name))
    && (forall i, j | 0 <= i < j < |files| :: files[i].name != files[j].name)
  }

  ghost predicate SortedByAge(files: seq<LogFile>) {
    forall i, j | 0 <= i < j < |files| :: files[i].modified >= files[j].modified
  }

  ghost predicate Lists(files: seq<LogFile>, names: set<Name>) {
    && (forall f | f in files :: f.name in names)
    && (forall n | n in names :: exists f :: f in files && f.name == n)
  }

  lemma {:induction false} RetainedIsFaithful(r: Retention, now: int, d: Disk, listing: seq<Name>, k: nat)
    requires d.Valid() && k <= |listing| && forall n | n in listing :: n in d.names
    requires forall i, j | 0 <= i < j < |listing| :: listing[i] != listing[j]
    ensures Faithful(d, Retained(r, now, d, listing, k))
    ensures forall f | f in Retained(r, now, d, listing, k) :: f.name in listing[..k] && Survives(r, now, d, f.name)
    ensures forall n | n in listing[..k] && IsKeyroLog(n) && Survives(r, now, d, n) ::
              Describe(d, n) in Retained(r, now, d, listing, k)
  {
    if k > 0 {
      RetainedIsFaithful(r, now, d, listing, k - 1);
      assert listing[..k] == listing[..k - 1] + [listing[k - 1]];
    }
  }

  lemma {:induction false} InsertAdds(f: LogFile, sorted: seq<LogFile>)
    ensures multiset(InsertByAge(f, sorted)) == multiset(sorted) + multiset{f}
  {
    if sorted != [] {
      var prefix, last := sorted[..|sorted| - 1], sorted[|sorted| - 1];
      assert sorted == prefix + [last];
      if last.modified < f.modified {
        InsertAdds(f, prefix);
      }
    }
  }

  lemma {:induction false} InsertKeeps(f: LogFile, sorted: seq<LogFile>)
    requires SortedByAge(sorted)
    ensures SortedByAge(InsertByAge(f, sorted))
    ensures multiset(InsertByAge(f, sorted)) == multiset(sorted) + multiset{f}
  {
    InsertAdds(f, sorted);
    if sorted != [] && sorted[|sorted| - 1].modified < f.modified {
      var prefix, last := sorted[..|sorted| - 1], sorted[|sorted| - 1];
      InsertKeeps(f, prefix);
      forall g | g in InsertByAge(f, prefix)
        ensures g.modified >= last.modified
      {
        assert g in multiset(InsertByAge(f, prefix));
        assert g in multiset(prefix) + multiset{f};
      }
    }
  }

  lemma {:induction false} NewestFirstSorts(files: seq<LogFile>)
    ensures SortedByAge(NewestFirst(files))
    ensures multiset(NewestFirst(files)) == multiset(files)
  {
    if files != [] {
      var prefix, last := files[..|files| - 1], files[|files| - 1];
      assert files == prefix + [last];
      NewestFirstSorts(prefix);
      InsertKeeps(last, NewestFirst(prefix));
    }
  }

  /** A rearranged list describes the same files. */
  lemma {:induction false} FaithfulPermutation(d: Disk, files: seq<LogFile>, other: seq<LogFile>)
    requires d.Valid() && Faithful(d, files) && multiset(files) == multiset(other)
    ensures Faithful(d, other)
    ensures forall f :: f in files <==> f in other
  {
    assert forall f :: f in other <==> f in multiset(other);
    assert forall f :: f in files <==> f in multiset(files);
    forall i, j | 0 <= i < j < |other|
      ensures other[i].name != other[j].name
    {
      if other[i] == other[j] {
        SeenTwice(other, i, j);
        SeenOnce(files, other[i]);
      }
    }
  }

  lemma {:induction false} SeenTwice(files: seq<LogFile>, i: nat, j: nat)
    requires i < j < |files| && files[i] == files[j]
    ensures multiset(files)[files[i]] >= 2
  {
    assert files == files[..i] + [files[i]] + files[i + 1..j] + [files[j]] + files[j + 1..];
  }

  lemma {:induction false} SeenOnce(files: seq<LogFile>, f: LogFile)
    requires forall i, j | 0 <= i < j < |files| :: files[i] != files[j]
    ensures multiset(files)[f] <= 1
  {
    if files != [] {
      SeenOnce(files[1..], f);
      assert files == [files[0]] + files[1..];
    }
  }

  /** The second loop works on exactly the survivors, newest first. */
  lemma {:induction false} SweepListLists(r: Retention, now: int, d: Disk, listing: seq<Name>)
    requires d.Valid() && Enumerates(listing, d.names.Keys)
    ensures var files := SweepList(r, now, d, listing);
      Faithful(d, files) && SortedByAge(files) && Lists(files, Survivors(r, now, d))
  {
    var retained := Retained(r, now, d, listing, |listing|);
    RetainedIsFaithful(r, now, d, listing, |listing|);
    assert listing[..|listing|] == listing;
    NewestFirstSorts(retained);
    FaithfulPermutation(d, retained, NewestFirst(retained));
    forall n | n in Survivors(r, now, d)
      ensures Describe(d, n) in retained
    {
    }
  }
}
