/** The log directory: directory entries that point at inodes.

  An open handle is an inode id. It keeps working after its entry is renamed or
  removed, as a POSIX file descriptor does, so whether a handle still is the
  file called keyro-core.log is a property to be proved.
  */
module LogDisk {
  import opened LogNames

  newtype byte = x: int | 0 <= x < 256

  const U64_MAX: nat := 0xFFFF_FFFF_FFFF_FFFF

  type InodeId = nat

  datatype Inode = Inode(bytes: seq<byte>, modified: int)

  datatype Disk = Disk(names: map<Name, InodeId>, inodes: map<InodeId, Inode>, next: InodeId) {

    predicate Valid() {
      && (forall n | n in names :: names[n] in inodes)
      && (forall id | id in inodes :: id < next && |inodes[id].bytes| <= U64_MAX)
    }

    function At(n: Name): Inode
      requires Valid() && n in names
    {
      inodes[names[n]]
    }

    function Size(n: Name): nat
      requires Valid() && n in names
    {
      |At(n).bytes|
    }

    function Modified(n: Name): int
      requires Valid() && n in names
    {
      At(n).modified
    }

    function Logs(): set<Name> {
      set n | n in names && IsKeyroLog(n)
    }

    function Without(gone: set<Name>): Disk {
      this.(names := names - gone)
    }
  }

  /** Bytes held by a set of files. */
  ghost function TotalBytes(d: Disk, files: set<Name>): nat
    requires d.Valid() && files <= d.names.Keys
  {
    if files == {} then 0 else
      var n :| n in files;
      d.Size(n) + TotalBytes(d, files - {n})
  }

  lemma {:induction false} TotalRemove(d: Disk, files: set<Name>, n: Name)
    requires d.Valid() && files <= d.names.Keys && n in files
    ensures TotalBytes(d, files) == d.Size(n) + TotalBytes(d, files - {n})
    decreases |files|
  {
    var m :| m in files && TotalBytes(d, files) == d.Size(m) + TotalBytes(d, files - {m});
    if m != n {
      TotalRemove(d, files - {m}, n);
      TotalRemove(d, files - {n}, m);
      assert files - {m} - {n} == files - {n} - {m};
    }
  }

  lemma {:induction false} TotalAdd(d: Disk, files: set<Name>, n: Name)
    requires d.Valid() && files + {n} <= d.names.Keys && n !in files
    ensures TotalBytes(d, files + {n}) == TotalBytes(d, files) + d.Size(n)
  {
    TotalRemove(d, files + {n}, n);
    assert files + {n} - {n} == files;
  }

  lemma {:induction false} TotalMonotone(d: Disk, part: set<Name>, files: set<Name>)
    requires d.Valid() && part <= files <= d.names.Keys
    ensures TotalBytes(d, part) <= TotalBytes(d, files)
    decreases |part|
  {
    if part != {} {
      var n :| n in part;
      TotalRemove(d, part, n);
      TotalRemove(d, files, n);
      TotalMonotone(d, part - {n}, files - {n});
    }
  }

  /** The total depends on the sizes of the files only. */
  lemma {:induction false} TotalAgrees(d: Disk, e: Disk, files: set<Name>)
    requires d.Valid() && e.Valid() && files <= d.names.Keys && files <= e.names.Keys
    requires forall n | n in files :: d.Size(n) == e.Size(n)
    ensures TotalBytes(d, files) == TotalBytes(e, files)
    decreases |files|
  {
    if files != {} {
      var n :| n in files;
      TotalRemove(d, files, n);
      TotalRemove(e, files, n);
      TotalAgrees(d, e, files - {n});
    }
  }

  /** Files of at most `bound` bytes each. */
  lemma {:induction false} TotalBounded(d: Disk, files: set<Name>, bound: nat)
    requires d.Valid() && files <= d.names.Keys
    requires forall n | n in files :: d.Size(n) <= bound
    ensures TotalBytes(d, files) <= |files| * bound
    decreases |files|
  {
    if files != {} {
      var n :| n in files;
      TotalRemove(d, files, n);
      TotalBounded(d, files - {n}, bound);
      assert |files - {n}| == |files| - 1;
      OneMore(|files|, bound);
    }
  }

  /** Files of exactly `size` bytes each. */
  lemma {:induction false} TotalOfEqual(d: Disk, files: set<Name>, size: nat)
    requires d.Valid() && files <= d.names.Keys
    requires forall n | n in files :: d.Size(n) == size
    ensures TotalBytes(d, files) == |files| * size
    decreases |files|
  {
    if files != {} {
      var n :| n in files;
      TotalRemove(d, files, n);
      TotalOfEqual(d, files - {n}, size);
      assert |files - {n}| == |files| - 1;
      OneMore(|files|, size);
    }
  }

  lemma {:induction false} OneMore(a: nat, b: nat)
    requires a > 0
    ensures a * b == (a - 1) * b + b
  {
  }
}
