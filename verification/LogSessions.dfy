/** The log over any number of processes that open the same directory one after
  another (crates/keyro-core/src/logging.rs, `new`). */
module LogSessions {
  import opened LogNames
  import opened LogDisk
  import opened LogCleanup
  import opened LogGuarantees
  import opened LogRotation
  import opened LogStream
  import opened LogHoles

  /** One process: when and in which order it listed the directory it found, and its
    calls to the log. */
  datatype Session = Session(now: int, listing: seq<Name>, calls: seq<Call>)

  /** The log as `new` opens it. */
  function Opened(r: Retention, d: Disk, s: Session): World
    requires d.Valid()
    ensures Opened(r, d, s).Valid()
  {
    OpenCurrent(Cleanup(r, s.now, d, s.listing), s.now)
  }

  /** The directory after the sessions. */
  function Left(r: Retention, found: Disk, sessions: seq<Session>): Disk
    requires Accepted(r) && found.Valid()
    ensures Left(r, found, sessions).Valid()
    decreases |sessions|, 1
  {
    if sessions == [] then found else Ended(r, found, sessions).disk
  }

  /** The log at the end of the last session. */
  function Ended(r: Retention, found: Disk, sessions: seq<Session>): World
    requires Accepted(r) && found.Valid() && sessions != []
    ensures Ended(r, found, sessions).Valid()
    decreases |sessions|, 0
  {
    var prefix, s := sessions[..|sessions| - 1], sessions[|sessions| - 1];
    Reached(r, Opened(r, Left(r, found, prefix), s), s.calls)
  }

  /** What the sessions accepted, in order. */
  function AllAccepted(r: Retention, found: Disk, sessions: seq<Session>): seq<byte>
    requires Accepted(r) && found.Valid()
  {
    if sessions == [] then []
    else
      var prefix, s := sessions[..|sessions| - 1], sessions[|sessions| - 1];
      AllAccepted(r, found, prefix) + Stream(r, Opened(r, Left(r, found, prefix), s), s.calls)
  }

  /** Each session lists the directory the one before it left, no earlier than that one
    ended, and makes a run of calls. */
  ghost predicate Consecutive(r: Retention, found: Disk, sessions: seq<Session>)
    requires Accepted(r) && found.Valid()
  {
    sessions == []
    || (var prefix, s := sessions[..|sessions| - 1], sessions[|sessions| - 1];
        && Consecutive(r, found, prefix)
        && (prefix != [] ==> Ended(r, found, prefix).clock <= s.now)
        && Enumerates(s.listing, Left(r, found, prefix).names.Keys)
        && Run(r, Opened(r, Left(r, found, prefix), s), s.calls))
  }

  /** Whatever the sessions, the bytes in the log at the end of the last one are the last
    bytes that they accepted together. */
  ghost predicate SessionsAlwaysKeepASuffix(r: Retention)
    requires Accepted(r)
  {
    forall found: Disk, sessions: seq<Session> |
      found.Valid() && found.Logs() == {} && Consecutive(r, found, sessions) && sessions != [] ::
      KeepsASuffix(r, Ended(r, found, sessions), AllAccepted(r, found, sessions))
  }

  /** Opening the log again cuts what it holds at the old end only. */
  lemma {:induction false} ReopenKeepsSuffix(r: Retention, w: World, s: Session, k: nat, stream: seq<byte>)
    returns (end: nat)
    requires Accepted(r) && w.Valid() && Holds(r, w, k, stream) && Closing(r, s.now, w.disk)
    requires w.clock <= s.now && Enumerates(s.listing, w.disk.names.Keys)
    ensures Holds(r, Opened(r, w.disk, s), end, stream)
  {
    if Survives(r, s.now, w.disk, Current) {
      ChainLater(r, w.clock, s.now, w.disk, k, true);
      end := CleanupCutsChain(r, s.now, w.disk, s.listing, k, true);
      SuffixTransitive(Content(Opened(r, w.disk, s).disk, end, true), Content(w.disk, k, true), stream);
    } else {
      end := 0;
      AllExpired(r, w, s, k, stream);
      FreshKeepsChain(r, s.now, Cleanup(r, s.now, w.disk, s.listing), 0);
    }
  }

  /** The current file is the newest: once it has expired, all have. */
  lemma {:induction false} AllExpired(r: Retention, w: World, s: Session, k: nat, stream: seq<byte>)
    requires Accepted(r) && w.Valid() && Holds(r, w, k, stream) && Enumerates(s.listing, w.disk.names.Keys)
    requires !Survives(r, s.now, w.disk, Current)
    ensures Cleanup(r, s.now, w.disk, s.listing).Logs() == {}
  {
    CleanupBounds(r, s.now, w.disk, s.listing);
    forall n | n in w.disk.Logs()
      ensures !Survives(r, s.now, w.disk, n)
    {
      assert n == Current || n == Rotated(n.index);
    }
  }

  lemma {:induction false} FirstSession(r: Retention, found: Disk, s: Session) returns (k: nat)
    requires Accepted(r) && HoleFree(r) && found.Valid() && found.Logs() == {}
    requires Enumerates(s.listing, found.names.Keys) && Run(r, Opened(r, found, s), s.calls)
    ensures var w := Opened(r, found, s); Holds(r, Reached(r, w, s.calls), k, [] + Stream(r, w, s.calls))
  {
    NewLogHolds(r, found, s.now, s.listing);
    k := RunKeepsSuffix(r, Opened(r, found, s), s.calls, 0, []);
  }

  /** A session after another. */
  lemma {:induction false} NextSession(r: Retention, last: World, s: Session, k: nat, stream: seq<byte>)
    returns (end: nat)
    requires Accepted(r) && HoleFree(r) && last.Valid() && Holds(r, last, k, stream) && last.clock <= s.now
    requires Enumerates(s.listing, last.disk.names.Keys) && Run(r, Opened(r, last.disk, s), s.calls)
    ensures var w := Opened(r, last.disk, s); Holds(r, Reached(r, w, s.calls), end, stream + Stream(r, w, s.calls))
  {
    end := ReopenKeepsSuffix(r, last, s, k, stream);
    end := RunKeepsSuffix(r, Opened(r, last.disk, s), s.calls, end, stream);
  }

  /** From a directory without logs, after any number of sessions: the log holds exactly
    the last bytes that they accepted together. */
  lemma {:induction false} SessionsHoldTheEnd(r: Retention, found: Disk, sessions: seq<Session>) returns (k: nat)
    requires Accepted(r) && HoleFree(r) && found.Valid() && found.Logs() == {}
    requires Consecutive(r, found, sessions) && sessions != []
    ensures Holds(r, Ended(r, found, sessions), k, AllAccepted(r, found, sessions))
  {
    var prefix, s := sessions[..|sessions| - 1], sessions[|sessions| - 1];
    if prefix == [] {
      k := FirstSession(r, found, s);
    } else {
      k := SessionsHoldTheEnd(r, found, prefix);
      k := NextSession(r, Ended(r, found, prefix), s, k, AllAccepted(r, found, prefix));
    }
  }

  /** The condition on the settings is exact for sessions, too. */
  lemma {:induction false} SessionsKeepASuffixIff(r: Retention)
    requires Accepted(r)
    ensures SessionsAlwaysKeepASuffix(r) <==> HoleFree(r)
  {
    if HoleFree(r) {
      HoleFreeKeepsASuffix(r);
    } else {
      HoleOfOneSession(r);
    }
  }

  lemma {:induction false} HoleFreeKeepsASuffix(r: Retention)
    requires Accepted(r) && HoleFree(r)
    ensures SessionsAlwaysKeepASuffix(r)
  {
    forall found: Disk, sessions: seq<Session> |
      found.Valid() && found.Logs() == {} && Consecutive(r, found, sessions) && sessions != []
      ensures KeepsASuffix(r, Ended(r, found, sessions), AllAccepted(r, found, sessions))
    {
      var k := SessionsHoldTheEnd(r, found, sessions);
      HoldingKeepsASuffix(r, Ended(r, found, sessions), k, AllAccepted(r, found, sessions));
    }
  }

  lemma {:induction false} HoleOfOneSession(r: Retention)
    requires Accepted(r) && !HoleFree(r)
    ensures !SessionsAlwaysKeepASuffix(r)
  {
    var calls := HoleRun(r);
    var s := Session(0, [], calls);
    OneSession(r, Nothing(), s);
    assert !KeepsASuffix(r, Ended(r, Nothing(), [s]), AllAccepted(r, Nothing(), [s]));
  }

  /** One session is a run of calls. */
  lemma {:induction false} OneSession(r: Retention, found: Disk, s: Session)
    requires Accepted(r) && found.Valid() && Enumerates(s.listing, found.names.Keys)
    requires Run(r, Opened(r, found, s), s.calls)
    ensures var w := Opened(r, found, s);
      && Consecutive(r, found, [s]) && Ended(r, found, [s]) == Reached(r, w, s.calls)
      && AllAccepted(r, found, [s]) == Stream(r, w, s.calls)
  {
    var only := [s];
    NoSession(r, found, only[..|only| - 1]);
  }

  lemma {:induction false} NoSession(r: Retention, found: Disk, none: seq<Session>)
    requires Accepted(r) && found.Valid() && none == []
    ensures Consecutive(r, found, none) && Left(r, found, none) == found && AllAccepted(r, found, none) == []
  {
  }
}
