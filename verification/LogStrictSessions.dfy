/** The log over any number of processes, under a clock that never returns the same
  reading to two calls (crates/keyro-core/src/logging.rs). */
module LogStrictSessions {
  import opened LogNames
  import opened LogDisk
  import opened LogCleanup
  import opened LogGuarantees
  import opened LogRotation
  import opened LogStream
  import opened LogHoles
  import opened LogSessions
  import opened LogStrict
  import opened LogOneFile
  import opened LogTowers

  /** What such a clock keeps: files of different ages, and at most one with bytes if
    there is room for no more. */
  ghost predicate Steady(r: Retention, w: World) {
    Orderly(w) && (RoomAboveLast(r) || OneFile(r, w))
  }

  lemma {:induction false} CallKeepsSteady(r: Retention, w: World, c: Call)
    requires Accepted(r) && StrictlyHoleFree(r) && Steady(r, w) && w.FileSize() < r.maxFileBytes
    requires Possible(r, w, c) && w.clock < c.now
    ensures ClosingCall(r, w, c) && Steady(r, After(r, w, c))
  {
    StrictCallOrders(r, w, c);
    if !RoomAboveLast(r) {
      OneFileCall(r, w, c);
    }
  }

  /** Every run keeps what the log holds at the end of the stream, from wherever it
    starts. */
  lemma {:induction false} SteadyRun(r: Retention, w: World, calls: seq<Call>, k: nat, stream: seq<byte>)
    returns (end: nat)
    requires Accepted(r) && StrictlyHoleFree(r) && Steady(r, w) && Holds(r, w, k, stream) && StrictRun(r, w, calls)
    ensures Steady(r, Reached(r, w, calls)) && Holds(r, Reached(r, w, calls), end, stream + Stream(r, w, calls))
  {
    if calls == [] {
      end := k;
      assert stream + [] == stream;
    } else {
      var prefix, c := calls[..|calls| - 1], calls[|calls| - 1];
      end := SteadyRun(r, w, prefix, k, stream);
      CallKeepsSteady(r, Reached(r, w, prefix), c);
      end := CallKeepsSuffix(r, Reached(r, w, prefix), c, end, stream + Stream(r, w, prefix));
      AppendTwice(stream, Stream(r, w, prefix), Added(r, Reached(r, w, prefix), c));
    }
  }

  /** Within each session no two calls read the same time. */
  ghost predicate NoRepeats(r: Retention, found: Disk, sessions: seq<Session>)
    requires Accepted(r) && found.Valid()
  {
    sessions == []
    || (var prefix, s := sessions[..|sessions| - 1], sessions[|sessions| - 1];
        NoRepeats(r, found, prefix) && StrictRun(r, Opened(r, Left(r, found, prefix), s), s.calls))
  }

  lemma {:induction false} ReopenOrders(r: Retention, w: World, s: Session)
    requires Accepted(r) && Orderly(w) && w.clock <= s.now && Enumerates(s.listing, w.disk.names.Keys)
    ensures Dated(r, s.now, w.disk) && Orderly(Opened(r, w.disk, s))
  {
    var e := Cleanup(r, s.now, w.disk, s.listing);
    DescendingIsDated(r, s.now, w.disk);
    ApartLater(w.disk, w.clock, s.now);
    PassOrders(r, s.now, w.disk, s.listing, s.now);
    if Current !in e.names {
      OpenOrders(e, s.now, s.now);
    }
  }

  lemma {:induction false} ReopenLeavesOneFile(r: Retention, w: World, s: Session, k: nat, stream: seq<byte>)
    requires Accepted(r) && w.Valid() && Holds(r, w, k, stream) && OneFile(r, w)
    requires Enumerates(s.listing, w.disk.names.Keys)
    ensures OneFile(r, Opened(r, w.disk, s)) && TwoAtMost(w.disk)
  {
    var e := Cleanup(r, s.now, w.disk, s.listing);
    CleanupBounds(r, s.now, w.disk, s.listing);
    if !Survives(r, s.now, w.disk, Current) {
      AllExpired(r, w, s, k, stream);
      assert forall j: nat | Rotated(j) in e.names :: Rotated(j) in e.Logs();
    }
  }

  /** So does opening the log again. */
  lemma {:induction false} ReopenKeepsSteady(r: Retention, w: World, s: Session, k: nat, stream: seq<byte>)
    requires Accepted(r) && StrictlyHoleFree(r) && Steady(r, w) && Holds(r, w, k, stream)
    requires w.clock <= s.now && Enumerates(s.listing, w.disk.names.Keys)
    ensures Closing(r, s.now, w.disk) && Steady(r, Opened(r, w.disk, s))
  {
    ReopenOrders(r, w, s);
    if !RoomAboveLast(r) {
      ReopenLeavesOneFile(r, w, s, k, stream);
    }
  }

  lemma {:induction false} NewLogIsSteady(r: Retention, found: Disk, s: Session) returns (k: nat)
    requires Accepted(r) && found.Valid() && found.Logs() == {} && Enumerates(s.listing, found.names.Keys)
    ensures Steady(r, Opened(r, found, s)) && Holds(r, Opened(r, found, s), k, [])
  {
    var w := Opened(r, found, s);
    k := EmptyLogHolds(r, found, s.now, s.listing);
    assert forall j: nat | Rotated(j) in w.disk.names :: Rotated(j) in w.disk.Logs();
  }

  lemma {:induction false} SteadySession(r: Retention, last: World, s: Session, k: nat, stream: seq<byte>)
    returns (end: nat)
    requires Accepted(r) && StrictlyHoleFree(r) && Steady(r, last) && Holds(r, last, k, stream)
    requires last.clock <= s.now && Enumerates(s.listing, last.disk.names.Keys)
    requires StrictRun(r, Opened(r, last.disk, s), s.calls)
    ensures var w := Opened(r, last.disk, s);
      Steady(r, Reached(r, w, s.calls)) && Holds(r, Reached(r, w, s.calls), end, stream + Stream(r, w, s.calls))
  {
    ReopenKeepsSteady(r, last, s, k, stream);
    end := ReopenKeepsSuffix(r, last, s, k, stream);
    end := SteadyRun(r, Opened(r, last.disk, s), s.calls, end, stream);
  }

  /** From a directory without logs, after any number of sessions: the log holds exactly
    the last bytes that they accepted together. */
  lemma {:induction false} StrictSessionsHoldTheEnd(r: Retention, found: Disk, sessions: seq<Session>)
    returns (k: nat)
    requires Accepted(r) && StrictlyHoleFree(r) && found.Valid() && found.Logs() == {}
    requires Consecutive(r, found, sessions) && NoRepeats(r, found, sessions) && sessions != []
    ensures Steady(r, Ended(r, found, sessions))
    ensures Holds(r, Ended(r, found, sessions), k, AllAccepted(r, found, sessions))
  {
    var prefix, s := sessions[..|sessions| - 1], sessions[|sessions| - 1];
    if prefix == [] {
      k := NewLogIsSteady(r, found, s);
      k := SteadyRun(r, Opened(r, found, s), s.calls, k, []);
    } else {
      k := StrictSessionsHoldTheEnd(r, found, prefix);
      k := SteadySession(r, Ended(r, found, prefix), s, k, AllAccepted(r, found, prefix));
    }
  }

  /** Whatever the sessions, the bytes in the log at the end of the last one are the last
    bytes that they accepted together. */
  ghost predicate StrictSessionsAlwaysKeepASuffix(r: Retention)
    requires Accepted(r)
  {
    forall found: Disk, sessions: seq<Session> |
      && found.Valid() && found.Logs() == {} && sessions != []
      && Consecutive(r, found, sessions) && NoRepeats(r, found, sessions) ::
      KeepsASuffix(r, Ended(r, found, sessions), AllAccepted(r, found, sessions))
  }

  /** With the bounds of `AlwaysHoldsTheEndStrictlyIff` the condition is exact for
    sessions, too. */
  lemma {:induction false} StrictSessionsKeepASuffixIff(r: Retention)
    requires Accepted(r) && 3 <= r.maxFileBytes && r.maxFiles <= r.maxAge
    ensures StrictSessionsAlwaysKeepASuffix(r) <==> StrictlyHoleFree(r)
  {
    if StrictlyHoleFree(r) {
      StrictlyHoleFreeSessions(r);
    } else {
      StrictHoleOfOneSession(r);
    }
  }

  lemma {:induction false} StrictlyHoleFreeSessions(r: Retention)
    requires Accepted(r) && StrictlyHoleFree(r)
    ensures StrictSessionsAlwaysKeepASuffix(r)
  {
    forall found: Disk, sessions: seq<Session> |
      && found.Valid() && found.Logs() == {} && sessions != []
      && Consecutive(r, found, sessions) && NoRepeats(r, found, sessions)
      ensures KeepsASuffix(r, Ended(r, found, sessions), AllAccepted(r, found, sessions))
    {
      var k := StrictSessionsHoldTheEnd(r, found, sessions);
      HoldingKeepsASuffix(r, Ended(r, found, sessions), k, AllAccepted(r, found, sessions));
    }
  }

  lemma {:induction false} StrictHoleOfOneSession(r: Retention)
    requires Accepted(r) && 3 <= r.maxFileBytes && r.maxFiles <= r.maxAge && !StrictlyHoleFree(r)
    ensures !StrictSessionsAlwaysKeepASuffix(r)
  {
    var calls, i := StrictHoleRun(r);
    var s := Session(0, [], calls);
    StrictRunIsRun(r, NewLog(r), calls);
    OneSession(r, Nothing(), s);
    OneStrictSession(r, Nothing(), s);
    assert !KeepsASuffix(r, Ended(r, Nothing(), [s]), AllAccepted(r, Nothing(), [s]));
  }

  lemma {:induction false} OneStrictSession(r: Retention, found: Disk, s: Session)
    requires Accepted(r) && found.Valid() && StrictRun(r, Opened(r, found, s), s.calls)
    ensures NoRepeats(r, found, [s])
  {
    var only := [s];
    NoStrictSession(r, found, only[..|only| - 1]);
  }

  lemma {:induction false} NoStrictSession(r: Retention, found: Disk, none: seq<Session>)
    requires Accepted(r) && found.Valid() && none == []
    ensures NoRepeats(r, found, none) && Left(r, found, none) == found
  {
  }
}
