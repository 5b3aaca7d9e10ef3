/**
 What every run of the satellite keeps: ownership of file objects, no use of a
 closed file, the size of the table, and the fate of dead handles
 (cmd/satellite/server/server.go).
 */
module HandleTable {

  import opened Prelude
  import opened ErrorCodec
  import opened Kernel
  import opened Satellite
  import OpenFlags

  // ---------- Conservation ----------

  lemma {:induction false} RunOwned(h: Host, w: World, run: Run)
    requires h.Valid() && Owned(w)
    ensures Owned(After(h, w, run))
    decreases |run|
  {
    hide Step;
    if run != [] {
      StepOwned(h, w, run[0].0, run[0].1);
      RunOwned(h, Step(h, w, run[0].0, run[0].1).0, run[1..]);
    }
  }

  /**
   Conservation: in every reachable state, each file object ever created is
   held by exactly one table key and was never closed, or is held by none and
   was closed exactly once.  No assumption on descriptor numbers: displaced
   entries, failing closes and opens that fail at fstat are all covered.
   */
  lemma {:induction false} Conservation(h: Host, os: Os, run: Run, i: nat)
    requires h.Valid() && os.Valid() && os.files == []
    requires i < |After(h, Started(os), run).os.files|
    ensures var w := After(h, Started(os), run);
            |Holders(w, i)| + w.os.files[i].closeCalls == 1
  {
    RunOwned(h, Started(os), run);
    var w := After(h, Started(os), run);
    var f := w.os.files[i];
    if f.closeCalls == 0 {
      assert Holders(w, i) == {f.fd};
    } else {
      assert Holders(w, i) == {};
    }
  }

  // ---------- No use after close ----------

  /** POSIX.1-2017 XSH 2.14: the number of a new descriptor is not the number of an open one. */
  ghost predicate DescriptorFree(w: World, k: Choice) {
    forall i :: 0 <= i < |w.os.files| && w.os.files[i].closeCalls == 0 ==> w.os.files[i].fd != k.fd
  }

  /** Under that guarantee the branch of Open that closes a stale entry is never taken. */
  lemma {:induction false} StaleBranchUnreachable(h: Host, os: Os, run: Run, k: Choice)
    requires h.Valid() && os.Valid() && os.files == []
    requires DescriptorFree(After(h, Started(os), run), k)
    ensures k.fd !in After(h, Started(os), run).fds
  {
    RunOwned(h, Started(os), run);
  }

  /**
   Names and contents after an open that is not refused.  A path that has a name
   keeps it and its file, emptied if the open truncates; a path that has none is
   given a new empty file.  Every other name and file stays.
   */
  ghost predicate Reached(os: Os, path: string, truncates: bool, os': Os) {
    && (if path in os.names then os'.names == os.names && |os'.disk| == |os.disk|
        else os'.names == os.names[path := |os.disk|] && |os'.disk| == |os.disk| + 1 && os'.disk[|os.disk|] == [])
    && (forall j :: 0 <= j < |os.disk| ==>
         os'.disk[j] == if truncates && path in os.names && j == os.names[path] then [] else os.disk[j])
  }

  /** The inode an open of the path reaches. */
  function Target(os: Os, path: string): nat {
    if path in os.names then os.names[path] else |os.disk|
  }

  /**
   Why an open fails: the system says so, or the path has no name and is not to
   be created, or it has one and has to be new.
   */
  function Denied(h: Host, os: Os, path: string, want: set<nat>, k: Choice): Option<int>
    requires h.Valid()
  {
    if k.err.Some? then k.err
    else if path in os.names then
      if OpenFlags.O_CREAT in want && OpenFlags.O_EXCL in want then Some(h.errnos["EEXIST"]) else None
    else
      if OpenFlags.O_CREAT in want then None else Some(h.errnos["ENOENT"])
  }

  lemma {:induction false} FileReached(h: Host, os: Os, path: string, want: set<nat>, k: Choice)
    requires h.Valid() && os.Valid()
    ensures var denied := Denied(h, os, path, want, k);
            var (grown, file) := OpenFile(os, h.errnos, path, want, k);
            if denied.Some? then file == Err(SysError(denied.value))
            else
              && file == Ok(|os.files|) && Reached(os, path, OpenFlags.O_TRUNC in want, grown)
              && grown.files == os.files + [FileObj(k.fd, Target(os, path), OpenFlags.O_APPEND in want, 0, 0)]
  {
  }

  lemma {:induction false} StoreEffect(w: World, grown: Os, file: FileObj, k: Choice)
    requires Owned(w) && grown.Valid() && grown.files == w.os.files + [file] && file.closeCalls == 0
    ensures var (w', reply) := Store(w, grown, |w.os.files|, k);
            var n := |w.os.files|;
            && w'.alive == w.alive && w'.fds == w.fds[file.fd := n]
            && w'.os.names == grown.names && w'.os.disk == grown.disk
            && |w'.os.files| == n + 1 && w'.os.files[n] == file
            && (forall i :: 0 <= i < n ==> w'.os.files[i] == if file.fd in w.fds && w.fds[file.fd] == i
                                                             then w.os.files[i].(closeCalls := 1) else w.os.files[i])
            && reply == if k.statErr.Some? then Errored(SysError(k.statErr.value))
                        else Opened(file.fd, file.ino, |grown.disk[file.ino]|)
  {
  }

  /**
   An open, exactly.  A denied one changes nothing.  Any other reaches its file
   and enters it in the table, even when the fstat fails, and closes the entry
   it displaces, if there is one.
   */
  lemma {:induction false} OpenEffect(h: Host, w: World, path: string, wire: OpenFlags.Word, k: Choice)
    requires h.Valid() && Owned(w)
    ensures var want := Wanted(h, wire);
            var denied := Denied(h, w.os, path, want, k);
            var (w', reply) := OnOpen(h, w, path, wire, k);
            var ino, n := Target(w.os, path), |w.os.files|;
            if denied.Some? then w' == w && reply == Errored(SysError(denied.value))
            else
              && w'.alive == w.alive && w'.fds == w.fds[k.fd := n]
              && Reached(w.os, path, OpenFlags.O_TRUNC in want, w'.os)
              && |w'.os.files| == n + 1 && w'.os.files[n] == FileObj(k.fd, ino, OpenFlags.O_APPEND in want, 0, 0)
              && (forall i :: 0 <= i < n ==> w'.os.files[i] == if k.fd in w.fds && w.fds[k.fd] == i
                                                               then w.os.files[i].(closeCalls := 1) else w.os.files[i])
              && reply == if k.statErr.Some? then Errored(SysError(k.statErr.value))
                          else Opened(k.fd, ino, |w'.os.disk[ino]|)
  {
    hide OpenFile, Store, Wanted;
    var want := Wanted(h, wire);
    FileReached(h, w.os, path, want, k);
    if Denied(h, w.os, path, want, k).None? {
      var file := FileObj(k.fd, Target(w.os, path), OpenFlags.O_APPEND in want, 0, 0);
      StoreEffect(w, OpenFile(w.os, h.errnos, path, want, k).0, file, k);
    }
  }

  /** With a free descriptor number, an open that is not denied adds one entry and touches no other. */
  lemma {:induction false} OpenAddsEntry(h: Host, w: World, path: string, wire: OpenFlags.Word, k: Choice)
    requires h.Valid() && Owned(w) && DescriptorFree(w, k)
    ensures var want := Wanted(h, wire);
            var denied := Denied(h, w.os, path, want, k);
            var (w', reply) := OnOpen(h, w, path, wire, k);
            var ino := Target(w.os, path);
            if denied.Some? then w' == w && reply == Errored(SysError(denied.value))
            else
              && k.fd !in w.fds && w'.alive == w.alive && w'.fds == w.fds[k.fd := |w.os.files|]
              && Reached(w.os, path, OpenFlags.O_TRUNC in want, w'.os)
              && w'.os.files == w.os.files + [FileObj(k.fd, ino, OpenFlags.O_APPEND in want, 0, 0)]
              && reply == if k.statErr.Some? then Errored(SysError(k.statErr.value))
                          else Opened(k.fd, ino, |w'.os.disk[ino]|)
  {
    hide OnOpen;
    OpenEffect(h, w, path, wire, k);
  }

  /** The file objects a request calls methods on. */
  ghost function Touched(h: Host, w: World, e: Event, k: Choice): set<nat>
    requires h.Valid() && w.Valid()
  {
    match e
    case Open(path, wire) =>
      if OpenFile(w.os, h.errnos, path, Wanted(h, wire), k).1.Err? then {}
      else {|w.os.files|} + if k.fd in w.fds then {w.fds[k.fd]} else {}
    case Truncate(_, _) => {}
    case CloseAll => w.fds.Values
    case _ => if e.fd in w.fds then {w.fds[e.fd]} else {}
  }

  /** No use after close: in every reachable state, whatever comes next touches only files that were never closed. */
  lemma {:induction false} NoUseAfterClose(h: Host, os: Os, run: Run, e: Event, k: Choice, id: nat)
    requires h.Valid() && os.Valid() && os.files == []
    requires id in Touched(h, After(h, Started(os), run), e, k)
    ensures var w := After(h, Started(os), run);
            id < |w.os.files| ==> w.os.files[id].closeCalls == 0
    ensures id >= |After(h, Started(os), run).os.files| ==> e.Open? && id == |After(h, Started(os), run).os.files|
  {
    RunOwned(h, Started(os), run);
  }

  // ---------- Panics ----------

  /** Requests that make Go code panic: a negative count or offset on a live handle. */
  predicate Malformed(w: World, e: Event)
    requires forall key :: key in w.fds ==> w.fds[key] < |w.os.files|
  {
    match e
    case Read(key, off, num) => key in w.fds && (num < 0 || off < 0)
    case Write(key, off, _) => key in w.fds && !w.os.files[w.fds[key]].appending && off < 0
    case _ => false
  }

  lemma {:induction false} FatalIffMalformed(h: Host, w: World, e: Event, k: Choice)
    requires h.Valid() && Owned(w)
    ensures Handle(h, w, e, k).1.Fatal() <==> Malformed(w, e)
    ensures !Handle(h, w, e, k).1.Gone?
  {
    hide OnOpen, OnCloseAll;
    if e.Open? { OpenNotFatal(h, w, e.path, e.wire, k); }
  }

  lemma {:induction false} OpenNotFatal(h: Host, w: World, path: string, wire: OpenFlags.Word, k: Choice)
    requires h.Valid() && Owned(w)
    ensures var reply := OnOpen(h, w, path, wire, k).1;
            !reply.Fatal() && !reply.Gone?
  {
  }

  lemma {:induction false} LostIffFatal(c: Channel, reply: Reply)
    requires c.Valid()
    ensures Deliver(c, reply).Lost? <==> reply.Gone? || reply.Fatal()
    ensures Deliver(c, reply).Lost? ==> Deliver(c, reply).text == if reply.Gone? then SHUTDOWN else UNEXPECTED_EOF
  {
    if reply.Errored? { ErrorRoundTrip(c, reply.err); }
  }

  /** A living satellite is lost exactly on malformed requests; a dead one stays dead and answers nothing. */
  lemma {:induction false} LostIffMalformed(h: Host, c: Channel, w: World, e: Event, k: Choice)
    requires h.Valid() && c.Valid() && Owned(w)
    ensures var (w', reply) := Step(h, w, e, k);
            && (Deliver(c, reply).Lost? <==> !w.alive || Malformed(w, e))
            && (Deliver(c, reply).Lost? ==> Deliver(c, reply).text == if w.alive then UNEXPECTED_EOF else SHUTDOWN)
            && (w'.alive <==> w.alive && !Malformed(w, e))
  {
    hide Handle, Deliver;
    FatalIffMalformed(h, w, e, k);
    LostIffFatal(c, Step(h, w, e, k).1);
  }

  /** No request of the run is malformed when it arrives. */
  ghost predicate Harmless(h: Host, w: World, run: Run)
    requires h.Valid() && w.Valid()
    decreases |run|
  {
    run != [] ==> !Malformed(w, run[0].0) && Harmless(h, Step(h, w, run[0].0, run[0].1).0, run[1..])
  }

  /** The satellite survives a run exactly when no request of it is malformed. */
  lemma {:induction false} AliveIffHarmless(h: Host, c: Channel, w: World, run: Run)
    requires h.Valid() && c.Valid() && Owned(w) && w.alive
    ensures After(h, w, run).alive <==> Harmless(h, w, run)
    decreases |run|
  {
    hide Step, Malformed;
    if run != [] {
      var w' := Step(h, w, run[0].0, run[0].1).0;
      LostIffMalformed(h, c, w, run[0].0, run[0].1);
      StepOwned(h, w, run[0].0, run[0].1);
      if w'.alive { AliveIffHarmless(h, c, w', run[1..]); } else { DeadStaysDead(h, w', run[1..]); }
    }
  }

  lemma {:induction false} DeadStaysDead(h: Host, w: World, run: Run)
    requires h.Valid() && w.Valid() && !w.alive
    ensures After(h, w, run) == w
    ensures forall i :: 0 <= i < |run| ==> Replies(h, w, run)[i] == Gone
    decreases |run|
  {
    if run != [] { DeadStaysDead(h, w, run[1..]); }
  }

  /** Request i of a run is answered exactly when neither it nor an earlier one was malformed. */
  lemma {:induction false} AnsweredIffHarmless(h: Host, c: Channel, w: World, run: Run, i: nat)
    requires h.Valid() && c.Valid() && Owned(w) && w.alive && i < |run|
    ensures !Deliver(c, Replies(h, w, run)[i]).Lost? <==> Harmless(h, w, run[..i + 1])
    decreases |run|
  {
    hide Step, Malformed, Deliver;
    var w' := Step(h, w, run[0].0, run[0].1).0;
    LostIffMalformed(h, c, w, run[0].0, run[0].1);
    StepOwned(h, w, run[0].0, run[0].1);
    assert run[..i + 1][1..] == run[1..][..i];
    if i > 0 {
      if w'.alive {
        AnsweredIffHarmless(h, c, w', run[1..], i - 1);
      } else {
        DeadStaysDead(h, w', run[1..]);
        LostIffFatal(c, Gone);
      }
    }
  }

  /** Offsets and counts as the kernel sends them. */
  predicate WellFormed(e: Event) {
    match e
    case Read(_, off, num) => 0 <= off && 0 <= num
    case Write(_, off, _) => 0 <= off
    case _ => true
  }

  /** A living satellite survives every run of well-formed requests and answers each of them. */
  lemma {:induction false} RunSurvives(h: Host, c: Channel, w: World, run: Run)
    requires h.Valid() && c.Valid() && Owned(w)
    requires forall j :: 0 <= j < |run| ==> WellFormed(run[j].0)
    ensures Harmless(h, w, run)
    ensures w.alive ==> After(h, w, run).alive
    ensures w.alive ==> forall j :: 0 <= j < |run| ==> !Deliver(c, Replies(h, w, run)[j]).Lost?
    decreases |run|
  {
    hide Step, Deliver;
    if run != [] {
      StepOwned(h, w, run[0].0, run[0].1);
      LostIffMalformed(h, c, w, run[0].0, run[0].1);
      RunSurvives(h, c, Step(h, w, run[0].0, run[0].1).0, run[1..]);
    }
  }

  // ---------- Counting ----------

  /** Every open in the run is given a number that is free at that point, and CloseAllFDs is not called. */
  ghost predicate Conforming(h: Host, w: World, run: Run)
    requires h.Valid() && w.Valid()
    decreases |run|
  {
    run != [] ==>
      && !run[0].0.CloseAll?
      && (run[0].0.Open? ==> DescriptorFree(w, run[0].1))
      && Conforming(h, Step(h, w, run[0].0, run[0].1).0, run[1..])
  }

  /** Opens of the run that were answered with a handle. */
  function OpensAnswered(h: Host, w: World, run: Run): nat
    requires h.Valid() && w.Valid()
    decreases |run|
  {
    if run == [] then 0
    else
      var (w', reply) := Step(h, w, run[0].0, run[0].1);
      (if reply.Opened? then 1 else 0) + OpensAnswered(h, w', run[1..])
  }

  /** Opens of the run that created a file and then failed at fstat. */
  function OpensAbandoned(h: Host, w: World, run: Run): nat
    requires h.Valid() && w.Valid()
    decreases |run|
  {
    if run == [] then 0
    else
      var (w', reply) := Step(h, w, run[0].0, run[0].1);
      (if reply.Errored? && |w'.os.files| > |w.os.files| then 1 else 0) + OpensAbandoned(h, w', run[1..])
  }

  /** Closes of the run that reached a satellite with that key in its table. */
  function ClosesOfKeys(h: Host, w: World, run: Run): nat
    requires h.Valid() && w.Valid()
    decreases |run|
  {
    if run == [] then 0
    else
      var (w', reply) := Step(h, w, run[0].0, run[0].1);
      (if w.alive && run[0].0.Close? && run[0].0.fd in w.fds then 1 else 0) + ClosesOfKeys(h, w', run[1..])
  }

  lemma {:induction false} StepCount(h: Host, w: World, e: Event, k: Choice)
    requires h.Valid() && Owned(w) && !e.CloseAll? && (e.Open? ==> DescriptorFree(w, k))
    ensures var (w', reply) := Step(h, w, e, k);
            |w'.fds| == |w.fds|
                        + (if reply.Opened? then 1 else 0)
                        + (if reply.Errored? && |w'.os.files| > |w.os.files| then 1 else 0)
                        - (if w.alive && e.Close? && e.fd in w.fds then 1 else 0)
  {
    if e.Open? {
      OpenCount(h, w, e.path, e.wire, k);
    } else {
      hide Handle;
      OtherCount(h, w, e, k);
    }
  }

  lemma {:induction false} OtherKeys(h: Host, w: World, e: Event, k: Choice)
    requires h.Valid() && w.Valid() && !e.CloseAll? && !e.Open?
    ensures Handle(h, w, e, k).0.fds.Keys == w.fds.Keys - if e.Close? then {e.fd} else {}
  {
    hide OnOpen, OnCloseAll;
  }

  lemma {:induction false} OtherCount(h: Host, w: World, e: Event, k: Choice)
    requires h.Valid() && Owned(w) && !e.CloseAll? && !e.Open?
    ensures var (w', reply) := Handle(h, w, e, k);
            && !reply.Opened? && |w'.os.files| == |w.os.files|
            && |w'.fds| == |w.fds| - (if e.Close? && e.fd in w.fds then 1 else 0)
  {
    hide OnOpen, OnCloseAll;
    if e.Close? && e.fd in w.fds {
      var left := w.fds - {e.fd};
      assert |w.fds.Keys| == |left.Keys| + 1 by { assert w.fds.Keys == left.Keys + {e.fd}; }
    }
  }

  lemma {:induction false} OpenCount(h: Host, w: World, path: string, wire: OpenFlags.Word, k: Choice)
    requires h.Valid() && Owned(w) && DescriptorFree(w, k)
    ensures var (w', reply) := OnOpen(h, w, path, wire, k);
            if |w'.os.files| > |w.os.files|
            then (reply.Opened? || reply.Errored?) && |w'.fds| == |w.fds| + 1
            else reply.Errored? && w' == w
  {
  }

  /** The size of the table: opens answered, plus opens abandoned at fstat, minus closes of present keys. */
  lemma {:induction false} CountingLaw(h: Host, w: World, run: Run)
    requires h.Valid() && Owned(w) && Conforming(h, w, run)
    ensures |After(h, w, run).fds| + ClosesOfKeys(h, w, run)
            == |w.fds| + OpensAnswered(h, w, run) + OpensAbandoned(h, w, run)
    decreases |run|
  {
    hide Step;
    if run != [] {
      StepCount(h, w, run[0].0, run[0].1);
      StepOwned(h, w, run[0].0, run[0].1);
      CountingLaw(h, Step(h, w, run[0].0, run[0].1).0, run[1..]);
    }
  }

  /** The handles a client holds: those it held, plus those it was given, minus those it closed. */
  function Held(h: Host, w: World, run: Run, held: set<nat>): set<nat>
    requires h.Valid() && w.Valid()
    decreases |run|
  {
    if run == [] then held
    else
      var (w', reply) := Step(h, w, run[0].0, run[0].1);
      var held' := if reply.Opened? then held + {reply.fd} else if run[0].0.Close? then held - {run[0].0.fd} else held;
      Held(h, w', run[1..], held')
  }

  /** Every handle the client was given and has not closed is a key of the table. */
  lemma {:induction false} HeldHandlesAreKeys(h: Host, w: World, run: Run, held: set<nat>)
    requires h.Valid() && w.Valid() && held <= w.fds.Keys
    requires forall j :: 0 <= j < |run| ==> !run[j].0.CloseAll?
    ensures Held(h, w, run, held) <= After(h, w, run).fds.Keys
    decreases |run|
  {
    if run != [] {
      var (w', reply) := Step(h, w, run[0].0, run[0].1);
      var held' := if reply.Opened? then held + {reply.fd} else if run[0].0.Close? then held - {run[0].0.fd} else held;
      HeldHandlesAreKeys(h, w', run[1..], held');
    }
  }

  // ---------- Dead handles ----------

  /** No open of the run is given the number key. */
  predicate NeverAssigned(run: Run, key: nat) {
    forall i :: 0 <= i < |run| && run[i].0.Open? ==> run[i].1.fd != key
  }

  /** The run without its requests on key. */
  function Without(run: Run, key: nat): Run {
    if run == [] then []
    else if run[0].0.On(key) then Without(run[1..], key)
    else [run[0]] + Without(run[1..], key)
  }

  /** The replies of a run that answer requests not on key. */
  function RepliesWithout(run: Run, rs: seq<Reply>, key: nat): seq<Reply>
    requires |run| == |rs|
  {
    if run == [] then []
    else (if run[0].0.On(key) then [] else [rs[0]]) + RepliesWithout(run[1..], rs[1..], key)
  }

  lemma {:induction false} DeadStep(h: Host, w: World, e: Event, k: Choice, key: nat)
    requires h.Valid() && w.Valid() && key !in w.fds && (e.Open? ==> k.fd != key)
    ensures key !in Step(h, w, e, k).0.fds
    ensures e.On(key) ==> Step(h, w, e, k) == (w, if w.alive then BadHandle(h) else Gone)
  {
  }

  /**
   Dead handles: while no open is given the number, every request on a number
   that is not in the table fails as a bad handle, as long as the satellite
   answers at all, and erasing those requests changes neither the final state
   nor any other reply.
   */
  lemma {:induction false} DeadHandle(h: Host, w: World, run: Run, key: nat)
    requires h.Valid() && w.Valid() && key !in w.fds && NeverAssigned(run, key)
    ensures key !in After(h, w, run).fds
    ensures After(h, w, run) == After(h, w, Without(run, key))
    ensures RepliesWithout(run, Replies(h, w, run), key) == Replies(h, w, Without(run, key))
    ensures forall i :: 0 <= i < |run| && run[i].0.On(key) ==>
              Replies(h, w, run)[i] == if After(h, w, run[..i]).alive then BadHandle(h) else Gone
    decreases |run|
  {
    hide Step;
    if run != [] {
      DeadStep(h, w, run[0].0, run[0].1, key);
      var (w', reply) := Step(h, w, run[0].0, run[0].1);
      forall i | 0 <= i < |run[1..]| && run[1..][i].0.Open? ensures run[1..][i].1.fd != key {
        assert run[1..][i] == run[i + 1];
      }
      DeadHandle(h, w', run[1..], key);
      var rs := Replies(h, w, run);
      assert rs[1..] == Replies(h, w', run[1..]);
      forall i | 0 <= i < |run| && run[i].0.On(key)
        ensures rs[i] == if After(h, w, run[..i]).alive then BadHandle(h) else Gone
      {
        if i > 0 {
          assert run[i] == run[1..][i - 1] && rs[i] == rs[1..][i - 1];
          assert run[..i][1..] == run[1..][..i - 1];
        }
      }
      if !run[0].0.On(key) {
        assert ([run[0]] + Without(run[1..], key))[1..] == Without(run[1..], key);
      }
    }
  }

  // ---------- Flush, then Release ----------

  lemma {:induction false} StepKeepsClosed(h: Host, w: World, e: Event, k: Choice, id: nat)
    requires h.Valid() && Owned(w) && id < |w.os.files| && w.os.files[id].closeCalls == 1
    ensures var w' := Step(h, w, e, k).0;
            id < |w'.os.files| && w'.os.files[id].closeCalls == 1
  {
  }

  lemma {:induction false} RunKeepsClosed(h: Host, w: World, run: Run, id: nat)
    requires h.Valid() && Owned(w) && id < |w.os.files| && w.os.files[id].closeCalls == 1
    ensures var w' := After(h, w, run);
            id < |w'.os.files| && w'.os.files[id].closeCalls == 1
    decreases |run|
  {
    hide Step;
    if run != [] {
      StepKeepsClosed(h, w, run[0].0, run[0].1, id);
      StepOwned(h, w, run[0].0, run[0].1);
      RunKeepsClosed(h, Step(h, w, run[0].0, run[0].1).0, run[1..], id);
    }
  }

  /** Whether the number is in use at the end of a run, judged by opens and closes alone. */
  function InUse(h: Host, w: World, run: Run, key: nat, now: bool): bool
    requires h.Valid() && w.Valid()
    decreases |run|
  {
    if run == [] then now
    else
      var (e, k) := run[0];
      var w' := Step(h, w, e, k).0;
      InUse(h, w', run[1..], key,
        if e.Open? && k.fd == key && |w'.os.files| > |w.os.files| then true
        else if w.alive && (e == Event.Close(key) || e == CloseAll) then false
        else now)
  }

  lemma {:induction false} StepInUse(h: Host, w: World, e: Event, k: Choice, key: nat)
    requires h.Valid() && w.Valid()
    ensures var w' := Step(h, w, e, k).0;
            key in w'.fds <==> if e.Open? && k.fd == key && |w'.os.files| > |w.os.files| then true
                               else if w.alive && (e == Event.Close(key) || e == CloseAll) then false
                               else key in w.fds
  {
  }

  lemma {:induction false} InUseIffKey(h: Host, w: World, run: Run, key: nat)
    requires h.Valid() && w.Valid()
    ensures key in After(h, w, run).fds <==> InUse(h, w, run, key, key in w.fds)
    decreases |run|
  {
    hide Step;
    if run != [] {
      StepInUse(h, w, run[0].0, run[0].1, key);
      InUseIffKey(h, Step(h, w, run[0].0, run[0].1).0, run[1..], key);
    }
  }

  /**
   Flush and Release both close the handle.  Whatever happens in between, the
   file is closed exactly once.  The second close changes nothing exactly when
   the satellite died, or no open since was given the number, or it was closed
   again; a living satellite then refuses it as a bad handle.  Otherwise it
   closes the file object of whoever was given the number since.
   */
  lemma {:induction false} FlushThenRelease(h: Host, w: World, key: nat, k1: Choice, run: Run, k2: Choice)
    requires h.Valid() && Owned(w) && w.alive && key in w.fds
    ensures var w1 := Step(h, w, Event.Close(key), k1).0;
            var w2 := After(h, w1, run);
            var (w3, reply) := Step(h, w2, Event.Close(key), k2);
            && w.fds[key] < |w3.os.files| && w3.os.files[w.fds[key]].closeCalls == 1
            && (w3 == w2 <==> !w2.alive || !InUse(h, w1, run, key, false))
            && (w3 == w2 ==> reply == if w2.alive then BadHandle(h) else Gone)
            && (NeverAssigned(run, key) ==> w3 == w2)
            && (w3 != w2 ==> key in w2.fds && w2.fds[key] != w.fds[key] && w3.os.files[w2.fds[key]].closeCalls == 1)
  {
    var id := w.fds[key];
    var w1 := Step(h, w, Event.Close(key), k1).0;
    StepOwned(h, w, Event.Close(key), k1);
    var w2 := After(h, w1, run);
    RunOwned(h, w1, run);
    RunKeepsClosed(h, w1, run, id);
    InUseIffKey(h, w1, run, key);
    StepKeepsClosed(h, w2, Event.Close(key), k2, id);
    if NeverAssigned(run, key) { DeadHandle(h, w1, run, key); }
    if w2.alive && key in w2.fds { assert key !in Step(h, w2, Event.Close(key), k2).0.fds; }
  }

  /**
   The number can come back in between: after Flush, an open of any existing
   file may be given it, which the descriptor guarantee allows, and the late
   Release then takes the new owner's handle away.
   */
  lemma {:induction false} ReleaseAfterReuse(h: Host, w: World, key: nat, path: string, k: Choice)
    requires h.Valid() && h.masks.Valid() && Owned(w) && w.alive && key in w.fds && path in w.os.names
    requires k == Choice(None, key, None, 0, false, 0)
    ensures var w1 := Step(h, w, Event.Close(key), k).0;
            var (w2, reply) := Step(h, w1, Event.Open(path, {}), k);
            var w3 := Step(h, w2, Event.Close(key), k).0;
            && DescriptorFree(w1, k)
            && reply.Opened? && reply.fd == key && key in w2.fds
            && Step(h, w3, Event.Read(key, 0, 1), k).1 == BadHandle(h)
  {
    StepOwned(h, w, Event.Close(key), k);
    OpenFlags.WireRoundTrip(h.masks, {});
    assert Wanted(h, {}) == {};
  }
}
