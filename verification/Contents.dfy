/**
 What reads return: slices of the file as the last writers left it
 (cmd/satellite/server/server.go, cmd/dockerfuse/client/client.go).
 */
module Contents {

  import opened Prelude
  import opened Kernel
  import opened Satellite
  import Client
  import HandleTable
  import OpenFlags
  import Opening

  /** The contents behind a live handle. */
  function Behind(w: World, fh: nat): Bytes
    requires w.Valid() && fh in w.fds
  {
    w.os.disk[w.os.files[w.fds[fh]].ino]
  }

  // ---------- Read is slicing ----------

  /**
   A read the system does not refuse returns the bytes at [off, off + n) that
   exist, with no error, even at or past the end; the satellite reports the end
   as an error text there, and the client turns it into an empty success.
   */
  lemma {:induction false} ReadIsSlice(d: Client.Deployment, w: World, fh: nat, off: nat, n: nat, k: Choice)
    requires d.Valid() && Owned(w) && w.alive && fh in w.fds && k.err.None?
    ensures Client.Perform(d, w, Client.Read(fh, off, n), k) == (w, Client.Bytes(Window(Behind(w, fh), off, n)))
  {
  }

  function Sum(sizes: seq<nat>): nat {
    if sizes == [] then 0 else sizes[0] + Sum(sizes[1..])
  }

  /** Reads of the given sizes, each starting where the data of the one before ended. */
  function ReadOn(d: Client.Deployment, w: World, fh: nat, off: nat, sizes: seq<nat>, ks: seq<Choice>): Bytes
    requires d.Valid() && w.Valid() && |sizes| == |ks|
    decreases |sizes|
  {
    if sizes == [] then []
    else
      var outcome := Client.Perform(d, w, Client.Read(fh, off, sizes[0]), ks[0]).1;
      if !outcome.Bytes? then []
      else outcome.data + ReadOn(d, w, fh, off + |outcome.data|, sizes[1..], ks[1..])
  }

  /** Consecutive windows of the given sizes. */
  function Windows(c: Bytes, off: nat, sizes: seq<nat>): Bytes
    decreases |sizes|
  {
    if sizes == [] then []
    else
      var first := Window(c, off, sizes[0]);
      first + Windows(c, off + |first|, sizes[1..])
  }

  lemma {:induction false} WindowsJoin(c: Bytes, off: nat, sizes: seq<nat>)
    ensures Windows(c, off, sizes) == Window(c, off, Sum(sizes))
    decreases |sizes|
  {
    hide Window;
    if sizes == [] {
      EmptyWindow(c, off);
    } else {
      WindowsJoin(c, off + |Window(c, off, sizes[0])|, sizes[1..]);
      TwoWindows(c, off, sizes[0], Sum(sizes[1..]));
    }
  }

  lemma {:induction false} EmptyWindow(c: Bytes, off: nat)
    ensures Window(c, off, 0) == []
  {
  }

  lemma {:induction false} TwoWindows(c: Bytes, off: nat, m: nat, n: nat)
    ensures Window(c, off, m) + Window(c, off + |Window(c, off, m)|, n) == Window(c, off, m + n)
  {
  }

  lemma {:induction false} ReadOnIsWindows(d: Client.Deployment, w: World, fh: nat, off: nat, sizes: seq<nat>, ks: seq<Choice>)
    requires d.Valid() && Owned(w) && w.alive && fh in w.fds && |sizes| == |ks|
    requires forall i :: 0 <= i < |ks| ==> ks[i].err.None?
    ensures ReadOn(d, w, fh, off, sizes, ks) == Windows(Behind(w, fh), off, sizes)
    decreases |sizes|
  {
    hide Client.Perform, Window;
    if sizes != [] {
      ReadIsSlice(d, w, fh, off, sizes[0], ks[0]);
      ReadOnIsWindows(d, w, fh, off + |Window(Behind(w, fh), off, sizes[0])|, sizes[1..], ks[1..]);
    }
  }

  /** Reading on concatenates to one long read, whatever the sizes. */
  lemma {:induction false} ReadOnIsSlice(d: Client.Deployment, w: World, fh: nat, off: nat, sizes: seq<nat>, ks: seq<Choice>)
    requires d.Valid() && Owned(w) && w.alive && fh in w.fds && |sizes| == |ks|
    requires forall i :: 0 <= i < |ks| ==> ks[i].err.None?
    ensures ReadOn(d, w, fh, off, sizes, ks) == Window(Behind(w, fh), off, Sum(sizes))
  {
    ReadOnIsWindows(d, w, fh, off, sizes, ks);
    WindowsJoin(Behind(w, fh), off, sizes);
  }

  lemma {:induction false} EnoughChunks(sizes: seq<nat>)
    requires forall i :: 0 <= i < |sizes| ==> sizes[i] > 0
    ensures Sum(sizes) >= |sizes|
  {
    if sizes != [] { EnoughChunks(sizes[1..]); }
  }

  /** As many reads of positive sizes as there are bytes fetch the whole file; the next read is empty. */
  lemma {:induction false} WholeFile(d: Client.Deployment, w: World, fh: nat, sizes: seq<nat>, ks: seq<Choice>, n: nat, k: Choice)
    requires d.Valid() && Owned(w) && w.alive && fh in w.fds && |sizes| == |ks|
    requires forall i :: 0 <= i < |ks| ==> ks[i].err.None? && sizes[i] > 0
    requires |Behind(w, fh)| <= |sizes| && k.err.None?
    ensures ReadOn(d, w, fh, 0, sizes, ks) == Behind(w, fh)
    ensures Client.Perform(d, w, Client.Read(fh, |Behind(w, fh)|, n), k).1 == Client.Bytes([])
  {
    ReadOnIsSlice(d, w, fh, 0, sizes, ks);
    EnoughChunks(sizes);
    ReadIsSlice(d, w, fh, |Behind(w, fh)|, n, k);
  }

  // ---------- Read after write ----------

  /** A change to the contents of one inode. */
  datatype Change = Wrote(off: nat, data: Bytes) | Resized(size: nat)

  /** The change one request makes to an inode, if any. */
  ghost function ChangeOf(h: Host, w: World, e: Event, k: Choice, ino: nat): seq<Change>
    requires w.Valid()
  {
    if !w.alive then []
    else match e
      case Open(path, wire) =>
        var want := Wanted(h, wire);
        if k.err.None? && path in w.os.names && w.os.names[path] == ino
           && Refusal(w.os.names, path, want).None? && OpenFlags.O_TRUNC in want
        then [Resized(0)] else []
      case Write(key, off, data) =>
        if key in w.fds && w.os.files[w.fds[key]].ino == ino && !w.os.files[w.fds[key]].appending && 0 <= off
        then [Wrote(off, data[..if k.err.Some? then Min(k.partial, |data|) else |data|])] else []
      case Truncate(path, size) =>
        if k.err.None? && path in w.os.names && w.os.names[path] == ino && 0 <= size then [Resized(size)] else []
      case _ => []
  }

  /** The changes a run makes to an inode: full writes, the written part of failed ones, truncations at open and by path. */
  ghost function History(h: Host, w: World, run: Run, ino: nat): seq<Change>
    requires h.Valid() && w.Valid()
    decreases |run|
  {
    if run == [] then []
    else ChangeOf(h, w, run[0].0, run[0].1, ino) + History(h, Step(h, w, run[0].0, run[0].1).0, run[1..], ino)
  }

  function Apply(c: Bytes, ch: Change): Bytes {
    match ch
    case Wrote(off, data) => Splice(c, off, data)
    case Resized(size) => Resize(c, size)
  }

  function Replay(c: Bytes, changes: seq<Change>): Bytes
    decreases |changes|
  {
    if changes == [] then c else Replay(Apply(c, changes[0]), changes[1..])
  }

  /** The size of the file after the changes. */
  function SizeAfter(c: Bytes, changes: seq<Change>): nat {
    if changes == [] then |c|
    else
      var before := changes[..|changes| - 1];
      match changes[|changes| - 1]
      case Resized(size) => size
      case Wrote(off, data) => if data == [] then SizeAfter(c, before) else Max(SizeAfter(c, before), off + |data|)
  }

  /** The byte at position p, zero past the end. */
  function At(c: Bytes, p: nat): byte { if p < |c| then c[p] else 0 }

  /** The byte the last writer left at position p; zero where nobody wrote, or where the file was cut since. */
  function LastByte(c: Bytes, changes: seq<Change>, p: nat): byte {
    if changes == [] then At(c, p)
    else
      match changes[|changes| - 1]
      case Resized(size) => if p < size then LastByte(c, changes[..|changes| - 1], p) else 0
      case Wrote(off, data) =>
        if off <= p < off + |data| then data[p - off] else LastByte(c, changes[..|changes| - 1], p)
  }

  lemma {:induction false} ReplayLast(c: Bytes, changes: seq<Change>)
    requires changes != []
    ensures Replay(c, changes) == Apply(Replay(c, changes[..|changes| - 1]), changes[|changes| - 1])
    decreases |changes|
  {
    if |changes| > 1 {
      ReplayLast(Apply(c, changes[0]), changes[1..]);
      assert changes[1..][..|changes| - 2] == changes[..|changes| - 1][1..];
    }
  }

  /** Applying the changes one by one leaves, at every position, what its last writer put there. */
  lemma {:induction false} LastWriterWins(c: Bytes, changes: seq<Change>)
    ensures |Replay(c, changes)| == SizeAfter(c, changes)
    ensures forall p: nat :: LastByte(c, changes, p) == At(Replay(c, changes), p)
    decreases |changes|
  {
    hide Apply, At;
    if changes != [] {
      var before, last := changes[..|changes| - 1], changes[|changes| - 1];
      ReplayLast(c, changes);
      LastWriterWins(c, before);
      AppliedSize(Replay(c, before), last);
      forall p: nat ensures LastByte(c, changes, p) == At(Replay(c, changes), p) {
        AppliedAt(Replay(c, before), last, p);
      }
    }
  }

  lemma {:induction false} AppliedSize(c: Bytes, ch: Change)
    ensures |Apply(c, ch)| == match ch
                              case Resized(size) => size
                              case Wrote(off, data) => if data == [] then |c| else Max(|c|, off + |data|)
  {
  }

  lemma {:induction false} AppliedAt(c: Bytes, ch: Change, p: nat)
    ensures At(Apply(c, ch), p) == match ch
                                   case Resized(size) => if p < size then At(c, p) else 0
                                   case Wrote(off, data) => if off <= p < off + |data| then data[p - off] else At(c, p)
  {
  }

  /** The contents of an inode; one that does not exist yet will start empty. */
  function ContentsOf(w: World, ino: nat): Bytes {
    if ino < |w.os.disk| then w.os.disk[ino] else []
  }

  lemma {:induction false} StepChanges(h: Host, w: World, e: Event, k: Choice, ino: nat)
    requires h.Valid() && Owned(w)
    ensures ContentsOf(Step(h, w, e, k).0, ino) == Replay(ContentsOf(w, ino), ChangeOf(h, w, e, k, ino))
  {
    hide OnOpen;
    if w.alive && e.Open? { OpenChanges(h, w, e.path, e.wire, k, ino); }
  }

  lemma {:induction false} OpenChanges(h: Host, w: World, path: string, wire: OpenFlags.Word, k: Choice, ino: nat)
    requires h.Valid() && Owned(w) && w.alive
    ensures ContentsOf(OnOpen(h, w, path, wire, k).0, ino)
            == Replay(ContentsOf(w, ino), ChangeOf(h, w, Event.Open(path, wire), k, ino))
  {
  }

  lemma {:induction false} RunChanges(h: Host, w: World, run: Run, ino: nat)
    requires h.Valid() && Owned(w)
    ensures ContentsOf(After(h, w, run), ino) == Replay(ContentsOf(w, ino), History(h, w, run, ino))
    decreases |run|
  {
    hide Step;
    if run != [] {
      var w1 := Step(h, w, run[0].0, run[0].1).0;
      var change := ChangeOf(h, w, run[0].0, run[0].1, ino);
      StepChanges(h, w, run[0].0, run[0].1, ino);
      StepOwned(h, w, run[0].0, run[0].1);
      RunChanges(h, w1, run[1..], ino);
      var rest := History(h, w1, run[1..], ino);
      if change == [] {
        assert change + rest == rest;
      } else {
        assert (change + rest)[1..] == rest;
      }
    }
  }

  /** The data is what the last writers left at [off, off + n), as far as the file reaches. */
  ghost predicate LeftByLastWriters(data: Bytes, c: Bytes, changes: seq<Change>, off: nat, n: nat) {
    && |data| == Max(0, Min(n, SizeAfter(c, changes) - off))
    && (forall j :: 0 <= j < |data| ==> data[j] == LastByte(c, changes, off + j))
  }

  lemma {:induction false} WindowOfChanges(c: Bytes, changes: seq<Change>, off: nat, n: nat)
    ensures LeftByLastWriters(Window(Replay(c, changes), off, n), c, changes, off, n)
  {
    LastWriterWins(c, changes);
  }

  lemma {:induction false} ReadOfChanges(d: Client.Deployment, w: World, fh: nat, off: nat, n: nat, k: Choice, c: Bytes, changes: seq<Change>)
    requires d.Valid() && Owned(w) && w.alive && k.err.None? && fh in w.fds && Behind(w, fh) == Replay(c, changes)
    ensures var outcome := Client.Perform(d, w, Client.Read(fh, off, n), k).1;
            outcome.Bytes? && LeftByLastWriters(outcome.data, c, changes, off, n)
  {
    ReadIsSlice(d, w, fh, off, n, k);
    WindowOfChanges(c, changes, off, n);
  }

  /**
   Read after write: after any run of requests, through any handles and by path,
   a read of a handle in the table succeeds if and only if no request of the run
   was malformed, and then returns exactly the bytes the last writers left, over
   the contents the run started from, with zeros in the gaps.  Otherwise it fails
   with EIO.
   */
  lemma {:induction false} ReadAfterWrite(d: Client.Deployment, w: World, run: Run, fh: nat, off: nat, n: nat, k: Choice)
    requires d.Valid() && Owned(w) && w.alive && k.err.None?
    requires fh in After(d.host, w, run).fds
    ensures var w' := After(d.host, w, run);
            var ino := w'.os.files[w'.fds[fh]].ino;
            var outcome := Client.Perform(d, w', Client.Read(fh, off, n), k).1;
            if HandleTable.Harmless(d.host, w, run)
            then outcome.Bytes? && LeftByLastWriters(outcome.data, ContentsOf(w, ino), History(d.host, w, run, ino), off, n)
            else outcome == Client.Errno(d.channel.client["EIO"])
  {
    var w' := After(d.host, w, run);
    var ino := w'.os.files[w'.fds[fh]].ino;
    HandleTable.AliveIffHarmless(d.host, d.channel, w, run);
    if w'.alive {
      hide Client.Perform;
      HandleTable.RunOwned(d.host, w, run);
      RunChanges(d.host, w, run, ino);
      ReadOfChanges(d, w', fh, off, n, k, ContentsOf(w, ino), History(d.host, w, run, ino));
    } else {
      Client.LostIsEio(d.channel, Client.Read(fh, off, n), Lost(SHUTDOWN));
    }
  }

  // ---------- Write, open, read ----------

  /** An open that is answered with a handle: the handle reads the file that the path leads to now. */
  lemma {:induction false} OpenedReads(d: Client.Deployment, w: World, path: string, flags: OpenFlags.Word, k: Choice, w': World, fh: nat)
    requires d.Valid() && Owned(w) && w.alive && path in w.os.names
    requires Client.Perform(d, w, Client.Open(path, flags), k).0 == w'
    requires Client.Perform(d, w, Client.Open(path, flags), k).1.Handle?
    requires fh == Client.Perform(d, w, Client.Open(path, flags), k).1.fh
    ensures Owned(w') && w'.alive && fh in w'.fds
    ensures Behind(w', fh) == if d.masks.trunc <= flags then [] else w.os.disk[w.os.names[path]]
  {
    hide Client.Perform;
    Client.PerformOwned(d, w, Client.Open(path, flags), k);
    Opening.OpenExact(d, w, path, flags, k);
  }

  /**
   What was written is what a later open of the path reads: after any run without
   malformed requests, an open without O_TRUNC that is answered with a handle,
   and a read through it, return what the last writers of the run left in the
   file the path led to at its start.  With O_TRUNC the read is empty.
   */
  lemma {:induction false} OpenSeesWrites(d: Client.Deployment, w: World, run: Run, path: string, flags: OpenFlags.Word, k: Choice,
                                          off: nat, n: nat, k2: Choice, w1: World, w2: World, fh: nat)
    requires d.Valid() && Owned(w) && w.alive && path in w.os.names && HandleTable.Harmless(d.host, w, run)
    requires w1 == After(d.host, w, run) && w2 == Client.Perform(d, w1, Client.Open(path, flags), k).0
    requires Client.Perform(d, w1, Client.Open(path, flags), k).1.Handle?
    requires fh == Client.Perform(d, w1, Client.Open(path, flags), k).1.fh && k2.err.None?
    ensures var ino := w.os.names[path];
            var outcome := Client.Perform(d, w2, Client.Read(fh, off, n), k2).1;
            && outcome.Bytes?
            && if d.masks.trunc <= flags then outcome.data == []
               else LeftByLastWriters(outcome.data, w.os.disk[ino], History(d.host, w, run, ino), off, n)
  {
    hide Client.Perform;
    var ino := w.os.names[path];
    HandleTable.AliveIffHarmless(d.host, d.channel, w, run);
    HandleTable.RunOwned(d.host, w, run);
    Opening.RunKeepsName(d.host, w, run, path);
    OpenedReads(d, w1, path, flags, k, w2, fh);
    if d.masks.trunc <= flags {
      ReadIsSlice(d, w2, fh, off, n, k2);
    } else {
      RunChanges(d.host, w, run, ino);
      ReadOfChanges(d, w2, fh, off, n, k2, w.os.disk[ino], History(d.host, w, run, ino));
    }
  }
}
