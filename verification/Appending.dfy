/**
 Handles opened for appending: Go's WriteAt refuses them, so every write
 through one fails (cmd/satellite/server/server.go, Write).
 */
module Appending {

  import opened Prelude
  import opened Kernel
  import opened Satellite
  import Client
  import Refinement
  import HandleTable
  import OpenFlags

  /**
   A write through a table entry fails with the caller's EIO and changes
   nothing, for every choice of the system, if and only if the entry was opened
   for appending.  No offset or data makes a difference.
   */
  lemma {:induction false} WriteRefusedIffAppending(d: Client.Deployment, w: World, fh: nat, off: int, data: Bytes)
    requires d.Valid() && Owned(w) && w.alive && fh in w.fds
    ensures (forall k :: Client.Perform(d, w, Client.Write(fh, off, data), k) == (w, Client.Errno(d.channel.client["EIO"])))
            <==> w.os.files[w.fds[fh]].appending
  {
    if w.os.files[w.fds[fh]].appending {
      forall k ensures Client.Perform(d, w, Client.Write(fh, off, data), k) == (w, Client.Errno(d.channel.client["EIO"])) {
        Client.ErrorArrives(d.channel, Client.Write(fh, off, data), APPEND_MODE);
      }
    } else {
      var k := Choice(None, 0, None, 0, false, 0);
      assert Client.Perform(d, w, Client.Write(fh, off, data), k) != (w, Client.Errno(d.channel.client["EIO"]));
    }
  }

  /** Nothing a satellite does changes whether an existing file object appends. */
  lemma {:induction false} StepKeepsAppending(h: Host, w: World, e: Event, k: Choice, id: nat)
    requires h.Valid() && w.Valid() && id < |w.os.files|
    ensures var w' := Step(h, w, e, k).0;
            id < |w'.os.files| && w'.os.files[id].appending == w.os.files[id].appending
  {
  }

  lemma {:induction false} RunKeepsAppending(h: Host, w: World, run: Run, id: nat)
    requires h.Valid() && w.Valid() && id < |w.os.files|
    ensures var w' := After(h, w, run);
            id < |w'.os.files| && w'.os.files[id].appending == w.os.files[id].appending
    decreases |run|
  {
    hide Step;
    if run != [] {
      StepKeepsAppending(h, w, run[0].0, run[0].1, id);
      RunKeepsAppending(h, Step(h, w, run[0].0, run[0].1).0, run[1..], id);
    }
  }

  /** An open answered with a handle enters a file that appends exactly when the caller's flags name O_APPEND. */
  lemma {:induction false} OpenedForAppending(d: Client.Deployment, w: World, path: string, flags: OpenFlags.Word, k: Choice)
    requires d.Valid() && Owned(w) && w.alive
    ensures var (w', r) := Client.Perform(d, w, Client.Open(path, flags), k);
            r.Handle? ==>
              && r.fh in w'.fds
              && (w'.os.files[w'.fds[r.fh]].appending <==> OpenFlags.O_APPEND in OpenFlags.Names(d.masks, flags))
  {
    hide Client.Perform;
    OpenFlags.CrossPlatform(d.masks, d.host.masks, flags);
    Refinement.OutcomeIsMeaning(d, w, Client.Open(path, flags), k);
  }

  /**
   Over runs: as long as the handle of an open is neither closed nor displaced
   and the satellite lives, a write through it is refused for every choice of
   the system if and only if the open's flags, in the caller's own masks,
   included O_APPEND.
   */
  lemma {:induction false} AppendHandleNeverWrites(d: Client.Deployment, w: World, path: string, flags: OpenFlags.Word, k: Choice,
                                                   run: Run, fh: nat, off: int, data: Bytes, w1: World, w2: World)
    requires d.Valid() && Owned(w) && w.alive
    requires w1 == Client.Perform(d, w, Client.Open(path, flags), k).0 && w2 == After(d.host, w1, run)
    requires Client.Perform(d, w, Client.Open(path, flags), k).1.Handle?
    requires fh == Client.Perform(d, w, Client.Open(path, flags), k).1.fh
    requires w2.alive && fh in w1.fds && fh in w2.fds && w2.fds[fh] == w1.fds[fh]
    ensures (forall k2 :: Client.Perform(d, w2, Client.Write(fh, off, data), k2) == (w2, Client.Errno(d.channel.client["EIO"])))
            <==> OpenFlags.O_APPEND in OpenFlags.Names(d.masks, flags)
  {
    hide Client.Perform;
    Client.PerformOwned(d, w, Client.Open(path, flags), k);
    OpenedForAppending(d, w, path, flags, k);
    HandleTable.RunOwned(d.host, w1, run);
    RunKeepsAppending(d.host, w1, run, w1.fds[fh]);
    WriteRefusedIffAppending(d, w2, fh, off, data);
  }
}
