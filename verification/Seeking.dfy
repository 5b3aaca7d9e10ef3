/**
 Where Seek leads, and that a position lasts until the next Seek
 (cmd/satellite/server/server.go, Seek; cmd/dockerfuse/client/client.go, seek).
 */
module Seeking {

  import opened ErrorCodec
  import opened Kernel
  import opened Satellite
  import Client
  import HandleTable
  import Refinement

  const SEEK_SET := 0
  const SEEK_CUR := 1
  const SEEK_END := 2

  /** The file object behind a live handle. */
  function FileOf(w: World, fh: nat): FileObj
    requires w.Valid() && fh in w.fds
  {
    w.os.files[w.fds[fh]]
  }

  /** The handle's cursor is at p, and everything else is as in w. */
  ghost predicate MovedTo(w: World, fh: nat, p: nat, w': World)
    requires w.Valid() && fh in w.fds
  {
    w' == w.(os := w.os.(files := w.os.files[w.fds[fh] := FileOf(w, fh).(cursor := p)]))
  }

  /** A seek to position p: done and reported, or refused with the caller's EINVAL if p is negative. */
  ghost predicate SeeksTo(d: Client.Deployment, w: World, fh: nat, p: int, after: (World, Client.Outcome))
    requires d.Valid() && w.Valid() && fh in w.fds
  {
    if p < 0 then after == (w, Client.Errno(d.channel.client["EINVAL"]))
    else MovedTo(w, fh, p, after.0) && after.1 == Client.Offset(p)
  }

  /**
   A seek the system does not refuse leads from the start of the file, from the
   cursor, or from the end of the file.  Any other whence leads where the system
   says, and a refused seek moves nothing.
   */
  lemma {:induction false} SeekLands(d: Client.Deployment, w: World, fh: nat, off: int, whence: int, k: Choice)
    requires d.Valid() && Owned(w) && w.alive && fh in w.fds
    ensures var f := FileOf(w, fh);
            var after := Client.Perform(d, w, Client.Seek(fh, off, whence), k);
            if k.err.Some? then after == (w, Client.Errno(Portable(d.channel, k.err.value)))
            else
              && (whence == SEEK_SET ==> SeeksTo(d, w, fh, off, after))
              && (whence == SEEK_CUR ==> SeeksTo(d, w, fh, f.cursor + off, after))
              && (whence == SEEK_END ==> SeeksTo(d, w, fh, |w.os.disk[f.ino]| + off, after))
              && (whence !in {SEEK_SET, SEEK_CUR, SEEK_END} ==> SeeksTo(d, w, fh, k.position, after))
  {
    hide Client.Perform;
    Refinement.OutcomeIsMeaning(d, w, Client.Seek(fh, off, whence), k);
    PortableByName(d.channel, "EINVAL");
  }

  // ---------- Positions last ----------

  /** No request of the run is a Seek on the handle. */
  predicate NoSeekOn(run: Run, fh: nat) {
    forall i :: 0 <= i < |run| ==> !(run[i].0.Seek? && run[i].0.fd == fh)
  }

  lemma {:induction false} StepKeepsCursor(h: Host, w: World, e: Event, k: Choice, id: nat)
    requires h.Valid() && Owned(w) && id < |w.os.files|
    requires e.Seek? && e.fd in w.fds ==> w.fds[e.fd] != id
    ensures var w' := Step(h, w, e, k).0;
            id < |w'.os.files| && w'.os.files[id].cursor == w.os.files[id].cursor && w'.os.files[id].fd == w.os.files[id].fd
  {
    hide OnOpen;
    if e.Open? { HandleTable.OpenEffect(h, w, e.path, e.wire, k); }
  }

  lemma {:induction false} RunKeepsCursor(h: Host, w: World, run: Run, id: nat)
    requires h.Valid() && Owned(w) && id < |w.os.files| && NoSeekOn(run, w.os.files[id].fd)
    ensures var w' := After(h, w, run);
            id < |w'.os.files| && w'.os.files[id].cursor == w.os.files[id].cursor
    decreases |run|
  {
    hide Step;
    if run != [] {
      StepKeepsCursor(h, w, run[0].0, run[0].1, id);
      StepOwned(h, w, run[0].0, run[0].1);
      RunKeepsCursor(h, Step(h, w, run[0].0, run[0].1).0, run[1..], id);
    }
  }

  /**
   Seek, then anything except a Seek on that handle, through any handles and by
   path: a relative seek still starts where the first one ended, as long as the
   handle is neither closed nor displaced and the satellite lives.
   */
  lemma {:induction false} RelativeSeek(d: Client.Deployment, w: World, fh: nat, off: int, whence: int, k1: Choice,
                                        run: Run, more: int, k2: Choice, w1: World, w2: World)
    requires d.Valid() && Owned(w) && w.alive && fh in w.fds
    requires w1 == Client.Perform(d, w, Client.Seek(fh, off, whence), k1).0 && w2 == After(d.host, w1, run)
    requires Client.Perform(d, w, Client.Seek(fh, off, whence), k1).1.Offset? && NoSeekOn(run, fh)
    requires w2.alive && fh in w2.fds && w2.fds[fh] == w.fds[fh] && k2.err.None?
    ensures var start := Client.Perform(d, w, Client.Seek(fh, off, whence), k1).1.pos;
            SeeksTo(d, w2, fh, start + more, Client.Perform(d, w2, Client.Seek(fh, more, SEEK_CUR), k2))
  {
    hide Client.Perform;
    Client.PerformOwned(d, w, Client.Seek(fh, off, whence), k1);
    SeekLands(d, w, fh, off, whence, k1);
    HandleTable.RunOwned(d.host, w1, run);
    RunKeepsCursor(d.host, w1, run, w.fds[fh]);
    SeekLands(d, w2, fh, more, SEEK_CUR, k2);
  }
}
