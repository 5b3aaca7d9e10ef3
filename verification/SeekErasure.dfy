/**
 File cursors have no influence: Read and Write go through ReadAt and WriteAt
 (cmd/satellite/server/server.go), so Seek requests can be erased from any run.
 */
module SeekErasure {

  import opened ErrorCodec
  import opened Kernel
  import opened Satellite
  import OpenFlags

  /** Two systems that differ at most in file cursors. */
  ghost predicate AlikeOs(a: Os, b: Os) {
    && a.names == b.names && a.disk == b.disk
    && |a.files| == |b.files|
    && (forall i :: 0 <= i < |a.files| ==> a.files[i] == b.files[i].(cursor := a.files[i].cursor))
  }

  ghost predicate Alike(w: World, v: World) {
    w.fds == v.fds && w.alive == v.alive && AlikeOs(w.os, v.os)
  }

  /** The run without its Seek requests. */
  function NoSeeks(run: Run): Run {
    if run == [] then []
    else if run[0].0.Seek? then NoSeeks(run[1..])
    else [run[0]] + NoSeeks(run[1..])
  }

  /** The replies of a run that do not answer a Seek. */
  function NonSeekReplies(run: Run, rs: seq<Reply>): seq<Reply>
    requires |run| == |rs|
  {
    if run == [] then []
    else (if run[0].0.Seek? then [] else [rs[0]]) + NonSeekReplies(run[1..], rs[1..])
  }

  lemma {:induction false} SeekAlike(h: Host, w: World, v: World, e: Event, k: Choice)
    requires h.Valid() && Owned(w) && Alike(w, v) && e.Seek?
    ensures Alike(Step(h, w, e, k).0, v)
  {
  }

  lemma {:induction false} OpenFileAlike(a: Os, b: Os, t: Errnos, path: string, want: set<nat>, k: Choice)
    requires a.Valid() && b.Valid() && AlikeOs(a, b) && "ENOENT" in t && "EEXIST" in t
    ensures AlikeOs(OpenFile(a, t, path, want, k).0, OpenFile(b, t, path, want, k).0)
    ensures OpenFile(a, t, path, want, k).1 == OpenFile(b, t, path, want, k).1
  {
  }

  lemma {:induction false} CloseAlike(a: Os, b: Os, id: nat)
    requires a.Valid() && b.Valid() && AlikeOs(a, b) && id < |a.files|
    ensures AlikeOs(CloseFile(a, id), CloseFile(b, id))
  {
  }

  lemma {:induction false} StoreAlike(w: World, v: World, a: Os, b: Os, id: nat, k: Choice)
    requires w.Valid() && v.Valid() && Alike(w, v) && a.Valid() && b.Valid() && AlikeOs(a, b)
    requires id < |a.files| && |w.os.files| <= |a.files|
    ensures Alike(Store(w, a, id, k).0, Store(v, b, id, k).0)
    ensures Store(w, a, id, k).1 == Store(v, b, id, k).1
  {
    var key := a.files[id].fd;
    if key in w.fds { CloseAlike(a, b, w.fds[key]); }
  }

  lemma {:induction false} NonSeekAlike(h: Host, w: World, v: World, e: Event, k: Choice)
    requires h.Valid() && w.Valid() && v.Valid() && Alike(w, v) && !e.Seek?
    ensures Alike(Step(h, w, e, k).0, Step(h, v, e, k).0)
    ensures Step(h, w, e, k).1 == Step(h, v, e, k).1
  {
    hide Handle;
    HandleAlike(h, w, v, e, k);
  }

  lemma {:induction false} HandleAlike(h: Host, w: World, v: World, e: Event, k: Choice)
    requires h.Valid() && w.Valid() && v.Valid() && Alike(w, v) && !e.Seek?
    ensures Alike(Handle(h, w, e, k).0, Handle(h, v, e, k).0)
    ensures Handle(h, w, e, k).1 == Handle(h, v, e, k).1
  {
    hide OnOpen, OnSeek, OnCloseAll;
    if e.Open? {
      OpenAlike(h, w, v, e.path, e.wire, k);
    } else if e.Close? {
      if e.fd in w.fds { CloseAlike(w.os, v.os, w.fds[e.fd]); }
    } else if e.CloseAll? {
      CloseAllAlike(w, v);
    }
  }

  lemma {:induction false} CloseAllAlike(w: World, v: World)
    requires w.Valid() && v.Valid() && Alike(w, v)
    ensures Alike(OnCloseAll(w), OnCloseAll(v))
  {
  }

  lemma {:induction false} OpenAlike(h: Host, w: World, v: World, path: string, wire: OpenFlags.Word, k: Choice)
    requires h.Valid() && w.Valid() && v.Valid() && Alike(w, v)
    ensures Alike(OnOpen(h, w, path, wire, k).0, OnOpen(h, v, path, wire, k).0)
    ensures OnOpen(h, w, path, wire, k).1 == OnOpen(h, v, path, wire, k).1
  {
    hide Store;
    OpenFileAlike(w.os, v.os, h.errnos, path, Wanted(h, wire), k);
    var (a, file) := OpenFile(w.os, h.errnos, path, Wanted(h, wire), k);
    if file.Ok? {
      StoreAlike(w, v, a, OpenFile(v.os, h.errnos, path, Wanted(h, wire), k).0, file.value, k);
    }
  }

  /** Reading and writing move no cursor at all. */
  lemma {:induction false} TransfersKeepCursors(h: Host, w: World, e: Event, k: Choice)
    requires h.Valid() && w.Valid() && (e.Read? || e.Write?)
    ensures Step(h, w, e, k).0.os.files == w.os.files
  {
  }

  /**
   Two runs, one with all Seek requests removed: every other request gets the
   same reply, and at the end the table, the names, all file contents and all
   file objects agree up to their cursors, and both satellites live or neither.
   */
  lemma {:induction false} SeekErasure(h: Host, w: World, v: World, run: Run)
    requires h.Valid() && Owned(w) && v.Valid() && Alike(w, v)
    ensures Alike(After(h, w, run), After(h, v, NoSeeks(run)))
    ensures NonSeekReplies(run, Replies(h, w, run)) == Replies(h, v, NoSeeks(run))
    decreases |run|
  {
    hide Step;
    if run != [] {
      var (e, k) := run[0];
      var (w', reply) := Step(h, w, e, k);
      StepOwned(h, w, e, k);
      assert Replies(h, w, run)[1..] == Replies(h, w', run[1..]);
      if e.Seek? {
        SeekAlike(h, w, v, e, k);
        SeekErasure(h, w', v, run[1..]);
      } else {
        NonSeekAlike(h, w, v, e, k);
        SeekErasure(h, w', Step(h, v, e, k).0, run[1..]);
        assert NoSeeks(run)[1..] == NoSeeks(run[1..]);
      }
    }
  }
}
