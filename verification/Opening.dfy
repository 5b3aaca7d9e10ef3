/**
 What an open does for the caller, in the caller's own flags and errnos, and
 that a path leads to one file for good (cmd/dockerfuse/client/client.go, open;
 cmd/satellite/server/server.go, Open).
 */
module Opening {

  import opened Prelude
  import opened ErrorCodec
  import opened Kernel
  import opened Satellite
  import Client
  import HandleTable
  import OpenFlags
  import Refinement

  /** The errno of an open that fails before it reaches a file, from the flags as the caller gave them. */
  ghost function Failure(d: Client.Deployment, os: Os, path: string, flags: OpenFlags.Word, k: Choice): Option<int>
    requires d.Valid()
  {
    var creat, excl := d.masks.creat <= flags, d.masks.excl <= flags;
    if k.err.Some? then Some(Portable(d.channel, k.err.value))
    else if path !in os.names && !creat then Some(d.channel.client["ENOENT"])
    else if path in os.names && creat && excl then Some(d.channel.client["EEXIST"])
    else None
  }

  /**
   An open from the caller's side.  It fails with ENOENT exactly when the path
   has no name and the flags lack O_CREAT, with EEXIST exactly when it has one
   and the flags hold O_CREAT and O_EXCL, and then changes nothing.  Otherwise
   it reaches the file of that name, or a new empty one; only O_TRUNC changes
   contents, and only those.  The handle leads to that file, at its start.
   */
  lemma {:induction false} OpenExact(d: Client.Deployment, w: World, path: string, flags: OpenFlags.Word, k: Choice)
    requires d.Valid() && Owned(w) && w.alive
    ensures var (w', r) := Client.Perform(d, w, Client.Open(path, flags), k);
            var failure := Failure(d, w.os, path, flags, k);
            var ino := HandleTable.Target(w.os, path);
            if failure.Some? then w' == w && r == Client.Errno(failure.value)
            else
              && w'.alive && HandleTable.Reached(w.os, path, d.masks.trunc <= flags, w'.os)
              && k.fd in w'.fds
              && w'.os.files[w'.fds[k.fd]] == FileObj(k.fd, ino, d.masks.append <= flags, 0, 0)
              && r == if k.statErr.Some? then Client.Errno(Portable(d.channel, k.statErr.value))
                      else Client.Handle(k.fd, ino, |w'.os.disk[ino]|)
  {
    hide Client.Perform, OnOpen, Wanted, HandleTable.Reached;
    var op := Client.Open(path, flags);
    Refinement.OutcomeIsMeaning(d, w, op, k);
    Refinement.WantedByCaller(d, op);
    HandleTable.OpenEffect(d.host, w, path, Client.Request(d, op).wire, k);
    PortableByName(d.channel, "ENOENT");
    PortableByName(d.channel, "EEXIST");
  }

  // ---------- A path leads to one file ----------

  lemma {:induction false} StepKeepsName(h: Host, w: World, e: Event, k: Choice, path: string)
    requires h.Valid() && Owned(w) && path in w.os.names
    ensures var names := Step(h, w, e, k).0.os.names;
            path in names && names[path] == w.os.names[path]
  {
    hide OnOpen;
    if e.Open? { HandleTable.OpenEffect(h, w, e.path, e.wire, k); }
  }

  /** No run takes a name away or lets it lead elsewhere. */
  lemma {:induction false} RunKeepsName(h: Host, w: World, run: Run, path: string)
    requires h.Valid() && Owned(w) && path in w.os.names
    ensures var names := After(h, w, run).os.names;
            path in names && names[path] == w.os.names[path]
    decreases |run|
  {
    hide Step;
    if run != [] {
      StepKeepsName(h, w, run[0].0, run[0].1, path);
      StepOwned(h, w, run[0].0, run[0].1);
      RunKeepsName(h, Step(h, w, run[0].0, run[0].1).0, run[1..], path);
    }
  }

  /** Two opens of one path that are answered with handles lead to the same file, whatever happens in between. */
  lemma {:induction false} OpensMeet(d: Client.Deployment, w: World, path: string, flags1: OpenFlags.Word, k1: Choice,
                                     run: Run, flags2: OpenFlags.Word, k2: Choice, w1: World, w2: World)
    requires d.Valid() && Owned(w) && w.alive
    requires w1 == Client.Perform(d, w, Client.Open(path, flags1), k1).0 && w2 == After(d.host, w1, run) && w2.alive
    ensures var r1 := Client.Perform(d, w, Client.Open(path, flags1), k1).1;
            var r2 := Client.Perform(d, w2, Client.Open(path, flags2), k2).1;
            r1.Handle? && r2.Handle? ==> r1.ino == r2.ino
  {
    hide Client.Perform;
    Client.PerformOwned(d, w, Client.Open(path, flags1), k1);
    HandleTable.RunOwned(d.host, w1, run);
    OpenExact(d, w, path, flags1, k1);
    OpenExact(d, w2, path, flags2, k2);
    if path in w1.os.names { RunKeepsName(d.host, w1, run, path); }
  }
}
