/**
 The composed system refines a direct specification.

 `Files` is what a caller should be able to assume: handles onto byte files, in
 one address space, with the caller's own flags and errnos.  There is no wire,
 no error text, no file object table and no end-of-file error.

 A write through a handle opened for appending belongs at the end of the file
 (`AtEnd`).  The code refuses every such write (`Refused`).  The specification
 takes this as a parameter: the system refines `Refused` throughout, and
 `AtEnd` exactly where no such write occurs.
 */
module Refinement {

  import opened Prelude
  import opened ErrorCodec
  import opened Kernel
  import Satellite
  import opened Client
  import HandleTable
  import OpenFlags

  // ---------- The specification ----------

  datatype OpenHandle = OpenHandle(ino: nat, appending: bool, cursor: nat)

  datatype Files = Files(handles: map<nat, OpenHandle>, names: map<string, nat>, disk: seq<Bytes>) {
    ghost predicate Valid() {
      && (forall path :: path in names ==> names[path] < |disk|)
      && (forall fh :: fh in handles ==> handles[fh].ino < |disk|)
    }
  }

  /** What becomes of a write through an appending handle. */
  datatype Appends = AtEnd | Refused

  /** Offsets and counts as the kernel sends them. */
  predicate WellFormed(d: Deployment, op: Op) {
    HandleTable.WellFormed(Request(d, op))
  }

  /** A system call either fails with the chosen errno, made portable, or does its work. */
  ghost function Unless(c: Channel, err: Option<int>, otherwise: Outcome): Outcome
    requires c.Valid()
  {
    if err.Some? then Errno(Portable(c, err.value)) else otherwise
  }

  ghost function SpecOpen(d: Deployment, s: Files, path: string, flags: OpenFlags.Word, k: Choice): (r: (Files, Outcome))
    requires d.Valid() && s.Valid()
    ensures r.0.Valid()
  {
    var c, m := d.channel, d.masks;
    if k.err.Some? then (s, Errno(Portable(c, k.err.value)))
    else if path in s.names then
      if m.creat <= flags && m.excl <= flags then (s, Errno(c.client["EEXIST"]))
      else
        var ino := s.names[path];
        SpecHandle(d, if m.trunc <= flags then s.(disk := s.disk[ino := []]) else s, ino, m.append <= flags, k)
    else
      if !(m.creat <= flags) then (s, Errno(c.client["ENOENT"]))
      else SpecHandle(d, s.(names := s.names[path := |s.disk|], disk := s.disk + [[]]), |s.disk|, m.append <= flags, k)
  }

  /** A new handle onto a file, unless the fstat fails. */
  ghost function SpecHandle(d: Deployment, s: Files, ino: nat, appending: bool, k: Choice): (r: (Files, Outcome))
    requires d.Valid() && s.Valid() && ino < |s.disk|
    ensures r.0.Valid()
  {
    if k.statErr.Some? then (s, Errno(Portable(d.channel, k.statErr.value)))
    else (s.(handles := s.handles[k.fd := OpenHandle(ino, appending, 0)]), Handle(k.fd, ino, |s.disk[ino]|))
  }

  ghost function SpecSeek(d: Deployment, s: Files, fh: nat, off: int, whence: int, k: Choice): (r: (Files, Outcome))
    requires d.Valid() && s.Valid() && fh in s.handles
    ensures r.0.Valid()
  {
    var f := s.handles[fh];
    var origin := if whence == 0 then 0 else if whence == 1 then f.cursor else |s.disk[f.ino]|;
    var target := if 0 <= whence <= 2 then origin + off else k.position;
    if k.err.Some? then (s, Errno(Portable(d.channel, k.err.value)))
    else if target < 0 then (s, Errno(d.channel.client["EINVAL"]))
    else (s.(handles := s.handles[fh := f.(cursor := target)]), Offset(target))
  }

  ghost function SpecWrite(d: Deployment, s: Files, fh: nat, off: nat, data: Bytes, k: Choice, a: Appends): (r: (Files, Outcome))
    requires d.Valid() && s.Valid() && fh in s.handles
    ensures r.0.Valid()
  {
    var f := s.handles[fh];
    if f.appending && a == Refused then (s, Errno(d.channel.client["EIO"]))
    else
      var at := if f.appending then |s.disk[f.ino]| else off;
      var n := if k.err.Some? then Min(k.partial, |data|) else |data|;
      (s.(disk := s.disk[f.ino := Splice(s.disk[f.ino], at, data[..n])]), Unless(d.channel, k.err, Count(n)))
  }

  ghost function SpecTruncate(d: Deployment, s: Files, path: string, size: int, k: Choice): (r: (Files, Outcome))
    requires d.Valid() && s.Valid()
    ensures r.0.Valid()
  {
    var c := d.channel;
    if k.err.Some? then (s, Errno(Portable(c, k.err.value)))
    else if size < 0 then (s, Errno(c.client["EINVAL"]))
    else if path !in s.names then (s, Errno(c.client["ENOENT"]))
    else
      var ino := s.names[path];
      (s.(disk := s.disk[ino := Resize(s.disk[ino], size)]), Unless(c, k.statErr, Success))
  }

  ghost function SpecStep(d: Deployment, s: Files, op: Op, k: Choice, a: Appends): (r: (Files, Outcome))
    requires d.Valid() && s.Valid() && WellFormed(d, op)
    ensures r.0.Valid()
  {
    if op.Open? then SpecOpen(d, s, op.path, op.flags, k)
    else if op.Truncate? then SpecTruncate(d, s, op.path, op.size, k)
    else if op.fh !in s.handles then (s, Errno(d.channel.client["EINVAL"]))
    else if op.Close? then (s.(handles := s.handles - {op.fh}), Unless(d.channel, k.err, Success))
    else if op.Read? then (s, Unless(d.channel, k.err, Bytes(Window(s.disk[s.handles[op.fh].ino], op.off, op.n))))
    else if op.Seek? then SpecSeek(d, s, op.fh, op.off, op.whence, k)
    else if op.Write? then SpecWrite(d, s, op.fh, op.off, op.data, k, a)
    else (s, Unless(d.channel, k.err, Success))
  }

  // ---------- Simulation ----------

  ghost function Seen(f: FileObj): OpenHandle { OpenHandle(f.ino, f.appending, f.cursor) }

  /** The satellite lives; every handle of the specification is a table entry; names and contents agree. */
  ghost predicate Simulates(w: Satellite.World, s: Files) {
    && Satellite.Owned(w) && w.alive
    && s.names == w.os.names && s.disk == w.os.disk
    && (forall fh :: fh in s.handles ==> fh in w.fds && s.handles[fh] == Seen(w.os.files[w.fds[fh]]))
  }

  /** The operation does not name a table entry that the caller was never given. */
  ghost predicate NotAbandoned(w: Satellite.World, s: Files, op: Op) {
    op.OnHandle() && op.fh in w.fds ==> op.fh in s.handles
  }

  lemma {:induction false} SimulatesValid(w: Satellite.World, s: Files)
    requires Simulates(w, s)
    ensures s.Valid()
  {
  }

  // ---------- Outcomes without texts ----------

  /** The outcome of a reply, skipping the printing and parsing of error texts. */
  ghost function Meaning(c: Channel, op: Op, reply: Satellite.Reply): Outcome
    requires c.Valid()
  {
    if !reply.Errored? then Convert(reply)
    else if op.Read? && reply.err == EOF then Bytes([])
    else Errno(Expected(c, reply.err))
  }

  /** A well-formed operation is answered, with the meaning of what the handler replied, and leaves the satellite alive. */
  lemma {:induction false} OutcomeIsMeaning(d: Deployment, w: Satellite.World, op: Op, k: Choice)
    requires d.Valid() && Satellite.Owned(w) && w.alive && WellFormed(d, op)
    ensures var (w', reply) := Satellite.Handle(d.host, w, Request(d, op), k);
            Perform(d, w, op, k) == (w'.(alive := true), Meaning(d.channel, op, reply))
  {
    hide Satellite.Handle;
    var reply := Satellite.Handle(d.host, w, Request(d, op), k).1;
    HandleTable.FatalIffMalformed(d.host, w, Request(d, op), k);
    if reply.Errored? {
      ErrorRoundTrip(d.channel, reply.err);
    }
  }

  // ---------- After a panic ----------

  /**
   The operation that makes the satellite panic, and every operation after it,
   ends with the caller's EIO and changes nothing else: a read never becomes an
   empty success.  All others leave the satellite alive.
   */
  lemma {:induction false} PanicIsEio(d: Deployment, w: Satellite.World, run: Satellite.Run, op: Op, k: Choice)
    requires d.Valid() && Satellite.Owned(w) && w.alive
    ensures var w' := Satellite.After(d.host, w, run);
            if HandleTable.Harmless(d.host, w, run) && !HandleTable.Malformed(w', Request(d, op))
            then Perform(d, w', op, k).0.alive
            else Perform(d, w', op, k) == (w'.(alive := false), Errno(d.channel.client["EIO"]))
  {
    hide Satellite.Step, Receive;
    var w' := Satellite.After(d.host, w, run);
    var (w2, reply) := Satellite.Step(d.host, w', Request(d, op), k);
    HandleTable.AliveIffHarmless(d.host, d.channel, w, run);
    HandleTable.RunOwned(d.host, w, run);
    HandleTable.LostIffMalformed(d.host, d.channel, w', Request(d, op), k);
    if !w2.alive {
      LostIsEio(d.channel, op, Satellite.Deliver(d.channel, reply));
      LastStep(d.host, w', Request(d, op), k);
    }
  }

  lemma {:induction false} LastStep(h: Satellite.Host, w: Satellite.World, e: Satellite.Event, k: Choice)
    requires h.Valid() && Satellite.Owned(w) && !Satellite.Step(h, w, e, k).0.alive
    ensures Satellite.Step(h, w, e, k).0 == w.(alive := false)
  {
    hide Satellite.OnOpen, Satellite.OnCloseAll;
    HandleTable.FatalIffMalformed(h, w, e, k);
  }

  // ---------- One operation ----------

  /** The open an operation asks for, in the caller's own flags. */
  lemma {:induction false} WantedByCaller(d: Deployment, op: Op)
    requires d.Valid() && op.Open?
    ensures OpenFlags.Matches(d.masks, op.flags, Satellite.Wanted(d.host, Request(d, op).wire))
  {
    OpenFlags.CrossPlatform(d.masks, d.host.masks, op.flags);
    OpenFlags.NamesMatch(d.masks, op.flags);
  }

  lemma {:induction false} OpenMeans(d: Deployment, w: Satellite.World, s: Files, op: Op, k: Choice)
    requires d.Valid() && s.Valid() && Simulates(w, s) && op.Open?
    ensures Meaning(d.channel, op, Satellite.OnOpen(d.host, w, op.path, Request(d, op).wire, k).1)
            == SpecOpen(d, s, op.path, op.flags, k).1
  {
    hide Satellite.OnOpen, Satellite.Wanted;
    WantedByCaller(d, op);
    HandleTable.OpenEffect(d.host, w, op.path, Request(d, op).wire, k);
    PortableByName(d.channel, "ENOENT");
    PortableByName(d.channel, "EEXIST");
  }

  lemma {:induction false} OpenSimulates(d: Deployment, w: Satellite.World, s: Files, op: Op, k: Choice)
    requires d.Valid() && s.Valid() && Simulates(w, s) && HandleTable.DescriptorFree(w, k) && op.Open?
    ensures Simulates(Satellite.OnOpen(d.host, w, op.path, Request(d, op).wire, k).0,
                      SpecOpen(d, s, op.path, op.flags, k).0)
  {
    hide Satellite.OnOpen, SpecOpen, Satellite.Owned;
    OpenFilesAgree(d, w, s, op, k);
    OpenHandlesAgree(d, w, s, op, k);
    Satellite.OpenOwned(d.host, w, op.path, Request(d, op).wire, k);
  }

  lemma {:induction false} OpenFilesAgree(d: Deployment, w: Satellite.World, s: Files, op: Op, k: Choice)
    requires d.Valid() && s.Valid() && Simulates(w, s) && op.Open?
    ensures var w' := Satellite.OnOpen(d.host, w, op.path, Request(d, op).wire, k).0;
            var s' := SpecOpen(d, s, op.path, op.flags, k).0;
            s'.names == w'.os.names && s'.disk == w'.os.disk
  {
    hide Satellite.OnOpen, Satellite.Wanted, HandleTable.Reached;
    WantedByCaller(d, op);
    HandleTable.OpenEffect(d.host, w, op.path, Request(d, op).wire, k);
    var w' := Satellite.OnOpen(d.host, w, op.path, Request(d, op).wire, k).0;
    if w' != w { ReachedFiles(w.os, op.path, d.masks.trunc <= op.flags, w'.os); }
  }

  lemma {:induction false} OpenHandlesAgree(d: Deployment, w: Satellite.World, s: Files, op: Op, k: Choice)
    requires d.Valid() && s.Valid() && Simulates(w, s) && HandleTable.DescriptorFree(w, k) && op.Open?
    ensures var w' := Satellite.OnOpen(d.host, w, op.path, Request(d, op).wire, k).0;
            var s' := SpecOpen(d, s, op.path, op.flags, k).0;
            && w'.alive
            && (forall fh :: fh in s'.handles ==> fh in w'.fds && s'.handles[fh] == Seen(w'.os.files[w'.fds[fh]]))
  {
    hide Satellite.OnOpen, Satellite.Wanted, HandleTable.Reached, SpecOpen;
    WantedByCaller(d, op);
    OpenMeans(d, w, s, op, k);
    SpecOpenHandles(d, s, op.path, op.flags, k);
    HandleTable.OpenAddsEntry(d.host, w, op.path, Request(d, op).wire, k);
  }

  lemma {:induction false} SpecOpenHandles(d: Deployment, s: Files, path: string, flags: OpenFlags.Word, k: Choice)
    requires d.Valid() && s.Valid()
    ensures var (s', r) := SpecOpen(d, s, path, flags, k);
            && (r.Handle? ==> r.fh == k.fd)
            && s'.handles == if r.Handle? then s.handles[k.fd := OpenHandle(r.ino, d.masks.append <= flags, 0)] else s.handles
  {
  }

  lemma {:induction false} ReachedFiles(os: Os, path: string, truncates: bool, os': Os)
    requires os.Valid() && HandleTable.Reached(os, path, truncates, os')
    ensures os'.names == if path in os.names then os.names else os.names[path := |os.disk|]
    ensures os'.disk == if path !in os.names then os.disk + [[]]
                        else if truncates then os.disk[os.names[path] := []]
                        else os.disk
  {
  }

  lemma {:induction false} TruncateRefines(d: Deployment, w: Satellite.World, s: Files, op: Op, k: Choice)
    requires d.Valid() && s.Valid() && Simulates(w, s) && op.Truncate?
    ensures var (w', reply) := Satellite.Handle(d.host, w, Request(d, op), k);
            var (s', r) := SpecTruncate(d, s, op.path, op.size, k);
            Meaning(d.channel, op, reply) == r && Simulates(w', s')
  {
    hide Satellite.OnOpen, Satellite.OnCloseAll;
    Satellite.HandleOwned(d.host, w, Request(d, op), k);
    PortableByName(d.channel, "ENOENT");
    PortableByName(d.channel, "EINVAL");
  }

  lemma {:induction false} ReadRefines(d: Deployment, w: Satellite.World, s: Files, op: Op, k: Choice)
    requires d.Valid() && s.Valid() && Simulates(w, s) && WellFormed(d, op) && op.Read? && op.fh in s.handles
    ensures Meaning(d.channel, op, Satellite.OnRead(d.host, w, op.fh, op.off, op.n, k)) == SpecStep(d, s, op, k, Refused).1
  {
  }

  lemma {:induction false} SeekRefines(d: Deployment, w: Satellite.World, s: Files, op: Op, k: Choice)
    requires d.Valid() && s.Valid() && Simulates(w, s) && op.Seek? && op.fh in s.handles
    ensures var (w', reply) := Satellite.Handle(d.host, w, Request(d, op), k);
            var (s', r) := SpecSeek(d, s, op.fh, op.off, op.whence, k);
            Meaning(d.channel, op, reply) == r && Simulates(w', s')
  {
    hide Satellite.OnOpen, Satellite.OnCloseAll;
    PortableByName(d.channel, "EINVAL");
    Satellite.HandleOwned(d.host, w, Request(d, op), k);
  }

  lemma {:induction false} WriteRefines(d: Deployment, w: Satellite.World, s: Files, op: Op, k: Choice)
    requires d.Valid() && s.Valid() && Simulates(w, s) && WellFormed(d, op) && op.Write? && op.fh in s.handles
    ensures var (w', reply) := Satellite.Handle(d.host, w, Request(d, op), k);
            var (s', r) := SpecWrite(d, s, op.fh, op.off, op.data, k, Refused);
            Meaning(d.channel, op, reply) == r && Simulates(w', s')
  {
    hide Satellite.OnOpen, Satellite.OnCloseAll;
    Satellite.HandleOwned(d.host, w, Request(d, op), k);
  }

  lemma {:induction false} CloseRefines(d: Deployment, w: Satellite.World, s: Files, op: Op, k: Choice)
    requires d.Valid() && s.Valid() && Simulates(w, s) && (op.Close? || op.Fsync?) && op.fh in s.handles
    ensures var (w', reply) := Satellite.Handle(d.host, w, Request(d, op), k);
            var (s', r) := SpecStep(d, s, op, k, Refused);
            Meaning(d.channel, op, reply) == r && Simulates(w', s')
  {
    hide Satellite.OnOpen, Satellite.OnCloseAll;
    Satellite.HandleOwned(d.host, w, Request(d, op), k);
  }

  /** One operation: the outcome of the specification with refused appends, and the simulation is kept. */
  lemma {:induction false} StepRefines(d: Deployment, w: Satellite.World, s: Files, op: Op, k: Choice)
    requires d.Valid() && Simulates(w, s) && WellFormed(d, op) && NotAbandoned(w, s, op)
    requires op.Open? ==> HandleTable.DescriptorFree(w, k)
    ensures s.Valid()
    ensures var (w', r) := Perform(d, w, op, k);
            var (s', r') := SpecStep(d, s, op, k, Refused);
            r == r' && Simulates(w', s')
  {
    hide Perform;
    SimulatesValid(w, s);
    OutcomeIsMeaning(d, w, op, k);
    if op.Open? {
      hide Satellite.OnOpen;
      OpenMeans(d, w, s, op, k);
      OpenSimulates(d, w, s, op, k);
    } else if op.Truncate? {
      TruncateRefines(d, w, s, op, k);
    } else if op.fh !in s.handles {
      PortableByName(d.channel, "EINVAL");
    } else if op.Read? {
      ReadRefines(d, w, s, op, k);
    } else if op.Seek? {
      SeekRefines(d, w, s, op, k);
    } else if op.Write? {
      WriteRefines(d, w, s, op, k);
    } else {
      CloseRefines(d, w, s, op, k);
    }
  }

  // ---------- Where the system departs from the intended specification ----------

  /** A write through a handle the caller opened for appending. */
  predicate AppendWrite(s: Files, op: Op) {
    op.Write? && op.fh in s.handles && s.handles[op.fh].appending
  }

  /** The two readings of appends differ only on such writes. */
  lemma {:induction false} ReadingsAgree(d: Deployment, s: Files, op: Op, k: Choice)
    requires d.Valid() && s.Valid() && WellFormed(d, op) && !AppendWrite(s, op)
    ensures SpecStep(d, s, op, k, AtEnd) == SpecStep(d, s, op, k, Refused)
  {
  }

  lemma {:induction false} EioIsNotEinval(c: Channel)
    requires c.Valid()
    ensures c.client["EIO"] != c.client["EINVAL"]
  {
  }

  /** On an abandoned entry the system does the work, and lets a failing call show. */
  lemma {:induction false} AbandonedDiffers(d: Deployment, w: Satellite.World, s: Files, op: Op, a: Appends)
    requires d.Valid() && Simulates(w, s) && s.Valid() && WellFormed(d, op) && !NotAbandoned(w, s, op)
    ensures var k := Choice(Some(d.host.errnos["EIO"]), 0, None, 0, false, 0);
            Perform(d, w, op, k).1 != SpecStep(d, s, op, k, a).1
  {
    hide Perform;
    var k := Choice(Some(d.host.errnos["EIO"]), 0, None, 0, false, 0);
    OutcomeIsMeaning(d, w, op, k);
    PortableByName(d.channel, "EIO");
    EioIsNotEinval(d.channel);
  }

  /** With appends refused, outcomes agree for every choice of the system exactly on entries that are not abandoned. */
  lemma {:induction false} AbandonedHandlesShow(d: Deployment, w: Satellite.World, s: Files, op: Op)
    requires d.Valid() && Simulates(w, s) && s.Valid() && WellFormed(d, op) && !op.Open?
    ensures (forall k :: Perform(d, w, op, k).1 == SpecStep(d, s, op, k, Refused).1) <==> NotAbandoned(w, s, op)
  {
    hide Perform, SpecStep;
    if NotAbandoned(w, s, op) {
      forall k ensures Perform(d, w, op, k).1 == SpecStep(d, s, op, k, Refused).1 {
        StepRefines(d, w, s, op, k);
      }
    } else {
      AbandonedDiffers(d, w, s, op, Refused);
    }
  }

  /**
   Against the intended specification, outcomes agree for every choice of the
   system if and only if the operation names no abandoned entry and is no write
   through an appending handle.
   */
  lemma {:induction false} DeparturesExact(d: Deployment, w: Satellite.World, s: Files, op: Op)
    requires d.Valid() && Simulates(w, s) && s.Valid() && WellFormed(d, op) && !op.Open?
    ensures (forall k :: Perform(d, w, op, k).1 == SpecStep(d, s, op, k, AtEnd).1)
            <==> NotAbandoned(w, s, op) && !AppendWrite(s, op)
  {
    hide Perform, SpecStep;
    if !NotAbandoned(w, s, op) {
      AbandonedDiffers(d, w, s, op, AtEnd);
    } else if AppendWrite(s, op) {
      AppendWriteDiffers(d, w, s, op, Choice(None, 0, None, 0, false, 0));
    } else {
      forall k ensures Perform(d, w, op, k).1 == SpecStep(d, s, op, k, AtEnd).1 {
        StepRefines(d, w, s, op, k);
        ReadingsAgree(d, s, op, k);
      }
    }
  }

  lemma {:induction false} AppendWriteDiffers(d: Deployment, w: Satellite.World, s: Files, op: Op, k: Choice)
    requires d.Valid() && Simulates(w, s) && s.Valid() && WellFormed(d, op) && AppendWrite(s, op) && k.err.None?
    ensures Perform(d, w, op, k).1 == Errno(d.channel.client["EIO"])
    ensures SpecStep(d, s, op, k, AtEnd).1 == Count(|op.data|)
  {
    hide Perform;
    StepRefines(d, w, s, op, k);
  }

  // ---------- Whole runs ----------

  /** The operations of a caller, each with the system's choices. */
  type Script = seq<(Op, Choice)>

  ghost predicate AllWellFormed(d: Deployment, script: Script) {
    forall j :: 0 <= j < |script| ==> WellFormed(d, script[j].0)
  }

  function Outcomes(d: Deployment, w: Satellite.World, script: Script): seq<Outcome>
    requires d.Valid() && w.Valid()
    decreases |script|
  {
    if script == [] then []
    else
      var (w', r) := Perform(d, w, script[0].0, script[0].1);
      [r] + Outcomes(d, w', script[1..])
  }

  function AfterOps(d: Deployment, w: Satellite.World, script: Script): (w': Satellite.World)
    requires d.Valid() && w.Valid()
    ensures w'.Valid()
    decreases |script|
  {
    if script == [] then w else AfterOps(d, Perform(d, w, script[0].0, script[0].1).0, script[1..])
  }

  ghost function SpecOutcomes(d: Deployment, s: Files, script: Script, a: Appends): seq<Outcome>
    requires d.Valid() && s.Valid() && AllWellFormed(d, script)
    decreases |script|
  {
    if script == [] then []
    else
      var (s', r) := SpecStep(d, s, script[0].0, script[0].1, a);
      [r] + SpecOutcomes(d, s', script[1..], a)
  }

  ghost function SpecAfter(d: Deployment, s: Files, script: Script, a: Appends): (s': Files)
    requires d.Valid() && s.Valid() && AllWellFormed(d, script)
    ensures s'.Valid()
    decreases |script|
  {
    if script == [] then s else SpecAfter(d, SpecStep(d, s, script[0].0, script[0].1, a).0, script[1..], a)
  }

  /** New descriptors are free, and no operation names a handle abandoned by a failed open. */
  ghost predicate Disciplined(d: Deployment, w: Satellite.World, s: Files, script: Script)
    requires d.Valid() && w.Valid() && s.Valid() && AllWellFormed(d, script)
    decreases |script|
  {
    script != [] ==>
      var (op, k) := script[0];
      && (op.Open? ==> HandleTable.DescriptorFree(w, k))
      && NotAbandoned(w, s, op)
      && Disciplined(d, Perform(d, w, op, k).0, SpecStep(d, s, op, k, Refused).0, script[1..])
  }

  /** Refinement, with appends refused: over every such run the caller sees exactly what the specification says. */
  lemma {:induction false} RunRefines(d: Deployment, w: Satellite.World, s: Files, script: Script)
    requires d.Valid() && Simulates(w, s) && s.Valid() && AllWellFormed(d, script) && Disciplined(d, w, s, script)
    ensures Outcomes(d, w, script) == SpecOutcomes(d, s, script, Refused)
    ensures Simulates(AfterOps(d, w, script), SpecAfter(d, s, script, Refused))
    decreases |script|
  {
    hide Perform, SpecStep;
    if script != [] {
      var (op, k) := script[0];
      StepRefines(d, w, s, op, k);
      RunRefines(d, Perform(d, w, op, k).0, SpecStep(d, s, op, k, Refused).0, script[1..]);
    }
  }

  /** No operation of the run is a write through an appending handle. */
  ghost predicate NoAppendWrites(d: Deployment, s: Files, script: Script)
    requires d.Valid() && s.Valid() && AllWellFormed(d, script)
    decreases |script|
  {
    script != [] ==>
      && !AppendWrite(s, script[0].0)
      && NoAppendWrites(d, SpecStep(d, s, script[0].0, script[0].1, AtEnd).0, script[1..])
  }

  /**
   Refinement of the intended specification: when the system refuses no write,
   a run matches it if and only if no write of the run goes through an
   appending handle.
   */
  lemma {:induction false} RunRefinesIntended(d: Deployment, w: Satellite.World, s: Files, script: Script)
    requires d.Valid() && Simulates(w, s) && s.Valid() && AllWellFormed(d, script) && Disciplined(d, w, s, script)
    requires forall j :: 0 <= j < |script| && script[j].0.Write? ==> script[j].1.err.None?
    ensures Outcomes(d, w, script) == SpecOutcomes(d, s, script, AtEnd) <==> NoAppendWrites(d, s, script)
    decreases |script|
  {
    hide Perform, SpecStep;
    if script != [] {
      var (op, k) := script[0];
      if AppendWrite(s, op) {
        AppendWriteDiffers(d, w, s, op, k);
        assert Outcomes(d, w, script)[0] != SpecOutcomes(d, s, script, AtEnd)[0];
      } else {
        StepRefines(d, w, s, op, k);
        ReadingsAgree(d, s, op, k);
        var w', s' := Perform(d, w, op, k).0, SpecStep(d, s, op, k, AtEnd).0;
        RunRefinesIntended(d, w', s', script[1..]);
        assert Outcomes(d, w, script)[1..] == Outcomes(d, w', script[1..]);
        assert SpecOutcomes(d, s, script, AtEnd)[1..] == SpecOutcomes(d, s', script[1..], AtEnd);
      }
    }
  }

  // ---------- Callers ----------

  /** Every open is given a free descriptor. */
  ghost predicate FreeDescriptors(d: Deployment, w: Satellite.World, script: Script)
    requires d.Valid() && w.Valid()
    decreases |script|
  {
    script != [] ==>
      && (script[0].0.Open? ==> HandleTable.DescriptorFree(w, script[0].1))
      && FreeDescriptors(d, Perform(d, w, script[0].0, script[0].1).0, script[1..])
  }

  /** The caller only names handles that it was given and has not closed. */
  ghost predicate Holding(d: Deployment, s: Files, script: Script)
    requires d.Valid() && s.Valid() && AllWellFormed(d, script)
    decreases |script|
  {
    script != [] ==>
      && (script[0].0.OnHandle() ==> script[0].0.fh in s.handles)
      && Holding(d, SpecStep(d, s, script[0].0, script[0].1, Refused).0, script[1..])
  }

  lemma {:induction false} HoldingIsDisciplined(d: Deployment, w: Satellite.World, s: Files, script: Script)
    requires d.Valid() && Simulates(w, s) && s.Valid() && AllWellFormed(d, script)
    requires FreeDescriptors(d, w, script) && Holding(d, s, script)
    ensures Disciplined(d, w, s, script)
    decreases |script|
  {
    hide Perform, SpecStep;
    if script != [] {
      var (op, k) := script[0];
      StepRefines(d, w, s, op, k);
      HoldingIsDisciplined(d, Perform(d, w, op, k).0, SpecStep(d, s, op, k, Refused).0, script[1..]);
    }
  }

  /**
   From a fresh satellite, a caller that only names handles it was given and
   has not closed sees the specification, whatever fails, fstat included.
   */
  lemma {:induction false} SystemRefines(d: Deployment, os: Os, script: Script)
    requires d.Valid() && os.Valid() && os.files == [] && AllWellFormed(d, script)
    requires FreeDescriptors(d, Satellite.Started(os), script)
    requires Holding(d, Files(map[], os.names, os.disk), script)
    ensures Outcomes(d, Satellite.Started(os), script)
            == SpecOutcomes(d, Files(map[], os.names, os.disk), script, Refused)
  {
    var w, s := Satellite.Started(os), Files(map[], os.names, os.disk);
    HoldingIsDisciplined(d, w, s, script);
    RunRefines(d, w, s, script);
  }

  lemma {:induction false} SameKeysKept(d: Deployment, w: Satellite.World, s: Files, op: Op, k: Choice)
    requires d.Valid() && Simulates(w, s) && s.Valid() && WellFormed(d, op) && w.fds.Keys == s.handles.Keys
    requires op.Open? ==> HandleTable.DescriptorFree(w, k) && k.statErr.None?
    ensures Perform(d, w, op, k).0.fds.Keys == SpecStep(d, s, op, k, Refused).0.handles.Keys
  {
    hide Perform, SpecStep, Satellite.Handle;
    OutcomeIsMeaning(d, w, op, k);
    if op.Open? { OpenSameKeys(d, w, s, op, k); } else { OtherSameKeys(d, w, s, op, k); }
  }

  lemma {:induction false} OpenSameKeys(d: Deployment, w: Satellite.World, s: Files, op: Op, k: Choice)
    requires d.Valid() && Simulates(w, s) && s.Valid() && op.Open? && w.fds.Keys == s.handles.Keys
    requires HandleTable.DescriptorFree(w, k) && k.statErr.None?
    ensures Satellite.Handle(d.host, w, Request(d, op), k).0.fds.Keys == SpecStep(d, s, op, k, Refused).0.handles.Keys
  {
    hide Satellite.OnOpen, Satellite.Wanted;
    WantedByCaller(d, op);
    HandleTable.OpenEffect(d.host, w, op.path, Request(d, op).wire, k);
  }

  lemma {:induction false} OtherSameKeys(d: Deployment, w: Satellite.World, s: Files, op: Op, k: Choice)
    requires d.Valid() && Simulates(w, s) && s.Valid() && WellFormed(d, op) && !op.Open? && w.fds.Keys == s.handles.Keys
    ensures Satellite.Handle(d.host, w, Request(d, op), k).0.fds.Keys == SpecStep(d, s, op, k, Refused).0.handles.Keys
  {
    hide Satellite.Handle, SpecStep;
    HandleTable.OtherKeys(d.host, w, Request(d, op), k);
    SpecKeys(d, s, op, k);
  }

  lemma {:induction false} SpecKeys(d: Deployment, s: Files, op: Op, k: Choice)
    requires d.Valid() && s.Valid() && WellFormed(d, op) && !op.Open?
    ensures SpecStep(d, s, op, k, Refused).0.handles.Keys == s.handles.Keys - if op.Close? then {op.fh} else {}
  {
  }

  /** Unless the fstat of some open fails, no handle is ever abandoned. */
  lemma {:induction false} NothingAbandoned(d: Deployment, w: Satellite.World, s: Files, script: Script)
    requires d.Valid() && Simulates(w, s) && s.Valid() && w.fds.Keys == s.handles.Keys && AllWellFormed(d, script)
    requires forall j :: 0 <= j < |script| && script[j].0.Open? ==> script[j].1.statErr.None?
    requires FreeDescriptors(d, w, script)
    ensures Disciplined(d, w, s, script)
    decreases |script|
  {
    hide Perform, SpecStep;
    if script != [] {
      var (op, k) := script[0];
      StepRefines(d, w, s, op, k);
      SameKeysKept(d, w, s, op, k);
      NothingAbandoned(d, Perform(d, w, op, k).0, SpecStep(d, s, op, k, Refused).0, script[1..]);
    }
  }

  /** From a fresh satellite, and when no fstat fails, a caller may name any numbers at all, live or dead. */
  lemma {:induction false} SystemRefinesAnyHandle(d: Deployment, os: Os, script: Script)
    requires d.Valid() && os.Valid() && os.files == [] && AllWellFormed(d, script)
    requires forall j :: 0 <= j < |script| && script[j].0.Open? ==> script[j].1.statErr.None?
    requires FreeDescriptors(d, Satellite.Started(os), script)
    ensures Outcomes(d, Satellite.Started(os), script)
            == SpecOutcomes(d, Files(map[], os.names, os.disk), script, Refused)
  {
    var w, s := Satellite.Started(os), Files(map[], os.names, os.disk);
    NothingAbandoned(d, w, s, script);
    RunRefines(d, w, s, script);
  }

  /**
   An abandoned entry within a caller's reach, from any handle it holds: Flush,
   then another open of an existing file is given the same number and fails at
   fstat, then the late Release.  The Release succeeds, on a file nobody was
   told about; the specification has no such handle any more.
   */
  lemma {:induction false} ReleaseReachesAbandoned(d: Deployment, w: Satellite.World, s: Files, fd: nat, path: string, e: int,
                                                   k: Choice, kBad: Choice,
                                                   w1: Satellite.World, s1: Files, w2: Satellite.World, s2: Files)
    requires d.Valid() && Simulates(w, s) && s.Valid() && fd in s.handles && path in s.names
    requires k == Choice(None, fd, None, 0, false, 0) && kBad == k.(statErr := Some(e))
    requires w1 == Perform(d, w, Op.Close(fd), k).0 && s1 == SpecStep(d, s, Op.Close(fd), k, Refused).0
    requires w2 == Perform(d, w1, Op.Open(path, {}), kBad).0 && s2 == SpecStep(d, s1, Op.Open(path, {}), kBad, Refused).0
    ensures HandleTable.DescriptorFree(w1, kBad) && Simulates(w2, s2)
    ensures Perform(d, w1, Op.Open(path, {}), kBad).1 == Errno(Portable(d.channel, e))
    ensures !NotAbandoned(w2, s2, Op.Close(fd))
    ensures Perform(d, w2, Op.Close(fd), k).1 == Success
    ensures SpecStep(d, s2, Op.Close(fd), k, Refused).1 == Errno(d.channel.client["EINVAL"])
  {
    hide Perform;
    StepRefines(d, w, s, Op.Close(fd), k);
    ClosedEntry(d, w, fd, k);
    NoFlagsNamed(d);
    StepRefines(d, w1, s1, Op.Open(path, {}), kBad);
    OneEntry(d, w1, path, kBad);
    CloseSucceeds(d, w2, fd, k);
  }

  lemma {:induction false} CloseSucceeds(d: Deployment, w: Satellite.World, fd: nat, k: Choice)
    requires d.Valid() && Satellite.Owned(w) && w.alive && fd in w.fds && k.err.None?
    ensures Perform(d, w, Op.Close(fd), k).1 == Success
  {
    hide Perform;
    OutcomeIsMeaning(d, w, Op.Close(fd), k);
  }

  /** Such a handle exists after the first open of any fresh satellite. */
  lemma {:induction false} FirstOpenHolds(d: Deployment, os: Os, path: string, k: Choice)
    requires d.Valid() && os.Valid() && os.files == [] && path in os.names && k.err.None? && k.statErr.None?
    ensures var w, s := Satellite.Started(os), Files(map[], os.names, os.disk);
            var (w', r) := Perform(d, w, Op.Open(path, {}), k);
            var s' := SpecStep(d, s, Op.Open(path, {}), k, Refused).0;
            r.Handle? && r.fh == k.fd && Simulates(w', s') && k.fd in s'.handles && path in s'.names
  {
    hide Perform, SpecOpen;
    var s := Files(map[], os.names, os.disk);
    SpecOpensNamed(d, s, path, k);
    StepRefines(d, Satellite.Started(os), s, Op.Open(path, {}), k);
  }

  lemma {:induction false} SpecOpensNamed(d: Deployment, s: Files, path: string, k: Choice)
    requires d.Valid() && s.Valid() && path in s.names && k.err.None? && k.statErr.None?
    ensures var (s', r) := SpecOpen(d, s, path, {}, k);
            r.Handle? && r.fh == k.fd && k.fd in s'.handles && s'.names == s.names
  {
    NoFlagsNamed(d);
  }

  lemma {:induction false} NoFlagsNamed(d: Deployment)
    requires d.Valid()
    ensures OpenFlags.Names(d.masks, {}) == {} && OpenFlags.Matches(d.masks, {}, {})
  {
    assert forall i :: 0 <= i < OpenFlags.FLAGS ==> d.masks.Table()[i] != {};
    OpenFlags.NamesMatch(d.masks, {});
  }

  /** Opening an existing file with no flags enters it under the chosen number. */
  lemma {:induction false} OneEntry(d: Deployment, w: Satellite.World, path: string, k: Choice)
    requires d.Valid() && Satellite.Owned(w) && w.alive && path in w.os.names && k.err.None?
    ensures k.fd in Perform(d, w, Op.Open(path, {}), k).0.fds
  {
    hide Perform, Satellite.OnOpen, Satellite.Wanted, HandleTable.Reached;
    NoFlagsNamed(d);
    WantedByCaller(d, Op.Open(path, {}));
    OutcomeIsMeaning(d, w, Op.Open(path, {}), k);
    HandleTable.OpenEffect(d.host, w, path, Request(d, Op.Open(path, {})).wire, k);
  }

  /** After a close the number is free again. */
  lemma {:induction false} ClosedEntry(d: Deployment, w: Satellite.World, fd: nat, k: Choice)
    requires d.Valid() && Satellite.Owned(w) && w.alive && fd in w.fds
    ensures var w' := Perform(d, w, Op.Close(fd), k).0;
            forall kAny: Choice :: kAny.fd == fd ==> HandleTable.DescriptorFree(w', kAny)
  {
    hide Perform;
    OutcomeIsMeaning(d, w, Op.Close(fd), k);
    Satellite.HandleOwned(d.host, w, Satellite.Close(fd), k);
  }
}
