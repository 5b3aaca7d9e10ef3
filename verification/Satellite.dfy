/**
 The satellite's handle table and its file RPC handlers
 (cmd/satellite/server/server.go).

 The class follows the Go code statement by statement.  `Step` is the same
 behaviour as a function on values, so that theorems can speak about runs.
 Each handler is one atomic step.
 */
module Satellite {

  import opened Prelude
  import opened ErrorCodec
  import opened Kernel
  import OpenFlags

  /** The platform the satellite runs on. */
  datatype Host = Host(masks: OpenFlags.Masks, errnos: Errnos) {
    ghost predicate Valid() {
      "EINVAL" in errnos && "ENOENT" in errnos && "EEXIST" in errnos
    }
  }

  datatype Event =
    | Open(path: string, wire: OpenFlags.Word)
    | Close(fd: nat)
    | Read(fd: nat, off: int, num: int)
    | Seek(fd: nat, off: int, whence: int)
    | Write(fd: nat, off: int, data: Bytes)
    | Fsync(fd: nat)
    | Truncate(path: string, size: int)
    | CloseAll
  {
    /** The request works on descriptor number key. */
    predicate On(key: nat) {
      (Close? || Read? || Seek? || Write? || Fsync?) && fd == key
    }
  }

  /** How a request ends: the handler fills its reply, hits an error or panics, or there is no satellite any more. */
  datatype Reply =
    | Opened(fd: nat, ino: nat, size: nat)
    | Data(data: Bytes)
    | Position(pos: nat)
    | Written(n: nat)
    | Done
    | Errored(err: GoError)
    | Panicked
    | Gone
  {
    /** Answering this ends the satellite: the handler panicked, or the error encoder will. */
    predicate Fatal() {
      Panicked? || (Errored? && (err.PathError? || err.LinkError?) && err.payload.OpaquePayload?)
    }
  }

  /** The error net/rpc reports for a call during which the connection ends, and for every later call. */
  const UNEXPECTED_EOF := "unexpected EOF"
  const SHUTDOWN := "connection is shut down"

  /** What net/rpc delivers: the reply, the handler's error text, or its own because the satellite died. */
  datatype Delivery = Answer(reply: Reply) | Failed(text: string) | Lost(text: string)

  /** A handler that hits an error returns ErrnoToRPCErrorString of it. */
  function Fail(c: Channel, err: GoError): Delivery
    requires c.Valid()
  {
    match ErrnoToRPCErrorString(c, err)
    case Text(text) => Failed(text)
    case Panic => Lost(UNEXPECTED_EOF)
  }

  function Deliver(c: Channel, r: Reply): Delivery
    requires c.Valid()
  {
    match r
    case Errored(err) => Fail(c, err)
    case Panicked => Lost(UNEXPECTED_EOF)
    case Gone => Lost(SHUTDOWN)
    case _ => Answer(r)
  }

  /**
   The handle table, from descriptor number to file object, the system under
   it, and whether the satellite still runs.  Once it died, table and file
   objects are those of that moment.
   */
  datatype World = World(fds: map<nat, nat>, os: Os, alive: bool) {
    ghost predicate Valid() {
      && os.Valid()
      && (forall key :: key in fds ==> fds[key] < |os.files|)
    }
  }

  /** A satellite that has just started. */
  function Started(os: Os): World {
    World(map[], os, true)
  }

  function ErroredIf(err: Option<GoError>, otherwise: Reply): Reply {
    if err.Some? then Errored(err.value) else otherwise
  }

  /** The outcome of a request on a number that is not in the table. */
  function BadHandle(h: Host): Reply
    requires h.Valid()
  {
    Errored(SysErrno(h.errnos["EINVAL"]))
  }

  // ---------- The handlers, on values ----------

  function Wanted(h: Host, wire: OpenFlags.Word): set<nat> {
    OpenFlags.Names(h.masks, OpenFlags.SystemFlags(h.masks, wire))
  }

  function OnOpen(h: Host, w: World, path: string, wire: OpenFlags.Word, k: Choice): (r: (World, Reply))
    requires h.Valid() && w.Valid()
    ensures r.0.Valid()
  {
    var (grown, file) := OpenFile(w.os, h.errnos, path, Wanted(h, wire), k);
    if file.Err? then (w, Errored(file.error))
    else Store(w, grown, file.value, k)
  }

  /** Enter a new file object in the table, closing an entry it displaces. */
  function Store(w: World, grown: Os, id: nat, k: Choice): (r: (World, Reply))
    requires w.Valid() && grown.Valid() && id < |grown.files| && |w.os.files| <= |grown.files|
    ensures r.0.Valid()
  {
    var key := grown.files[id].fd;
    var os := if key in w.fds then CloseFile(grown, w.fds[key]) else grown;
    (w.(fds := w.fds[key := id], os := os),
     match Fstat(os, id, k)
     case Err(e) => Errored(e)
     case Ok((ino, size)) => Opened(key, ino, size))
  }

  function OnClose(h: Host, w: World, key: nat, k: Choice): (r: (World, Reply))
    requires h.Valid() && w.Valid()
    ensures r.0.Valid()
  {
    if key !in w.fds then (w, BadHandle(h))
    else (w.(fds := w.fds - {key}, os := CloseFile(w.os, w.fds[key])), ErroredIf(CloseError(w.os, w.fds[key], k), Done))
  }

  function OnRead(h: Host, w: World, key: nat, off: int, num: int, k: Choice): Reply
    requires h.Valid() && w.Valid()
  {
    if key !in w.fds then BadHandle(h)
    else if num < 0 then Panicked  // make([]byte, num)
    else
      var (data, err) := ReadAt(w.os, w.fds[key], off, num, k);
      if err.Some? && (err.value != EOF || |data| == 0) then Errored(err.value) else Data(data)
  }

  function OnSeek(h: Host, w: World, key: nat, off: int, whence: int, k: Choice): (r: (World, Reply))
    requires h.Valid() && w.Valid()
    ensures r.0.Valid()
  {
    if key !in w.fds then (w, BadHandle(h))
    else
      var (os, pos) := SeekFile(w.os, w.fds[key], h.errnos, off, whence, k);
      (w.(os := os), if pos.Ok? then Position(pos.value) else Errored(pos.error))
  }

  function OnWrite(h: Host, w: World, key: nat, off: int, data: Bytes, k: Choice): (r: (World, Reply))
    requires h.Valid() && w.Valid()
    ensures r.0.Valid()
  {
    if key !in w.fds then (w, BadHandle(h))
    else
      var (os, n, err) := WriteAt(w.os, w.fds[key], off, data, k);
      (w.(os := os), ErroredIf(err, Written(n)))
  }

  function OnFsync(h: Host, w: World, key: nat, k: Choice): Reply
    requires h.Valid() && w.Valid()
  {
    if key !in w.fds then BadHandle(h) else ErroredIf(SyncError(w.os, w.fds[key], k), Done)
  }

  /** Every file in the table gets one more Close. */
  function OnCloseAll(w: World): (w': World)
    requires w.Valid()
    ensures w'.Valid()
  {
    w.(fds := map[], os := w.os.(files := seq(|w.os.files|, i requires 0 <= i < |w.os.files| =>
      var f := w.os.files[i];
      if i in w.fds.Values then f.(closeCalls := f.closeCalls + 1) else f)))
  }

  /** SetAttr for a request that asks for the size only; an lstat follows. */
  function OnTruncate(h: Host, w: World, path: string, size: int, k: Choice): (r: (World, Reply))
    requires h.Valid() && w.Valid()
    ensures r.0.Valid()
  {
    var (os, err) := TruncatePath(w.os, h.errnos, path, size, k);
    (w.(os := os),
     if err.Some? then Errored(err.value) else if k.statErr.Some? then Errored(SysError(k.statErr.value)) else Done)
  }

  /** What the handler of a request does. */
  function Handle(h: Host, w: World, e: Event, k: Choice): (r: (World, Reply))
    requires h.Valid() && w.Valid()
    ensures r.0.Valid()
  {
    match e
    case Open(path, wire) => OnOpen(h, w, path, wire, k)
    case Close(key) => OnClose(h, w, key, k)
    case Read(key, off, num) => (w, OnRead(h, w, key, off, num, k))
    case Seek(key, off, whence) => OnSeek(h, w, key, off, whence, k)
    case Write(key, off, data) => OnWrite(h, w, key, off, data, k)
    case Fsync(key) => (w, OnFsync(h, w, key, k))
    case Truncate(path, size) => OnTruncate(h, w, path, size, k)
    case CloseAll => (OnCloseAll(w), Done)
  }

  /** One request to the satellite process: a panic ends it, and then nothing is answered any more. */
  function Step(h: Host, w: World, e: Event, k: Choice): (r: (World, Reply))
    requires h.Valid() && w.Valid()
    ensures r.0.Valid()
  {
    if !w.alive then (w, Gone)
    else
      var (w', reply) := Handle(h, w, e, k);
      (w'.(alive := !reply.Fatal()), reply)
  }

  // ---------- Runs ----------

  /** A run: the requests in order, each with the system's choices. */
  type Run = seq<(Event, Choice)>

  function After(h: Host, w: World, run: Run): (w': World)
    requires h.Valid() && w.Valid()
    ensures w'.Valid()
    decreases |run|
  {
    if run == [] then w else After(h, Step(h, w, run[0].0, run[0].1).0, run[1..])
  }

  function Replies(h: Host, w: World, run: Run): (rs: seq<Reply>)
    requires h.Valid() && w.Valid()
    ensures |rs| == |run|
    decreases |run|
  {
    if run == [] then []
    else
      var (w', reply) := Step(h, w, run[0].0, run[0].1);
      [reply] + Replies(h, w', run[1..])
  }

  // ---------- Ownership ----------

  /** The table keys that hold file object i. */
  ghost function Holders(w: World, i: nat): set<nat> {
    set key | key in w.fds && w.fds[key] == i
  }

  /**
   Every entry is an open file stored under its own descriptor number, and
   every file object is either in the table or has been closed once.
   */
  ghost predicate Owned(w: World) {
    && w.Valid()
    && (forall key :: key in w.fds ==> w.os.files[w.fds[key]].fd == key && w.os.files[w.fds[key]].closeCalls == 0)
    && (forall i :: 0 <= i < |w.os.files| ==>
         if w.os.files[i].closeCalls == 0 then w.os.files[i].fd in w.fds && w.fds[w.os.files[i].fd] == i
         else w.os.files[i].closeCalls == 1)
  }

  lemma {:induction false} StepOwned(h: Host, w: World, e: Event, k: Choice)
    requires h.Valid() && Owned(w)
    ensures Owned(Step(h, w, e, k).0)
  {
    hide Handle;
    HandleOwned(h, w, e, k);
  }

  lemma {:induction false} HandleOwned(h: Host, w: World, e: Event, k: Choice)
    requires h.Valid() && Owned(w)
    ensures Owned(Handle(h, w, e, k).0)
  {
    hide OnOpen;
    if e.Open? { OpenOwned(h, w, e.path, e.wire, k); }
  }

  lemma {:induction false} OpenOwned(h: Host, w: World, path: string, wire: OpenFlags.Word, k: Choice)
    requires h.Valid() && Owned(w)
    ensures Owned(OnOpen(h, w, path, wire, k).0)
  {
    hide Store;
    var (grown, file) := OpenFile(w.os, h.errnos, path, Wanted(h, wire), k);
    if file.Ok? {
      assert forall i :: 0 <= i < |w.os.files| ==> grown.files[i] == grown.files[..|w.os.files|][i];
      StoreOwned(w, grown, k);
    }
  }

  lemma {:induction false} StoreOwned(w: World, grown: Os, k: Choice)
    requires Owned(w) && grown.Valid() && |grown.files| == |w.os.files| + 1
    requires forall i :: 0 <= i < |w.os.files| ==> grown.files[i] == w.os.files[i]
    requires grown.files[|w.os.files|].closeCalls == 0
    ensures Owned(Store(w, grown, |w.os.files|, k).0)
  {
  }

  /** CloseAllFDs has emptied the table down to `left`, closing each removed entry once. */
  ghost predicate PartlyClosed(w: World, left: map<nat, nat>, os: Os) {
    && Owned(w) && os.Valid() && |os.files| == |w.os.files|
    && os == w.os.(files := os.files)
    && (forall key :: key in left ==> key in w.fds && left[key] == w.fds[key])
    && (forall i :: 0 <= i < |os.files| ==> os.files[i] == Swept(w, left, i))
  }

  ghost function Swept(w: World, left: map<nat, nat>, i: nat): FileObj
    requires i < |w.os.files|
  {
    var f := w.os.files[i];
    if f.closeCalls == 0 && f.fd !in left then f.(closeCalls := 1) else f
  }

  lemma {:induction false} CloseOneMore(w: World, left: map<nat, nat>, os: Os, key: nat)
    requires PartlyClosed(w, left, os) && key in left
    ensures PartlyClosed(w, left - {key}, CloseFile(os, left[key]))
    ensures |left - {key}| < |left|
  {
  }

  lemma {:induction false} AllClosed(w: World, os: Os)
    requires PartlyClosed(w, map[], os)
    ensures w.(fds := map[], os := os) == OnCloseAll(w)
    ensures Owned(w.(fds := map[], os := os))
  {
  }

  // ---------- The satellite itself ----------

  class DockerFuseFSOps {
    const host: Host
    const channel: Channel
    var fds: map<nat, nat>
    var os: Os
    var alive: bool  // the process still runs

    ghost predicate Valid()
      reads this
    {
      host.Valid() && host.masks.Valid() && channel.Valid() && channel.satellite == host.errnos && Owned(View())
    }

    ghost function View(): World
      reads this
    {
      World(fds, os, alive)
    }

    constructor (host: Host, channel: Channel, os: Os)
      requires host.masks.Valid() && channel.Valid() && channel.satellite == host.errnos
      requires os.Valid() && os.files == []
      ensures Valid() && this.host == host && this.channel == channel && View() == Started(os)
    {
      this.host, this.channel := host, channel;
      this.fds := map[];
      this.os := os;
      this.alive := true;
    }

    /** Close one entry and take it out of the table. */
    method CloseOne(key: nat, ghost w: World)
      requires PartlyClosed(w, fds, os) && key in fds
      modifies this`fds, this`os
      ensures PartlyClosed(w, fds, os) && |fds| < |old(fds)|
    {
      CloseOneMore(w, fds, os, key);
      os := CloseFile(os, fds[key]);
      fds := fds - {key};
    }

    method CloseAllFDs()
      requires Valid()
      modifies this`fds, this`os
      ensures Valid()
      ensures View() == OnCloseAll(old(View()))
    {
      ghost var w := View();
      while fds != map[]
        invariant PartlyClosed(w, fds, os)
        decreases |fds|
      {
        var key :| key in fds;
        CloseOne(key, w);
      }
      AllClosed(w, os);
    }

    // The RPC handlers.  Where the code returns ErrnoToRPCErrorString(err), they
    // return Errored(err), and `Serve` below prints it.

    method Open(path: string, wire: OpenFlags.Word, k: Choice) returns (r: Reply)
      requires Valid()
      modifies this`fds, this`os
      ensures Valid()
      ensures (View(), r) == OnOpen(host, old(View()), path, wire, k)
    {
      OpenOwned(host, View(), path, wire, k);
      var flags := OpenFlags.SAFlagsToSystem(host.masks, wire);
      var (grown, file) := OpenFile(os, host.errnos, path, OpenFlags.Names(host.masks, flags), k);
      if file.Err? {
        return Errored(file.error);
      }
      r := Enter(grown, file.value, k);
    }

    /** The second half of Open: enter the new file in the table and describe it. */
    method Enter(grown: Os, id: nat, k: Choice) returns (r: Reply)
      requires View().Valid() && grown.Valid() && id < |grown.files| && |os.files| <= |grown.files|
      modifies this`fds, this`os
      ensures (View(), r) == Store(old(View()), grown, id, k)
    {
      os := grown;
      var key := os.files[id].fd;
      if key in fds {
        os := CloseFile(os, fds[key]);
      }
      fds := fds[key := id];
      var info := Fstat(os, id, k);
      if info.Err? {
        return Errored(info.error);
      }
      r := Opened(key, info.value.0, info.value.1);
    }

    method Close(key: nat, k: Choice) returns (r: Reply)
      requires Valid()
      modifies this`fds, this`os
      ensures Valid()
      ensures (View(), r) == OnClose(host, old(View()), key, k)
      ensures key !in fds
    {
      if key !in fds {
        return Errored(SysErrno(host.errnos["EINVAL"]));
      }
      var err := CloseError(os, fds[key], k);
      os := CloseFile(os, fds[key]);
      if err.Some? {
        r := Errored(err.value);
      } else {
        r := Done;
      }
      fds := fds - {key};  // deferred: runs on both paths
    }

    method Read(key: nat, off: int, num: int, k: Choice) returns (r: Reply)
      requires Valid()
      ensures r == OnRead(host, View(), key, off, num, k)
    {
      if key !in fds {
        return Errored(SysErrno(host.errnos["EINVAL"]));
      }
      if num < 0 {  // make([]byte, num)
        return Panicked;
      }
      var (data, err) := ReadAt(os, fds[key], off, num, k);
      if err.Some? && (err.value != EOF || |data| <= 0) {
        return Errored(err.value);
      }
      r := Data(data);
    }

    method Seek(key: nat, off: int, whence: int, k: Choice) returns (r: Reply)
      requires Valid()
      modifies this`os
      ensures Valid()
      ensures (View(), r) == OnSeek(host, old(View()), key, off, whence, k)
      ensures os.disk == old(os).disk
    {
      if key !in fds {
        return Errored(SysErrno(host.errnos["EINVAL"]));
      }
      var (os', pos) := SeekFile(os, fds[key], host.errnos, off, whence, k);
      os := os';
      if pos.Err? {
        return Errored(pos.error);
      }
      r := Position(pos.value);
    }

    method Write(key: nat, off: int, data: Bytes, k: Choice) returns (r: Reply)
      requires Valid()
      modifies this`os
      ensures Valid()
      ensures (View(), r) == OnWrite(host, old(View()), key, off, data, k)
      ensures os.files == old(os).files
    {
      if key !in fds {
        return Errored(SysErrno(host.errnos["EINVAL"]));
      }
      var (os', n, err) := WriteAt(os, fds[key], off, data, k);
      os := os';
      if err.Some? {
        return Errored(err.value);
      }
      r := Written(n);
    }

    method Fsync(key: nat, k: Choice) returns (r: Reply)
      requires Valid()
      ensures r == OnFsync(host, View(), key, k)
    {
      if key !in fds {
        return Errored(SysErrno(host.errnos["EINVAL"]));
      }
      var err := SyncError(os, fds[key], k);
      if err.Some? {
        return Errored(err.value);
      }
      r := Done;
    }

    /** SetAttr for a request that asks for the size only. */
    method Truncate(path: string, size: int, k: Choice) returns (r: Reply)
      requires Valid()
      modifies this`os
      ensures Valid()
      ensures (View(), r) == OnTruncate(host, old(View()), path, size, k)
      ensures os.files == old(os).files
    {
      var (os', err) := TruncatePath(os, host.errnos, path, size, k);
      os := os';
      if err.Some? {
        return Errored(err.value);
      }
      if k.statErr.Some? {
        return Errored(SysError(k.statErr.value));
      }
      r := Done;
    }

    /** Run the handler of a request. */
    method Dispatch(e: Event, k: Choice) returns (r: Reply)
      requires Valid()
      modifies this`fds, this`os
      ensures Valid()
      ensures (View(), r) == Handle(host, old(View()), e, k)
    {
      match e
      case Open(path, wire) => r := Open(path, wire, k);
      case Close(key) => r := Close(key, k);
      case Read(key, off, num) => r := Read(key, off, num, k);
      case Seek(key, off, whence) => r := Seek(key, off, whence, k);
      case Write(key, off, data) => r := Write(key, off, data, k);
      case Fsync(key) => r := Fsync(key, k);
      case Truncate(path, size) => r := Truncate(path, size, k);
      case CloseAll =>
        CloseAllFDs();
        r := Done;
    }

    /** A request over net/rpc: what comes back, and whether the process survives it. */
    method Serve(e: Event, k: Choice) returns (reply: Delivery)
      requires Valid()
      modifies this
      ensures Valid()
      ensures View() == Step(host, old(View()), e, k).0
      ensures reply == Deliver(channel, Step(host, old(View()), e, k).1)
    {
      if !alive {
        return Deliver(channel, Gone);
      }
      var r := Dispatch(e, k);
      alive := !r.Fatal();
      reply := Deliver(channel, r);
    }
  }
}
