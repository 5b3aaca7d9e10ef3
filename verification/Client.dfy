/**
 The client half of the file operations (cmd/dockerfuse/client/client.go): each
 builds a request, calls the satellite, and turns what net/rpc delivers into
 data or an errno of the client's platform.
 */
module Client {

  import opened ErrorCodec
  import opened Kernel
  import Satellite
  import OpenFlags

  /** The client's platform, the satellite's platform, and the error channel between them. */
  datatype Deployment = Deployment(masks: OpenFlags.Masks, host: Satellite.Host, channel: Channel) {
    ghost predicate Valid() {
      && host.Valid() && host.masks.Valid() && masks.Valid()
      && channel.Valid() && channel.satellite == host.errnos
    }
  }

  datatype Op =
    | Open(path: string, flags: OpenFlags.Word)
    | Close(fh: nat)
    | Read(fh: nat, off: int, n: int)
    | Seek(fh: nat, off: int, whence: int)
    | Write(fh: nat, off: int, data: Bytes)
    | Fsync(fh: nat)
    | Truncate(path: string, size: int)
  {
    predicate OnHandle() { Close? || Read? || Seek? || Write? || Fsync? }
  }

  /** What the caller gets. */
  datatype Outcome =
    | Handle(fh: nat, ino: nat, size: nat)
    | Bytes(data: Bytes)
    | Offset(pos: nat)
    | Count(n: nat)
    | Success
    | Errno(errno: int)

  function Request(d: Deployment, op: Op): Satellite.Event {
    match op
    case Open(path, flags) => Satellite.Open(path, OpenFlags.Names(d.masks, flags))
    case Close(fh) => Satellite.Close(fh)
    case Read(fh, off, n) => Satellite.Read(fh, off, n)
    case Seek(fh, off, whence) => Satellite.Seek(fh, off, whence)
    case Write(fh, off, data) => Satellite.Write(fh, off, data)
    case Fsync(fh) => Satellite.Fsync(fh)
    case Truncate(path, size) => Satellite.Truncate(path, size)
  }

  function Convert(reply: Satellite.Reply): Outcome {
    match reply
    case Opened(fd, ino, size) => Handle(fd, ino, size)
    case Data(data) => Bytes(data)
    case Position(pos) => Offset(pos)
    case Written(n) => Count(n)
    case _ => Success
  }

  /**
   How the client reads a delivery.  It does not ask where an error text comes
   from, and only read() gives the end-of-file text a meaning.
   */
  function Receive(c: Channel, op: Op, delivery: Satellite.Delivery): Outcome
    requires c.Valid()
  {
    if delivery.Answer? then Convert(delivery.reply)
    else if op.Read? && delivery.text == EOF_TEXT then Bytes([])
    else Errno(RPCErrorStringToErrno(c, delivery.text))
  }

  /** One client operation, from the call to its return. */
  function Perform(d: Deployment, w: Satellite.World, op: Op, k: Choice): (r: (Satellite.World, Outcome))
    requires d.Valid() && w.Valid()
    ensures r.0.Valid()
  {
    var (w', reply) := Satellite.Step(d.host, w, Request(d, op), k);
    (w', Receive(d.channel, op, Satellite.Deliver(d.channel, reply)))
  }

  /** Every client operation keeps the satellite's ownership invariant. */
  lemma {:induction false} PerformOwned(d: Deployment, w: Satellite.World, op: Op, k: Choice)
    requires d.Valid() && Satellite.Owned(w)
    ensures Satellite.Owned(Perform(d, w, op, k).0)
  {
    hide Satellite.Step;
    Satellite.StepOwned(d.host, w, Request(d, op), k);
  }

  /** An error of the satellite's system reaches the caller as its portable errno. */
  lemma {:induction false} ErrorArrives(c: Channel, op: Op, err: GoError)
    requires c.Valid()
    requires err.SysErrno? || err.Other? || err.payload.ErrnoPayload?
    ensures Receive(c, op, Satellite.Deliver(c, Satellite.Errored(err)))
            == if op.Read? && err == EOF then Bytes([]) else Errno(Expected(c, err))
  {
    ErrorRoundTrip(c, err);
  }

  /** A dead handle: the caller sees its own platform's EINVAL. */
  lemma {:induction false} BadHandleIsEinval(d: Deployment, op: Op)
    requires d.Valid()
    ensures Receive(d.channel, op, Satellite.Deliver(d.channel, Satellite.BadHandle(d.host)))
            == Errno(d.channel.client["EINVAL"])
  {
    ErrorArrives(d.channel, op, SysErrno(d.host.errnos["EINVAL"]));
    PortableByName(d.channel, "EINVAL");
  }

  /** A lost satellite: every operation, a read included, ends with the caller's EIO. */
  lemma {:induction false} LostIsEio(c: Channel, op: Op, delivery: Satellite.Delivery)
    requires c.Valid() && delivery.Lost?
    requires delivery.text == Satellite.UNEXPECTED_EOF || delivery.text == Satellite.SHUTDOWN
    ensures Receive(c, op, delivery) == Errno(c.client["EIO"])
  {
    assert Satellite.UNEXPECTED_EOF[0] == 'u' && Satellite.SHUTDOWN[0] == 'c';
    assert ERRNO_PREFIX[0] == 'e' && EOF_TEXT[0] == 'E';
  }

  /** An operation is a request served, and its delivery read. */
  lemma {:induction false} Performed(d: Deployment, w: Satellite.World, op: Op, k: Choice,
                                     w': Satellite.World, delivery: Satellite.Delivery)
    requires d.Valid() && w.Valid()
    requires w' == Satellite.Step(d.host, w, Request(d, op), k).0
    requires delivery == Satellite.Deliver(d.channel, Satellite.Step(d.host, w, Request(d, op), k).1)
    ensures Perform(d, w, op, k) == (w', Receive(d.channel, op, delivery))
  {
    hide Satellite.Step, Satellite.Deliver, Receive;
  }

  class DockerFuseClient {
    const masks: OpenFlags.Masks
    const satellite: Satellite.DockerFuseFSOps

    ghost function Deployed(): Deployment {
      Deployment(masks, satellite.host, satellite.channel)
    }

    ghost predicate Valid()
      reads this, satellite
    {
      masks.Valid() && satellite.Valid()
    }

    constructor (masks: OpenFlags.Masks, satellite: Satellite.DockerFuseFSOps)
      requires masks.Valid() && satellite.Valid()
      ensures Valid() && this.masks == masks && this.satellite == satellite
    {
      this.masks, this.satellite := masks, satellite;
    }

    method Open(path: string, flags: OpenFlags.Word, k: Choice) returns (r: Outcome)
      requires Valid()
      modifies satellite
      ensures Valid()
      ensures (satellite.View(), r) == Perform(Deployed(), old(satellite.View()), Op.Open(path, flags), k)
    {
      var wire := OpenFlags.SystemToSAFlags(masks, flags);
      var delivery := satellite.Serve(Satellite.Open(path, wire), k);
      Performed(Deployed(), old(satellite.View()), Op.Open(path, flags), k, satellite.View(), delivery);
      if !delivery.Answer? {
        return Errno(RPCErrorStringToErrno(satellite.channel, delivery.text));
      }
      r := Convert(delivery.reply);
    }

    method Close(fh: nat, k: Choice) returns (r: Outcome)
      requires Valid()
      modifies satellite
      ensures Valid()
      ensures (satellite.View(), r) == Perform(Deployed(), old(satellite.View()), Op.Close(fh), k)
    {
      var delivery := satellite.Serve(Satellite.Close(fh), k);
      Performed(Deployed(), old(satellite.View()), Op.Close(fh), k, satellite.View(), delivery);
      if !delivery.Answer? {
        return Errno(RPCErrorStringToErrno(satellite.channel, delivery.text));
      }
      r := Convert(delivery.reply);
    }

    method Read(fh: nat, off: int, n: int, k: Choice) returns (r: Outcome)
      requires Valid()
      modifies satellite
      ensures Valid()
      ensures (satellite.View(), r) == Perform(Deployed(), old(satellite.View()), Op.Read(fh, off, n), k)
    {
      var delivery := satellite.Serve(Satellite.Read(fh, off, n), k);
      Performed(Deployed(), old(satellite.View()), Op.Read(fh, off, n), k, satellite.View(), delivery);
      if !delivery.Answer? {
        if delivery.text == EOF_TEXT {
          return Bytes([]);
        }
        return Errno(RPCErrorStringToErrno(satellite.channel, delivery.text));
      }
      r := Convert(delivery.reply);
    }

    method Seek(fh: nat, off: int, whence: int, k: Choice) returns (r: Outcome)
      requires Valid()
      modifies satellite
      ensures Valid()
      ensures (satellite.View(), r) == Perform(Deployed(), old(satellite.View()), Op.Seek(fh, off, whence), k)
    {
      var delivery := satellite.Serve(Satellite.Seek(fh, off, whence), k);
      Performed(Deployed(), old(satellite.View()), Op.Seek(fh, off, whence), k, satellite.View(), delivery);
      if !delivery.Answer? {
        return Errno(RPCErrorStringToErrno(satellite.channel, delivery.text));
      }
      r := Convert(delivery.reply);
    }

    method Write(fh: nat, off: int, data: Bytes, k: Choice) returns (r: Outcome)
      requires Valid()
      modifies satellite
      ensures Valid()
      ensures (satellite.View(), r) == Perform(Deployed(), old(satellite.View()), Op.Write(fh, off, data), k)
    {
      var delivery := satellite.Serve(Satellite.Write(fh, off, data), k);
      Performed(Deployed(), old(satellite.View()), Op.Write(fh, off, data), k, satellite.View(), delivery);
      if !delivery.Answer? {
        return Errno(RPCErrorStringToErrno(satellite.channel, delivery.text));
      }
      r := Convert(delivery.reply);
    }

    method Fsync(fh: nat, k: Choice) returns (r: Outcome)
      requires Valid()
      modifies satellite
      ensures Valid()
      ensures (satellite.View(), r) == Perform(Deployed(), old(satellite.View()), Op.Fsync(fh), k)
    {
      var delivery := satellite.Serve(Satellite.Fsync(fh), k);
      Performed(Deployed(), old(satellite.View()), Op.Fsync(fh), k, satellite.View(), delivery);
      if !delivery.Answer? {
        return Errno(RPCErrorStringToErrno(satellite.channel, delivery.text));
      }
      r := Convert(delivery.reply);
    }

    /** setAttr with a size and nothing else. */
    method Truncate(path: string, size: int, k: Choice) returns (r: Outcome)
      requires Valid()
      modifies satellite
      ensures Valid()
      ensures (satellite.View(), r) == Perform(Deployed(), old(satellite.View()), Op.Truncate(path, size), k)
    {
      var delivery := satellite.Serve(Satellite.Truncate(path, size), k);
      Performed(Deployed(), old(satellite.View()), Op.Truncate(path, size), k, satellite.View(), delivery);
      if !delivery.Answer? {
        return Errno(RPCErrorStringToErrno(satellite.channel, delivery.text));
      }
      r := Convert(delivery.reply);
    }
  }
}
