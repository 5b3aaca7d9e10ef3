/**
 The SetAttr pipeline: the satellite runs up to four system calls in a fixed
 order, stopping at the first failure (cmd/satellite/server/server.go), for a
 request the client built (cmd/dockerfuse/client/client.go).

 The system calls are field-local: each changes only the attributes it names.
 */
module SetAttrPipeline {

  import opened Prelude
  import opened ErrorCodec
  import opened Kernel
  import opened SetAttrRequests
  import Satellite

  // ---------- Times ----------

  const BILLION := 1_000_000_000

  /** Nanosecond value that tells utimensat(2) to leave a timestamp alone. */
  const UTIME_OMIT := 0x3FFF_FFFE

  datatype Timespec = Timespec(sec: int, nsec: int)

  const OMIT := Timespec(0, UTIME_OMIT)

  /** Division of Go, which truncates toward zero. */
  function Quo(a: int, b: int): int
    requires b > 0
  {
    if a >= 0 then a / b else -(-a / b)
  }

  function Rem(a: int, b: int): int
    requires b > 0
  {
    a - b * Quo(a, b)
  }

  /** syscall.NsecToTimespec */
  function NsecToTimespec(ns: int): Timespec {
    var sec, nsec := Quo(ns, BILLION), Rem(ns, BILLION);
    if nsec < 0 then Timespec(sec - 1, nsec + BILLION) else Timespec(sec, nsec)
  }

  /** Normalisation is exact, and never yields the value that means "leave alone". */
  lemma {:induction false} TimespecExact(ns: int)
    ensures var t := NsecToTimespec(ns);
            && t.sec * BILLION + t.nsec == ns
            && 0 <= t.nsec < BILLION < UTIME_OMIT
  {
    if ns < 0 {
      var q, r := -ns / BILLION, -ns % BILLION;
      assert -ns == BILLION * q + r && 0 <= r < BILLION;
      assert Quo(ns, BILLION) == -q && Rem(ns, BILLION) == -r;
    }
  }

  /** Distinct times stay distinct. */
  lemma {:induction false} TimespecInjective(a: int, b: int)
    requires NsecToTimespec(a) == NsecToTimespec(b)
    ensures a == b
  {
    TimespecExact(a);
    TimespecExact(b);
  }

  // ---------- System calls ----------

  datatype Inode = Inode(mode: nat, uid: uint32, gid: uint32, atime: Timespec, mtime: Timespec, content: Bytes)

  datatype SysCall =
    | Chmod(perm: uint32)
    | Chown(uid: int, gid: int)
    | Utimes(atime: Timespec, mtime: Timespec)
    | Truncate(size: int)

  /** The id that tells chown(2) to leave an owner alone. */
  const NO_ID: uint32 := 0xFFFF_FFFF

  /** chown(2) receives an id as an unsigned 32-bit number. */
  function Owner(asked: int, current: uint32): uint32 {
    var id := asked % 0x1_0000_0000;
    if id == NO_ID then current else id
  }

  function Bit(m: uint32, value: nat): bool
    requires value > 0
  {
    (m / value) % 2 == 1
  }

  /**
   The mode os.Chmod passes on for an os.FileMode: the nine permission bits,
   and the set-id and sticky bits from where FileMode keeps them, which is not
   where a Unix mode keeps them.
   */
  function PermissionBits(m: uint32): nat {
    m % 512
    + (if Bit(m, 0x80_0000) then 2048 else 0)
    + (if Bit(m, 0x40_0000) then 1024 else 0)
    + (if Bit(m, 0x10_0000) then 512 else 0)
  }

  function Stamp(asked: Timespec, current: Timespec): Timespec {
    if asked.nsec == UTIME_OMIT then current else asked
  }

  /** A completed call. */
  function Effect(i: Inode, call: SysCall): Inode {
    match call
    case Chmod(perm) => i.(mode := PermissionBits(perm))
    case Chown(uid, gid) => i.(uid := Owner(uid, i.uid), gid := Owner(gid, i.gid))
    case Utimes(atime, mtime) => i.(atime := Stamp(atime, i.atime), mtime := Stamp(mtime, i.mtime))
    case Truncate(size) => if size < 0 then i else i.(content := Resize(i.content, size))
  }

  function Effects(i: Inode, calls: seq<SysCall>): Inode
    decreases |calls|
  {
    if calls == [] then i else Effects(Effect(i, calls[0]), calls[1..])
  }

  /** Which calls the system refuses, and with which errno; the last is for the lstat at the end. */
  datatype Refusals = Refusals(
    chmod: Option<int>, chown: Option<int>, utimes: Option<int>, truncate: Option<int>, lstat: Option<int>)

  /** A negative size is refused whatever the system decides. */
  function Verdict(f: Refusals, t: Errnos, call: SysCall): Option<GoError>
    requires "EINVAL" in t
  {
    match call
    case Chmod(_) => Raised(f.chmod)
    case Chown(_, _) => Raised(f.chown)
    case Utimes(_, _) => if f.utimes.Some? then Some(SysErrno(f.utimes.value)) else None
    case Truncate(size) => if f.truncate.None? && size < 0 then Raised(Some(t["EINVAL"])) else Raised(f.truncate)
  }

  /** Package os wraps the errno; UtimesNano, from package syscall, does not. */
  function Raised(err: Option<int>): Option<GoError> {
    if err.Some? then Some(PathError(ErrnoPayload(err.value))) else None
  }

  // ---------- The plan ----------

  /** A 64-bit size read as a signed number. */
  function Int64(s: uint64): int {
    if s < 0x8000_0000_0000_0000 then s else s - 0x1_0000_0000_0000_0000
  }

  function IdOr(id: Option<uint32>): int { if id.Some? then id.value else -1 }

  function TimeOr(ns: Option<int>): Timespec { if ns.Some? then NsecToTimespec(ns.value) else OMIT }

  function ModePart(wish: Wish): seq<SysCall> {
    if wish.mode.Some? then [Chmod(wish.mode.value)] else []
  }

  function OwnerPart(wish: Wish): seq<SysCall> {
    if wish.uid.Some? || wish.gid.Some? then [Chown(IdOr(wish.uid), IdOr(wish.gid))] else []
  }

  function TimesPart(wish: Wish): seq<SysCall> {
    if wish.mtime.Some? || wish.atime.Some? then [Utimes(TimeOr(wish.atime), TimeOr(wish.mtime))] else []
  }

  function SizePart(wish: Wish): seq<SysCall> {
    if wish.size.Some? then [Truncate(Int64(wish.size.value))] else []
  }

  /** The calls a wish stands for, in order. */
  function Plan(wish: Wish): seq<SysCall> {
    ModePart(wish) + (OwnerPart(wish) + (TimesPart(wish) + SizePart(wish)))
  }

  /** The place of a call in the fixed order. */
  function Order(call: SysCall): nat {
    match call
    case Chmod(_) => 0
    case Chown(_, _) => 1
    case Utimes(_, _) => 2
    case Truncate(_) => 3
  }

  /** Calls in strictly ascending order, none placed before low. */
  ghost predicate Ascending(calls: seq<SysCall>, low: nat) {
    && (forall i :: 0 <= i < |calls| ==> low <= Order(calls[i]))
    && (forall i, j :: 0 <= i < j < |calls| ==> Order(calls[i]) < Order(calls[j]))
  }

  lemma {:induction false} AscendingJoins(part: seq<SysCall>, rest: seq<SysCall>, low: nat)
    requires |part| <= 1 && (part != [] ==> Order(part[0]) == low) && Ascending(rest, low + 1)
    ensures Ascending(part + rest, low)
  {
  }

  /** A plan holds each kind of call at most once, in the order chmod, chown, utimes, truncate. */
  lemma {:induction false} PlanInOrder(wish: Wish)
    ensures Ascending(Plan(wish), 0)
    ensures |Plan(wish)| == (if wish.mode.Some? then 1 else 0) + (if wish.uid.Some? || wish.gid.Some? then 1 else 0)
                            + (if wish.atime.Some? || wish.mtime.Some? then 1 else 0) + (if wish.size.Some? then 1 else 0)
  {
    var times := TimesPart(wish) + SizePart(wish);
    assert Ascending(times, 2) by { AscendingJoins(TimesPart(wish), SizePart(wish), 2); }
    assert Ascending(OwnerPart(wish) + times, 1) by { AscendingJoins(OwnerPart(wish), times, 1); }
    AscendingJoins(ModePart(wish), OwnerPart(wish) + times, 0);
    hide Ascending;
  }

  /** How many calls of a plan complete. */
  function Completed(plan: seq<SysCall>, f: Refusals, t: Errnos): (n: nat)
    requires "EINVAL" in t
    ensures n <= |plan|
    ensures n < |plan| ==> Verdict(f, t, plan[n]).Some?
    ensures forall i :: 0 <= i < n ==> Verdict(f, t, plan[i]).None?
  {
    if plan == [] || Verdict(f, t, plan[0]).Some? then 0 else 1 + Completed(plan[1..], f, t)
  }

  datatype StatReply = StatReply(mode: nat, uid: uint32, gid: uint32, atime: int, mtime: int, size: nat)

  function StatOf(i: Inode): StatReply {
    StatReply(i.mode, i.uid, i.gid, i.atime.sec, i.mtime.sec, |i.content|)
  }

  /** The reply holds the attributes of the file, its times in whole seconds. */
  ghost predicate Describes(reply: StatReply, i: Inode) {
    && reply.mode == i.mode && reply.uid == i.uid && reply.gid == i.gid
    && reply.atime == i.atime.sec && reply.mtime == i.mtime.sec && reply.size == |i.content|
  }

  // ---------- The handler ----------

  /** The file the requests are about: its attributes, and the calls made on it so far. */
  class Target {
    var inode: Inode
    var calls: seq<SysCall>

    constructor (inode: Inode)
      ensures this.inode == inode && calls == []
    {
      this.inode := inode;
      calls := [];
    }

    /** One system call: it is refused, or it has its effect. */
    method Call(call: SysCall, f: Refusals, t: Errnos) returns (err: Option<GoError>)
      requires "EINVAL" in t
      modifies this
      ensures calls == old(calls) + [call]
      ensures err == Verdict(f, t, call)
      ensures inode == if err.Some? then old(inode) else Effect(old(inode), call)
    {
      calls := calls + [call];
      err := Verdict(f, t, call);
      if err.None? {
        inode := Effect(inode, call);
      }
    }

    // SetAttr, paragraph by paragraph.

    method ApplyMode(request: Attrs, f: Refusals, t: Errnos) returns (err: Option<GoError>)
      requires "EINVAL" in t
      modifies this
      ensures Ran(old(inode), old(calls), inode, calls, ModePart(Wished(request)), f, t)
      ensures err == PlanError(ModePart(Wished(request)), f, t)
    {
      err := None;
      var m := request.GetMode();
      if m.Some? {
        err := Call(Chmod(m.value), f, t);
      }
    }

    method ApplyOwner(request: Attrs, f: Refusals, t: Errnos) returns (err: Option<GoError>)
      requires "EINVAL" in t
      modifies this
      ensures Ran(old(inode), old(calls), inode, calls, OwnerPart(Wished(request)), f, t)
      ensures err == PlanError(OwnerPart(Wished(request)), f, t)
    {
      err := None;
      var uid, gid := request.GetUID(), request.GetGID();
      if uid.Some? || gid.Some? {
        var suid: int, sgid: int := -1, -1;
        if uid.Some? { suid := uid.value; }
        if gid.Some? { sgid := gid.value; }
        err := Call(Chown(suid, sgid), f, t);
      }
    }

    method ApplyTimes(request: Attrs, f: Refusals, t: Errnos) returns (err: Option<GoError>)
      requires "EINVAL" in t
      modifies this
      ensures Ran(old(inode), old(calls), inode, calls, TimesPart(Wished(request)), f, t)
      ensures err == PlanError(TimesPart(Wished(request)), f, t)
    {
      err := None;
      var atime, mtime := request.GetATime(), request.GetMTime();
      if mtime.Some? || atime.Some? {
        var ts0, ts1 := OMIT, OMIT;
        if atime.Some? { ts0 := NsecToTimespec(atime.value); }
        if mtime.Some? { ts1 := NsecToTimespec(mtime.value); }
        err := Call(Utimes(ts0, ts1), f, t);
      }
    }

    method ApplySize(request: Attrs, f: Refusals, t: Errnos) returns (err: Option<GoError>)
      requires "EINVAL" in t
      modifies this
      ensures Ran(old(inode), old(calls), inode, calls, SizePart(Wished(request)), f, t)
      ensures err == PlanError(SizePart(Wished(request)), f, t)
    {
      err := None;
      var sz := request.GetSize();
      if sz.Some? {
        err := Call(Truncate(Int64(sz.value)), f, t);
      }
    }

    /**
     The satellite's SetAttr.  The calls made are the plan up to and including
     the first refused one, the attributes show exactly the completed ones, and
     the result is the first error or the final attributes.
     */
    method SetAttr(request: Attrs, f: Refusals, t: Errnos) returns (r: Result<StatReply, GoError>)
      requires "EINVAL" in t
      modifies this
      ensures Ran(old(inode), old(calls), inode, calls, Plan(Wished(request)), f, t)
      ensures var err := FirstError(Wished(request), f, t);
              if err.Some? then r == Err(err.value)
              else if f.lstat.Some? then r == Err(SysError(f.lstat.value))
              else r.Ok? && Describes(r.value, inode)
    {
      FirstErrorDecides(Wished(request), f, t);
      ghost var wish := Wished(request);
      ghost var i0, c0 := inode, calls;
      ghost var afterOwner := TimesPart(wish) + SizePart(wish);
      ghost var afterMode := OwnerPart(wish) + afterOwner;
      var err := ApplyMode(request, f, t);
      ghost var i1, c1 := inode, calls;
      if err.Some? { RanStops(i0, c0, i1, c1, ModePart(wish), afterMode, f, t); return Err(err.value); }
      err := ApplyOwner(request, f, t);
      ghost var i2, c2 := inode, calls;
      if err.Some? {
        RanStops(i1, c1, i2, c2, OwnerPart(wish), afterOwner, f, t);
        RanJoins(i0, c0, i1, c1, i2, c2, ModePart(wish), afterMode, f, t);
        return Err(err.value);
      }
      err := ApplyTimes(request, f, t);
      ghost var i3, c3 := inode, calls;
      if err.Some? {
        RanStops(i2, c2, i3, c3, TimesPart(wish), SizePart(Wished(request)), f, t);
        RanJoins(i1, c1, i2, c2, i3, c3, OwnerPart(wish), afterOwner, f, t);
        RanJoins(i0, c0, i1, c1, i3, c3, ModePart(wish), afterMode, f, t);
        return Err(err.value);
      }
      err := ApplySize(request, f, t);
      ghost var i4, c4 := inode, calls;
      RanJoins(i2, c2, i3, c3, i4, c4, TimesPart(wish), SizePart(Wished(request)), f, t);
      RanJoins(i1, c1, i2, c2, i4, c4, OwnerPart(wish), afterOwner, f, t);
      RanJoins(i0, c0, i1, c1, i4, c4, ModePart(wish), afterMode, f, t);
      if err.Some? { return Err(err.value); }
      err := Raised(f.lstat);
      if err.Some? { return Err(err.value); }
      r := Ok(StatOf(inode));
    }
  }

  /** The error of the first refused call of a plan. */
  function PlanError(plan: seq<SysCall>, f: Refusals, t: Errnos): Option<GoError>
    requires "EINVAL" in t
  {
    var n := Completed(plan, f, t);
    if n < |plan| then Verdict(f, t, plan[n]) else None
  }

  /** 2^63: from here on a size reads as negative. */
  const TOO_LARGE := 0x8000_0000_0000_0000

  /**
   The error of a SetAttr, from the wish: that of the first wished group, in the
   order mode, owner, times, size, which the system refuses; after these, EINVAL
   for a size that is too large.  Only the times' error comes without a path.
   */
  ghost function FirstError(wish: Wish, f: Refusals, t: Errnos): Option<GoError>
    requires "EINVAL" in t
  {
    if wish.mode.Some? && f.chmod.Some? then Some(PathError(ErrnoPayload(f.chmod.value)))
    else if (wish.uid.Some? || wish.gid.Some?) && f.chown.Some? then Some(PathError(ErrnoPayload(f.chown.value)))
    else if (wish.atime.Some? || wish.mtime.Some?) && f.utimes.Some? then Some(SysErrno(f.utimes.value))
    else if wish.size.Some? && f.truncate.Some? then Some(PathError(ErrnoPayload(f.truncate.value)))
    else if wish.size.Some? && wish.size.value >= TOO_LARGE then Some(PathError(ErrnoPayload(t["EINVAL"])))
    else None
  }

  lemma {:induction false} PlanErrorSplits(p: seq<SysCall>, q: seq<SysCall>, f: Refusals, t: Errnos)
    requires "EINVAL" in t
    ensures PlanError(p + q, f, t) == if PlanError(p, f, t).Some? then PlanError(p, f, t) else PlanError(q, f, t)
  {
    CompletedSplits(p, q, f, t);
  }

  lemma {:induction false} OneError(plan: seq<SysCall>, f: Refusals, t: Errnos)
    requires "EINVAL" in t && |plan| <= 1
    ensures PlanError(plan, f, t) == if plan == [] then None else Verdict(f, t, plan[0])
  {
  }

  lemma {:induction false} PartErrors(wish: Wish, f: Refusals, t: Errnos)
    requires "EINVAL" in t
    ensures PlanError(ModePart(wish), f, t) == if wish.mode.Some? then Raised(f.chmod) else None
    ensures PlanError(OwnerPart(wish), f, t) == if wish.uid.Some? || wish.gid.Some? then Raised(f.chown) else None
    ensures PlanError(TimesPart(wish), f, t)
            == if (wish.atime.Some? || wish.mtime.Some?) && f.utimes.Some? then Some(SysErrno(f.utimes.value)) else None
    ensures PlanError(SizePart(wish), f, t)
            == if wish.size.None? then None
               else if f.truncate.None? && wish.size.value >= TOO_LARGE then Raised(Some(t["EINVAL"]))
               else Raised(f.truncate)
  {
    hide PlanError;
    OneError(ModePart(wish), f, t);
    OneError(OwnerPart(wish), f, t);
    OneError(TimesPart(wish), f, t);
    OneError(SizePart(wish), f, t);
  }

  lemma {:induction false} FirstErrorDecides(wish: Wish, f: Refusals, t: Errnos)
    requires "EINVAL" in t
    ensures PlanError(Plan(wish), f, t) == FirstError(wish, f, t)
  {
    hide PlanError, ModePart, OwnerPart, TimesPart, SizePart;
    var times := TimesPart(wish) + SizePart(wish);
    PlanErrorSplits(TimesPart(wish), SizePart(wish), f, t);
    PlanErrorSplits(OwnerPart(wish), times, f, t);
    PlanErrorSplits(ModePart(wish), OwnerPart(wish) + times, f, t);
    PartErrors(wish, f, t);
  }

  /**
   A plan was run: the calls made are the plan up to and including the first
   refused one, and the attributes show exactly the completed ones.
   */
  ghost predicate Ran(i: Inode, log: seq<SysCall>, i': Inode, log': seq<SysCall>,
                      plan: seq<SysCall>, f: Refusals, t: Errnos)
    requires "EINVAL" in t
  {
    var n := Completed(plan, f, t);
    && i' == Effects(i, plan[..n])
    && log' == log + plan[..Min(n + 1, |plan|)]
  }

  lemma {:induction false} CompletedSplits(p: seq<SysCall>, q: seq<SysCall>, f: Refusals, t: Errnos)
    requires "EINVAL" in t
    ensures Completed(p + q, f, t)
            == if Completed(p, f, t) < |p| then Completed(p, f, t) else |p| + Completed(q, f, t)
    decreases |p|
  {
    if p == [] {
      assert p + q == q;
    } else {
      CompletedSplits(p[1..], q, f, t);
      assert (p + q)[1..] == p[1..] + q;
    }
  }

  lemma {:induction false} EffectsSplit(i: Inode, p: seq<SysCall>, q: seq<SysCall>)
    ensures Effects(i, p + q) == Effects(Effects(i, p), q)
    decreases |p|
  {
    if p == [] {
      assert p + q == q;
    } else {
      EffectsSplit(Effect(i, p[0]), p[1..], q);
      assert (p + q)[1..] == p[1..] + q;
    }
  }

  /** Stopping early in a part stops the whole plan there. */
  lemma {:induction false} RanStops(i: Inode, log: seq<SysCall>, i': Inode, log': seq<SysCall>,
                 p: seq<SysCall>, q: seq<SysCall>, f: Refusals, t: Errnos)
    requires "EINVAL" in t && Ran(i, log, i', log', p, f, t) && PlanError(p, f, t).Some?
    ensures Ran(i, log, i', log', p + q, f, t)
    ensures PlanError(p + q, f, t) == PlanError(p, f, t)
  {
    CompletedSplits(p, q, f, t);
    var n := Completed(p, f, t);
    assert (p + q)[..n] == p[..n] && (p + q)[..n + 1] == p[..n + 1];
  }

  /** A completed part followed by a run of the rest is a run of both. */
  lemma {:induction false} RanJoins(i: Inode, log: seq<SysCall>, i1: Inode, log1: seq<SysCall>, i2: Inode, log2: seq<SysCall>,
                 p: seq<SysCall>, q: seq<SysCall>, f: Refusals, t: Errnos)
    requires "EINVAL" in t && PlanError(p, f, t).None?
    requires Ran(i, log, i1, log1, p, f, t) && Ran(i1, log1, i2, log2, q, f, t)
    ensures Ran(i, log, i2, log2, p + q, f, t)
    ensures PlanError(p + q, f, t) == PlanError(q, f, t)
  {
    hide Completed, Effects;
    CompletedSplits(p, q, f, t);
    var n := Completed(q, f, t);
    assert i2 == Effects(i, (p + q)[..|p| + n]) by {
      TakeJoins(p, q, n);
      assert p[..|p|] == p;
      EffectsSplit(i, p, q[..n]);
    }
    LogsJoin(log, p, q, Min(n + 1, |q|));
  }

  lemma {:induction false} LogsJoin(log: seq<SysCall>, p: seq<SysCall>, q: seq<SysCall>, n: nat)
    requires n <= |q|
    ensures log + p[..|p|] + q[..n] == log + (p + q)[..|p| + n]
  {
    TakeJoins(p, q, n);
    assert p[..|p|] == p;
  }

  lemma {:induction false} TakeJoins(p: seq<SysCall>, q: seq<SysCall>, n: nat)
    requires n <= |q|
    ensures (p + q)[..|p| + n] == p + q[..n]
  {
  }

  // ---------- The size alone ----------

  /** A wish for a size and nothing else. */
  function SizeOnly(size: uint64): Wish {
    Wish(None, None, None, None, None, Some(size))
  }

  /** What truncate(2) on a path is refused with, apart from a negative size. */
  function PathRefusal(h: Satellite.Host, w: Satellite.World, path: string, size: int, k: Choice): Option<int>
    requires h.Valid()
  {
    if k.err.None? && 0 <= size && path !in w.os.names then Some(h.errnos["ENOENT"]) else k.err
  }

  /**
   The pipeline for a wish of the size alone is the Truncate of the runs over
   open handles: one call, with the size read as a signed number, the same new
   contents, no other attribute changed, and the same error.
   */
  lemma {:induction false} SizeOnlyIsTruncate(h: Satellite.Host, w: Satellite.World, path: string, size: uint64, k: Choice,
                                              i: Inode, log: seq<SysCall>, i': Inode, log': seq<SysCall>, f: Refusals)
    requires h.Valid() && w.Valid()
    requires f.truncate == PathRefusal(h, w, path, Int64(size), k) && f.lstat == k.statErr
    requires path in w.os.names ==> i.content == w.os.disk[w.os.names[path]]
    requires Ran(i, log, i', log', Plan(SizeOnly(size)), f, h.errnos)
    ensures var (w', reply) := Satellite.OnTruncate(h, w, path, Int64(size), k);
            var err := PlanError(Plan(SizeOnly(size)), f, h.errnos);
            && log' == log + [Truncate(Int64(size))]
            && i' == i.(content := i'.content)
            && w' == (if path in w.os.names then w.(os := w.os.(disk := w.os.disk[w.os.names[path] := i'.content])) else w)
            && reply == (if err.Some? then Satellite.Errored(err.value)
                         else if f.lstat.Some? then Satellite.Errored(SysError(f.lstat.value))
                         else Satellite.Done)
  {
    hide Plan, PlanError, Ran;
    SizeOnlyRuns(size, i, log, i', log', f, h.errnos);
  }

  lemma {:induction false} SizeOnlyRuns(size: uint64, i: Inode, log: seq<SysCall>, i': Inode, log': seq<SysCall>,
                                        f: Refusals, t: Errnos)
    requires "EINVAL" in t && Ran(i, log, i', log', Plan(SizeOnly(size)), f, t)
    ensures var call := Truncate(Int64(size));
            var err := Verdict(f, t, call);
            && PlanError(Plan(SizeOnly(size)), f, t) == err
            && log' == log + [call]
            && i' == if err.Some? then i else Effect(i, call)
  {
    var call := Truncate(Int64(size));
    assert Plan(SizeOnly(size)) == [call];
    assert Completed([call], f, t) == if Verdict(f, t, call).Some? then 0 else 1;
    assert [call][..1] == [call] && Effects(i, [call]) == Effect(i, call);
  }

  // ---------- End to end ----------

  /** The client's setAttr: build the request, have it carried out, parse the error. */
  method SetAttr(c: Channel, fullPath: string, wish: Wish, target: Target, f: Refusals) returns (r: Result<StatReply, int>)
    requires c.Valid()
    modifies target
    ensures Ran(old(target.inode), old(target.calls), target.inode, target.calls, Plan(wish), f, c.satellite)
    ensures var err := FirstError(wish, f, c.satellite);
            if err.Some? then r == Err(Expected(c, err.value))
            else if f.lstat.Some? then r == Err(Portable(c, f.lstat.value))
            else r.Ok? && Describes(r.value, target.inode)
    ensures r.Err? ==> r.error > 0
  {
    var request := BuildRequest(fullPath, wish);
    var reply := target.SetAttr(request.attrs, f, c.satellite);
    if reply.Err? {
      ErrorRoundTrip(c, reply.error);
      var encoded := ErrnoToRPCErrorString(c, reply.error);
      return Err(RPCErrorStringToErrno(c, encoded.text));
    }
    r := Ok(reply.value);
  }

  /** What the caller expects: each wished attribute replaced, every other one left alone. */
  function Override(i: Inode, wish: Wish): Inode {
    Inode(if wish.mode.Some? then wish.mode.value else i.mode,
          if wish.uid.Some? then wish.uid.value else i.uid,
          if wish.gid.Some? then wish.gid.value else i.gid,
          if wish.atime.Some? then NsecToTimespec(wish.atime.value) else i.atime,
          if wish.mtime.Some? then NsecToTimespec(wish.mtime.value) else i.mtime,
          if wish.size.Some? then Resize(i.content, wish.size.value) else i.content)
  }

  lemma {:induction false} PartEffects(i: Inode, wish: Wish)
    requires wish.size.Some? ==> Int64(wish.size.value) >= 0
    ensures Effects(i, ModePart(wish)) == i.(mode := if wish.mode.Some? then PermissionBits(wish.mode.value) else i.mode)
    ensures Effects(i, OwnerPart(wish)) == i.(uid := Owner(IdOr(wish.uid), i.uid), gid := Owner(IdOr(wish.gid), i.gid))
    ensures Effects(i, TimesPart(wish)) == i.(atime := Override(i, wish).atime, mtime := Override(i, wish).mtime)
    ensures Effects(i, SizePart(wish)) == i.(content := Override(i, wish).content)
  {
    if wish.atime.Some? { TimespecExact(wish.atime.value); }
    if wish.mtime.Some? { TimespecExact(wish.mtime.value); }
  }

  /** A complete run, attribute by attribute. */
  lemma {:induction false} FullRun(i: Inode, wish: Wish)
    requires wish.size.Some? ==> Int64(wish.size.value) >= 0
    ensures Effects(i, Plan(wish))
            == Override(i, wish).(
                 mode := if wish.mode.Some? then PermissionBits(wish.mode.value) else i.mode,
                 uid := Owner(IdOr(wish.uid), i.uid),
                 gid := Owner(IdOr(wish.gid), i.gid))
  {
    var times := TimesPart(wish) + SizePart(wish);
    EffectsSplit(i, ModePart(wish), OwnerPart(wish) + times);
    PartEffects(i, wish);
    var i1 := Effects(i, ModePart(wish));
    EffectsSplit(i1, OwnerPart(wish), times);
    PartEffects(i1, wish);
    var i2 := Effects(i1, OwnerPart(wish));
    EffectsSplit(i2, TimesPart(wish), SizePart(wish));
    PartEffects(i2, wish);
    PartEffects(Effects(i2, TimesPart(wish)), wish);
  }

  /** What the completed calls of a plan leave. */
  function Left(i: Inode, plan: seq<SysCall>, f: Refusals, t: Errnos): Inode
    requires "EINVAL" in t
  {
    Effects(i, plan[..Completed(plan, f, t)])
  }

  lemma {:induction false} RanLeaves(i: Inode, log: seq<SysCall>, i': Inode, log': seq<SysCall>,
                                     plan: seq<SysCall>, f: Refusals, t: Errnos)
    requires "EINVAL" in t && Ran(i, log, i', log', plan, f, t)
    ensures i' == Left(i, plan, f, t)
  {
  }

  lemma {:induction false} LeftSplits(i: Inode, p: seq<SysCall>, q: seq<SysCall>, f: Refusals, t: Errnos)
    requires "EINVAL" in t
    ensures Left(i, p + q, f, t) == if PlanError(p, f, t).Some? then Left(i, p, f, t) else Left(Left(i, p, f, t), q, f, t)
  {
    hide Completed, Effects;
    CompletedSplits(p, q, f, t);
    var n := Completed(p, f, t);
    if n < |p| {
      assert (p + q)[..n] == p[..n];
    } else {
      var m := Completed(q, f, t);
      TakeJoins(p, q, m);
      assert p[..|p|] == p;
      EffectsSplit(i, p, q[..m]);
    }
  }

  lemma {:induction false} OneLeft(i: Inode, plan: seq<SysCall>, f: Refusals, t: Errnos)
    requires "EINVAL" in t && |plan| <= 1
    ensures Left(i, plan, f, t) == if plan == [] || Verdict(f, t, plan[0]).Some? then i else Effect(i, plan[0])
  {
    if plan != [] && Verdict(f, t, plan[0]).None? {
      assert plan[..1] == plan && Effects(i, plan) == Effect(i, plan[0]);
    }
  }

  lemma {:induction false} PartsLeft(i: Inode, wish: Wish, f: Refusals, t: Errnos)
    requires "EINVAL" in t
    ensures Left(i, ModePart(wish), f, t)
            == i.(mode := if wish.mode.Some? && f.chmod.None? then PermissionBits(wish.mode.value) else i.mode)
    ensures Left(i, OwnerPart(wish), f, t)
            == i.(uid := NewOwner(wish.uid, f.chown, i.uid), gid := NewOwner(wish.gid, f.chown, i.gid))
    ensures Left(i, TimesPart(wish), f, t)
            == i.(atime := NewTime(wish.atime, f.utimes, i.atime), mtime := NewTime(wish.mtime, f.utimes, i.mtime))
    ensures Left(i, SizePart(wish), f, t)
            == i.(content := if wish.size.Some? && f.truncate.None? && wish.size.value < TOO_LARGE
                             then Resize(i.content, wish.size.value) else i.content)
  {
    hide Left;
    OneLeft(i, ModePart(wish), f, t);
    OneLeft(i, OwnerPart(wish), f, t);
    OneLeft(i, TimesPart(wish), f, t);
    OneLeft(i, SizePart(wish), f, t);
    if wish.atime.Some? { TimespecExact(wish.atime.value); }
    if wish.mtime.Some? { TimespecExact(wish.mtime.value); }
  }

  function NewOwner(id: Option<uint32>, refused: Option<int>, current: uint32): uint32 {
    if id.Some? && refused.None? && id.value != NO_ID then id.value else current
  }

  function NewTime(ns: Option<int>, refused: Option<int>, current: Timespec): Timespec {
    if ns.Some? && refused.None? then NsecToTimespec(ns.value) else current
  }

  /**
   A run that may be cut short, attribute by attribute: each group changes
   exactly when it is wished for and neither it nor an earlier wished group is
   refused.
   */
  lemma {:induction false} AttributesLeft(i: Inode, log: seq<SysCall>, i': Inode, log': seq<SysCall>, wish: Wish, f: Refusals, t: Errnos)
    requires "EINVAL" in t && Ran(i, log, i', log', Plan(wish), f, t)
    ensures var owner := wish.mode.None? || f.chmod.None?;
            var times := owner && ((wish.uid.None? && wish.gid.None?) || f.chown.None?);
            var size := times && ((wish.atime.None? && wish.mtime.None?) || f.utimes.None?);
            && i'.mode == (if wish.mode.Some? && f.chmod.None? then PermissionBits(wish.mode.value) else i.mode)
            && i'.uid == (if owner then NewOwner(wish.uid, f.chown, i.uid) else i.uid)
            && i'.gid == (if owner then NewOwner(wish.gid, f.chown, i.gid) else i.gid)
            && i'.atime == (if times then NewTime(wish.atime, f.utimes, i.atime) else i.atime)
            && i'.mtime == (if times then NewTime(wish.mtime, f.utimes, i.mtime) else i.mtime)
            && i'.content == (if size && wish.size.Some? && f.truncate.None? && wish.size.value < TOO_LARGE
                              then Resize(i.content, wish.size.value) else i.content)
  {
    hide Left, Ran;
    var times := TimesPart(wish) + SizePart(wish);
    RanLeaves(i, log, i', log', Plan(wish), f, t);
    LeftSplits(i, ModePart(wish), OwnerPart(wish) + times, f, t);
    PartsLeft(i, wish, f, t);
    var i1 := Left(i, ModePart(wish), f, t);
    LeftSplits(i1, OwnerPart(wish), times, f, t);
    PartsLeft(i1, wish, f, t);
    var i2 := Left(i1, OwnerPart(wish), f, t);
    LeftSplits(i2, TimesPart(wish), SizePart(wish), f, t);
    PartsLeft(i2, wish, f, t);
    PartsLeft(Left(i2, TimesPart(wish), f, t), wish, f, t);
  }

  /**
   A run in which no call is refused overrides exactly the wished attributes if
   and only if the wish stays within what the calls can express: nothing beyond
   the nine permission bits in the mode (the rest is dropped or moved), and no
   owner that means "leave alone", unless the file already has it.
   */
  lemma {:induction false} OverrideExact(i: Inode, wish: Wish, f: Refusals, t: Errnos)
    requires "EINVAL" in t && Completed(Plan(wish), f, t) == |Plan(wish)|
    ensures Effects(i, Plan(wish)) == Override(i, wish) <==>
            && (wish.mode.Some? ==> wish.mode.value < 512)
            && (wish.uid == Some(NO_ID) ==> i.uid == NO_ID)
            && (wish.gid == Some(NO_ID) ==> i.gid == NO_ID)
  {
    SizeAccepted(wish, f, t);
    FullRun(i, wish);
    if wish.mode.Some? { PermissionBitsExact(wish.mode.value); }
  }

  /**
   What chmod makes of a requested mode: the low nine bits survive, and set-uid,
   set-gid and sticky come from bits 23, 22 and 20.  Of a Unix mode, whose own
   such bits are 11, 10 and 9, only the low nine are left.
   */
  lemma {:induction false} PermissionBitsMeaning(m: uint32)
    ensures var p := PermissionBits(m);
            && p < 4096 && p % 512 == m % 512
            && (p / 2048 % 2 == 1 <==> m / 0x80_0000 % 2 == 1)
            && (p / 1024 % 2 == 1 <==> m / 0x40_0000 % 2 == 1)
            && (p / 512 % 2 == 1 <==> m / 0x10_0000 % 2 == 1)
            && (m < 4096 ==> p == m % 512)
  {
    if m < 4096 {
      assert m / 0x80_0000 == 0 && m / 0x40_0000 == 0 && m / 0x10_0000 == 0;
    }
  }

  lemma {:induction false} PermissionBitsExact(m: uint32)
    ensures PermissionBits(m) == m <==> m < 512
  {
    if m < 512 {
      assert m / 0x80_0000 == 0 && m / 0x40_0000 == 0 && m / 0x10_0000 == 0;
    } else if m < 4096 {
      assert m / 0x80_0000 == 0 && m / 0x40_0000 == 0 && m / 0x10_0000 == 0;
    }
  }

  /** A size of 2^63 or more reads as negative and is always refused. */
  lemma {:induction false} SizeAccepted(wish: Wish, f: Refusals, t: Errnos)
    requires "EINVAL" in t && Completed(Plan(wish), f, t) == |Plan(wish)|
    ensures wish.size.Some? ==> 0 <= Int64(wish.size.value) == wish.size.value
  {
    if wish.size.Some? {
      var plan := Plan(wish);
      assert plan[|plan| - 1] == Truncate(Int64(wish.size.value));
    }
  }
}
