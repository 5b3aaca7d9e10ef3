/**
 The attribute-change request: a record whose setters also mark their field in
 a bitmap, and whose getters consult the bitmap (pkg/rpccommon/rpc_types.go).
 */
module SetAttrRequests {

  import opened Prelude

  type uint32 = x: int | 0 <= x < 0x1_0000_0000
  type uint64 = x: int | 0 <= x < 0x1_0000_0000_0000_0000

  // Bit positions in the bitmap, which is represented by the set of its one-bits.
  const SATTR_ATIME: nat := 0
  const SATTR_GID: nat := 1
  const SATTR_MODE: nat := 2
  const SATTR_MTIME: nat := 3
  const SATTR_SIZE: nat := 4
  const SATTR_UID: nat := 5

  /** The request as a value; times are nanoseconds since the epoch. */
  datatype Attrs = Attrs(
    valid: set<nat>, atime: int, mtime: int, uid: uint32, gid: uint32, mode: uint32, size: uint64)
  {
    function GetMode(): Option<uint32> { if SATTR_MODE in valid then Some(mode) else None }
    function GetUID(): Option<uint32> { if SATTR_UID in valid then Some(uid) else None }
    function GetGID(): Option<uint32> { if SATTR_GID in valid then Some(gid) else None }
    function GetATime(): Option<int> { if SATTR_ATIME in valid then Some(atime) else None }
    function GetMTime(): Option<int> { if SATTR_MTIME in valid then Some(mtime) else None }
    function GetSize(): Option<uint64> { if SATTR_SIZE in valid then Some(size) else None }
  }

  const EMPTY := Attrs({}, 0, 0, 0, 0, 0, 0)

  datatype Setter =
    | SetMode(m: uint32) | SetUID(u: uint32) | SetGID(g: uint32)
    | SetATime(a: int) | SetMTime(t: int) | SetSize(s: uint64)

  function Apply(r: Attrs, setter: Setter): Attrs {
    match setter
    case SetMode(m) => r.(mode := m, valid := r.valid + {SATTR_MODE})
    case SetUID(u) => r.(uid := u, valid := r.valid + {SATTR_UID})
    case SetGID(g) => r.(gid := g, valid := r.valid + {SATTR_GID})
    case SetATime(a) => r.(atime := a, valid := r.valid + {SATTR_ATIME})
    case SetMTime(t) => r.(mtime := t, valid := r.valid + {SATTR_MTIME})
    case SetSize(s) => r.(size := s, valid := r.valid + {SATTR_SIZE})
  }

  function ApplyAll(r: Attrs, setters: seq<Setter>): Attrs
    decreases |setters|
  {
    if setters == [] then r else ApplyAll(Apply(r, setters[0]), setters[1..])
  }

  datatype Field = Mode | UID | GID | ATime | MTime | Size

  function Get(r: Attrs, field: Field): Option<int> {
    match field
    case Mode => r.GetMode()
    case UID => r.GetUID()
    case GID => r.GetGID()
    case ATime => r.GetATime()
    case MTime => r.GetMTime()
    case Size => r.GetSize()
  }

  /** The field a setter sets, and the value. */
  function Sets(setter: Setter): (Field, int) {
    match setter
    case SetMode(m) => (Mode, m)
    case SetUID(u) => (UID, u)
    case SetGID(g) => (GID, g)
    case SetATime(a) => (ATime, a)
    case SetMTime(t) => (MTime, t)
    case SetSize(s) => (Size, s)
  }

  /** The last value a sequence of setters gives a field. */
  function Last(setters: seq<Setter>, field: Field, otherwise: Option<int>): Option<int> {
    if setters == [] then otherwise
    else
      var last := setters[|setters| - 1];
      if Sets(last).0 == field then Some(Sets(last).1) else Last(setters[..|setters| - 1], field, otherwise)
  }

  lemma {:induction false} ApplySets(r: Attrs, setter: Setter, field: Field)
    ensures Get(Apply(r, setter), field) == if Sets(setter).0 == field then Some(Sets(setter).1) else Get(r, field)
  {
  }

  lemma {:induction false} ApplyAllLast(r: Attrs, setters: seq<Setter>)
    requires setters != []
    ensures ApplyAll(r, setters) == Apply(ApplyAll(r, setters[..|setters| - 1]), setters[|setters| - 1])
    decreases |setters|
  {
    if |setters| > 1 {
      ApplyAllLast(Apply(r, setters[0]), setters[1..]);
      assert setters[1..][..|setters| - 2] == setters[..|setters| - 1][1..];
    }
  }

  /**
   After any sequence of setters, in any interleaving, each getter returns the
   last value set for its own field, or what it returned before if there is none.
   */
  lemma {:induction false} SetterRun(r: Attrs, setters: seq<Setter>, field: Field)
    ensures Get(ApplyAll(r, setters), field) == Last(setters, field, Get(r, field))
    decreases |setters|
  {
    if setters != [] {
      ApplyAllLast(r, setters);
      SetterRun(r, setters[..|setters| - 1], field);
      ApplySets(ApplyAll(r, setters[..|setters| - 1]), setters[|setters| - 1], field);
    }
  }

  /** On an empty request a getter answers exactly when its field was set. */
  lemma {:induction false} SetterRunFromEmpty(setters: seq<Setter>, field: Field)
    ensures Get(ApplyAll(EMPTY, setters), field) == Last(setters, field, None)
    ensures Get(ApplyAll(EMPTY, setters), field).None? <==> forall i :: 0 <= i < |setters| ==> Sets(setters[i]).0 != field
  {
    SetterRun(EMPTY, setters, field);
    LastNone(setters, field);
  }

  lemma {:induction false} LastNone(setters: seq<Setter>, field: Field)
    ensures Last(setters, field, None).None? <==> forall i :: 0 <= i < |setters| ==> Sets(setters[i]).0 != field
    decreases |setters|
  {
    if setters != [] {
      LastNone(setters[..|setters| - 1], field);
    }
  }

  // ---------- The request object ----------

  class SetAttrRequest {
    var attrs: Attrs
    const fullPath: string

    constructor (fullPath: string)
      ensures attrs == EMPTY && this.fullPath == fullPath
    {
      this.fullPath := fullPath;
      this.attrs := EMPTY;
    }

    method SetMode(m: uint32)
      modifies this
      ensures attrs == Apply(old(attrs), Setter.SetMode(m))
      ensures forall f :: Get(attrs, f) == if f == Mode then Some(m) else Get(old(attrs), f)
    {
      attrs := attrs.(mode := m);
      attrs := attrs.(valid := attrs.valid + {SATTR_MODE});
    }

    method SetUID(u: uint32)
      modifies this
      ensures attrs == Apply(old(attrs), Setter.SetUID(u))
      ensures forall f :: Get(attrs, f) == if f == UID then Some(u) else Get(old(attrs), f)
    {
      attrs := attrs.(uid := u);
      attrs := attrs.(valid := attrs.valid + {SATTR_UID});
    }

    method SetGID(g: uint32)
      modifies this
      ensures attrs == Apply(old(attrs), Setter.SetGID(g))
      ensures forall f :: Get(attrs, f) == if f == GID then Some(g) else Get(old(attrs), f)
    {
      attrs := attrs.(gid := g);
      attrs := attrs.(valid := attrs.valid + {SATTR_GID});
    }

    method SetATime(a: int)
      modifies this
      ensures attrs == Apply(old(attrs), Setter.SetATime(a))
      ensures forall f :: Get(attrs, f) == if f == ATime then Some(a) else Get(old(attrs), f)
    {
      attrs := attrs.(atime := a);
      attrs := attrs.(valid := attrs.valid + {SATTR_ATIME});
    }

    method SetMTime(t: int)
      modifies this
      ensures attrs == Apply(old(attrs), Setter.SetMTime(t))
      ensures forall f :: Get(attrs, f) == if f == MTime then Some(t) else Get(old(attrs), f)
    {
      attrs := attrs.(mtime := t);
      attrs := attrs.(valid := attrs.valid + {SATTR_MTIME});
    }

    method SetSize(s: uint64)
      modifies this
      ensures attrs == Apply(old(attrs), Setter.SetSize(s))
      ensures forall f :: Get(attrs, f) == if f == Size then Some(s) else Get(old(attrs), f)
    {
      attrs := attrs.(size := s);
      attrs := attrs.(valid := attrs.valid + {SATTR_SIZE});
    }
  }

  /** What FUSE asks for: each attribute present or not. */
  datatype Wish = Wish(
    atime: Option<int>, mtime: Option<int>, uid: Option<uint32>, gid: Option<uint32>,
    mode: Option<uint32>, size: Option<uint64>)

  /** What a request asks for, as its getters tell. */
  function Wished(r: Attrs): Wish {
    Wish(r.GetATime(), r.GetMTime(), r.GetUID(), r.GetGID(), r.GetMode(), r.GetSize())
  }

  /** The first half of the client's setAttr: build the request by mutation. */
  method BuildRequest(fullPath: string, wish: Wish) returns (request: SetAttrRequest)
    ensures fresh(request) && request.fullPath == fullPath
    ensures Wished(request.attrs) == wish
  {
    request := new SetAttrRequest(fullPath);
    if wish.atime.Some? { request.SetATime(wish.atime.value); }
    if wish.mtime.Some? { request.SetMTime(wish.mtime.value); }
    if wish.uid.Some? { request.SetUID(wish.uid.value); }
    if wish.gid.Some? { request.SetGID(wish.gid.value); }
    if wish.mode.Some? { request.SetMode(wish.mode.value); }
    if wish.size.Some? { request.SetSize(wish.size.value); }
  }
}
