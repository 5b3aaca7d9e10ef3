/**
 The container's operating system, as the satellite sees it through the
 `fileSystem` and `file` interfaces (cmd/satellite/server/filesystem.go).

 This is foreign code: each call is a function of the system state and of a
 `Choice`, which resolves everything the system is free to decide.  Theorems
 quantify over all choices.
 */
module Kernel {

  import opened Prelude
  import opened ErrorCodec
  import OpenFlags

  type Bytes = seq<byte>

  /** A file object returned by OpenFile; objects are numbered in the order they were created. */
  datatype FileObj = FileObj(fd: nat, ino: nat, appending: bool, cursor: nat, closeCalls: nat)

  /** Names, inode contents, and every file object ever created. */
  datatype Os = Os(names: map<string, nat>, disk: seq<Bytes>, files: seq<FileObj>) {
    ghost predicate Valid() {
      && (forall path :: path in names ==> names[path] < |disk|)
      && (forall i :: 0 <= i < |files| ==> files[i].ino < |disk|)
    }
  }

  /**
   What the system decides during one request: the errno of the call if it
   fails, the descriptor number of a new file, the errno of the fstat that
   follows an open, how many bytes were transferred before a failure, whether
   a full read that ends at the end of the file reports end-of-file as well,
   and where the whence modes other than start, current and end lead.
   */
  datatype Choice = Choice(
    err: Option<int>, fd: nat, statErr: Option<int>, partial: nat, earlyEof: bool, position: nat)

  const CLOSED := PathError(OpaquePayload("file already closed"))
  const NEGATIVE_OFFSET := PathError(OpaquePayload("negative offset"))
  const APPEND_MODE := Other("os: invalid use of WriteAt on file opened with O_APPEND")
  const EOF := Other(EOF_TEXT)

  function SysError(errno: int): GoError { PathError(ErrnoPayload(errno)) }

  // ---------- Contents ----------

  /** The bytes of c at positions [off, off + n) that exist. */
  function Window(c: Bytes, off: nat, n: nat): Bytes {
    c[Min(off, |c|)..Min(off + n, |c|)]
  }

  /** c with d written at off; a gap is filled with zeros, and writing nothing changes nothing. */
  function Splice(c: Bytes, off: nat, d: Bytes): Bytes {
    if d == [] then c
    else seq(Max(|c|, off + |d|), i requires 0 <= i => SplicedByte(c, off, d, i))
  }

  function SplicedByte(c: Bytes, off: nat, d: Bytes, i: nat): byte {
    if off <= i < off + |d| then d[i - off] else if i < |c| then c[i] else 0
  }

  /** c cut or zero-extended to n bytes. */
  function Resize(c: Bytes, n: nat): (r: Bytes)
    ensures |r| == n
  {
    if n <= |c| then c[..n] else c + seq(n - |c|, _ => 0)
  }

  // ---------- Calls ----------

  /** The inode open(2) reaches, with the names and contents after creation and truncation. */
  function Reach(names: map<string, nat>, disk: seq<Bytes>, path: string, want: set<nat>)
    : (r: (nat, map<string, nat>, seq<Bytes>))
    requires forall p :: p in names ==> names[p] < |disk|
    ensures r.0 < |r.2| && |disk| <= |r.2|
    ensures forall p :: p in r.1 ==> r.1[p] < |r.2|
  {
    var ino := if path in names then names[path] else |disk|;
    var grown := if path in names then disk else disk + [[]];
    (ino, names[path := ino], if OpenFlags.O_TRUNC in want then grown[ino := []] else grown)
  }

  /** The symbolic name of the errno with which open(2) refuses the flags, if it does. */
  function Refusal(names: map<string, nat>, path: string, want: set<nat>): (r: Option<string>)
    ensures r.Some? ==> r.value in {"ENOENT", "EEXIST"}
  {
    if path !in names then if OpenFlags.O_CREAT in want then None else Some("ENOENT")
    else if OpenFlags.O_CREAT in want && OpenFlags.O_EXCL in want then Some("EEXIST") else None
  }

  /** open(2) with the named flags. */
  function OpenFile(os: Os, t: Errnos, path: string, want: set<nat>, k: Choice): (r: (Os, Result<nat, GoError>))
    requires os.Valid() && "ENOENT" in t && "EEXIST" in t
    ensures r.0.Valid()
    ensures r.1.Err? ==> r.0 == os
    ensures r.1.Ok? ==> r.1.value == |os.files| && |r.0.files| == |os.files| + 1 && r.0.files[..|os.files|] == os.files
  {
    var refusal := Refusal(os.names, path, want);
    if k.err.Some? then (os, Err(SysError(k.err.value)))
    else if refusal.Some? then (os, Err(SysError(t[refusal.value])))
    else
      var (ino, names, disk) := Reach(os.names, os.disk, path, want);
      (Os(names, disk, os.files + [FileObj(k.fd, ino, OpenFlags.O_APPEND in want, 0, 0)]), Ok(|os.files|))
  }

  /** File.Close, which releases the descriptor whether or not it reports an error. */
  function CloseFile(os: Os, id: nat): (r: Os)
    requires os.Valid() && id < |os.files|
    ensures r.Valid()
  {
    var f := os.files[id];
    os.(files := os.files[id := f.(closeCalls := f.closeCalls + 1)])
  }

  function CloseError(os: Os, id: nat, k: Choice): Option<GoError>
    requires id < |os.files|
  {
    if os.files[id].closeCalls > 0 then Some(CLOSED)
    else if k.err.Some? then Some(SysError(k.err.value))
    else None
  }

  /** File.Stat, reduced to inode number and size. */
  function Fstat(os: Os, id: nat, k: Choice): Result<(nat, nat), GoError>
    requires os.Valid() && id < |os.files|
  {
    if os.files[id].closeCalls > 0 then Err(CLOSED)
    else if k.statErr.Some? then Err(SysError(k.statErr.value))
    else Ok((os.files[id].ino, |os.disk[os.files[id].ino]|))
  }

  /**
   File.ReadAt, a conforming io.ReaderAt: short data always comes with an
   error, end-of-file only at the end of the file.
   */
  function ReadAt(os: Os, id: nat, off: int, n: nat, k: Choice): (r: (Bytes, Option<GoError>))
    requires os.Valid() && id < |os.files|
    ensures |r.0| <= n
  {
    if off < 0 then ([], Some(NEGATIVE_OFFSET))
    else if os.files[id].closeCalls > 0 then ([], Some(CLOSED))
    else
      var c := os.disk[os.files[id].ino];
      var avail := Window(c, off, n);
      if k.err.Some? then (avail[..Min(k.partial, |avail|)], Some(SysError(k.err.value)))
      else if |avail| < n || (k.earlyEof && |c| <= off + n) then (avail, Some(EOF))
      else (avail, None)
  }

  /** File.WriteAt: the new state, the count, and the error, which is present whenever the write is short. */
  function WriteAt(os: Os, id: nat, off: int, data: Bytes, k: Choice): (r: (Os, nat, Option<GoError>))
    requires os.Valid() && id < |os.files|
    ensures r.0.Valid()
    ensures r.2.None? ==> r.1 == |data|
  {
    var f := os.files[id];
    if f.appending then (os, 0, Some(APPEND_MODE))
    else if off < 0 then (os, 0, Some(NEGATIVE_OFFSET))
    else if f.closeCalls > 0 then (os, 0, Some(CLOSED))
    else
      var n := if k.err.Some? then Min(k.partial, |data|) else |data|;
      (os.(disk := os.disk[f.ino := Splice(os.disk[f.ino], off, data[..n])]),
       n,
       if k.err.Some? then Some(SysError(k.err.value)) else None)
  }

  /** Where lseek(2) leads from a cursor in a file of a given size. */
  function SeekTarget(cursor: nat, size: nat, off: int, whence: int, k: Choice): int {
    if whence == 0 then off
    else if whence == 1 then cursor + off
    else if whence == 2 then size + off
    else k.position
  }

  function SeekFile(os: Os, id: nat, t: Errnos, off: int, whence: int, k: Choice): (r: (Os, Result<nat, GoError>))
    requires os.Valid() && id < |os.files| && "EINVAL" in t
    ensures r.0.Valid()
  {
    var f := os.files[id];
    if f.closeCalls > 0 then (os, Err(CLOSED))
    else if k.err.Some? then (os, Err(SysError(k.err.value)))
    else
      var target := SeekTarget(f.cursor, |os.disk[f.ino]|, off, whence, k);
      if target < 0 then (os, Err(SysError(t["EINVAL"])))
      else (os.(files := os.files[id := f.(cursor := target)]), Ok(target))
  }

  function SyncError(os: Os, id: nat, k: Choice): Option<GoError>
    requires id < |os.files|
  {
    CloseError(os, id, k)
  }

  /** truncate(2) on a path. */
  function TruncatePath(os: Os, t: Errnos, path: string, size: int, k: Choice): (r: (Os, Option<GoError>))
    requires os.Valid() && "EINVAL" in t && "ENOENT" in t
    ensures r.0.Valid()
  {
    if k.err.Some? then (os, Some(SysError(k.err.value)))
    else if size < 0 then (os, Some(SysError(t["EINVAL"])))
    else if path !in os.names then (os, Some(SysError(t["ENOENT"])))
    else
      var ino := os.names[path];
      (os.(disk := os.disk[ino := Resize(os.disk[ino], size)]), None)
  }
}
