/**
 Directory listing: the satellite's loop over directory entries
 (cmd/satellite/server/server.go) composed with the client's filter
 (cmd/dockerfuse/client/client.go).
 */
module ReadDir {

  import opened Prelude
  import opened ErrorCodec

  /** What Info() says about an entry: its inode, that it is gone, or some other failure. */
  datatype Info = Known(ino: nat, mode: nat) | Gone | Broken

  /** An entry as os.ReadDir returned it. */
  datatype Dirent = Dirent(name: string, info: Info)

  /** An entry as it travels to the client and on to FUSE. */
  datatype DirEntry = DirEntry(mode: nat, name: string, ino: nat)

  /** What is sent about an entry that still exists. */
  function EntryOf(f: Dirent): DirEntry
    requires f.info.Known?
  {
    DirEntry(f.info.mode, f.name, f.info.ino)
  }

  /** The entries that still exist, as the satellite lists them. */
  function Existing(files: seq<Dirent>): seq<DirEntry> {
    if files == [] then []
    else
      var f := files[|files| - 1];
      Existing(files[..|files| - 1]) + if f.info.Known? then [EntryOf(f)] else []
  }

  /** The entries the client keeps. */
  function Kept(entries: seq<DirEntry>): seq<DirEntry> {
    if entries == [] then []
    else
      var e := entries[|entries| - 1];
      Kept(entries[..|entries| - 1]) + if e.ino > 2 then [e] else []
  }

  /** The satellite's half; `listing` is what os.ReadDir returned. */
  method ReadDirSatellite(t: Errnos, listing: Result<seq<Dirent>, int>) returns (r: Result<seq<DirEntry>, GoError>)
    requires "EIO" in t
    ensures listing.Err? ==> r == Err(PathError(ErrnoPayload(listing.error)))
    ensures listing.Ok? && (exists f :: f in listing.value && f.info.Broken?) ==> r == Err(SysErrno(t["EIO"]))
    ensures listing.Ok? && (forall f :: f in listing.value ==> !f.info.Broken?) ==>
              r == Ok(Existing(listing.value)) && Lists(listing.value, r.value, 0)
  {
    if listing.Err? {
      return Err(PathError(ErrnoPayload(listing.error)));
    }
    var files := listing.value;
    var entries: seq<DirEntry> := [];
    for i := 0 to |files|
      invariant entries == Existing(files[..i])
      invariant forall j :: 0 <= j < i ==> !files[j].info.Broken?
    {
      assert files[..i + 1][..i] == files[..i];
      match files[i].info
      case Gone => continue;
      case Broken => return Err(SysErrno(t["EIO"]));
      case Known(ino, mode) => entries := entries + [DirEntry(mode, files[i].name, ino)];
    }
    assert files[..|files|] == files;
    ExistingLists(files);
    r := Ok(entries);
  }

  /** The entry still exists, under an inode number that is not below least. */
  predicate Counts(f: Dirent, least: nat) {
    f.info.Known? && least <= f.info.ino
  }

  /** How many such entries there are before position i. */
  function Rank(files: seq<Dirent>, i: nat, least: nat): nat
    requires i <= |files|
  {
    if i == 0 then 0 else Rank(files, i - 1, least) + if Counts(files[i - 1], least) then 1 else 0
  }

  /** The listing holds these entries, each once, in order, with name, inode and mode unchanged. */
  ghost predicate Lists(files: seq<Dirent>, out: seq<DirEntry>, least: nat) {
    && |out| == Rank(files, |files|, least)
    && (forall i :: 0 <= i < |files| && files[i].info.Known? && least <= files[i].info.ino ==>
         && Rank(files, i, least) < |out|
         && out[Rank(files, i, least)].name == files[i].name
         && out[Rank(files, i, least)].ino == files[i].info.ino
         && out[Rank(files, i, least)].mode == files[i].info.mode)
  }

  lemma {:induction false} KeptAppend(a: seq<DirEntry>, b: DirEntry)
    ensures Kept(a + [b]) == Kept(a) + if b.ino > 2 then [b] else []
  {
  }

  lemma {:induction false} RankPrefix(files: seq<Dirent>, n: nat, i: nat, least: nat)
    requires i <= n <= |files|
    ensures Rank(files[..n], i, least) == Rank(files, i, least)
  {
    if i > 0 { RankPrefix(files, n, i - 1, least); }
  }

  lemma {:induction false} ListsAppends(files: seq<Dirent>, n: nat, out: seq<DirEntry>, least: nat)
    requires n + 1 == |files| && Lists(files[..n], out, least)
    ensures Lists(files, out + if Counts(files[n], least) then [EntryOf(files[n])] else [], least)
  {
    RankPrefix(files, n, n, least);
    forall i | 0 <= i < n && Counts(files[i], least)
      ensures Rank(files, i, least) < |out| && out[Rank(files, i, least)] == EntryOf(files[i])
    {
      RankPrefix(files, n, i, least);
      assert files[..n][i] == files[i];
    }
  }

  lemma {:induction false} LoopsLast(files: seq<Dirent>, n: nat)
    requires n + 1 == |files|
    ensures Kept(Existing(files)) == Kept(Existing(files[..n])) + if Counts(files[n], 3) then [EntryOf(files[n])] else []
  {
    if files[n].info.Known? {
      KeptAppend(Existing(files[..n]), EntryOf(files[n]));
    } else {
      assert Existing(files) == Existing(files[..n]);
    }
  }

  /** The satellite's loop lists exactly the entries that still exist. */
  lemma {:induction false} ExistingLists(files: seq<Dirent>)
    ensures Lists(files, Existing(files), 0)
    decreases |files|
  {
    if files != [] {
      var n := |files| - 1;
      ExistingLists(files[..n]);
      ListsAppends(files, n, Existing(files[..n]), 0);
    }
  }

  /** The two loops together list exactly those with an inode number above 2. */
  lemma {:induction false} LoopsListShown(files: seq<Dirent>)
    ensures Lists(files, Kept(Existing(files)), 3)
    decreases |files|
  {
    if files != [] {
      var n := |files| - 1;
      LoopsListShown(files[..n]);
      LoopsLast(files, n);
      ListsAppends(files, n, Kept(Existing(files[..n])), 3);
    }
  }

  /** The client's readDir, from the call to its return. */
  method ReadDirClient(c: Channel, listing: Result<seq<Dirent>, int>) returns (r: Result<seq<DirEntry>, int>)
    requires c.Valid()
    ensures listing.Err? ==> r == Err(Portable(c, listing.error))
    ensures listing.Ok? && (exists f :: f in listing.value && f.info.Broken?) ==> r == Err(c.client["EIO"])
    ensures listing.Ok? && (forall f :: f in listing.value ==> !f.info.Broken?) ==> r.Ok? && Lists(listing.value, r.value, 3)
  {
    var reply := ReadDirSatellite(c.satellite, listing);
    if reply.Err? {
      ErrorRoundTrip(c, reply.error);
      PortableByName(c, "EIO");
      var encoded := ErrnoToRPCErrorString(c, reply.error);
      return Err(RPCErrorStringToErrno(c, encoded.text));
    }
    var dirEntries: seq<DirEntry> := [];
    for i := 0 to |reply.value|
      invariant dirEntries == Kept(reply.value[..i])
    {
      assert reply.value[..i + 1][..i] == reply.value[..i];
      if reply.value[i].ino > 2 {
        dirEntries := dirEntries + [reply.value[i]];
      }
    }
    assert reply.value[..|reply.value|] == reply.value;
    LoopsListShown(listing.value);
    r := Ok(dirEntries);
  }
}
