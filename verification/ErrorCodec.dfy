/**
 The error channel between satellite and client (pkg/rpccommon/utils.go).

 net/rpc carries an error as a bare string, and errno values differ between
 platforms, so the satellite prints a symbolic name and the client parses it
 back into its own errno.  A platform is any errno table that is injective on
 the names the encoder lists.
 */
module ErrorCodec {

  /** An errno table: a platform's value for each symbolic name. */
  type Errnos = map<string, int>

  /**
   The two ends of the channel.  `names` are the cases of ErrnoToSym;
   `aliases` are the extra cases that only SymToErrno has.
   */
  datatype Channel = Channel(names: seq<string>, aliases: seq<string>, satellite: Errnos, client: Errnos) {
    ghost predicate Valid() {
      && "EIO" in names && "EINVAL" in names && "ENOENT" in names && "EEXIST" in names
      && ValidTable(satellite) && ValidTable(client)
    }

    ghost predicate ValidTable(t: Errnos) {
      && (forall n :: n in names || n in aliases ==> n in t && t[n] > 0)
      && (forall m, n :: m in names && n in names && t[m] == t[n] ==> m == n)
    }
  }

  /** What a Go error value can be, as far as ErrnoToRPCErrorString can tell. */
  datatype GoError =
    | PathError(payload: Payload)
    | LinkError(payload: Payload)
    | SysErrno(errno: int)
    | Other(text: string)

  /** The error wrapped in a PathError or LinkError. */
  datatype Payload = ErrnoPayload(errno: int) | OpaquePayload(what: string)

  /** The encoder returns a text, or panics on a payload that is not an errno. */
  datatype Encoded = Text(text: string) | Panic

  const EOF_TEXT := "EOF"
  const ERRNO_PREFIX := "errno: "
  const UNKNOWN_PREFIX := "unknown error: "

  // ---------- Encoder ----------

  function ErrnoToSym(names: seq<string>, t: Errnos, errno: int): string
    requires forall n :: n in names ==> n in t
  {
    if names == [] then "EIO"
    else if t[names[0]] == errno then names[0]
    else ErrnoToSym(names[1..], t, errno)
  }

  function Sym(c: Channel, errno: int): string
    requires c.Valid()
  {
    ErrnoToSym(c.names, c.satellite, errno)
  }

  function ErrnoToRPCErrorString(c: Channel, err: GoError): Encoded
    requires c.Valid()
  {
    match err
    case PathError(ErrnoPayload(e)) => Text(ERRNO_PREFIX + Sym(c, e))
    case PathError(OpaquePayload(_)) => Panic
    case LinkError(ErrnoPayload(e)) => Text(ERRNO_PREFIX + Sym(c, e))
    case LinkError(OpaquePayload(_)) => Panic
    case SysErrno(e) => Text(ERRNO_PREFIX + Sym(c, e))
    case Other(text) => if text == EOF_TEXT then Text(text) else Text(UNKNOWN_PREFIX + text)
  }

  // ---------- Decoder ----------

  function SymToErrno(c: Channel, sym: string): int
    requires c.Valid()
  {
    if sym in c.names || sym in c.aliases then c.client[sym] else c.client["EIO"]
  }

  /** The second part of strings.SplitN(s, " ", 2). */
  function AfterFirstSpace(s: string): string
    requires ' ' in s
  {
    if s[0] == ' ' then s[1..] else AfterFirstSpace(s[1..])
  }

  function RPCErrorStringToErrno(c: Channel, text: string): int
    requires c.Valid()
  {
    if ERRNO_PREFIX <= text then
      assert text[6] == ' ';
      SymToErrno(c, AfterFirstSpace(text))
    else c.client["EIO"]
  }

  // ---------- What the pair computes ----------

  /** A satellite errno the encoder has a name for. */
  ghost predicate Listed(c: Channel, errno: int)
    requires c.Valid()
  {
    exists n :: n in c.names && c.satellite[n] == errno
  }

  /** The client errno of the same name, or EIO for an errno without a listed name. */
  ghost function Portable(c: Channel, errno: int): (r: int)
    requires c.Valid()
  {
    if Listed(c, errno) then
      var n :| n in c.names && c.satellite[n] == errno;
      c.client[n]
    else c.client["EIO"]
  }

  /** A listed errno crosses to the client's errno of the same name. */
  lemma {:induction false} PortableByName(c: Channel, n: string)
    requires c.Valid() && n in c.names
    ensures Portable(c, c.satellite[n]) == c.client[n]
  {
  }

  /** The name printed is the one listed name of the errno, or EIO when there is none. */
  lemma {:induction false} ErrnoToSymFinds(names: seq<string>, t: Errnos, errno: int)
    requires forall n :: n in names ==> n in t
    ensures var s := ErrnoToSym(names, t, errno);
            if exists n :: n in names && t[n] == errno then s in names && t[s] == errno else s == "EIO"
  {
    if names != [] {
      ErrnoToSymFinds(names[1..], t, errno);
    }
  }

  /** Every listed name survives name to errno to name on one platform. */
  lemma {:induction false} SymbolRoundTrip(c: Channel, n: string)
    requires c.Valid() && n in c.names
    ensures Sym(c, c.satellite[n]) == n
  {
    ErrnoToSymFinds(c.names, c.satellite, c.satellite[n]);
  }

  lemma {:induction false} SplitAtFirstSpace(a: string, b: string)
    requires ' ' !in a
    ensures ' ' in a + " " + b
    ensures AfterFirstSpace(a + " " + b) == b
  {
    var s := a + " " + b;
    assert s[|a|] == ' ';
    if a != [] {
      SplitAtFirstSpace(a[1..], b);
      assert s[1..] == a[1..] + " " + b;
    }
  }

  /** Whatever follows the prefix, the split recovers exactly that. */
  lemma {:induction false} PrefixSplits(sym: string)
    ensures ' ' in ERRNO_PREFIX + sym
    ensures AfterFirstSpace(ERRNO_PREFIX + sym) == sym
  {
    SplitAtFirstSpace("errno:", sym);
    assert ERRNO_PREFIX + sym == "errno:" + " " + sym;
  }

  /** The decoder, for every text: a name it knows, listed or alias, after the prefix is that errno, all else EIO. */
  lemma {:induction false} DecoderExact(c: Channel, text: string)
    requires c.Valid()
    ensures forall sym :: text == ERRNO_PREFIX + sym && (sym in c.names || sym in c.aliases)
              ==> RPCErrorStringToErrno(c, text) == c.client[sym]
    ensures (forall sym :: sym in c.names || sym in c.aliases ==> text != ERRNO_PREFIX + sym)
              ==> RPCErrorStringToErrno(c, text) == c.client["EIO"]
  {
    if ERRNO_PREFIX <= text {
      var rest := text[|ERRNO_PREFIX|..];
      assert text == ERRNO_PREFIX + rest;
      PrefixSplits(rest);
    }
  }

  lemma {:induction false} ErrnoCrosses(c: Channel, errno: int)
    requires c.Valid()
    ensures RPCErrorStringToErrno(c, ERRNO_PREFIX + Sym(c, errno)) == Portable(c, errno)
  {
    var sym := Sym(c, errno);
    PrefixSplits(sym);
    ErrnoToSymFinds(c.names, c.satellite, errno);
    assert ERRNO_PREFIX <= ERRNO_PREFIX + sym;
    if Listed(c, errno) {
      assert c.satellite[sym] == errno;
      PortableByName(c, sym);
    }
  }

  /** The errno the client must end up with for a satellite-side error. */
  ghost function Expected(c: Channel, err: GoError): int
    requires c.Valid()
  {
    match err
    case PathError(ErrnoPayload(e)) => Portable(c, e)
    case LinkError(ErrnoPayload(e)) => Portable(c, e)
    case SysErrno(e) => Portable(c, e)
    case _ => c.client["EIO"]
  }

  /**
   Print then parse.  The encoder panics exactly on a wrapped payload that is
   not an errno.  Otherwise the text is never empty (net/rpc would take an
   empty text for success), parses to the expected errno, and that errno is
   never zero.  Only the end-of-file error prints as the end-of-file text.
   */
  lemma {:induction false} ErrorRoundTrip(c: Channel, err: GoError)
    requires c.Valid()
    ensures ErrnoToRPCErrorString(c, err).Panic? <==> !err.SysErrno? && !err.Other? && err.payload.OpaquePayload?
    ensures var r := ErrnoToRPCErrorString(c, err);
            r.Text? ==>
              && r.text != ""
              && RPCErrorStringToErrno(c, r.text) == Expected(c, err) > 0
              && (r.text == EOF_TEXT <==> err == Other(EOF_TEXT))
  {
    PortablePositive(c);
    match err
    case PathError(ErrnoPayload(e)) => ErrnoCrosses(c, e); NotEof(Sym(c, e));
    case LinkError(ErrnoPayload(e)) => ErrnoCrosses(c, e); NotEof(Sym(c, e));
    case SysErrno(e) => ErrnoCrosses(c, e); NotEof(Sym(c, e));
    case Other(text) =>
      var t := UNKNOWN_PREFIX + text;
      assert t[0] == 'u' && ERRNO_PREFIX[0] == 'e' && EOF_TEXT[0] == 'E';
    case _ =>
  }

  /** What travels: the name of a listed errno after "errno: ", whatever wraps it, and other errors in full. */
  lemma {:induction false} Printed(c: Channel, n: string, text: string)
    requires c.Valid() && n in c.names && text != "EOF"
    ensures var e := c.satellite[n];
            && ErrnoToRPCErrorString(c, PathError(ErrnoPayload(e))) == Text("errno: " + n)
            && ErrnoToRPCErrorString(c, LinkError(ErrnoPayload(e))) == Text("errno: " + n)
            && ErrnoToRPCErrorString(c, SysErrno(e)) == Text("errno: " + n)
    ensures ErrnoToRPCErrorString(c, Other(text)) == Text("unknown error: " + text)
    ensures ErrnoToRPCErrorString(c, Other("EOF")) == Text("EOF")
  {
    SymbolRoundTrip(c, n);
  }

  lemma {:induction false} NotEof(sym: string)
    ensures ERRNO_PREFIX + sym != EOF_TEXT
  {
  }

  lemma {:induction false} PortablePositive(c: Channel)
    requires c.Valid()
    ensures c.client["EIO"] > 0
    ensures forall e :: Portable(c, e) > 0
  {
  }

  /** Distinct listed errnos stay distinct on the client. */
  lemma {:induction false} PortableInjective(c: Channel, e: int, f: int)
    requires c.Valid() && Listed(c, e) && Listed(c, f) && Portable(c, e) == Portable(c, f)
    ensures e == f
  {
  }

  // ---------- The vocabulary of this program ----------

  // The cases of ErrnoToSym, in order.
  const SYMBOLS_1: seq<string> := [
    "E2BIG", "EACCES", "EADDRINUSE", "EADDRNOTAVAIL", "EAFNOSUPPORT", "EAGAIN", "EALREADY", "EBADF", "EBADMSG",
    "EBUSY", "ECANCELED", "ECHILD", "ECONNABORTED", "ECONNREFUSED", "ECONNRESET", "EDEADLK", "EDESTADDRREQ",
    "EDOM", "EDQUOT", "EEXIST", "EFAULT", "EFBIG"
  ]
  const SYMBOLS_2: seq<string> := [
    "EHOSTDOWN", "EHOSTUNREACH", "EIDRM", "EILSEQ", "EINPROGRESS", "EINTR", "EINVAL", "EIO", "EISCONN",
    "EISDIR", "ELOOP", "EMFILE", "EMLINK", "EMSGSIZE", "EMULTIHOP"
  ]
  const SYMBOLS_3: seq<string> := [
    "ENAMETOOLONG", "ENETDOWN", "ENETRESET", "ENETUNREACH", "ENFILE", "ENOBUFS", "ENODATA", "ENODEV", "ENOENT",
    "ENOEXEC", "ENOLCK", "ENOLINK", "ENOMEM", "ENOMSG", "ENOPROTOOPT", "ENOSPC", "ENOSR", "ENOSTR", "ENOSYS",
    "ENOTBLK", "ENOTCONN", "ENOTDIR", "ENOTEMPTY", "ENOTRECOVERABLE", "ENOTSOCK", "ENOTSUP", "ENOTTY", "ENXIO"
  ]
  const SYMBOLS_4: seq<string> := [
    "EOVERFLOW", "EOWNERDEAD", "EPERM", "EPFNOSUPPORT", "EPIPE", "EPROTO", "EPROTONOSUPPORT", "EPROTOTYPE",
    "ERANGE", "EREMOTE", "EROFS", "ESHUTDOWN", "ESOCKTNOSUPPORT", "ESPIPE", "ESRCH", "ESTALE", "ETIME",
    "ETIMEDOUT", "ETOOMANYREFS", "ETXTBSY", "EUSERS", "EXDEV"
  ]
  const SYMBOLS := SYMBOLS_1 + SYMBOLS_2 + SYMBOLS_3 + SYMBOLS_4

  /** The cases only SymToErrno has. */
  const ALIASES: seq<string> := ["EOPNOTSUPP", "EWOULDBLOCK"]

  /** The listed names include those the model relies on. */
  lemma {:induction false} VocabularyQualifies(c: Channel)
    requires c.names == SYMBOLS && c.aliases == ALIASES
    requires c.ValidTable(c.satellite) && c.ValidTable(c.client)
    ensures c.Valid()
  {
  }
}
