/**
 Translation of open() flags between a platform's own bit masks and the
 system-agnostic word that travels over the wire (pkg/rpccommon/utils.go).

 A flag word is represented by the set of its one-bits, whatever its width:
 `a | b` is union, and the test `a & m == m` is `m <= a`.  A platform is any
 table of ten masks that are non-zero and pairwise disjoint.  A mask may have
 several bits: O_SYNC has two on Linux.
 */
module OpenFlags {

  /** A flag word, as the set of the positions of its one-bits. */
  type Word = set<nat>

  /** How many flags the translators know. */
  const FLAGS: nat := 10

  /** The ten masks a platform's syscall package defines, in the order the translators test them. */
  datatype Masks = Masks(
    wronly: Word, rdwr: Word, append: Word, async: Word, creat: Word,
    excl: Word, noctty: Word, nonblock: Word, sync: Word, trunc: Word)
  {
    function Table(): (t: seq<Word>)
      ensures |t| == FLAGS
    {
      [wronly, rdwr, append, async, creat, excl, noctty, nonblock, sync, trunc]
    }

    ghost predicate Valid() {
      && (forall i :: 0 <= i < FLAGS ==> Table()[i] != {})
      && (forall i, j :: 0 <= i < j < FLAGS ==> Table()[i] !! Table()[j])
    }
  }

  // Flag numbers; on the wire, flag i is the single bit i.
  const O_WRONLY: nat := 0
  const O_RDWR: nat := 1
  const O_APPEND: nat := 2
  const O_ASYNC: nat := 3
  const O_CREAT: nat := 4
  const O_EXCL: nat := 5
  const O_NOCTTY: nat := 6
  const O_NONBLOCK: nat := 7
  const O_SYNC: nat := 8
  const O_TRUNC: nat := 9

  /** The flags wholly contained in a system word: what the word means, and the wire word for it. */
  function Names(p: Masks, word: Word): (names: Word) {
    set i: nat | i < FLAGS && p.Table()[i] <= word
  }

  /** Flag by flag, the wire word names exactly what the system word contains. */
  ghost predicate Matches(p: Masks, word: Word, wire: Word) {
    && (O_WRONLY in wire <==> p.wronly <= word)
    && (O_RDWR in wire <==> p.rdwr <= word)
    && (O_APPEND in wire <==> p.append <= word)
    && (O_ASYNC in wire <==> p.async <= word)
    && (O_CREAT in wire <==> p.creat <= word)
    && (O_EXCL in wire <==> p.excl <= word)
    && (O_NOCTTY in wire <==> p.noctty <= word)
    && (O_NONBLOCK in wire <==> p.nonblock <= word)
    && (O_SYNC in wire <==> p.sync <= word)
    && (O_TRUNC in wire <==> p.trunc <= word)
  }

  /** The bit belongs to the mask of a flag that the wire word names. */
  ghost predicate Asked(p: Masks, wire: Word, bit: nat) {
    || (O_WRONLY in wire && bit in p.wronly)
    || (O_RDWR in wire && bit in p.rdwr)
    || (O_APPEND in wire && bit in p.append)
    || (O_ASYNC in wire && bit in p.async)
    || (O_CREAT in wire && bit in p.creat)
    || (O_EXCL in wire && bit in p.excl)
    || (O_NOCTTY in wire && bit in p.noctty)
    || (O_NONBLOCK in wire && bit in p.nonblock)
    || (O_SYNC in wire && bit in p.sync)
    || (O_TRUNC in wire && bit in p.trunc)
  }

  /** The system word consists of the masks of the flags the wire word names, and of nothing else. */
  ghost predicate MadeOf(p: Masks, word: Word, wire: Word) {
    forall bit: nat :: bit in word <==> Asked(p, wire, bit)
  }

  /** The system word that asks for the first n flags of a wire word. */
  function Union(p: Masks, wire: Word, n: nat): Word
    requires n <= FLAGS
  {
    if n == 0 then {}
    else With(Union(p, wire, n - 1), n - 1 in wire, p.Table()[n - 1])
  }

  function SystemFlags(p: Masks, wire: Word): Word { Union(p, wire, FLAGS) }

  // ---------- The two translators ----------

  /** The first n tests of SystemToSAFlags. */
  function Collect(p: Masks, word: Word, n: nat): Word
    requires n <= FLAGS
  {
    if n == 0 then {} else With(Collect(p, word, n - 1), p.Table()[n - 1] <= word, {n - 1})
  }

  /** `if test { flags |= bits }` */
  function With(flags: Word, test: bool, bits: Word): Word {
    if test then flags + bits else flags
  }

  method SystemToSAFlags(p: Masks, flagsIn: Word) returns (flags: Word)
    requires p.Valid()
    ensures flags == Names(p, flagsIn)
    ensures Matches(p, flagsIn, flags)
    ensures SystemFlags(p, flags) <= flagsIn
  {
    NamesMatch(p, flagsIn);
    UnionWithin(p, Names(p, flagsIn), FLAGS, flagsIn);
    if flagsIn == {} {
      return {};
    }
    flags := TestMasks(p, flagsIn);
    CollectIsNames(p, flagsIn, FLAGS);
  }

  /** The ten tests of SystemToSAFlags. */
  method TestMasks(p: Masks, flagsIn: Word) returns (flags: Word)
    ensures flags == Collect(p, flagsIn, FLAGS)
  {
    flags := {};
    flags := With(flags, p.wronly <= flagsIn, {O_WRONLY});
    assert flags == Collect(p, flagsIn, 1);
    flags := With(flags, p.rdwr <= flagsIn, {O_RDWR});
    assert flags == Collect(p, flagsIn, 2);
    flags := With(flags, p.append <= flagsIn, {O_APPEND});
    assert flags == Collect(p, flagsIn, 3);
    flags := With(flags, p.async <= flagsIn, {O_ASYNC});
    assert flags == Collect(p, flagsIn, 4);
    flags := With(flags, p.creat <= flagsIn, {O_CREAT});
    assert flags == Collect(p, flagsIn, 5);
    flags := With(flags, p.excl <= flagsIn, {O_EXCL});
    assert flags == Collect(p, flagsIn, 6);
    flags := With(flags, p.noctty <= flagsIn, {O_NOCTTY});
    assert flags == Collect(p, flagsIn, 7);
    flags := With(flags, p.nonblock <= flagsIn, {O_NONBLOCK});
    assert flags == Collect(p, flagsIn, 8);
    flags := With(flags, p.sync <= flagsIn, {O_SYNC});
    assert flags == Collect(p, flagsIn, 9);
    flags := With(flags, p.trunc <= flagsIn, {O_TRUNC});
    assert flags == Collect(p, flagsIn, 10);
  }

  method SAFlagsToSystem(p: Masks, flagsIn: Word) returns (flags: Word)
    requires p.Valid()
    ensures flags == SystemFlags(p, flagsIn)
    ensures Names(p, flags) == set i | i in flagsIn && i < FLAGS
    ensures Matches(p, flags, flagsIn)
    ensures MadeOf(p, flags, flagsIn)
  {
    WireRoundTrip(p, flagsIn);
    SystemMatches(p, flagsIn);
    SystemBits(p, flagsIn);
    if flagsIn == {} {
      UnionWithin(p, {}, FLAGS, {});
      return {};
    }
    flags := AddMasks(p, flagsIn);
  }

  /** The ten tests of SAFlagsToSystem. */
  method AddMasks(p: Masks, flagsIn: Word) returns (flags: Word)
    ensures flags == SystemFlags(p, flagsIn)
  {
    flags := {};
    flags := With(flags, O_WRONLY in flagsIn, p.wronly);
    assert flags == Union(p, flagsIn, 1);
    flags := With(flags, O_RDWR in flagsIn, p.rdwr);
    assert flags == Union(p, flagsIn, 2);
    flags := With(flags, O_APPEND in flagsIn, p.append);
    assert flags == Union(p, flagsIn, 3);
    flags := With(flags, O_ASYNC in flagsIn, p.async);
    assert flags == Union(p, flagsIn, 4);
    flags := With(flags, O_CREAT in flagsIn, p.creat);
    assert flags == Union(p, flagsIn, 5);
    flags := With(flags, O_EXCL in flagsIn, p.excl);
    assert flags == Union(p, flagsIn, 6);
    flags := With(flags, O_NOCTTY in flagsIn, p.noctty);
    assert flags == Union(p, flagsIn, 7);
    flags := With(flags, O_NONBLOCK in flagsIn, p.nonblock);
    assert flags == Union(p, flagsIn, 8);
    flags := With(flags, O_SYNC in flagsIn, p.sync);
    assert flags == Union(p, flagsIn, 9);
    flags := With(flags, O_TRUNC in flagsIn, p.trunc);
    assert flags == Union(p, flagsIn, 10);
  }

  // ---------- Meaning of the translators ----------

  /** `Names` tests each flag against that flag's own mask. */
  lemma {:induction false} NamesMatch(p: Masks, word: Word)
    ensures Matches(p, word, Names(p, word))
  {
  }

  lemma {:induction false} CollectIsNames(p: Masks, word: Word, n: nat)
    requires n <= FLAGS
    ensures Collect(p, word, n) == set i | i in Names(p, word) && i < n
  {
    if n > 0 {
      CollectIsNames(p, word, n - 1);
    }
  }

  /** A bit is set in the translated word exactly when a requested flag's mask has it. */
  lemma {:induction false} UnionBits(p: Masks, wire: Word, n: nat, bit: nat)
    requires n <= FLAGS
    ensures bit in Union(p, wire, n) <==> exists i: nat :: i < n && i in wire && bit in p.Table()[i]
  {
    if n > 0 {
      UnionBits(p, wire, n - 1, bit);
    }
  }

  lemma {:induction false} SystemMatches(p: Masks, wire: Word)
    requires p.Valid()
    ensures Matches(p, SystemFlags(p, wire), wire)
  {
    WireRoundTrip(p, wire);
    NamesMatch(p, SystemFlags(p, wire));
  }

  /** Field by field: the translated word is made of the masks of the requested flags. */
  lemma {:induction false} SystemBits(p: Masks, wire: Word)
    ensures MadeOf(p, SystemFlags(p, wire), wire)
  {
    forall bit: nat ensures bit in SystemFlags(p, wire) <==> Asked(p, wire, bit) {
      UnionBits(p, wire, FLAGS, bit);
      AskedByTable(p, wire, bit);
    }
  }

  lemma {:induction false} AskedByTable(p: Masks, wire: Word, bit: nat)
    ensures Asked(p, wire, bit) <==> exists i: nat :: i < FLAGS && i in wire && bit in p.Table()[i]
  {
    if Asked(p, wire, bit) {
      var i: nat :| i < FLAGS && i in wire && bit in p.Table()[i];
    }
  }

  /** A word built from flags all contained in y is itself contained in y. */
  lemma {:induction false} UnionWithin(p: Masks, wire: Word, n: nat, y: Word)
    requires n <= FLAGS
    requires forall i: nat :: i < n && i in wire ==> p.Table()[i] <= y
    ensures Union(p, wire, n) <= y
  {
    forall bit | bit in Union(p, wire, n) ensures bit in y {
      UnionBits(p, wire, n, bit);
    }
  }

  /** Wire to system to wire keeps the low ten bits: the system word names exactly the known flags. */
  lemma {:induction false} WireRoundTrip(p: Masks, wire: Word)
    requires p.Valid()
    ensures Names(p, SystemFlags(p, wire)) == set i | i in wire && i < FLAGS
  {
    forall i: nat | i < FLAGS
      ensures p.Table()[i] <= SystemFlags(p, wire) <==> i in wire
    {
      if i in wire {
        forall bit | bit in p.Table()[i] ensures bit in SystemFlags(p, wire) {
          UnionBits(p, wire, FLAGS, bit);
        }
      } else {
        var bit :| bit in p.Table()[i];
        UnionBits(p, wire, FLAGS, bit);
      }
    }
  }

  /** A trip from one platform to another preserves the set of flag names. */
  lemma {:induction false} CrossPlatform(client: Masks, satellite: Masks, word: Word)
    requires satellite.Valid()
    ensures Names(satellite, SystemFlags(satellite, Names(client, word))) == Names(client, word)
  {
    WireRoundTrip(satellite, Names(client, word));
  }

  // ---------- Round trips ----------

  /** What comes back after system to wire to system. */
  function Trip(p: Masks, word: Word): Word { SystemFlags(p, Names(p, word)) }

  /** A word made only of known flags: some wire word translates to it. */
  ghost predicate Expressible(p: Masks, word: Word) {
    exists wire: Word :: SystemFlags(p, wire) == word
  }

  /**
   System to wire to system keeps exactly the flags wholly contained in the
   input: the result is within the input, names the same flags, is the largest
   expressible word within the input, and loses nothing exactly when the input
   was expressible.
   */
  lemma {:induction false} SystemRoundTrip(p: Masks, x: Word)
    requires p.Valid()
    ensures Trip(p, x) <= x
    ensures Names(p, Trip(p, x)) == Names(p, x)
    ensures Trip(p, Trip(p, x)) == Trip(p, x)
    ensures Expressible(p, Trip(p, x))
    ensures forall y :: Expressible(p, y) && y <= x ==> y <= Trip(p, x)
    ensures Trip(p, x) == x <==> Expressible(p, x)
  {
    UnionWithin(p, Names(p, x), FLAGS, x);
    CrossPlatform(p, p, x);
    assert SystemFlags(p, Names(p, x)) == Trip(p, x);
    forall y | Expressible(p, y) && y <= x ensures y <= Trip(p, x) {
      ExpressibleIsFixed(p, y);
      TripMonotone(p, y, x);
    }
    if Expressible(p, x) { ExpressibleIsFixed(p, x); }
  }

  lemma {:induction false} TripMonotone(p: Masks, x: Word, y: Word)
    requires x <= y
    ensures Trip(p, x) <= Trip(p, y)
  {
    forall bit | bit in Trip(p, x) ensures bit in Trip(p, y) {
      UnionBits(p, Names(p, x), FLAGS, bit);
      UnionBits(p, Names(p, y), FLAGS, bit);
    }
  }

  /** Words made only of known flags survive the round trip unchanged. */
  lemma {:induction false} ExpressibleIsFixed(p: Masks, y: Word)
    requires p.Valid() && Expressible(p, y)
    ensures Trip(p, y) == y
  {
    var wire :| SystemFlags(p, wire) == y;
    WireRoundTrip(p, wire);
    forall bit ensures bit in Trip(p, y) <==> bit in y {
      UnionBits(p, wire, FLAGS, bit);
      UnionBits(p, Names(p, y), FLAGS, bit);
    }
  }

  // ---------- Two real platforms ----------

  const LINUX := Masks({0}, {1}, {10}, {13}, {6}, {7}, {8}, {11}, {12, 20}, {9})
  const DARWIN := Masks({0}, {1}, {3}, {6}, {9}, {11}, {17}, {2}, {7}, {10})

  /** The assumptions on tables hold of Linux and of Darwin. */
  lemma {:induction false} RealPlatformsAreValid()
    ensures LINUX.Valid() && DARWIN.Valid()
  {
    assert LINUX.Table() == [{0}, {1}, {10}, {13}, {6}, {7}, {8}, {11}, {12, 20}, {9}];
    assert DARWIN.Table() == [{0}, {1}, {3}, {6}, {9}, {11}, {17}, {2}, {7}, {10}];
  }
}
