/**
 Ownership of the RPC connection (cmd/dockerfuse/client/client.go): the client
 replaces it on every connect and drops it on disconnect.
 */
module Connection {

  import opened Prelude

  /** RPC clients ever created, as how often each was closed, and the one in use. */
  datatype Conns = Conns(closes: seq<nat>, current: Option<nat>)

  datatype Event =
    | Connect(createFails: bool, attachFails: bool)
    | Disconnect

  function Dropped(s: Conns): Conns
    requires s.current.Some? ==> s.current.value < |s.closes|
  {
    if s.current.None? then s
    else Conns(s.closes[s.current.value := s.closes[s.current.value] + 1], None)
  }

  function Step(s: Conns, e: Event): (s': Conns)
    requires s.current.Some? ==> s.current.value < |s.closes|
    ensures s'.current.Some? ==> s'.current.value < |s'.closes|
  {
    var dropped := Dropped(s);
    match e
    case Disconnect => dropped
    case Connect(createFails, attachFails) =>
      if createFails || attachFails then dropped
      else Conns(dropped.closes + [0], Some(|dropped.closes|))
  }

  function After(s: Conns, events: seq<Event>): Conns
    requires s.current.Some? ==> s.current.value < |s.closes|
    decreases |events|
  {
    if events == [] then s else After(Step(s, events[0]), events[1..])
  }

  /** Every RPC client except the one in use has been closed exactly once, and that one never. */
  ghost predicate Owned(s: Conns) {
    && (s.current.Some? ==> s.current.value < |s.closes|)
    && (forall i :: 0 <= i < |s.closes| ==> s.closes[i] == if s.current == Some(i) then 0 else 1)
  }

  lemma {:induction false} OwnedAlways(s: Conns, events: seq<Event>)
    requires Owned(s)
    ensures Owned(After(s, events))
    decreases |events|
  {
    if events != [] { OwnedAlways(Step(s, events[0]), events[1..]); }
  }

  /** The RPC clients that were never closed. */
  ghost function Live(s: Conns): set<nat> {
    set i: nat | i < |s.closes| && s.closes[i] == 0
  }

  /**
   Over every run of connects and disconnects with arbitrary Docker failures,
   at most one RPC client is live and none was closed twice; after a failed
   connect, or a disconnect, none is live.
   */
  lemma {:induction false} ConnectionOwnership(events: seq<Event>, e: Event)
    ensures var s := After(Conns([], None), events);
            && |Live(s)| <= 1 && (forall i :: 0 <= i < |s.closes| ==> s.closes[i] <= 1)
            && (s.current.Some? <==> Live(s) != {})
            && (s.current.Some? ==> Live(s) == {s.current.value})
            && (Live(Step(s, e)) == {} <==> e.Disconnect? || e.createFails || e.attachFails)
  {
    var s := After(Conns([], None), events);
    OwnedAlways(Conns([], None), events);
    LiveIsCurrent(s);
    LiveIsCurrent(Step(s, e));
  }

  lemma {:induction false} LiveIsCurrent(s: Conns)
    requires Owned(s)
    ensures Live(s) == if s.current.Some? then {s.current.value} else {}
  {
  }

  /** The RPC client that was in use, if any, has been closed once more, and no other. */
  ghost predicate ClosedOneMore(s: Conns, closes: seq<nat>) {
    && |closes| == |s.closes|
    && (forall i :: 0 <= i < |closes| ==> closes[i] == if s.current == Some(i) then s.closes[i] + 1 else s.closes[i])
  }

  class Connector {
    var conns: Conns

    ghost predicate Valid()
      reads this
    {
      Owned(conns)
    }

    constructor ()
      ensures Valid() && conns == Conns([], None)
    {
      conns := Conns([], None);
    }

    method Disconnect()
      requires Valid()
      modifies this
      ensures Valid() && conns == Step(old(conns), Event.Disconnect)
      ensures conns.current == None && ClosedOneMore(old(conns), conns.closes)
    {
      if conns.current != None {
        var c := conns.current.value;
        conns := conns.(closes := conns.closes[c := conns.closes[c] + 1]);
        conns := conns.(current := None);
      }
    }

    method ConnectSatellite(createFails: bool, attachFails: bool) returns (ok: bool)
      requires Valid()
      modifies this
      ensures Valid() && conns == Step(old(conns), Connect(createFails, attachFails))
      ensures ok <==> !createFails && !attachFails
      ensures if ok then ClosedOneMore(old(conns), conns.closes[..|old(conns).closes|])
                         && conns == Conns(conns.closes[..|old(conns).closes|] + [0], Some(|old(conns).closes|))
              else ClosedOneMore(old(conns), conns.closes) && conns.current == None
    {
      if conns.current != None {
        Disconnect();
      }
      if createFails {
        return false;
      }
      if attachFails {
        return false;
      }
      conns := Conns(conns.closes + [0], Some(|conns.closes|));
      ok := true;
    }
  }
}
