/**
 * Telling clients about objects over a network that loses, repeats and reorders, and when an object need not be
 * told again.
 */
module Replication {
  import opened Ordering

  const FORGET_AFTER: int := 180
  const NEVER: int := -1

  /** A registered object; `version` counts the events that stamped it, the last of them at `lastEvent`. */
  datatype Obj = Obj(lastEvent: int, version: nat, forRemove: bool)

  /** The state of an object as sent to a client process at `time`. */
  datatype Packet = Packet(process: int, id: int, time: int, version: nat, removed: bool)

  datatype Ack = Ack(process: int, id: int, time: int)

  type Acks = map<int, map<int, int>>

  /** Server, clients, and everything that was ever put on the network. */
  datatype System = System(now: int, zombies: map<int, Obj>, used: set<int>, acks: Acks,
                           replicas: map<(int, int), Packet>, packets: set<Packet>, answers: set<Ack>)

  // ---- The server

  function Row(acks: Acks, process: int): map<int, int> {
    if process in acks then acks[process] else map[]
  }

  /** The latest time that the client process acknowledged for the object. */
  function LastAck(acks: Acks, process: int, id: int): int {
    if id in Row(acks, process) then Row(acks, process)[id] else NEVER
  }

  function AfterAck(acks: Acks, process: int, id: int, step: int): Acks {
    if LastAck(acks, process, id) < step then acks[process := Row(acks, process)[id := step]] else acks
  }

  /** Removed long enough ago to be forgotten. */
  predicate Forgotten(o: Obj, now: int) {
    o.forRemove && now > o.lastEvent + FORGET_AFTER
  }

  /** The client is taken to know the object's last event. */
  predicate Skipped(acks: Acks, process: int, id: int, o: Obj) {
    LastAck(acks, process, id) >= o.lastEvent
  }

  function PacketOf(process: int, id: int, o: Obj, now: int): Packet {
    Packet(process, id, now, o.version, o.forRemove)
  }

  function Remaining(zombies: map<int, Obj>, now: int): map<int, Obj> {
    map id | id in zombies && !Forgotten(zombies[id], now) :: zombies[id]
  }

  function Outgoing(zombies: map<int, Obj>, acks: Acks, process: int, now: int): set<Packet> {
    set id | id in zombies && !Forgotten(zombies[id], now) && !Skipped(acks, process, id, zombies[id])
      :: PacketOf(process, id, zombies[id], now)
  }

  lemma SameMap(a: map<int, Obj>, b: map<int, Obj>)
    requires forall id: int :: id in a <==> id in b
    requires forall id: int :: id in a ==> a[id] == b[id]
    ensures a == b
  {
    SubsetByElements(a.Keys, b.Keys);
    SubsetByElements(b.Keys, a.Keys);
    assert a.Keys == b.Keys;
    forall id | id in a
      ensures a[id] == b[id]
    {
    }
  }

  /** What is sent for the objects with these ids, in their order. */
  ghost function Collected(all: map<int, Obj>, acks: Acks, process: int, now: int, ids: seq<int>): seq<Packet> {
    if ids == [] then []
    else
      var before, id := Collected(all, acks, process, now, ids[..|ids| - 1]), ids[|ids| - 1];
      if id !in all || Forgotten(all[id], now) || Skipped(acks, process, id, all[id]) then before
      else before + [PacketOf(process, id, all[id], now)]
  }

  ghost function Gone(all: map<int, Obj>, now: int, ids: seq<int>): set<int> {
    set id | id in ids && id in all && Forgotten(all[id], now)
  }

  lemma NextId(all: map<int, Obj>, now: int, ids: seq<int>, x: nat)
    requires IsOrderOf(ids, all.Keys) && x < |ids|
    ensures ids[x] in all && ids[x] !in Gone(all, now, ids[..x])
    ensures Gone(all, now, ids[..x + 1]) ==
      Gone(all, now, ids[..x]) + if Forgotten(all[ids[x]], now) then {ids[x]} else {}
  {
    assert ids[x] in ids && ids[..x + 1] == ids[..x] + [ids[x]];
    assert ids[x] !in ids[..x];
  }

  lemma {:induction false} CollectedIsOutgoing(all: map<int, Obj>, acks: Acks, process: int, now: int, ids: seq<int>)
    requires forall id <- ids :: id in all
    ensures forall p :: p in Collected(all, acks, process, now, ids) <==>
      p.id in ids && p in Outgoing(all, acks, process, now)
  {
    if ids != [] {
      var before, id := ids[..|ids| - 1], ids[|ids| - 1];
      assert ids == before + [id] && id in ids;
      CollectedIsOutgoing(all, acks, process, now, before);
    }
  }

  lemma {:induction false} CollectedIsInOrder(all: map<int, Obj>, acks: Acks, process: int, now: int, ids: seq<int>)
    requires forall x, y :: 0 <= x < y < |ids| ==> ids[x] < ids[y]
    ensures forall p <- Collected(all, acks, process, now, ids) :: p.id in ids
    ensures var r := Collected(all, acks, process, now, ids); forall x, y :: 0 <= x < y < |r| ==> r[x].id < r[y].id
  {
    if ids != [] {
      var before, id := ids[..|ids| - 1], ids[|ids| - 1];
      assert ids == before + [id] && forall i <- before :: i < id;
      CollectedIsInOrder(all, acks, process, now, before);
      assert forall p <- Collected(all, acks, process, now, before) :: p.id < id;
    }
  }

  lemma AllVisited(all: map<int, Obj>, acks: Acks, process: int, now: int, ids: seq<int>)
    requires IsOrderOf(ids, all.Keys)
    ensures all - Gone(all, now, ids) == Remaining(all, now)
    ensures var r := Collected(all, acks, process, now, ids);
      && (forall p :: p in r <==> p in Outgoing(all, acks, process, now))
      && (forall x, y :: 0 <= x < y < |r| ==> r[x].id < r[y].id)
  {
    assert forall id :: id in all ==> id in ids;
    assert forall id :: id in ids ==> id in all.Keys;
    CollectedIsOutgoing(all, acks, process, now, ids);
    CollectedIsInOrder(all, acks, process, now, ids);
    SameMap(all - Gone(all, now, ids), Remaining(all, now));
  }

  class ServerViewHandler {
    var totalTime: int
    var zombies: map<int, Obj>
    var ackSendedEvent: Acks

    constructor (now: int)
      ensures totalTime == now && zombies == map[] && ackSendedEvent == map[]
    {
      totalTime, zombies, ackSendedEvent := now, map[], map[];
    }

    method EventAck(process: int, eventId: int, step: int)
      modifies this`ackSendedEvent
      ensures ackSendedEvent == AfterAck(old(ackSendedEvent), process, eventId, step)
      ensures LastAck(ackSendedEvent, process, eventId) >= step
      ensures forall p, id :: LastAck(ackSendedEvent, p, id) >= LastAck(old(ackSendedEvent), p, id)
      ensures forall p, id ::
        (LastAck(ackSendedEvent, p, id) == LastAck(old(ackSendedEvent), p, id)
         || (p == process && id == eventId && LastAck(ackSendedEvent, p, id) == step))
    {
      if LastAck(ackSendedEvent, process, eventId) < step {
        ackSendedEvent := ackSendedEvent[process := Row(ackSendedEvent, process)[eventId := step]];
      }
    }

    /** Collects what the client must be told, each object once, and forgets what was removed long ago. */
    method InitClient(process: int) returns (forSend: seq<Packet>)
      modifies this`zombies
      ensures zombies == Remaining(old(zombies), totalTime)
      ensures forall p :: p in forSend <==> p in Outgoing(old(zombies), ackSendedEvent, process, totalTime)
      ensures forall x, y :: 0 <= x < y < |forSend| ==> forSend[x].id < forSend[y].id
      ensures forall id <- old(zombies) ::
        id !in zombies <==> old(zombies)[id].forRemove && totalTime > old(zombies)[id].lastEvent + 180
      ensures forall p <- forSend :: p.id in zombies && LastAck(ackSendedEvent, process, p.id) < zombies[p.id].lastEvent
    {
      ghost var all := zombies;
      var ids := Ascending(zombies.Keys);
      forSend := [];
      for x := 0 to |ids|
        invariant zombies == all - Gone(all, totalTime, ids[..x])
        invariant forSend == Collected(all, ackSendedEvent, process, totalTime, ids[..x])
      {
        NextId(all, totalTime, ids, x);
        forSend := Visit(process, ids[x], forSend);
        assert ids[..x + 1][..x] == ids[..x];
      }
      assert ids[..|ids|] == ids;
      AllVisited(all, ackSendedEvent, process, totalTime, ids);
    }

    /** One round of the loop. */
    method Visit(process: int, id: int, forSend: seq<Packet>) returns (more: seq<Packet>)
      requires id in zombies
      modifies this`zombies
      ensures zombies == if Forgotten(old(zombies)[id], totalTime) then old(zombies) - {id} else old(zombies)
      ensures more == forSend + var o := old(zombies)[id];
        if Forgotten(o, totalTime) || Skipped(ackSendedEvent, process, id, o) then []
        else [PacketOf(process, id, o, totalTime)]
    {
      more := forSend;
      var obj := zombies[id];
      if obj.forRemove && totalTime > obj.lastEvent + FORGET_AFTER {
        zombies := zombies - {id};
      } else if LastAck(ackSendedEvent, process, id) < obj.lastEvent {
        more := more + [PacketOf(process, id, obj, totalTime)];
      }
    }
  }

  // ---- The whole system

  datatype Event =
    | Add(id: int)
    | Tick(changed: set<int>, removed: set<int>)
    | RemoveUnstamped(ids: set<int>)
    | InitClient(process: int)
    | Deliver(packet: Packet)
    | AckArrives(ack: Ack)

  /** In one step of the game some objects have an event, which for some of them is their removal. */
  function Stamped(zombies: map<int, Obj>, now: int, changed: set<int>, removed: set<int>): map<int, Obj> {
    map id | id in zombies :: var o := zombies[id];
      if id in changed || id in removed then Obj(now, o.version + 1, o.forRemove || id in removed) else o
  }

  function Flagged(zombies: map<int, Obj>, ids: set<int>): map<int, Obj> {
    map id | id in zombies :: if id in ids then zombies[id].(forRemove := true) else zombies[id]
  }

  /** A client ignores a state older than the one it has. */
  function Received(replicas: map<(int, int), Packet>, p: Packet): map<(int, int), Packet> {
    if (p.process, p.id) in replicas && replicas[(p.process, p.id)].time > p.time then replicas
    else replicas[(p.process, p.id) := p]
  }

  function Step(s: System, e: Event): System {
    match e
    case Add(id) =>
      if id in s.used then s
      else s.(used := s.used + {id}, zombies := s.zombies[id := Obj(s.now, 1, false)])
    case Tick(changed, removed) => s.(now := s.now + 1, zombies := Stamped(s.zombies, s.now + 1, changed, removed))
    case RemoveUnstamped(ids) => s.(zombies := Flagged(s.zombies, ids))
    case InitClient(process) =>
      s.(zombies := Remaining(s.zombies, s.now), packets := s.packets + Outgoing(s.zombies, s.acks, process, s.now))
    case Deliver(p) =>
      if p !in s.packets then s
      else s.(replicas := Received(s.replicas, p), answers := s.answers + {Ack(p.process, p.id, p.time)})
    case AckArrives(a) =>
      if a !in s.answers then s else s.(acks := AfterAck(s.acks, a.process, a.id, a.time))
  }

  function Run(s: System, events: seq<Event>): System {
    if events == [] then s else Step(Run(s, events[..|events| - 1]), events[|events| - 1])
  }

  function Start(): System {
    System(0, map[], {}, map[], map[], {}, {})
  }

  // ---- What every step keeps

  /** What was sent at or after an object's last event is its present version. */
  predicate PacketOk(s: System, p: Packet) {
    && p.id in s.used && 0 <= p.time <= s.now
    && (p.id in s.zombies ==> p.version <= s.zombies[p.id].version)
    && (p.id in s.zombies && p.time >= s.zombies[p.id].lastEvent ==> p.version == s.zombies[p.id].version)
  }

  /** The client process has received a state of the object from that time or later. */
  predicate Has(s: System, process: int, id: int, time: int) {
    (process, id) in s.replicas && s.replicas[(process, id)].time >= time
  }

  ghost predicate Inv(s: System) {
    && 0 <= s.now
    && (forall id <- s.zombies :: id in s.used && 0 <= s.zombies[id].lastEvent <= s.now)
    && (forall p <- s.packets :: PacketOk(s, p))
    && (forall k <- s.replicas :: s.replicas[k] in s.packets && s.replicas[k].process == k.0 && s.replicas[k].id == k.1)
    && (forall a <- s.answers :: Has(s, a.process, a.id, a.time))
    && (forall process, id ::
          (LastAck(s.acks, process, id) != NEVER ==> Has(s, process, id, LastAck(s.acks, process, id))))
  }

  lemma TickKeeps(s: System, changed: set<int>, removed: set<int>)
    requires Inv(s)
    ensures Inv(Step(s, Tick(changed, removed)))
  {
    var r := Step(s, Tick(changed, removed));
    forall p | p in r.packets
      ensures PacketOk(r, p)
    {
      assert PacketOk(s, p);
    }
  }

  lemma ServerKeeps(s: System, e: Event)
    requires Inv(s) && (e.Add? || e.RemoveUnstamped? || e.InitClient?)
    ensures Inv(Step(s, e))
  {
    var r := Step(s, e);
    forall p | p in r.packets
      ensures PacketOk(r, p)
    {
      if p in s.packets {
        assert PacketOk(s, p);
      }
    }
  }

  lemma DeliverKeeps(s: System, p: Packet)
    requires Inv(s)
    ensures Inv(Step(s, Deliver(p)))
  {
    var r := Step(s, Deliver(p));
    forall q | q in r.packets
      ensures PacketOk(r, q)
    {
      assert PacketOk(s, q);
    }
    assert forall process, id, time :: Has(s, process, id, time) ==> Has(r, process, id, time);
  }

  lemma AckKeeps(s: System, a: Ack)
    requires Inv(s)
    ensures Inv(Step(s, AckArrives(a)))
  {
    var r := Step(s, AckArrives(a));
    forall q | q in r.packets
      ensures PacketOk(r, q)
    {
      assert PacketOk(s, q);
    }
    assert forall process, id, time :: Has(s, process, id, time) == Has(r, process, id, time);
    forall process, id
      ensures || LastAck(r.acks, process, id) == LastAck(s.acks, process, id)
              || (a in s.answers && process == a.process && id == a.id && LastAck(r.acks, process, id) == a.time)
    {
      AckChangesOne(s.acks, a, process, id);
    }
  }

  lemma AckChangesOne(acks: Acks, a: Ack, process: int, id: int)
    ensures LastAck(AfterAck(acks, a.process, a.id, a.time), process, id) ==
      if process == a.process && id == a.id && LastAck(acks, process, id) < a.time then a.time
      else LastAck(acks, process, id)
  {
  }

  lemma {:induction false} EveryRunKeeps(events: seq<Event>)
    ensures Inv(Run(Start(), events))
  {
    if events != [] {
      var before, e := Run(Start(), events[..|events| - 1]), events[|events| - 1];
      EveryRunKeeps(events[..|events| - 1]);
      match e
      case Tick(changed, removed) => TickKeeps(before, changed, removed);
      case Deliver(p) => DeliverKeeps(before, p);
      case AckArrives(a) => AckKeeps(before, a);
      case _ => ServerKeeps(before, e);
    }
  }

  // ---- Main results

  /** In every run, an object is left out of a client's update only if that client holds its present version. */
  lemma SkippedMeansKnown(events: seq<Event>, process: int, id: int)
    ensures var s := Run(Start(), events);
      id in s.zombies && Skipped(s.acks, process, id, s.zombies[id]) ==>
        && Has(s, process, id, s.zombies[id].lastEvent)
        && s.replicas[(process, id)].version == s.zombies[id].version
  {
    EveryRunKeeps(events);
    var s := Run(Start(), events);
    if id in s.zombies && Skipped(s.acks, process, id, s.zombies[id]) {
      assert PacketOk(s, s.replicas[(process, id)]);
    }
  }

  /** Once a state sent after the last event was delivered and its answer arrived, the object is left out. */
  lemma AnsweredMeansSkipped(s: System, p: Packet)
    requires Inv(s) && p in s.packets && p.id in s.zombies && p.time >= s.zombies[p.id].lastEvent
    ensures var r := Step(Step(s, Deliver(p)), AckArrives(Ack(p.process, p.id, p.time)));
      && p.id in r.zombies && Skipped(r.acks, p.process, p.id, r.zombies[p.id])
      && r.replicas[(p.process, p.id)].version == r.zombies[p.id].version
  {
    var d := Step(s, Deliver(p));
    DeliverKeeps(s, p);
    AckKeeps(d, Ack(p.process, p.id, p.time));
    var r := Step(d, AckArrives(Ack(p.process, p.id, p.time)));
    assert Has(r, p.process, p.id, p.time);
    assert PacketOk(r, r.replicas[(p.process, p.id)]);
  }

  /** Any new event of an object is sent to every client process at its next update, whatever it acknowledged before. */
  lemma EventsAreSent(s: System, changed: set<int>, removed: set<int>, process: int, id: int)
    requires Inv(s) && id in s.zombies && (id in changed || id in removed)
    ensures var t := Step(s, Tick(changed, removed));
      id in t.zombies && PacketOf(process, id, t.zombies[id], t.now) in Step(t, InitClient(process)).packets
  {
    var t := Step(s, Tick(changed, removed));
    TickKeeps(s, changed, removed);
    AcksArePast(s, process, id);
    assert t.acks == s.acks && t.zombies[id].lastEvent == t.now;
  }

  lemma AcksArePast(s: System, process: int, id: int)
    requires Inv(s)
    ensures LastAck(s.acks, process, id) <= s.now
  {
    if LastAck(s.acks, process, id) != NEVER {
      assert Has(s, process, id, LastAck(s.acks, process, id));
      assert PacketOk(s, s.replicas[(process, id)]);
    }
  }

  // ---- Removals that stamp no event

  /** The event neither stamps the object nor files another under its id. */
  predicate LeavesStamp(e: Event, id: int) {
    e.Tick? ==> id !in e.changed && id !in e.removed
  }

  /** The object is still known by its last event, or forgotten, and the client is taken to know it. */
  predicate Settled(s: System, process: int, id: int, last: int) {
    id in s.used && LastAck(s.acks, process, id) >= last && (id in s.zombies ==> s.zombies[id].lastEvent == last)
  }

  lemma AcksOnlyGrow(acks: Acks, a: Ack, process: int, id: int)
    ensures LastAck(AfterAck(acks, a.process, a.id, a.time), process, id) >= LastAck(acks, process, id)
  {
  }

  lemma SettledStays(s: System, e: Event, process: int, id: int, last: int)
    requires Settled(s, process, id, last) && LeavesStamp(e, id)
    ensures Settled(Step(s, e), process, id, last)
    ensures forall p <- Step(s, e).packets :: p.process == process && p.id == id ==> p in s.packets
  {
    if e.AckArrives? {
      AcksOnlyGrow(s.acks, e.ack, process, id);
    }
  }

  /** Whatever happens, a client that acknowledged an object's last event hears nothing of it until the next event. */
  lemma {:induction false} SettledIsSilent(s: System, events: seq<Event>, process: int, id: int, last: int)
    requires Settled(s, process, id, last) && forall e <- events :: LeavesStamp(e, id)
    ensures var r := Run(s, events);
      Settled(r, process, id, last) && forall p <- r.packets :: p.process == process && p.id == id ==> p in s.packets
  {
    if events != [] {
      var before, e := events[..|events| - 1], events[|events| - 1];
      assert events == before + [e];
      SettledIsSilent(s, before, process, id, last);
      SettledStays(Run(s, before), e, process, id, last);
    }
  }

  /**
   * A client that acknowledged the last event is never told of a removal that stamps none, as long as no event
   * follows.
   */
  lemma UnstampedRemovalIsNeverTold(s: System, process: int, id: int, events: seq<Event>)
    requires Inv(s) && id in s.zombies && Skipped(s.acks, process, id, s.zombies[id])
    requires forall e <- events :: LeavesStamp(e, id)
    ensures forall p <- Run(Step(s, RemoveUnstamped({id})), events).packets ::
      p.process == process && p.id == id ==> p in s.packets
  {
    SettledIsSilent(Step(s, RemoveUnstamped({id})), events, process, id, s.zombies[id].lastEvent);
  }

  /** The object stays marked as removed while it is registered. */
  lemma {:induction false} RemovalStays(s: System, events: seq<Event>, id: int)
    requires id in s.used && (id in s.zombies ==> s.zombies[id].forRemove)
    ensures var r := Run(s, events); id in r.used && (id in r.zombies ==> r.zombies[id].forRemove)
  {
    if events != [] {
      RemovalStays(s, events[..|events| - 1], id);
    }
  }

  /**
   * After any further events, the client's next update tells the removal exactly if the object is not yet forgotten
   * and the client has not acknowledged its last event.
   */
  lemma UnstampedRemovalIsToldExactly(s: System, process: int, id: int, events: seq<Event>)
    requires Inv(s) && id in s.zombies
    ensures var r := Run(Step(s, RemoveUnstamped({id})), events);
      (exists p <- Outgoing(r.zombies, r.acks, process, r.now) :: p.id == id && p.removed)
      <==> id in r.zombies && !Forgotten(r.zombies[id], r.now) && !Skipped(r.acks, process, id, r.zombies[id])
  {
    var r := Run(Step(s, RemoveUnstamped({id})), events);
    RemovalStays(Step(s, RemoveUnstamped({id})), events, id);
    if id in r.zombies && !Forgotten(r.zombies[id], r.now) && !Skipped(r.acks, process, id, r.zombies[id]) {
      assert PacketOf(process, id, r.zombies[id], r.now) in Outgoing(r.zombies, r.acks, process, r.now);
    }
  }

  /** A run that gets there: an object is filed, sent, received and acknowledged, and then removed without an event. */
  lemma SettledIsReached(process: int, id: int)
    ensures var p := Packet(process, id, 0, 1, false);
      var s := Run(Start(), [Add(id), InitClient(process), Deliver(p), AckArrives(Ack(process, id, 0))]);
      Inv(s) && id in s.zombies && !s.zombies[id].forRemove && Skipped(s.acks, process, id, s.zombies[id])
  {
    var p := Packet(process, id, 0, 1, false);
    var acts := [Add(id), InitClient(process), Deliver(p), AckArrives(Ack(process, id, 0))];
    var s1 := Step(Start(), acts[0]);
    assert s1.zombies == map[id := Obj(0, 1, false)];
    var s2 := Step(s1, acts[1]);
    assert p == PacketOf(process, id, s1.zombies[id], 0) && p in s2.packets;
    var s3 := Step(s2, acts[2]);
    RunOfFour(Start(), acts);
    EveryRunKeeps(acts);
  }

  lemma RunOfFour(s: System, acts: seq<Event>)
    requires |acts| == 4
    ensures Run(s, acts) == Step(Step(Step(Step(s, acts[0]), acts[1]), acts[2]), acts[3])
  {
    assert acts[..3][..2] == acts[..2] && acts[..2][..1] == acts[..1] && acts[..1][..0] == [];
    assert Run(s, acts[..1]) == Step(s, acts[0]);
    assert Run(s, acts[..2]) == Step(Run(s, acts[..1]), acts[1]);
    assert Run(s, acts[..3]) == Step(Run(s, acts[..2]), acts[2]);
  }
}
