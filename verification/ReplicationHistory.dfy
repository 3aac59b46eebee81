/** What the server knows and sends of an object, in terms of the events since the start. */
module ReplicationHistory {
  import opened Replication

  // ---- The history of an object

  /** Every step of the game counts. */
  function Now(events: seq<Event>): nat {
    if events == [] then 0
    else Now(events[..|events| - 1]) + if events[|events| - 1].Tick? then 1 else 0
  }

  predicate WasAdded(events: seq<Event>, id: int) {
    Add(id) in events
  }

  /** The event stamps the object, if it is there. */
  predicate Stamps(e: Event, id: int) {
    e.Tick? && (id in e.changed || id in e.removed)
  }

  predicate Removes(e: Event, id: int) {
    (e.Tick? && id in e.removed) || (e.RemoveUnstamped? && id in e.ids)
  }

  /** The step of its last event; being added is the first. */
  function LastEvent(events: seq<Event>, id: int): int
    requires WasAdded(events, id)
  {
    var before, e := events[..|events| - 1], events[|events| - 1];
    assert events == before + [e];
    if !WasAdded(before, id) || Stamps(e, id) then Now(events) else LastEvent(before, id)
  }

  /** How many events it has had, being added included. */
  function EventCount(events: seq<Event>, id: int): nat
    requires WasAdded(events, id)
  {
    var before, e := events[..|events| - 1], events[|events| - 1];
    assert events == before + [e];
    if !WasAdded(before, id) then 1 else EventCount(before, id) + if Stamps(e, id) then 1 else 0
  }

  /** Once added, it was removed, with an event or without. */
  predicate WasRemoved(events: seq<Event>, id: int) {
    events != []
    && var before, e := events[..|events| - 1], events[|events| - 1];
       WasRemoved(before, id) || (WasAdded(before, id) && Removes(e, id))
  }

  /** Removed, and its last event more than 180 steps past. */
  predicate IsLongGone(events: seq<Event>, id: int) {
    WasAdded(events, id) && WasRemoved(events, id) && Now(events) > LastEvent(events, id) + 180
  }

  /** Some client was updated when it was long gone. */
  predicate WasForgotten(events: seq<Event>, id: int) {
    events != []
    && var before, e := events[..|events| - 1], events[|events| - 1];
       WasForgotten(before, id) || (e.InitClient? && IsLongGone(before, id))
  }

  /** The server's state of an object is its history. */
  ghost predicate Remembers(s: System, events: seq<Event>, id: int) {
    && s.now == Now(events) && (id in s.used <==> WasAdded(events, id))
    && (id in s.zombies <==> WasAdded(events, id) && !WasForgotten(events, id))
    && (id in s.zombies ==>
          s.zombies[id] == Obj(LastEvent(events, id), EventCount(events, id), WasRemoved(events, id)))
  }

  lemma {:induction false} AddedBeforeRemoved(events: seq<Event>, id: int)
    ensures WasForgotten(events, id) ==> WasRemoved(events, id)
    ensures WasRemoved(events, id) ==> WasAdded(events, id)
  {
    if events != [] {
      var before, e := events[..|events| - 1], events[|events| - 1];
      assert events == before + [e];
      AddedBeforeRemoved(before, id);
    }
  }

  /** One more event, whatever the server held. */
  lemma OneMoreEvent(s: System, before: seq<Event>, e: Event, id: int)
    requires Inv(s) && Remembers(s, before, id)
    ensures Remembers(Step(s, e), before + [e], id)
  {
    var events := before + [e];
    assert events[..|events| - 1] == before && events[|events| - 1] == e;
    AddedBeforeRemoved(before, id);
    assert WasAdded(events, id) <==> WasAdded(before, id) || e == Add(id);
  }

  lemma {:induction false} HistoryIsRemembered(events: seq<Event>, id: int)
    ensures Remembers(Run(Start(), events), events, id)
  {
    if events != [] {
      var before, e := events[..|events| - 1], events[|events| - 1];
      HistoryIsRemembered(before, id);
      EveryRunKeeps(before);
      OneMoreEvent(Run(Start(), before), before, e, id);
      assert events == before + [e];
    }
  }

  // ---- Acknowledgements

  /** The latest time in the answers that arrived from the client process for the object; before any of them, -1. */
  ghost function Acknowledged(events: seq<Event>, process: int, id: int): int {
    if events == [] then -1
    else
      var before, e := events[..|events| - 1], events[|events| - 1];
      var t := Acknowledged(before, process, id);
      if e.AckArrives? && e.ack in Run(Start(), before).answers && e.ack.process == process && e.ack.id == id
      then if t < e.ack.time then e.ack.time else t
      else t
  }

  lemma {:induction false} AcksAreRemembered(events: seq<Event>, process: int, id: int)
    ensures LastAck(Run(Start(), events).acks, process, id) == Acknowledged(events, process, id)
  {
    if events != [] {
      var before, e := events[..|events| - 1], events[|events| - 1];
      AcksAreRemembered(before, process, id);
      if e.AckArrives? {
        AckChangesOne(Run(Start(), before).acks, e.ack, process, id);
      }
    }
  }

  // ---- Main results

  /** An object that was never removed is never forgotten, however long ago its last event was. */
  lemma LiveObjectsStay(events: seq<Event>, id: int)
    requires WasAdded(events, id) && !WasRemoved(events, id)
    ensures var s := Run(Start(), events); id in s.zombies && s.zombies[id].lastEvent == LastEvent(events, id)
  {
    HistoryIsRemembered(events, id);
    AddedBeforeRemoved(events, id);
  }

  /** An object is forgotten exactly at the first update of a client that finds it removed and 180 steps past. */
  lemma ForgottenExactly(events: seq<Event>, e: Event, id: int)
    requires id in Run(Start(), events).zombies
    ensures WasAdded(events, id)
    ensures id in Step(Run(Start(), events), e).zombies <==>
      !(e.InitClient? && WasRemoved(events, id) && Now(events) > LastEvent(events, id) + 180)
  {
    HistoryIsRemembered(events, id);
    EveryRunKeeps(events);
    OneMoreEvent(Run(Start(), events), events, e, id);
    assert (events + [e])[..|events|] == events;
  }

  /** The packet tells the object's present state, and the client has not acknowledged its last event. */
  ghost predicate IsNews(events: seq<Event>, process: int, p: Packet) {
    && WasAdded(events, p.id) && !WasForgotten(events, p.id) && !IsLongGone(events, p.id)
    && p == Packet(process, p.id, Now(events), EventCount(events, p.id), WasRemoved(events, p.id))
    && Acknowledged(events, process, p.id) < LastEvent(events, p.id)
  }

  /** In every run, the update of a client process sends exactly the news. */
  lemma UpdatesSendTheNews(events: seq<Event>, process: int)
    ensures var s := Run(Start(), events);
      forall p :: p in Step(s, InitClient(process)).packets <==> p in s.packets || IsNews(events, process, p)
  {
    var s := Run(Start(), events);
    forall p: Packet
      ensures p in Outgoing(s.zombies, s.acks, process, s.now) <==> IsNews(events, process, p)
    {
      HistoryIsRemembered(events, p.id);
      AcksAreRemembered(events, process, p.id);
    }
  }

  /** A live object is sent if and only if the client has not acknowledged its last event. */
  lemma LiveObjectsAreSentExactly(events: seq<Event>, process: int, id: int)
    requires WasAdded(events, id) && !WasRemoved(events, id)
    ensures var s := Run(Start(), events);
      var p := Packet(process, id, Now(events), EventCount(events, id), false);
      && (Acknowledged(events, process, id) < LastEvent(events, id) ==> p in Step(s, InitClient(process)).packets)
      && (Acknowledged(events, process, id) >= LastEvent(events, id) ==>
            forall q <- Step(s, InitClient(process)).packets :: q.process == process && q.id == id ==> q in s.packets)
  {
    UpdatesSendTheNews(events, process);
    AddedBeforeRemoved(events, id);
  }
}
