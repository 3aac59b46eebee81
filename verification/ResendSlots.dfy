/** Which out-box slot a submission takes, and how long it keeps it. */
module ResendSlots {
  import opened Resend

  /** The submission still has its slot and was not acknowledged, so it can be sent again. */
  predicate Holds(s: Server, i: nat) {
    i < |s.records| && Active(s.ports, Entry(s.records[i].port, s.records[i].slot, i, 0))
  }

  predicate AnyCanceled(s: Server, p: nat) {
    p < |s.ports| && !NoneCanceled(s.ports[p].box)
  }

  /**
   * A submission is sent at once and takes a canceled slot if its port has one, which silences no other; otherwise it
   * takes the next slot around, which silences exactly the submission that holds it.
   */
  lemma SubmissionTakesSlot(s: Server, p: nat, msgId: int, maxTries: nat)
    requires Inv(s) && p < |s.ports|
    ensures var i, r := |s.records|, Step(s, Submit(p, msgId, maxTries));
      && |r.records| == i + 1 && r.records[..i] == s.records && Holds(r, i)
      && r.records[i] == Record(p, r.records[i].slot, msgId, maxTries, [s.now]) && r.records[i].slot < |s.ports[p].box|
      && (AnyCanceled(s, p) ==> s.ports[p].box[r.records[i].slot].canceled && r.ports[p].head == s.ports[p].head)
      && (!AnyCanceled(s, p) ==> r.records[i].slot == r.ports[p].head == (s.ports[p].head + 1) % OUT_BOX_SIZE)
      && forall j :: 0 <= j < i ==>
           (Holds(r, j) <==> Holds(s, j) && !(s.records[j].port == p && s.records[j].slot == r.records[i].slot))
  {
    forall j | 0 <= j < |s.records|
      ensures HasSlot(s.ports, s.records[j].port, s.records[j].slot)
    {
      assert RecordOk(s, j);
    }
  }

  /** Where there is a canceled slot, a submission silences no other. */
  lemma CanceledSlotsGoFirst(s: Server, p: nat, msgId: int, maxTries: nat, j: nat)
    requires Inv(s) && AnyCanceled(s, p) && Holds(s, j)
    ensures Holds(Step(s, Submit(p, msgId, maxTries)), j)
  {
    SubmissionTakesSlot(s, p, msgId, maxTries);
  }

  /** An acknowledgement silences exactly the submissions of that message on that port. */
  lemma AckSilencesExactly(s: Server, p: nat, msgId: int, j: nat)
    requires Inv(s) && p < |s.ports|
    ensures var r := Step(s, Ack(p, msgId));
      Holds(r, j) <==> Holds(s, j) && !(s.records[j].port == p && s.records[j].msgId == msgId)
  {
    if j < |s.records| {
      assert RecordOk(s, j);
      assert SlotOk(s, s.records[j].port, s.records[j].slot);
    }
  }

  /**
   * An update sends a submission, once, exactly if it has its slot, its last send is 200 ms past, and it has tries
   * left: one after the first send, or as many as it was given.
   */
  lemma UpdateSendsExactly(s: Server, now: int, i: nat)
    requires Inv(s) && s.now <= now && i < |s.records|
    ensures var sends, r := s.records[i].sends, Step(s, Update(now));
      && sends != [] && |r.records| == |s.records|
      && var left := |sends| < if s.records[i].maxTries == 0 then 2 else 1 + s.records[i].maxTries;
      r.records[i] == s.records[i].(
        sends := if Holds(s, i) && left && sends[|sends| - 1] + 200 <= now then sends + [now] else sends)
  {
    UpdateSendsWhatIsDue(s, now);
  }

  // ---- The memory of messages

  /** A slot's message is freed once its submission has had all its sends, and not before. */
  ghost predicate FreedInTime(s: Server) {
    forall p, k :: HasSlot(s.ports, p, k) ==> IsFreedInTime(s, Slot(s.ports, p, k))
  }

  predicate IsFreedInTime(s: Server, h: Handler) {
    0 <= h.id < |s.records| ==>
      (h.hasMsg <==> |s.records[h.id].sends| < if s.records[h.id].maxTries == 0 then 2 else 1 + s.records[h.id].maxTries)
  }

  lemma SubmitFrees(s: Server, p: nat, msgId: int, maxTries: nat)
    requires Inv(s) && FreedInTime(s) && p < |s.ports|
    ensures FreedInTime(AfterSubmit(s, p, msgId, maxTries))
  {
    var r := AfterSubmit(s, p, msgId, maxTries);
    forall q, k | HasSlot(r.ports, q, k)
      ensures IsFreedInTime(r, Slot(r.ports, q, k))
    {
      assert HasSlot(s.ports, q, k) && SlotOk(s, q, k) && IsFreedInTime(s, Slot(s.ports, q, k));
    }
  }

  lemma SendFrees(s: Server)
    requires Inv(s) && FreedInTime(s) && s.queue != [] && Active(s.ports, s.queue[0])
    ensures FreedInTime(DoJob(s.(queue := s.queue[1..]), s.queue[0]))
  {
    var e, r := s.queue[0], DoJob(s.(queue := s.queue[1..]), s.queue[0]);
    assert EntryOk(s, e) && SlotOk(s, e.port, e.slot);
    forall p, k | HasSlot(r.ports, p, k)
      ensures IsFreedInTime(r, Slot(r.ports, p, k))
    {
      assert HasSlot(s.ports, p, k) && SlotOk(s, p, k) && IsFreedInTime(s, Slot(s.ports, p, k));
    }
  }

  lemma {:induction false} DrainFrees(s: Server)
    requires Inv(s) && FreedInTime(s)
    ensures FreedInTime(Drain(s))
    decreases DueCount(s.queue, s.now)
  {
    if DueCount(s.queue, s.now) > 0 {
      if Active(s.ports, s.queue[0]) {
        SendKeeps(s);
        SendShortens(s);
        SendFrees(s);
        DrainFrees(DoJob(s.(queue := s.queue[1..]), s.queue[0]));
      } else {
        DropKeeps(s);
        DrainFrees(s.(queue := s.queue[1..]));
      }
    }
  }

  /** In every run, a message is freed exactly when the last of its sends is done, unless its slot is taken before. */
  lemma {:induction false} MessagesAreFreedInTime(s: Server, events: seq<Event>)
    requires Fresh(s)
    ensures Inv(Run(s, events)) && FreedInTime(Run(s, events))
  {
    FreshIsInv(s);
    if events != [] {
      var b, e := Run(s, events[..|events| - 1]), events[|events| - 1];
      MessagesAreFreedInTime(s, events[..|events| - 1]);
      StepKeeps(b, e);
      StepFrees(b, e);
    }
  }

  lemma StepFrees(s: Server, e: Event)
    requires Inv(s) && FreedInTime(s)
    ensures FreedInTime(Step(s, e))
  {
    if e.Submit? && e.port < |s.ports| {
      SubmitFrees(s, e.port, e.msgId, e.maxTries);
    } else if e.Update? && s.now <= e.now {
      ClockKeeps(s, e.now);
      UpdateIsDrain(s.(now := e.now));
      assert FreedInTime(s.(now := e.now)) by {
        ClockFrees(s, e.now);
      }
      DrainFrees(s.(now := e.now));
    } else if e.Ack? && e.port < |s.ports| {
      AckFrees(s, e.port, e.msgId);
    } else if e.Clock? {
      ClockFrees(s, e.now);
    }
  }

  lemma ClockFrees(s: Server, now: int)
    requires FreedInTime(s)
    ensures FreedInTime(s.(now := now))
  {
    forall p, k | HasSlot(s.ports, p, k)
      ensures IsFreedInTime(s.(now := now), Slot(s.ports, p, k))
    {
      assert IsFreedInTime(s, Slot(s.ports, p, k));
    }
  }

  lemma AckFrees(s: Server, p: nat, msgId: int)
    requires FreedInTime(s) && p < |s.ports|
    ensures FreedInTime(AfterAck(s, p, msgId))
  {
    var r := AfterAck(s, p, msgId);
    forall q, k | HasSlot(r.ports, q, k)
      ensures IsFreedInTime(r, Slot(r.ports, q, k))
    {
      assert HasSlot(s.ports, q, k) && IsFreedInTime(s, Slot(s.ports, q, k));
    }
  }

  // ---- Submissions in a row

  function SubmitsTo(events: seq<Event>, p: nat): nat {
    if events == [] then 0
    else
      var e := events[|events| - 1];
      SubmitsTo(events[..|events| - 1], p) + if e.Submit? && e.port == p then 1 else 0
  }

  /** Slots are of the same submissions, canceled or not, and the heads have not moved. */
  ghost predicate SameSlots(ports: seq<Port>, later: seq<Port>) {
    && |later| == |ports|
    && (forall p :: 0 <= p < |ports| ==> |later[p].box| == |ports[p].box| && later[p].head == ports[p].head)
    && forall p, k :: HasSlot(ports, p, k) && HasSlot(later, p, k) ==>
         Slot(later, p, k).id == Slot(ports, p, k).id && Slot(later, p, k).canceled == Slot(ports, p, k).canceled
  }

  lemma {:induction false} SendingKeepsSlots(s: Server, jobs: seq<Entry>)
    requires forall e <- jobs :: HasSlot(s.ports, e.port, e.slot)
    ensures SameSlots(s.ports, DoJobs(s, jobs).ports)
    decreases |jobs|
  {
    if jobs != [] {
      var d := DoJob(s, jobs[0]);
      assert SameSlots(s.ports, d.ports);
      SendingKeepsSlots(d, jobs[1..]);
    }
  }

  lemma UpdateKeepsSlots(s: Server, i: nat)
    requires Inv(s) && i < |s.records|
    ensures SameSlots(s.ports, AfterUpdate(s).ports) && |AfterUpdate(s).records| == |s.records|
    ensures AfterUpdate(s).records[i] == s.records[i].(sends := AfterUpdate(s).records[i].sends)
  {
    var k := DueCount(s.queue, s.now);
    SendingKeepsSlots(s.(queue := s.queue[k..]), ActiveOnes(s.ports, s.queue[..k]));
    UpdateIsDrain(s);
    DrainKeeps(s);
    DrainSendsWhatIsDue(s, i);
  }

  lemma SameSlotsHoldTheSame(s: Server, r: Server, i: nat)
    requires SameSlots(s.ports, r.ports) && i < |s.records| == |r.records|
    requires r.records[i] == s.records[i].(sends := r.records[i].sends)
    ensures Holds(r, i) <==> Holds(s, i)
  {
  }

  /** No event but a submission to the port moves its head, or silences a submission of it unless a slot is canceled. */
  lemma OtherEventsKeepSlots(s: Server, e: Event, p: nat, i: nat)
    requires Inv(s) && p < |s.ports| && !(e.Submit? && e.port == p) && !AnyCanceled(Step(s, e), p)
    requires i < |s.records| && s.records[i].port == p
    ensures |Step(s, e).ports| == |s.ports| && Step(s, e).ports[p].head == s.ports[p].head
    ensures |s.records| <= |Step(s, e).records| && Step(s, e).records[i].port == p
    ensures Step(s, e).records[i].slot == s.records[i].slot && (Holds(Step(s, e), i) <==> Holds(s, i))
  {
    if e.Update? && s.now <= e.now {
      var t := s.(now := e.now);
      ClockKeeps(s, e.now);
      UpdateKeepsSlots(t, i);
      SameSlotsHoldTheSame(t, AfterUpdate(t), i);
    } else if e.Submit? && e.port < |s.ports| {
      SubmissionTakesSlot(s, e.port, e.msgId, e.maxTries);
    } else if e.Ack? && e.port == p {
      AckSilencesExactly(s, p, e.msgId, i);
      if s.records[i].msgId == e.msgId {
        NoneWasCanceled(s, p, e.msgId, i);
      }
    }
  }

  lemma NoneWasCanceled(s: Server, p: nat, msgId: int, i: nat)
    requires Inv(s) && p < |s.ports| && !AnyCanceled(AfterAck(s, p, msgId), p)
    requires i < |s.records| && s.records[i].port == p && s.records[i].msgId == msgId
    ensures !Holds(s, i)
  {
    assert RecordOk(s, i) && SlotOk(s, p, s.records[i].slot);
    var k, r := s.records[i].slot, AfterAck(s, p, msgId);
    assert !r.ports[p].box[k].canceled;
  }

  /** In none of the states of a run, from the first to the last, is a slot of the port canceled. */
  ghost predicate NeverCanceled(s: Server, events: seq<Event>, p: nat)
    requires Shaped(s)
  {
    !AnyCanceled(Run(s, events), p) && (events != [] ==> NeverCanceled(s, events[..|events| - 1], p))
  }

  /** How many further submissions to the port go by before it is the slot's turn. */
  function Turns(slot: nat, head: nat): (n: int)
    ensures 0 <= n < 16
  {
    (slot - head - 1) % 16
  }

  /** After `n` further submissions: the submission keeps its slot until its turn comes. */
  ghost predicate InTurn(r: Server, p: nat, i: nat, slot: nat, turns: nat, n: nat) {
    && p < |r.ports| && i < |r.records| && r.records[i].port == p && r.records[i].slot == slot < 16
    && (Holds(r, i) <==> n <= turns) && (n <= turns ==> Turns(slot, r.ports[p].head) == turns - n)
  }

  lemma FirstInTurn(s: Server, i: nat)
    requires Inv(s) && Holds(s, i)
    ensures var p, k := s.records[i].port, s.records[i].slot;
      p < |s.ports| && InTurn(s, p, i, k, Turns(k, s.ports[p].head), 0)
  {
    assert RecordOk(s, i);
  }

  lemma NextInTurn(b: Server, p: nat, m: int, t: nat, i: nat, slot: nat, turns: nat, n: nat)
    requires Inv(b) && InTurn(b, p, i, slot, turns, n) && !AnyCanceled(b, p)
    ensures InTurn(Step(b, Submit(p, m, t)), p, i, slot, turns, n + 1)
  {
    SubmissionTakesSlot(b, p, m, t);
    var r := Step(b, Submit(p, m, t));
    assert r.records[i] == r.records[..|b.records|][i];
    NextTurn(slot, b.ports[p].head);
  }

  lemma StillInTurn(b: Server, e: Event, p: nat, i: nat, slot: nat, turns: nat, n: nat)
    requires Inv(b) && InTurn(b, p, i, slot, turns, n) && !AnyCanceled(Step(b, e), p) && !(e.Submit? && e.port == p)
    ensures InTurn(Step(b, e), p, i, slot, turns, n)
  {
    OtherEventsKeepSlots(b, e, p, i);
  }

  lemma NextTurn(slot: nat, head: nat)
    requires slot < 16
    ensures (head + 1) % 16 == slot <==> Turns(slot, head) == 0
    ensures Turns(slot, head) > 0 ==> Turns(slot, (head + 1) % 16) == Turns(slot, head) - 1
  {
  }

  /**
   * As long as no slot of its port is canceled, the port's submissions take its slots in turn, and a submission keeps
   * its slot exactly until that slot's turn comes.
   */
  lemma {:induction false} SlotsAreTakenInTurn(s: Server, events: seq<Event>, i: nat)
    requires Inv(s) && Holds(s, i) && NeverCanceled(s, events, s.records[i].port)
    ensures Inv(Run(s, events))
    ensures var p := s.records[i].port;
      p < |s.ports|
      && var k := s.records[i].slot;
      InTurn(Run(s, events), p, i, k, Turns(k, s.ports[p].head), SubmitsTo(events, p))
  {
    if events == [] {
      FirstInTurn(s, i);
    } else {
      var before, e := events[..|events| - 1], events[|events| - 1];
      var b, p, k := Run(s, before), s.records[i].port, s.records[i].slot;
      SlotsAreTakenInTurn(s, before, i);
      StepKeeps(b, e);
      if e.Submit? && e.port == p {
        NextInTurn(b, p, e.msgId, e.maxTries, i, k, Turns(k, s.ports[p].head), SubmitsTo(before, p));
      } else {
        StillInTurn(b, e, p, i, k, Turns(k, s.ports[p].head), SubmitsTo(before, p));
      }
    }
  }

  /**
   * Submissions in a row to a port without canceled slots: each takes the next slot around, the first sixteen different
   * ones, and a submission keeps its slot until exactly the sixteenth further one.
   */
  lemma SixteenInARow(s: Server, p: nat, msgId: int, maxTries: nat, d: Server, events: seq<Event>, r: Server)
    requires Inv(s) && p < |s.ports| && !AnyCanceled(s, p) && d == AfterSubmit(s, p, msgId, maxTries)
    requires NeverCanceled(d, events, p) && r == Run(d, events)
    ensures var i, n := |s.records|, SubmitsTo(events, p);
      && i < |r.records| && p < |r.ports| && (Holds(r, i) <==> n < 16)
      && forall m, t :: NextIs(r, p, m, t, r.records[i].slot, n)
  {
    var i, n := |s.records|, SubmitsTo(events, p);
    InTurnFromTheStart(s, p, msgId, maxTries, events);
    forall m, t
      ensures NextIs(r, p, m, t, r.records[i].slot, n)
    {
      NextSlot(r, p, m, t, d.ports[p].head, n);
    }
  }

  /** The next submission takes the slot behind `n` others. */
  predicate NextIs(r: Server, p: nat, m: int, t: nat, slot: nat, n: nat)
    requires Shaped(r) && p < |r.ports|
  {
    var next := AfterSubmit(r, p, m, t);
    && |next.records| == |r.records| + 1
    && (n < 16 ==> next.records[|r.records|].slot == (slot + n + 1) % 16)
    && (n < 15 ==> next.records[|r.records|].slot != slot)
  }

  lemma InTurnFromTheStart(s: Server, p: nat, msgId: int, maxTries: nat, events: seq<Event>)
    requires Inv(s) && p < |s.ports| && !AnyCanceled(s, p)
    requires NeverCanceled(AfterSubmit(s, p, msgId, maxTries), events, p)
    ensures var d := AfterSubmit(s, p, msgId, maxTries);
      && Inv(Run(d, events)) && p < |d.ports|
      && InTurn(Run(d, events), p, |s.records|, d.ports[p].head, 15, SubmitsTo(events, p))
  {
    StepKeeps(s, Submit(p, msgId, maxTries));
    SubmissionTakesSlot(s, p, msgId, maxTries);
    SlotsAreTakenInTurn(AfterSubmit(s, p, msgId, maxTries), events, |s.records|);
  }

  lemma NextSlot(r: Server, p: nat, m: int, t: nat, slot: nat, n: nat)
    requires Inv(r) && p < |r.ports| && !AnyCanceled(r, p) && slot < 16
    requires n < 16 ==> Turns(slot, r.ports[p].head) == 15 - n
    ensures NextIs(r, p, m, t, slot, n)
  {
    SubmissionTakesSlot(r, p, m, t);
    SameTurn(slot, r.ports[p].head, n);
  }

  lemma SameTurn(slot: nat, head: nat, n: nat)
    requires slot < 16 && (n < 16 ==> Turns(slot, head) == 15 - n)
    ensures n < 16 ==> (head + 1) % 16 == (slot + n + 1) % 16
    ensures n < 15 ==> (head + 1) % 16 != slot
  {
  }
}
