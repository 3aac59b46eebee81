/**
 * Resending of messages until they are acknowledged: out-box slots, versioned queue entries, and the periodic
 * update.
 */
module Resend {

  const OUT_BOX_SIZE: nat := 16
  const RESEND_DELAY: int := 200

  /** An out-box slot; `id` changes with every message put into it and is negative before the first. */
  datatype Handler = Handler(id: int, msgId: int, canceled: bool, tries: nat, maxTries: nat, time: int, hasMsg: bool)

  datatype Port = Port(box: seq<Handler>, head: nat)

  /** A queue entry: a slot, and the version and time it had when queued. */
  datatype Entry = Entry(port: nat, slot: nat, id: int, time: int)

  /** What became of one submission: its slot, its message and when it was sent. */
  datatype Record = Record(port: nat, slot: nat, msgId: int, maxTries: nat, sends: seq<int>)

  /** The server; version ids count submissions, so submission `id` is `records[id]`. */
  datatype Server = Server(ports: seq<Port>, queue: seq<Entry>, now: int, records: seq<Record>)

  function Last(sends: seq<int>): int
    requires sends != []
  {
    sends[|sends| - 1]
  }

  /** The first send, and then one for every try, at least one. */
  function Limit(maxTries: nat): nat {
    if maxTries == 0 then 2 else 1 + maxTries
  }

  predicate HasSlot(ports: seq<Port>, p: nat, k: nat) {
    p < |ports| && k < |ports[p].box|
  }

  function Slot(ports: seq<Port>, p: nat, k: nat): Handler
    requires HasSlot(ports, p, k)
  {
    ports[p].box[k]
  }

  function WithSlot(ports: seq<Port>, p: nat, k: nat, h: Handler): (r: seq<Port>)
    requires HasSlot(ports, p, k)
    ensures |r| == |ports| && forall q :: 0 <= q < |r| ==> |r[q].box| == |ports[q].box| && r[q].head == ports[q].head
    ensures forall q, j :: HasSlot(ports, q, j) ==> HasSlot(r, q, j)
    ensures forall q, j :: HasSlot(ports, q, j) && HasSlot(r, q, j) ==>
      Slot(r, q, j) == if q == p && j == k then h else Slot(ports, q, j)
  {
    ports[p := ports[p].(box := ports[p].box[k := h])]
  }

  // ---- The steps

  /** The index of the first canceled slot, or their number. */
  function FirstCanceled(box: seq<Handler>): (k: nat)
    ensures k <= |box| && (forall j :: 0 <= j < k ==> !box[j].canceled) && (k < |box| ==> box[k].canceled)
  {
    if box == [] || box[0].canceled then 0 else 1 + FirstCanceled(box[1..])
  }

  predicate NoneCanceled(box: seq<Handler>) {
    forall k :: 0 <= k < |box| ==> !box[k].canceled
  }

  /** A canceled slot if there is one, or else the slot after the last one taken so. */
  function Reserved(port: Port): (k: nat)
    requires |port.box| == OUT_BOX_SIZE
    ensures k < OUT_BOX_SIZE
  {
    var k := FirstCanceled(port.box);
    if k < |port.box| then k else (port.head + 1) % OUT_BOX_SIZE
  }

  predicate Shaped(s: Server) {
    forall p :: 0 <= p < |s.ports| ==> |s.ports[p].box| == OUT_BOX_SIZE
  }

  function AfterSubmit(s: Server, p: nat, msgId: int, maxTries: nat): (r: Server)
    requires Shaped(s) && p < |s.ports|
    ensures Shaped(r)
  {
    var port, id := s.ports[p], |s.records|;
    var k := Reserved(port);
    var port' := if port.box[k].canceled then port else port.(head := k);
    var time := s.now + RESEND_DELAY;
    Server(WithSlot(s.ports[p := port'], p, k, Handler(id, msgId, false, 1, maxTries, time, true)),
           s.queue + [Entry(p, k, id, time)], s.now, s.records + [Record(p, k, msgId, maxTries, [s.now])])
  }

  function Acked(box: seq<Handler>, msgId: int): seq<Handler> {
    seq(|box|, k requires 0 <= k < |box| => if box[k].msgId == msgId then box[k].(canceled := true) else box[k])
  }

  function AfterAck(s: Server, p: nat, msgId: int): Server
    requires p < |s.ports|
  {
    s.(ports := s.ports[p := s.ports[p].(box := Acked(s.ports[p].box, msgId))])
  }

  /** The slot still holds the message it held when the entry was queued, and was not acknowledged. */
  predicate Active(ports: seq<Port>, e: Entry) {
    HasSlot(ports, e.port, e.slot) && Slot(ports, e.port, e.slot).id == e.id && !Slot(ports, e.port, e.slot).canceled
  }

  function DoJob(s: Server, e: Entry): Server
    requires HasSlot(s.ports, e.port, e.slot)
  {
    var h := Slot(s.ports, e.port, e.slot);
    var records := if 0 <= h.id < |s.records|
      then s.records[h.id := s.records[h.id].(sends := s.records[h.id].sends + [s.now])] else s.records;
    var time := s.now + RESEND_DELAY;
    if h.tries < h.maxTries
    then Server(WithSlot(s.ports, e.port, e.slot, h.(tries := h.tries + 1, time := time)),
                s.queue + [Entry(e.port, e.slot, h.id, time)], s.now, records)
    else Server(WithSlot(s.ports, e.port, e.slot, h.(hasMsg := false)), s.queue, s.now, records)
  }

  /** The entries due, as long as they are in front. */
  function DueCount(q: seq<Entry>, now: int): (k: nat)
    ensures k <= |q| && (forall x :: 0 <= x < k ==> q[x].time <= now) && (k < |q| ==> q[k].time > now)
  {
    if q == [] || q[0].time > now then 0 else 1 + DueCount(q[1..], now)
  }

  function ActiveOnes(ports: seq<Port>, q: seq<Entry>): (r: seq<Entry>)
    ensures forall e <- r :: Active(ports, e)
  {
    if q == [] then []
    else if Active(ports, q[0]) then [q[0]] + ActiveOnes(ports, q[1..]) else ActiveOnes(ports, q[1..])
  }

  function DoJobs(s: Server, jobs: seq<Entry>): Server
    requires forall e <- jobs :: HasSlot(s.ports, e.port, e.slot)
    decreases |jobs|
  {
    if jobs == [] then s
    else
      assert forall e <- jobs[1..] :: HasSlot(s.ports, e.port, e.slot);
      DoJobs(DoJob(s, jobs[0]), jobs[1..])
  }

  /** One update as it is done: first take all due entries off, then send those still active. */
  function AfterUpdate(s: Server): Server {
    var k := DueCount(s.queue, s.now);
    DoJobs(s.(queue := s.queue[k..]), ActiveOnes(s.ports, s.queue[..k]))
  }

  datatype Event =
    | Submit(port: nat, msgId: int, maxTries: nat) | Ack(port: nat, msgId: int)
    | Clock(now: int) | Update(now: int)

  /** Time never runs backwards, and events name existing ports; others change nothing. */
  function Step(s: Server, e: Event): Server
    requires Shaped(s)
  {
    match e
    case Submit(p, m, t) => if p < |s.ports| then AfterSubmit(s, p, m, t) else s
    case Ack(p, m) => if p < |s.ports| then AfterAck(s, p, m) else s
    case Clock(now) => if s.now <= now then s.(now := now) else s
    case Update(now) => if s.now <= now then AfterUpdate(s.(now := now)) else s
  }

  // ---- What every step keeps

  ghost predicate Inv(s: Server) {
    && Shaped(s) && SlotsOk(s) && Sorted(s.queue) && Distinct(s.queue)
    && (forall e <- s.queue :: EntryOk(s, e))
    && (forall i :: 0 <= i < |s.records| ==> RecordOk(s, i))
  }

  /** A used slot holds the submission that its version id names. */
  ghost predicate SlotsOk(s: Server) {
    forall p, k :: HasSlot(s.ports, p, k) ==> SlotOk(s, p, k)
  }

  predicate SlotOk(s: Server, p: nat, k: nat)
    requires HasSlot(s.ports, p, k)
  {
    var h := Slot(s.ports, p, k);
    h.id < 0 || (h.id < |s.records| &&
      var r := s.records[h.id]; r.port == p && r.slot == k && r.msgId == h.msgId && r.maxTries == h.maxTries)
  }

  predicate Sorted(q: seq<Entry>) {
    forall x, y :: 0 <= x < y < |q| ==> q[x].time <= q[y].time
  }

  predicate Distinct(q: seq<Entry>) {
    forall x, y :: 0 <= x < y < |q| ==> q[x].id != q[y].id
  }

  /** An entry waits for the next send of its submission, and a slot that still holds it can send it. */
  predicate EntryOk(s: Server, e: Entry) {
    && 0 <= e.id < |s.records| && HasSlot(s.ports, e.port, e.slot) && e.time <= s.now + RESEND_DELAY
    && var r := s.records[e.id];
       var h := Slot(s.ports, e.port, e.slot);
    && r.port == e.port && r.slot == e.slot
    && 0 < |r.sends| < Limit(r.maxTries) && e.time == Last(r.sends) + RESEND_DELAY
    && (h.id == e.id ==> h.tries == |r.sends| && h.hasMsg)
  }

  predicate Spaced(sends: seq<int>) {
    forall x, y :: 0 <= x < |sends| - 1 && y == x + 1 ==> sends[x] + RESEND_DELAY <= sends[y]
  }

  /** The submission still waits for its acknowledgement and has sends left. */
  predicate Live(s: Server, i: nat) {
    && i < |s.records| && |s.records[i].sends| < Limit(s.records[i].maxTries)
    && Active(s.ports, Entry(s.records[i].port, s.records[i].slot, i, 0))
  }

  ghost predicate RecordOk(s: Server, i: nat)
    requires i < |s.records|
  {
    var r := s.records[i];
    && HasSlot(s.ports, r.port, r.slot)
    && 0 < |r.sends| <= Limit(r.maxTries) && Spaced(r.sends) && Last(r.sends) <= s.now
    && (Live(s, i) ==> exists e <- s.queue :: e.id == i)
  }

  ghost predicate Fresh(s: Server) {
    && Shaped(s) && s.queue == [] && s.records == []
    && forall p, k :: HasSlot(s.ports, p, k) ==> Slot(s.ports, p, k).id < 0
  }

  lemma FreshIsInv(s: Server)
    requires Fresh(s)
    ensures Inv(s)
  {
  }

  lemma SubmitKeeps(s: Server, p: nat, msgId: int, maxTries: nat)
    requires Inv(s) && p < |s.ports|
    ensures Inv(AfterSubmit(s, p, msgId, maxTries))
  {
    var r := AfterSubmit(s, p, msgId, maxTries);
    forall q, k | HasSlot(r.ports, q, k)
      ensures SlotOk(r, q, k)
    {
      assert HasSlot(s.ports, q, k) && SlotOk(s, q, k);
    }
    assert Last([s.now]) == s.now;
    forall e | e in s.queue
      ensures EntryOk(r, e)
    {
      assert EntryOk(s, e);
    }
    QueueGrows(s.queue, r.queue[|s.queue|]);
    forall i | 0 <= i < |r.records|
      ensures RecordOk(r, i)
    {
      if i < |s.records| {
        assert RecordOk(s, i);
        if Live(r, i) {
          assert Live(s, i);
        }
      }
    }
  }

  lemma QueueGrows(q: seq<Entry>, e: Entry)
    requires Sorted(q) && Distinct(q) && forall d <- q :: d.time <= e.time && d.id != e.id
    ensures Sorted(q + [e]) && Distinct(q + [e])
  {
  }

  lemma AckKeeps(s: Server, p: nat, msgId: int)
    requires Inv(s) && p < |s.ports|
    ensures Inv(AfterAck(s, p, msgId))
  {
    var r := AfterAck(s, p, msgId);
    forall q, k | HasSlot(r.ports, q, k)
      ensures SlotOk(r, q, k)
    {
      assert SlotOk(s, q, k);
    }
    forall i | 0 <= i < |r.records|
      ensures RecordOk(r, i)
    {
      assert RecordOk(s, i);
      assert Live(r, i) ==> Live(s, i);
    }
  }

  /** An entry that is no longer active can be dropped. */
  lemma DropKeeps(s: Server)
    requires Inv(s) && s.queue != [] && !Active(s.ports, s.queue[0])
    ensures Inv(s.(queue := s.queue[1..]))
  {
    var r := s.(queue := s.queue[1..]);
    RestOfQueue(s.queue);
    forall e | e in r.queue
      ensures EntryOk(r, e)
    {
      assert EntryOk(s, e);
    }
    forall i | 0 <= i < |r.records|
      ensures RecordOk(r, i)
    {
      assert RecordOk(s, i);
      assert EntryOk(s, s.queue[0]);
      if Live(r, i) {
        assert Live(s, i);
        var e :| e in s.queue && e.id == i;
        assert e != s.queue[0];
      }
    }
    forall p, k | HasSlot(r.ports, p, k)
      ensures SlotOk(r, p, k)
    {
      assert SlotOk(s, p, k);
    }
  }

  lemma RestOfQueue(q: seq<Entry>)
    requires q != [] && Sorted(q) && Distinct(q)
    ensures Sorted(q[1..]) && Distinct(q[1..]) && (forall e <- q :: e == q[0] || e in q[1..])
    ensures forall e <- q[1..] :: e in q && e.id != q[0].id && e.time >= q[0].time
  {
  }

  /** What sending the first entry does to the submissions. */
  lemma SendsOnce(s: Server)
    requires Inv(s) && s.queue != [] && Active(s.ports, s.queue[0])
    ensures var e, r := s.queue[0], DoJob(s.(queue := s.queue[1..]), s.queue[0]);
      && 0 <= e.id < |s.records| && r.now == s.now && |r.ports| == |s.ports|
      && r.records == s.records[e.id := s.records[e.id].(sends := s.records[e.id].sends + [s.now])]
      && (forall p, k :: HasSlot(s.ports, p, k) <==> HasSlot(r.ports, p, k))
      && (forall p, k ::
            (HasSlot(s.ports, p, k) && !(p == e.port && k == e.slot) ==> Slot(r.ports, p, k) == Slot(s.ports, p, k)))
      && var h, h' := Slot(s.ports, e.port, e.slot), Slot(r.ports, e.port, e.slot);
         var n := |s.records[e.id].sends|;
      && h'.id == h.id && h'.msgId == h.msgId && h'.canceled == h.canceled && h'.maxTries == h.maxTries
      && if n + 1 < Limit(h.maxTries)
         then h'.tries == n + 1 && h'.hasMsg
              && r.queue == s.queue[1..] + [Entry(e.port, e.slot, e.id, s.now + RESEND_DELAY)]
         else r.queue == s.queue[1..]
  {
    var e := s.queue[0];
    assert EntryOk(s, e) && SlotOk(s, e.port, e.slot);
  }

  lemma SpacedGrows(sends: seq<int>, t: int)
    requires sends != [] && Spaced(sends) && Last(sends) + RESEND_DELAY <= t
    ensures Spaced(sends + [t]) && Last(sends + [t]) == t
  {
  }

  /** Sending the first entry when it is due. */
  lemma SendKeeps(s: Server)
    requires Inv(s) && s.queue != [] && Active(s.ports, s.queue[0]) && s.queue[0].time <= s.now
    ensures Inv(DoJob(s.(queue := s.queue[1..]), s.queue[0]))
  {
    var e, rest, r := s.queue[0], s.queue[1..], DoJob(s.(queue := s.queue[1..]), s.queue[0]);
    assert EntryOk(s, e) && SlotOk(s, e.port, e.slot) && RecordOk(s, e.id);
    SendsOnce(s);
    RestOfQueue(s.queue);
    var sends := s.records[e.id].sends;
    SpacedGrows(sends, s.now);
    forall p, k | HasSlot(r.ports, p, k)
      ensures SlotOk(r, p, k)
    {
      assert SlotOk(s, p, k);
    }
    forall d | d in rest
      ensures EntryOk(r, d) && d.time <= s.now + RESEND_DELAY
    {
      assert EntryOk(s, d);
    }
    if r.queue != rest {
      QueueGrows(rest, r.queue[|rest|]);
    }
    forall i | 0 <= i < |r.records|
      ensures RecordOk(r, i)
    {
      SendKeepsRecord(s, i);
    }
  }

  lemma SendKeepsRecord(s: Server, i: nat)
    requires Inv(s) && s.queue != [] && Active(s.ports, s.queue[0]) && s.queue[0].time <= s.now
    requires i < |s.records|
    ensures i < |DoJob(s.(queue := s.queue[1..]), s.queue[0]).records|
    ensures RecordOk(DoJob(s.(queue := s.queue[1..]), s.queue[0]), i)
  {
    var e, r := s.queue[0], DoJob(s.(queue := s.queue[1..]), s.queue[0]);
    SendsOnce(s);
    assert RecordOk(s, i) && EntryOk(s, e) && SlotOk(s, e.port, e.slot);
    if i == e.id {
      SpacedGrows(s.records[i].sends, s.now);
      assert Live(r, i) ==> r.queue[|r.queue| - 1].id == i;
    } else if Live(r, i) {
      assert Live(s, i);
      var d :| d in s.queue && d.id == i;
      assert d in s.queue[1..];
    }
  }

  // ---- The update is as good as sending one due entry after the other

  /** Entries one at a time, each sent or dropped before the next is looked at. */
  function Drain(s: Server): Server
    requires Inv(s)
    decreases DueCount(s.queue, s.now)
  {
    if DueCount(s.queue, s.now) == 0 then s
    else if Active(s.ports, s.queue[0]) then
      SendKeeps(s);
      SendShortens(s);
      Drain(DoJob(s.(queue := s.queue[1..]), s.queue[0]))
    else
      DropKeeps(s);
      Drain(s.(queue := s.queue[1..]))
  }

  lemma {:induction false} DueCountOfMore(q: seq<Entry>, e: Entry, now: int)
    requires e.time > now
    ensures DueCount(q + [e], now) == DueCount(q, now)
    decreases |q|
  {
    if q != [] && q[0].time <= now {
      assert (q + [e])[1..] == q[1..] + [e];
      DueCountOfMore(q[1..], e, now);
    }
  }

  lemma SendShortens(s: Server)
    requires Inv(s) && DueCount(s.queue, s.now) > 0 && Active(s.ports, s.queue[0])
    ensures var r := DoJob(s.(queue := s.queue[1..]), s.queue[0]);
      DueCount(r.queue, r.now) == DueCount(s.queue, s.now) - 1
  {
    SendsOnce(s);
    var r := DoJob(s.(queue := s.queue[1..]), s.queue[0]);
    if r.queue != s.queue[1..] {
      DueCountOfMore(s.queue[1..], r.queue[|s.queue| - 1], s.now);
    }
  }

  lemma {:induction false} DrainKeeps(s: Server)
    requires Inv(s)
    ensures Inv(Drain(s)) && Drain(s).now == s.now && DueCount(Drain(s).queue, s.now) == 0
    ensures |Drain(s).records| == |s.records|
    decreases DueCount(s.queue, s.now)
  {
    if DueCount(s.queue, s.now) > 0 {
      if Active(s.ports, s.queue[0]) {
        SendKeeps(s);
        SendShortens(s);
        SendsOnce(s);
        DrainKeeps(DoJob(s.(queue := s.queue[1..]), s.queue[0]));
      } else {
        DropKeeps(s);
        DrainKeeps(s.(queue := s.queue[1..]));
      }
    }
  }

  /** Sending one entry leaves the others as active as they were. */
  lemma {:induction false} StillActive(s: Server, q: seq<Entry>)
    requires Inv(s) && s.queue != [] && Active(s.ports, s.queue[0])
    requires forall e <- q :: e.id != s.queue[0].id
    ensures ActiveOnes(DoJob(s.(queue := s.queue[1..]), s.queue[0]).ports, q) == ActiveOnes(s.ports, q)
    decreases |q|
  {
    if q != [] {
      SendsOnce(s);
      assert q[0].id != s.queue[0].id;
      StillActive(s, q[1..]);
    }
  }

  /** Taking all due entries off before any is sent comes to the same as sending one after the other. */
  lemma {:induction false} UpdateIsDrain(s: Server)
    requires Inv(s)
    ensures AfterUpdate(s) == Drain(s)
    decreases DueCount(s.queue, s.now)
  {
    var k := DueCount(s.queue, s.now);
    if k == 0 {
      assert s.queue[0..] == s.queue;
    } else if Active(s.ports, s.queue[0]) {
      ActiveFirst(s);
    } else {
      DropKeeps(s);
      var r := s.(queue := s.queue[1..]);
      assert s.queue[..k][1..] == r.queue[..k - 1] && s.queue[k..] == r.queue[k - 1..];
      UpdateIsDrain(r);
    }
  }

  /** A job only appends to the queue, and does so whatever is in it. */
  lemma DoJobAppends(s: Server, q: seq<Entry>, e: Entry)
    requires HasSlot(s.ports, e.port, e.slot)
    ensures var d := DoJob(s.(queue := []), e); DoJob(s.(queue := q), e) == d.(queue := q + d.queue)
  {
  }

  lemma TailOfJoined(q: seq<Entry>, more: seq<Entry>, k: nat)
    requires 0 < k <= |q|
    ensures (q[1..] + more)[k - 1..] == q[k..] + more && (q[1..] + more)[..k - 1] == q[..k][1..]
  {
  }

  lemma {:induction false} ActiveFirst(s: Server)
    requires Inv(s) && DueCount(s.queue, s.now) > 0 && Active(s.ports, s.queue[0])
    ensures AfterUpdate(s) == Drain(s)
    decreases DueCount(s.queue, s.now), 0
  {
    var k, e := DueCount(s.queue, s.now), s.queue[0];
    var r, d := DoJob(s.(queue := s.queue[1..]), e), DoJob(s.(queue := []), e);
    SendKeeps(s);
    SendShortens(s);
    RestOfQueue(s.queue);
    var others := s.queue[..k][1..];
    StillActive(s, others);
    DoJobAppends(s, s.queue[1..], e);
    DoJobAppends(s, s.queue[k..], e);
    TailOfJoined(s.queue, d.queue, k);
    FirstJob(s, s.queue[k..], s.queue[..k]);
    UpdateIsDrain(r);
  }

  lemma FirstJob(s: Server, rest: seq<Entry>, due: seq<Entry>)
    requires due != [] && Active(s.ports, due[0])
    requires ActiveOnes(DoJob(s.(queue := rest), due[0]).ports, due[1..]) == ActiveOnes(s.ports, due[1..])
    ensures DoJobs(s.(queue := rest), ActiveOnes(s.ports, due)) ==
            DoJobs(DoJob(s.(queue := rest), due[0]), ActiveOnes(s.ports, due[1..]))
  {
  }

  /** The sends of a submission after an update, whatever the queue looks like: one more if it waits and is due. */
  function SendsAfter(s: Server, i: nat): seq<int>
    requires i < |s.records| && s.records[i].sends != []
  {
    var sends := s.records[i].sends;
    if Live(s, i) && Last(sends) + RESEND_DELAY <= s.now then sends + [s.now] else sends
  }

  lemma {:induction false} DrainSendsWhatIsDue(s: Server, i: nat)
    requires Inv(s) && i < |s.records|
    ensures s.records[i].sends != [] && i < |Drain(s).records|
    ensures Drain(s).records[i] == s.records[i].(sends := SendsAfter(s, i))
    decreases DueCount(s.queue, s.now)
  {
    assert RecordOk(s, i);
    if DueCount(s.queue, s.now) == 0 {
      if Live(s, i) {
        var e :| e in s.queue && e.id == i;
        assert EntryOk(s, e);
      }
    } else if Active(s.ports, s.queue[0]) {
      var r := DoJob(s.(queue := s.queue[1..]), s.queue[0]);
      SendKeeps(s);
      SendShortens(s);
      SendsOnce(s);
      DrainSendsWhatIsDue(r, i);
      SentOrNot(s, i);
    } else {
      DropKeeps(s);
      DrainSendsWhatIsDue(s.(queue := s.queue[1..]), i);
    }
  }

  lemma SentOrNot(s: Server, i: nat)
    requires Inv(s) && DueCount(s.queue, s.now) > 0 && Active(s.ports, s.queue[0]) && i < |s.records|
    ensures var r := DoJob(s.(queue := s.queue[1..]), s.queue[0]);
      && i < |r.records| && r.records[i].sends != [] && s.records[i].sends != []
      && r.records[i].(sends := SendsAfter(r, i)) == s.records[i].(sends := SendsAfter(s, i))
  {
    var e := s.queue[0];
    assert EntryOk(s, e) && RecordOk(s, i) && SlotOk(s, e.port, e.slot);
    SendsOnce(s);
    if i == e.id {
      SpacedGrows(s.records[i].sends, s.now);
    }
  }

  // ---- Whole runs

  function Run(s: Server, events: seq<Event>): (r: Server)
    requires Shaped(s)
    ensures Shaped(r)
  {
    if events == [] then s
    else
      var before := Run(s, events[..|events| - 1]);
      StepKeepsShape(before, events[|events| - 1]);
      Step(before, events[|events| - 1])
  }

  lemma {:induction false} DoJobsKeepShape(s: Server, jobs: seq<Entry>)
    requires Shaped(s) && forall e <- jobs :: HasSlot(s.ports, e.port, e.slot)
    ensures Shaped(DoJobs(s, jobs))
    decreases |jobs|
  {
    if jobs != [] {
      DoJobsKeepShape(DoJob(s, jobs[0]), jobs[1..]);
    }
  }

  lemma StepKeepsShape(s: Server, e: Event)
    requires Shaped(s)
    ensures Shaped(Step(s, e))
  {
    if e.Update? && s.now <= e.now {
      var r := s.(now := e.now);
      var k := DueCount(r.queue, r.now);
      DoJobsKeepShape(r.(queue := r.queue[k..]), ActiveOnes(r.ports, r.queue[..k]));
    }
  }

  lemma ClockKeeps(s: Server, now: int)
    requires Inv(s) && s.now <= now
    ensures Inv(s.(now := now))
  {
    var r := s.(now := now);
    forall e | e in r.queue
      ensures EntryOk(r, e)
    {
      assert EntryOk(s, e);
    }
    forall i | 0 <= i < |r.records|
      ensures RecordOk(r, i)
    {
      assert RecordOk(s, i);
      assert Live(r, i) == Live(s, i);
    }
    forall p, k | HasSlot(r.ports, p, k)
      ensures SlotOk(r, p, k)
    {
      assert SlotOk(s, p, k);
    }
  }

  lemma StepKeeps(s: Server, e: Event)
    requires Inv(s)
    ensures Inv(Step(s, e)) && |Step(s, e).records| >= |s.records|
  {
    match e
    case Submit(p, m, t) =>
      if p < |s.ports| {
        SubmitKeeps(s, p, m, t);
      }
    case Ack(p, m) =>
      if p < |s.ports| {
        AckKeeps(s, p, m);
      }
    case Clock(now) =>
      if s.now <= now {
        ClockKeeps(s, now);
      }
    case Update(now) =>
      if s.now <= now {
        ClockKeeps(s, now);
        UpdateIsDrain(s.(now := now));
        DrainKeeps(s.(now := now));
      }
  }

  lemma {:induction false} RunKeeps(s: Server, events: seq<Event>)
    requires Inv(s)
    ensures Inv(Run(s, events)) && |Run(s, events).records| >= |s.records|
  {
    if events != [] {
      RunKeeps(s, events[..|events| - 1]);
      StepKeeps(Run(s, events[..|events| - 1]), events[|events| - 1]);
    }
  }

  /**
   * In every run each submission is sent at most its limit, never twice within the delay, from a queue with one
   * entry each.
   */
  lemma EveryRunResendsProperly(s: Server, events: seq<Event>, i: nat)
    requires Fresh(s) && i < |Run(s, events).records|
    ensures var r := Run(s, events);
      && 1 <= |r.records[i].sends| <= (if r.records[i].maxTries == 0 then 2 else 1 + r.records[i].maxTries)
      && (forall x, y :: 0 <= x < y < |r.records[i].sends| ==> r.records[i].sends[x] + 200 <= r.records[i].sends[y])
      && Sorted(r.queue) && Distinct(r.queue)
  {
    FreshIsInv(s);
    RunKeeps(s, events);
    assert RecordOk(Run(s, events), i);
    SpacedThroughout(Run(s, events).records[i].sends);
  }

  lemma {:induction false} SpacedThroughout(sends: seq<int>)
    requires Spaced(sends)
    ensures forall x, y :: 0 <= x < y < |sends| ==> sends[x] + 200 <= sends[y]
  {
    if sends != [] {
      var before := sends[..|sends| - 1];
      assert forall x, y :: 0 <= x < |before| - 1 && y == x + 1 ==> before[x] == sends[x] && before[y] == sends[y];
      SpacedThroughout(before);
      forall x | 0 <= x < |before|
        ensures sends[x] + 200 <= sends[|before|]
      {
        assert sends[|before| - 1] + RESEND_DELAY <= sends[|before|];
        assert x < |before| - 1 ==> before[x] + 200 <= before[|before| - 1];
      }
    }
  }

  /** An update sends exactly the submissions that wait and are due, and leaves nothing due behind. */
  lemma UpdateSendsWhatIsDue(s: Server, now: int)
    requires Inv(s) && s.now <= now
    ensures var r := Step(s, Update(now));
      && |r.records| == |s.records| && (forall e <- r.queue :: e.time > now)
      && forall i :: 0 <= i < |s.records| ==>
           s.records[i].sends != [] && r.records[i] == s.records[i].(sends := SendsAfter(s.(now := now), i))
  {
    var t := s.(now := now);
    ClockKeeps(s, now);
    UpdateIsDrain(t);
    DrainKeeps(t);
    assert DueCount(Drain(t).queue, now) == 0;
    forall i | 0 <= i < |s.records|
      ensures s.records[i].sends != [] && Drain(t).records[i] == s.records[i].(sends := SendsAfter(t, i))
    {
      DrainSendsWhatIsDue(t, i);
    }
  }

  // ---- Silence after the acknowledgement

  /** The slot was acknowledged, or given to another message. */
  predicate Silenced(s: Server, i: nat) {
    && i < |s.records| && HasSlot(s.ports, s.records[i].port, s.records[i].slot)
    && !Active(s.ports, Entry(s.records[i].port, s.records[i].slot, i, 0))
  }

  lemma AckSilences(s: Server, p: nat, msgId: int, i: nat)
    requires Inv(s) && p < |s.ports| && i < |s.records| && s.records[i].port == p && s.records[i].msgId == msgId
    ensures Silenced(AfterAck(s, p, msgId), i)
  {
    assert RecordOk(s, i);
    var r := s.records[i];
    assert SlotOk(s, p, r.slot);
  }

  lemma SilenceLasts(s: Server, e: Event, i: nat)
    requires Inv(s) && Silenced(s, i)
    ensures Silenced(Step(s, e), i) && Step(s, e).records[i] == s.records[i]
  {
    StepKeeps(s, e);
    if e.Update? && s.now <= e.now {
      var t := s.(now := e.now);
      ClockKeeps(s, e.now);
      UpdateIsDrain(t);
      SilenceLastsInDrain(t, i);
    }
  }

  lemma {:induction false} SilenceLastsInDrain(s: Server, i: nat)
    requires Inv(s) && Silenced(s, i)
    ensures Silenced(Drain(s), i) && Drain(s).records[i] == s.records[i]
    decreases DueCount(s.queue, s.now)
  {
    if DueCount(s.queue, s.now) > 0 {
      var e := s.queue[0];
      assert EntryOk(s, e);
      if Active(s.ports, e) {
        SendKeeps(s);
        SendShortens(s);
        SendsOnce(s);
        SilenceLastsInDrain(DoJob(s.(queue := s.queue[1..]), e), i);
      } else {
        DropKeeps(s);
        SilenceLastsInDrain(s.(queue := s.queue[1..]), i);
      }
    }
  }

  /** Whatever happens later, no submission of an acknowledged message is sent again. */
  lemma {:induction false} NeverAgainAfterAck(s: Server, p: nat, msgId: int, events: seq<Event>, i: nat)
    requires Inv(s) && p < |s.ports| && i < |s.records| && s.records[i].port == p && s.records[i].msgId == msgId
    ensures Shaped(AfterAck(s, p, msgId))
    ensures var r := Run(AfterAck(s, p, msgId), events);
      Inv(r) && Silenced(r, i) && r.records[i] == s.records[i]
  {
    var t := AfterAck(s, p, msgId);
    AckKeeps(s, p, msgId);
    if events == [] {
      AckSilences(s, p, msgId, i);
    } else {
      var before := Run(t, events[..|events| - 1]);
      NeverAgainAfterAck(s, p, msgId, events[..|events| - 1], i);
      StepKeeps(before, events[|events| - 1]);
      SilenceLasts(before, events[|events| - 1], i);
    }
  }

  // ---- The server

  class BaseServer {
    var ports: seq<Port>
    var queue: seq<Entry>
    var totalTime: int
    var idSequence: nat
    ghost var records: seq<Record>

    ghost function State(): Server
      reads this
    {
      Server(ports, queue, totalTime, records)
    }

    ghost predicate Valid()
      reads this
    {
      Shaped(State()) && idSequence == |records|
    }

    /** The first canceled slot, or else the next one around. */
    method GetReserved(p: nat) returns (k: nat)
      requires Valid() && p < |ports|
      modifies this`ports
      ensures k == Reserved(old(ports)[p])
      ensures !NoneCanceled(old(ports)[p].box) ==> old(ports)[p].box[k].canceled && ports == old(ports)
      ensures NoneCanceled(old(ports)[p].box) ==>
        k == (old(ports)[p].head + 1) % OUT_BOX_SIZE && ports == old(ports)[p := old(ports)[p].(head := k)]
      ensures ports ==
        old(ports)[p := if old(ports)[p].box[k].canceled then old(ports)[p] else old(ports)[p].(head := k)]
    {
      var box := ports[p].box;
      for i := 0 to OUT_BOX_SIZE
        invariant ports == old(ports) && FirstCanceled(box) == i + FirstCanceled(box[i..])
      {
        if box[i].canceled {
          k := i;
          assert ports[p := ports[p]] == ports;
          return;
        }
      }
      k := (ports[p].head + 1) % OUT_BOX_SIZE;
      ports := ports[p := ports[p].(head := k)];
    }

    /** Sends a message and keeps it in the out-box until it is acknowledged. */
    method UdpSendAndPushOutBoxToHandleAck(p: nat, msgId: int, maxTryCounter: nat)
      requires Valid() && p < |ports|
      modifies this
      ensures Valid() && State() == AfterSubmit(old(State()), p, msgId, maxTryCounter)
    {
      var k := GetReserved(p);
      var id := idSequence;
      idSequence := idSequence + 1;
      var time := totalTime + RESEND_DELAY;
      ports := WithSlot(ports, p, k, Handler(id, msgId, false, 1, maxTryCounter, time, true));
      records := records + [Record(p, k, msgId, maxTryCounter, [totalTime])];
      queue := queue + [Entry(p, k, id, time)];
    }

    method RemoveFromOutBox(p: nat, msgId: int)
      requires Valid() && p < |ports|
      modifies this`ports
      ensures Valid() && State() == AfterAck(old(State()), p, msgId)
      ensures forall k :: 0 <= k < OUT_BOX_SIZE ==> var h := old(ports)[p].box[k];
        ports[p].box[k] == if h.msgId == msgId then h.(canceled := true) else h
    {
      for i := 0 to OUT_BOX_SIZE
        invariant |ports| == |old(ports)| && |ports[p].box| == OUT_BOX_SIZE
        invariant ports == old(ports)[p := ports[p]] && ports[p].head == old(ports)[p].head
        invariant forall k :: 0 <= k < OUT_BOX_SIZE ==>
          ports[p].box[k] == if k < i then Acked(old(ports)[p].box, msgId)[k] else old(ports)[p].box[k]
      {
        var h := ports[p].box[i];
        if h.msgId == msgId {
          ports := ports[p := ports[p].(box := ports[p].box[i := h.(canceled := true)])];
        }
      }
      assert ports[p].box == Acked(old(ports)[p].box, msgId);
    }

    method SendAgain(e: Entry)
      requires HasSlot(ports, e.port, e.slot)
      modifies this
      ensures State() == DoJob(old(State()), e) && idSequence == old(idSequence)
    {
      var h := Slot(ports, e.port, e.slot);
      if 0 <= h.id < |records| {
        records := records[h.id := records[h.id].(sends := records[h.id].sends + [totalTime])];
      }
      if h.tries < h.maxTries {
        var time := totalTime + RESEND_DELAY;
        ports := WithSlot(ports, e.port, e.slot, h.(tries := h.tries + 1, time := time));
        queue := queue + [Entry(e.port, e.slot, h.id, time)];
      } else {
        ports := WithSlot(ports, e.port, e.slot, h.(hasMsg := false));
      }
    }

    /** Takes what is due off the queue, then sends what of it is still wanted. */
    method Update(now: int)
      requires Valid()
      modifies this
      ensures Valid() && State() == AfterUpdate(old(State()).(now := now))
    {
      totalTime := now;
      var local := TakeDue();
      SendAll(local);
    }

    /** All entries off the queue that are due, keeping those still active. */
    method TakeDue() returns (local: seq<Entry>)
      modifies this`queue
      ensures queue == old(queue)[DueCount(old(queue), totalTime)..]
      ensures local == ActiveOnes(ports, old(queue)[..DueCount(old(queue), totalTime)])
    {
      local := [];
      ghost var k := 0;
      ghost var q := queue;
      while queue != []
        invariant k <= DueCount(q, totalTime) && queue == q[k..]
        invariant local == ActiveOnes(ports, q[..k])
        decreases |queue|
      {
        var e := queue[0];
        if e.time > totalTime {
          break;
        }
        DueAndActive(ports, q, totalTime, k);
        if Active(ports, e) {
          local := local + [e];
        }
        queue := queue[1..];
        k := k + 1;
      }
    }

    method SendAll(jobs: seq<Entry>)
      requires Shaped(State()) && idSequence == |records|
      requires forall e <- jobs :: HasSlot(ports, e.port, e.slot)
      modifies this
      ensures Valid() && State() == DoJobs(old(State()), jobs)
    {
      var local := jobs;
      DoJobsKeepShape(State(), jobs);
      while local != []
        invariant forall e <- local :: HasSlot(ports, e.port, e.slot)
        invariant DoJobs(State(), local) == DoJobs(old(State()), jobs)
        invariant idSequence == |records|
        decreases |local|
      {
        assert forall e <- local[1..] :: e in local;
        SendAgain(local[0]);
        local := local[1..];
      }
    }
  }

  /** One more entry due. */
  lemma {:induction false} DueAndActive(ports: seq<Port>, q: seq<Entry>, now: int, k: nat)
    requires k < |q| && k <= DueCount(q, now) && q[k].time <= now
    ensures k < DueCount(q, now)
    ensures ActiveOnes(ports, q[..k + 1]) == ActiveOnes(ports, q[..k]) + if Active(ports, q[k]) then [q[k]] else []
    decreases k
  {
    if k > 0 {
      DueAndActive(ports, q[1..], now, k - 1);
      assert q[..k + 1][1..] == q[1..][..k] && q[..k][1..] == q[1..][..k - 1];
    }
  }
}
