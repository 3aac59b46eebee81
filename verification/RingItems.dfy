/** What the ring's items are: the values that were written into their slots while they were reserved. */
module RingItems {
  import opened AsyncQueue

  /** Slot `k` is reserved for an item that is not completed. */
  ghost predicate IsOpen<T(!new)>(start: Ring<T>, acts: seq<Action<T>>, k: nat)
    requires |start.slots| > 0
  {
    exists i :: IsOpenItem(start, acts, k, i)
  }

  ghost predicate IsOpenItem<T(!new)>(start: Ring<T>, acts: seq<Action<T>>, k: nat, i: nat)
    requires |start.slots| > 0
  {
    |Inputs(start, acts)| <= i < Reservations(start, acts) && i % |start.slots| == k
  }

  /** The last value written into slot `k` while it was open and no operation of the producer was under way. */
  ghost function Written<T(!new)>(start: Ring<T>, acts: seq<Action<T>>, k: nat): T
    requires k < |start.slots|
  {
    if acts == [] then start.slots[k]
    else
      var before, a := acts[..|acts| - 1], acts[|acts| - 1];
      if a.Fill? && a.slot == k && Run(start, before).producer.Idle? && IsOpen(start, before, k) then a.value
      else Written(start, before, k)
  }

  /** The ring's test for an open slot is right. */
  lemma OpenIsAhead<T(!new)>(s: Ring<T>, h: History<T>, slot: nat)
    requires Inv(s, h) && s.producer.Idle? && slot < |s.slots|
    ensures var n := |s.slots|;
      Ahead(slot, s.completed, n) < Ahead(s.reserved, s.completed, n) <==>
      exists i :: IsAt(i, h.completed, |h.log|, slot, n)
  {
    var n := |s.slots|;
    AheadIsDifference(|h.log|, h.completed, n);
    SlotOf(slot, h.completed, n);
    var i := h.completed + Ahead(slot, s.completed, n);
    if Ahead(slot, s.completed, n) < Ahead(s.reserved, s.completed, n) {
      assert IsAt(i, h.completed, |h.log|, slot, n);
    }
    forall j | IsAt(j, h.completed, |h.log|, slot, n)
      ensures j == i
    {
      if j != i {
        SlotsAreApart(i, j, n);
      }
    }
  }

  predicate IsAt(i: int, lo: nat, hi: nat, slot: nat, n: nat)
    requires n > 0
  {
    lo <= i < hi && i % n == slot
  }

  lemma OpenInRun<T(!new)>(slots: seq<T>, acts: seq<Action<T>>, k: nat)
    requires k < |slots| && Run(Empty(slots), acts).producer.Idle?
    ensures var s := Run(Empty(slots), acts);
      IsOpen(Empty(slots), acts, k) <==> Ahead(k, s.completed, |slots|) < Ahead(s.reserved, s.completed, |slots|)
  {
    var s, h := Run(Empty(slots), acts), RememberAll(Empty(slots), acts);
    RunKeeps(slots, acts);
    ReservationsAreLogged(slots, acts);
    OpenIsAhead(s, h, k);
    forall i
      ensures IsAt(i, h.completed, |h.log|, k, |slots|) <==> i >= 0 && IsOpenItem(Empty(slots), acts, k, i)
    {
    }
  }

  /** In every interleaving, a slot holds what was last written into it while it was open. */
  lemma {:induction false} SlotsHoldWhatWasWritten<T(!new)>(slots: seq<T>, acts: seq<Action<T>>, k: nat)
    requires k < |slots|
    ensures Run(Empty(slots), acts).slots[k] == Written(Empty(slots), acts, k)
  {
    if acts != [] {
      var before, a := acts[..|acts| - 1], acts[|acts| - 1];
      SlotsHoldWhatWasWritten(slots, before, k);
      if Run(Empty(slots), before).producer.Idle? {
        OpenInRun(slots, before, k);
      }
    }
  }

  /** In every interleaving, an item is the last value written into its slot before it was completed. */
  lemma ItemsAreWhatWasWritten<T(!new)>(slots: seq<T>, acts: seq<Action<T>>, a: Action<T>)
    requires |slots| > 0
    ensures var sent := Inputs(Empty(slots), acts);
      var sent' := Inputs(Empty(slots), acts + [a]);
      sent' == sent || (a.EndComplete? && sent' == sent + [Written(Empty(slots), acts, |sent| % |slots|)])
  {
    RunKeeps(slots, acts);
    assert (acts + [a])[..|acts|] == acts;
    SlotsHoldWhatWasWritten(slots, acts, |Inputs(Empty(slots), acts)| % |slots|);
  }
}
