/** The life of one tank in the runs of a game, and the objects that a shot may aim at. */
module GameRuns {
  import opened TankActions
  import opened Ordering
  import opened Registry

  // ---- A tank lives by its own events

  lemma {:induction false} OtherTanksUntouched(c: Core, order: seq<int>, angles: map<nat, real>, u: nat)
    requires InvBut(c, order) && (forall id <- order :: id in c.tanks)
    requires forall x, y :: 0 <= x < y < |order| ==> order[x] != order[y]
    requires u in c.actions && u < |c.heap|
    ensures u in UpdateTanks(c, order, angles).actions
    ensures UpdateTanks(c, order, angles).actions[u] ==
      if c.heap[u].id in order && c.tanks[c.heap[u].id] == u
      then TankActions.Tick(c.actions[u], c.now, Angle(angles, u)).tank else c.actions[u]
    decreases |order|
  {
    if order != [] {
      assert order == [order[0]] + order[1..];
      var id := order[0];
      UpdateTankKeeps(c, id, order[1..], angles);
      var r := TankActions.Tick(c.actions[c.tanks[id]], c.now, Angle(angles, c.tanks[id]));
      var d := c.(actions := c.actions[c.tanks[id] := r.tank]);
      AddShotsKeepActions(d, r.fired);
      AddShotsGrow(d, r.fired);
      OtherTanksUntouched(UpdateTank(c, id, angles), order[1..], angles, u);
    }
  }

  /** What an update leaves of the game, but for the marks on its objects. */
  lemma UpdateInParts(c: Core, e: Registry.Event)
    requires IsUpdate(c, e)
    ensures var r, t := Registry.Step(c, e), UpdateTanks(BeforeTanks(c, e.dead, e.missed), e.order, e.angles);
      r.actions == t.actions && r.tanks == t.tanks && r.now == t.now
  {
  }

  /** An update of the game is one update of every tank that stays. */
  lemma RegisteredTankTicks(c: Core, e: Registry.Event, id: int)
    requires Registry.Inv(c) && IsUpdate(c, e) && id in BeforeTanks(c, e.dead, e.missed).tanks
    ensures var r := Registry.Step(c, e);
      && id in c.tanks && id in r.tanks && r.tanks[id] == c.tanks[id] && r.now == c.now + 1
      && var u := c.tanks[id];
      && u in c.actions && u in r.actions
      && r.actions[u] == TankActions.Tick(c.actions[u], c.now + 1, Angle(e.angles, u)).tank
  {
    var d := BeforeTanks(c, e.dead, e.missed);
    assert id in c.tanks && d.tanks[id] == c.tanks[id] && d.actions == c.actions && d.now == c.now + 1
           && c.tanks[id] < |d.heap| && d.heap[c.tanks[id]].id == id by {
      BeforeTanksFacts(c, e.dead, e.missed, id);
    }
    assert InvBut(d, e.order) by {
      BeforeTanksKeeps(c, e.dead, e.missed, e.order);
    }
    UpdateInParts(c, e);
    UpdateTanksKeepTime(d, e.order, e.angles);
    TicksInOrder(d, e.order, e.angles, id);
  }

  lemma TicksInOrder(d: Core, order: seq<int>, angles: map<nat, real>, id: int)
    requires InvBut(d, order) && IsOrderOf(order, d.tanks.Keys) && id in d.tanks
    requires d.tanks[id] < |d.heap| && d.heap[d.tanks[id]].id == id
    ensures var u, r := d.tanks[id], UpdateTanks(d, order, angles);
      && u in d.actions && u in r.actions
      && r.actions[u] == TankActions.Tick(d.actions[u], d.now, Angle(angles, u)).tank
      && r.tanks == d.tanks
  {
    assert order + [] == order;
    UpdateTanksKeep(d, order, [], angles);
    OtherTanksUntouched(d, order, angles, d.tanks[id]);
  }

  lemma BeforeTanksFacts(c: Core, dead: set<nat>, missed: set<nat>, id: int)
    requires Registry.Inv(c) && id in BeforeTanks(c, dead, missed).tanks
    ensures var d := BeforeTanks(c, dead, missed);
      && id in c.tanks && d.tanks[id] == c.tanks[id] && d.actions == c.actions && d.now == c.now + 1
      && c.tanks[id] < |d.heap| && d.heap[c.tanks[id]].id == id
  {
  }

  /** What a message does to the tank of its player, and that it does nothing to others. */
  lemma RegisteredTankGetsMessages(c: Core, e: Registry.Event, u: nat, w: World)
    requires e.Message? && Follows(w, c, u)
    ensures Registry.Step(c, e).tanks == c.tanks && Registry.Step(c, e).now == c.now && u in Registry.Step(c, e).actions
    ensures Registry.Step(c, e).actions[u] ==
      if e.user in c.players && c.players[e.user] == u then After(w, MessageTo(c, e)).tank else c.actions[u]
  {
  }

  /** The message as the tank's own event; a shot that is taken gets the next id. */
  function MessageTo(c: Core, e: Registry.Event): TankActions.Event
    requires e.Message?
  {
    TankActions.Message(e.client, e.trigger, e.shot, e.angle, e.speed, c.lastId + 1)
  }

  // ---- Whole runs

  /** What an event of the game is for tank `u`. */
  ghost function Felt(c: Core, e: Registry.Event, u: nat): seq<TankActions.Event> {
    if IsUpdate(c, e) then [TankActions.Step(Angle(e.angles, u))]
    else if e.Message? && e.user in c.players && c.players[e.user] == u then [MessageTo(c, e)]
    else []
  }

  /** The run of tank `u` inside a run of the game. */
  ghost function Lived(c: Core, events: seq<Registry.Event>, u: nat): seq<TankActions.Event> {
    if events == [] then []
    else
      var before, e := events[..|events| - 1], events[|events| - 1];
      Lived(c, before, u) + Felt(Registry.Run(c, before), e, u)
  }

  /** The world of a tank agrees with the game. */
  predicate Follows(w: World, c: Core, u: nat) {
    u in c.actions && w.tank == c.actions[u] && w.now == c.now
  }

  lemma {:induction false} RunOfLast(w: World, events: seq<TankActions.Event>, more: seq<TankActions.Event>)
    requires |more| <= 1
    ensures TankActions.Run(w, events + more) ==
      if more == [] then TankActions.Run(w, events) else After(TankActions.Run(w, events), more[0])
  {
    if more == [] {
      assert events + more == events;
    } else {
      assert (events + more)[..|events|] == events;
    }
  }

  /** Tanks are only added with new ids. */
  lemma OldTanksOnly(c: Core, e: Registry.Event, id: int)
    requires Registry.Inv(c) && id in Registry.Step(c, e).tanks && id <= c.lastId
    ensures id in c.tanks && Registry.Step(c, e).tanks[id] == c.tanks[id]
    ensures IsUpdate(c, e) ==>
      id in BeforeTanks(c, e.dead, e.missed).tanks
  {
    if IsUpdate(c, e) {
      var d := BeforeTanks(c, e.dead, e.missed);
      BeforeTanksKeeps(c, e.dead, e.missed, e.order);
      assert e.order + [] == e.order;
      UpdateTanksKeep(d, e.order, [], e.angles);
      UpdateInParts(c, e);
    }
  }

  lemma {:induction false} IdsCountUp(c: Core, events: seq<Registry.Event>)
    requires Registry.Inv(c)
    ensures Registry.Inv(Registry.Run(c, events)) && c.lastId <= Registry.Run(c, events).lastId
  {
    if events != [] {
      var before, e := Registry.Run(c, events[..|events| - 1]), events[|events| - 1];
      IdsCountUp(c, events[..|events| - 1]);
      Registry.StepKeeps(before, e);
      StepCountsUp(before, e);
    }
  }

  lemma StepCountsUp(c: Core, e: Registry.Event)
    ensures c.lastId <= Registry.Step(c, e).lastId
  {
    if e.GameUpdate? {
      UpdateTanksCountUp(BeforeTanks(c, e.dead, e.missed), e.order, e.angles);
    }
  }

  lemma {:induction false} UpdateTanksCountUp(c: Core, order: seq<int>, angles: map<nat, real>)
    ensures c.lastId <= UpdateTanks(c, order, angles).lastId
    decreases |order|
  {
    if order != [] {
      UpdateTankCountsUp(c, order[0], angles);
      UpdateTanksCountUp(UpdateTank(c, order[0], angles), order[1..], angles);
    }
  }

  lemma UpdateTankCountsUp(c: Core, id: int, angles: map<nat, real>)
    ensures c.lastId <= UpdateTank(c, id, angles).lastId
  {
    if id in c.tanks && c.tanks[id] in c.actions {
      var u := c.tanks[id];
      var r := TankActions.Tick(c.actions[u], c.now, Angle(angles, u));
      AddShotsCountUp(c.(actions := c.actions[u := r.tank]), r.fired);
    }
  }

  lemma {:induction false} AddShotsCountUp(c: Core, ids: seq<int>)
    ensures c.lastId <= AddShots(c, ids).lastId
    decreases |ids|
  {
    if ids != [] {
      AddShotsCountUp(AddShot(c, ids[0]), ids[1..]);
    }
  }

  /** One event of the game is at most one event of a tank that stays registered. */
  lemma EventIsFelt(c: Core, w: World, id: int, e: Registry.Event)
    requires Registry.Inv(c) && id in Registry.Step(c, e).tanks && id <= c.lastId
    requires id in c.tanks ==> Follows(w, c, c.tanks[id])
    ensures id in c.tanks && Registry.Step(c, e).tanks[id] == c.tanks[id]
    ensures var u := c.tanks[id];
      Follows(if Felt(c, e, u) == [] then w else After(w, Felt(c, e, u)[0]), Registry.Step(c, e), u)
  {
    OldTanksOnly(c, e, id);
    var u := c.tanks[id];
    if e.Message? {
      MessageIsFelt(c, w, u, e);
    } else if Felt(c, e, u) != [] {
      RegisteredTankTicks(c, e, id);
      UpdateIsFelt(w, Angle(e.angles, u), Registry.Step(c, e), u);
    } else {
      OtherEventsAreNotFelt(c, e, id);
    }
  }

  lemma MessageIsFelt(c: Core, w: World, u: nat, e: Registry.Event)
    requires e.Message? && Follows(w, c, u)
    ensures Follows(if Felt(c, e, u) == [] then w else After(w, Felt(c, e, u)[0]), Registry.Step(c, e), u)
  {
    RegisteredTankGetsMessages(c, e, u, w);
    assert After(w, MessageTo(c, e)).now == w.now;
  }

  lemma UpdateIsFelt(w: World, angle: real, c: Core, u: nat)
    requires u in c.actions && c.now == w.now + 1 && c.actions[u] == TankActions.Tick(w.tank, w.now + 1, angle).tank
    ensures Follows(After(w, TankActions.Step(angle)), c, u)
  {
    StepIsTick(w, angle);
  }

  lemma {:induction false} UpdateTanksKeepTime(c: Core, order: seq<int>, angles: map<nat, real>)
    ensures UpdateTanks(c, order, angles).now == c.now
    decreases |order|
  {
    if order != [] {
      var id := order[0];
      if id in c.tanks && c.tanks[id] in c.actions {
        var r := TankActions.Tick(c.actions[c.tanks[id]], c.now, Angle(angles, c.tanks[id]));
        AddShotsKeepActions(c.(actions := c.actions[c.tanks[id] := r.tank]), r.fired);
      }
      UpdateTanksKeepTime(UpdateTank(c, id, angles), order[1..], angles);
    }
  }

  /** A step of a tank's run is one update of it. */
  lemma StepIsTick(w: World, angle: real)
    ensures After(w, TankActions.Step(angle)).tank == TankActions.Tick(w.tank, w.now + 1, angle).tank
    ensures After(w, TankActions.Step(angle)).now == w.now + 1
  {
  }

  lemma OtherEventsAreNotFelt(c: Core, e: Registry.Event, id: int)
    requires Registry.Inv(c) && !e.Message? && id in c.tanks && Felt(c, e, c.tanks[id]) == []
    ensures c.tanks[id] in c.actions && c.tanks[id] in Registry.Step(c, e).actions
    ensures Registry.Step(c, e).actions[c.tanks[id]] == c.actions[c.tanks[id]] && Registry.Step(c, e).now == c.now
  {
  }

  /** Over a whole run of the game a tank that stays registered lives a run of its own. */
  lemma {:induction false} TankLivesItsOwnRun(c: Core, w: World, id: int, events: seq<Registry.Event>)
    requires Registry.Inv(c) && id in c.tanks && Follows(w, c, c.tanks[id]) && id in Registry.Run(c, events).tanks
    ensures var u := c.tanks[id];
      && Registry.Run(c, events).tanks[id] == u
      && Follows(TankActions.Run(w, Lived(c, events, u)), Registry.Run(c, events), u)
  {
    if events != [] {
      var u, before, e := c.tanks[id], events[..|events| - 1], events[|events| - 1];
      var b := Registry.Run(c, before);
      IdsCountUp(c, before);
      assert id <= c.lastId;
      OldTanksOnly(b, e, id);
      TankLivesItsOwnRun(c, w, id, before);
      EventIsFelt(b, TankActions.Run(w, Lived(c, before, u)), id, e);
      RunOfLast(w, Lived(c, before, u), Felt(b, e, u));
    }
  }

  /** A new player's tank starts its own run. */
  lemma NewTankStarts(c: Core, user: int, hasAi: bool)
    requires Registry.Inv(c) && user !in c.players
    ensures var r := Registry.Step(c, Registry.Player(user, hasAi));
      && c.lastId + 1 in r.tanks && Follows(Start(c.now, hasAi), r, r.tanks[c.lastId + 1])
      && user in r.players && r.players[user] == r.tanks[c.lastId + 1]
  {
  }

  /**
   * In every run of the game, a message's action that a tank takes runs exactly once if its trigger is past, as long
   * as the tank stays registered, and the tank never fires more than its bucket allows.
   */
  lemma ActionsInTheGame(c: Core, w: World, id: int, e: Registry.Event, events: seq<Registry.Event>)
    requires Registry.Inv(c) && id in c.tanks && Follows(w, c, c.tanks[id]) && TankActions.Inv(w)
    requires e.Message? && e.user in c.players && c.players[e.user] == c.tanks[id] && !HasClient(w.tank.cinps, e.client)
    requires id in Registry.Run(Registry.Step(c, e), events).tanks
    ensures var u, r, m := c.tanks[id], Registry.Run(Registry.Step(c, e), events), MessageTo(c, e);
      var i, v := MessageInput(w, m), TankActions.Run(After(w, m), Lived(Registry.Step(c, e), events, u));
      && Follows(v, r, u) && i.trigger >= c.now + LEAD
      && (Ran(i.trigger, i) in v.log <==> i.trigger < r.now)
      && (forall x, y :: 0 <= x < |v.log| && 0 <= y < |v.log|
            && v.log[x].input.serial == i.serial && v.log[y].input.serial == i.serial
            ==> (x == y && v.log[x] == Ran(i.trigger, i)))
      && |v.fired| as real - |w.fired| as real <= MAX_SHOT + REFILL * (v.ticks - w.ticks) as real
  {
    var u, m := c.tanks[id], MessageTo(c, e);
    var d, w' := Registry.Step(c, e), After(w, m);
    Registry.StepKeeps(c, e);
    RegisteredTankGetsMessages(c, e, u, w);
    TankLivesItsOwnRun(d, w', id, events);
    TakenRunsExactlyOnce(w, m, Lived(d, events, u));
    MessageKeeps(w, m);
    ShotsAreBounded(w', Lived(d, events, u));
  }

  // ---- What a shot may aim at

  /** The game in the middle of an update, when the tank at place `k` is about to make its missile number `j`. */
  function Amid(c: Core, order: seq<int>, angles: map<nat, real>, k: nat, j: nat): Core
    requires k < |order|
  {
    var d := UpdateTanks(c, order[..k], angles);
    if order[k] !in d.tanks || d.tanks[order[k]] !in d.actions then d
    else
      var u := d.tanks[order[k]];
      var r := TankActions.Tick(d.actions[u], d.now, Angle(angles, u));
      AddShots(d.(actions := d.actions[u := r.tank]), r.fired[..if j <= |r.fired| then j else |r.fired|])
  }

  lemma AmidIsFiled(c: Core, order: seq<int>, angles: map<nat, real>, k: nat, j: nat)
    requires InvBut(c, order) && (forall id <- order :: id in c.tanks) && k < |order|
    requires forall x, y :: 0 <= x < y < |order| ==> order[x] != order[y]
    ensures RegistriesOk(Amid(c, order, angles, k, j)) && Amid(c, order, angles, k, j).tanks == c.tanks
  {
    var front, id, rest := order[..k], order[k], order[k + 1..];
    assert order == front + ([id] + rest);
    UpdateTanksKeep(c, front, [id] + rest, angles);
    var d := UpdateTanks(c, front, angles);
    assert forall x :: 0 <= x < |rest| ==> rest[x] == order[k + 1 + x];
    ShotsAmid(d, id, rest, angles, j);
  }

  lemma ShotsAmid(d: Core, id: int, rest: seq<int>, angles: map<nat, real>, j: nat)
    requires InvBut(d, [id] + rest) && id in d.tanks && id !in rest
    ensures d.tanks[id] in d.actions
    ensures var u := d.tanks[id]; var r := TankActions.Tick(d.actions[u], d.now, Angle(angles, u));
      var s := AddShots(d.(actions := d.actions[u := r.tank]), r.fired[..if j <= |r.fired| then j else |r.fired|]);
      RegistriesOk(s) && s.tanks == d.tanks
  {
    var u := d.tanks[id];
    var t := d.actions[u];
    var r := TankActions.Tick(t, d.now, Angle(angles, u));
    assert forall i <- t.inps :: i.Fire? ==> Waits(d, u, i);
    TickFacts(t, d.now, Angle(angles, u));
    TickKeepsPending(d, u, r);
    TickKeepsActions(d, id, rest, r.tank);
    var m := if j <= |r.fired| then j else |r.fired|;
    assert forall x <- r.fired[..m] :: x in r.fired;
    AddShotsKeep(d.(actions := d.actions[u := r.tank]), r.fired[..m], rest);
  }

  /** In every run, whenever a tank fires, every tank that it may aim at is filed among all objects. */
  lemma TargetsAreAlwaysFiled(events: seq<Registry.Event>, e: Registry.Event, k: nat, j: nat)
    requires IsUpdate(Registry.Run(Registry.Empty(), events), e) && k < |e.order|
    ensures var c := Registry.Run(Registry.Empty(), events);
      var m := Amid(BeforeTanks(c, e.dead, e.missed), e.order, e.angles, k, j);
      RegistriesOk(m) && e.order[k] in m.tanks && forall id <- m.tanks :: id in m.all && m.all[id] == m.tanks[id]
  {
    var c := Registry.Run(Registry.Empty(), events);
    EveryRunKeeps(events);
    BeforeTanksKeeps(c, e.dead, e.missed, e.order);
    AmidIsFiled(BeforeTanks(c, e.dead, e.missed), e.order, e.angles, k, j);
  }
}
