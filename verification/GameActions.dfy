/** What a client's action does in a whole game: the course and speed of its tank, or its missile. */
module GameActions {
  import opened TankActions
  import opened TankEffects
  import opened Ordering
  import opened Registry
  import opened GameRuns
  import GameUpdates

  /** After a run of the game, a message for a player's tank that is taken, and the world of that tank. */
  ghost predicate IsFor(run: seq<Registry.Event>, c: Core, w: World, id: int, e: Registry.Event) {
    && c == Registry.Run(Registry.Empty(), run)
    && id in c.tanks && Follows(w, c, c.tanks[id]) && TankActions.Inv(w) && SpeedOk(w)
    && e.Message? && e.user in c.players && c.players[e.user] == c.tanks[id] && !HasClient(w.tank.cinps, e.client)
  }

  /** The game after the message and further events, as the time of its action comes and an update keeps the tank. */
  ghost predicate IsTimeFor(c: Core, e: Registry.Event, id: int, events: seq<Registry.Event>, r: Core,
                            up: Registry.Event)
    requires e.Message?
  {
    && r == Registry.Run(Registry.Step(c, e), events) && r.now == TimeOf(c.now, e.trigger)
    && IsUpdate(r, up) && id in r.tanks && id in BeforeTanks(r, up.dead, up.missed).tanks
  }

  /** The tank's world at that time. */
  ghost function WorldOf(c: Core, w: World, id: int, e: Registry.Event, events: seq<Registry.Event>): World
    requires e.Message? && id in c.tanks
  {
    TankActions.Run(After(w, MessageTo(c, e)), Lived(Registry.Step(c, e), events, c.tanks[id]))
  }

  lemma WorldFollows(run: seq<Registry.Event>, c: Core, w: World, id: int, e: Registry.Event,
                     events: seq<Registry.Event>)
    requires IsFor(run, c, w, id, e) && id in Registry.Run(Registry.Step(c, e), events).tanks
    ensures var r, v := Registry.Run(Registry.Step(c, e), events), WorldOf(c, w, id, e, events);
      && r.tanks[id] == c.tanks[id] && Follows(v, r, c.tanks[id]) && Registry.Inv(r) && TankActions.Inv(v)
  {
    var m := MessageTo(c, e);
    EveryRunKeeps(run);
    Registry.StepKeeps(c, e);
    RegisteredTankGetsMessages(c, e, c.tanks[id], w);
    TankLivesItsOwnRun(Registry.Step(c, e), After(w, m), id, events);
    IdsCountUp(Registry.Step(c, e), events);
    MessageKeeps(w, m);
    RunKeeps(After(w, m), Lived(Registry.Step(c, e), events, c.tanks[id]));
  }

  lemma StepFires(v: World, angle: real)
    ensures |v.fired| <= |After(v, TankActions.Step(angle)).fired|
    ensures After(v, TankActions.Step(angle)).fired[|v.fired|..] == Tick(v.tank, v.now + 1, angle).fired
  {
  }

  /** An update of the game is a step of the tank's world. */
  lemma UpdateIsStep(r: Core, v: World, id: int, up: Registry.Event)
    requires Registry.Inv(r) && IsUpdate(r, up) && id in BeforeTanks(r, up.dead, up.missed).tanks
    requires id in r.tanks && Follows(v, r, r.tanks[id])
    ensures var s, u := Registry.Step(r, up), r.tanks[id];
      && id in s.tanks && s.tanks[id] == u && u in s.actions
      && s.actions[u] == After(v, TankActions.Step(Angle(up.angles, u))).tank
  {
    RegisteredTankTicks(r, up, id);
    UpdateIsFelt(v, Angle(up.angles, r.tanks[id]), Registry.Step(r, up), r.tanks[id]);
  }

  lemma UpdateFires(r: Core, v: World, id: int, angles: map<nat, real>)
    requires id in r.tanks && Follows(v, r, r.tanks[id])
    ensures var v' := After(v, TankActions.Step(Angle(angles, r.tanks[id])));
      |v.fired| <= |v'.fired| && GameUpdates.FiredBy(r.(now := r.now + 1), id, angles) == v'.fired[|v.fired|..]
  {
    StepFires(v, Angle(angles, r.tanks[id]));
    FiredByTick(r, id, angles);
  }

  lemma FiredByTick(r: Core, id: int, angles: map<nat, real>)
    requires id in r.tanks && r.tanks[id] in r.actions
    ensures GameUpdates.FiredBy(r.(now := r.now + 1), id, angles) ==
      Tick(r.actions[r.tanks[id]], r.now + 1, Angle(angles, r.tanks[id])).fired
  {
  }

  /** The game and the tank's world are sound and agree. */
  ghost predicate Agree(r: Core, id: int, v: World) {
    Registry.Inv(r) && TankActions.Inv(v) && SpeedOk(v) && id in r.tanks && Follows(v, r, r.tanks[id])
  }

  /** After any further events, the tank still has the message's action under its number. */
  lemma ActionAtItsTime(run: seq<Registry.Event>, c: Core, w: World, id: int, e: Registry.Event,
                        events: seq<Registry.Event>, r: Core, v: World)
    requires IsFor(run, c, w, id, e) && r == Registry.Run(Registry.Step(c, e), events) && id in r.tanks
    requires v == WorldOf(c, w, id, e, events)
    ensures r.tanks[id] == c.tanks[id] && Agree(r, id, v)
    ensures v.tank.maxSpeed == w.tank.maxSpeed && |w.taken| < |v.taken|
    ensures var n, t := |w.taken|, TimeOf(c.now, e.trigger);
      v.taken[n] == if e.shot then Fire(n, e.client, t, c.lastId + 1) else Move(n, e.client, t, e.angle, e.speed)
  {
    WorldFollows(run, c, w, id, e, events);
    StillTaken(w, MessageTo(c, e), Lived(Registry.Step(c, e), events, c.tanks[id]));
  }

  /**
   * In every run of the game, a client's move sets its tank's course to the message's angle and its speed to the
   * message's or the nearer bound, in the update at its time, unless the tank took a later move for that time.
   */
  lemma MoveInTheGame(run: seq<Registry.Event>, c: Core, w: World, id: int, e: Registry.Event,
                      events: seq<Registry.Event>, r: Core, v: World, up: Registry.Event)
    requires IsFor(run, c, w, id, e) && !e.shot && IsTimeFor(c, e, id, events, r, up)
    requires v == WorldOf(c, w, id, e, events)
    requires NoLaterMove(v.taken, |w.taken|, r.now)
    ensures var s := Registry.Step(r, up);
      id in s.tanks && s.tanks[id] in s.actions && Goes(s.actions[s.tanks[id]], e.angle, e.speed)
  {
    ActionAtItsTime(run, c, w, id, e, events, r, v);
    DueMoveInAnUpdate(r, id, v, |w.taken|, up);
  }

  /** A move that is due, and the last one, steers the tank. */
  lemma DueMoveInAnUpdate(r: Core, id: int, v: World, n: nat, up: Registry.Event)
    requires n < |v.taken| && v.taken[n].Move? && v.taken[n].trigger == r.now && NoLaterMove(v.taken, n, r.now)
    requires IsUpdate(r, up) && id in BeforeTanks(r, up.dead, up.missed).tanks
    ensures var s := Registry.Step(r, up);
      Agree(r, id, v) ==>
        id in s.tanks && s.tanks[id] in s.actions && Goes(s.actions[s.tanks[id]], v.taken[n].angle, v.taken[n].speed)
  {
    if Agree(r, id, v) {
      UpdateIsStep(r, v, id, up);
      DueMoveSteers(v, n, Angle(up.angles, r.tanks[id]));
    }
  }

  /** A tank that was not registered before is a new player's. */
  lemma NewcomerStarts(b: Core, e: Registry.Event, id: int) returns (w: World)
    requires Registry.Inv(b) && id !in b.tanks && id in Registry.Step(b, e).tanks
    ensures e.Player? && w == Start(b.now, e.hasAi) && Follows(w, Registry.Step(b, e), Registry.Step(b, e).tanks[id])
  {
    OnlyPlayersBringTanks(b, e);
    GameUpdates.PlayerGetsATank(b, e.user, e.hasAi);
    w := Start(b.now, e.hasAi);
  }

  lemma OnlyPlayersBringTanks(b: Core, e: Registry.Event)
    requires Registry.Inv(b)
    ensures !e.Player? ==> Registry.Step(b, e).tanks.Keys <= b.tanks.Keys
  {
    if IsUpdate(b, e) {
      GameUpdates.UpdateFiles(b, e);
    }
  }

  lemma OldTankLivesOn(b: Core, w: World, id: int, e: Registry.Event) returns (w': World)
    requires Agree(b, id, w) && id in Registry.Step(b, e).tanks && w.tank.maxSpeed == 400.0
    ensures Follows(w', Registry.Step(b, e), Registry.Step(b, e).tanks[id])
    ensures TankActions.Inv(w') && SpeedOk(w') && w'.tank.maxSpeed == 400.0
  {
    assert id <= b.lastId by {
      assert b.heap[b.tanks[id]].id == id;
    }
    EventIsFelt(b, w, id, e);
    var felt := Felt(b, e, b.tanks[id]);
    w' := w;
    if felt != [] {
      AfterStaysInBounds(w, felt[0]);
      w' := After(w, felt[0]);
    }
  }

  /** In every run of the game, every registered tank lives a run of its own, within its bounds. */
  lemma {:induction false} EveryTankLives(run: seq<Registry.Event>, id: int) returns (w: World)
    requires id in Registry.Run(Registry.Empty(), run).tanks
    ensures Agree(Registry.Run(Registry.Empty(), run), id, w) && w.tank.maxSpeed == 400.0
  {
    var before, e := run[..|run| - 1], run[|run| - 1];
    var b := Registry.Run(Registry.Empty(), before);
    EveryRunKeeps(before);
    EveryRunKeeps(run);
    if id in b.tanks {
      w := EveryTankLives(before, id);
      w := OldTankLivesOn(b, w, id, e);
    } else {
      w := NewcomerStarts(b, e, id);
      StartIsInv(b.now, e.hasAi);
    }
  }

  // ---- Shots

  lemma {:induction false} ShotsArePart(s: seq<Input>)
    ensures IsPartOf(Shots(s), s)
  {
    if s != [] {
      ShotsArePart(s[1..]);
      assert if s[0].Fire? then Shots(s)[1..] == Shots(s[1..]) else Shots(s) == Shots(s[1..]);
    }
  }

  predicate Different(ids: seq<int>) {
    forall x, y :: 0 <= x < y < |ids| ==> ids[x] != ids[y]
  }

  /** Shots that wait in a game have ids of their own. */
  lemma DueHaveOwnIds(r: Core, v: World, u: nat)
    requires Registry.Inv(r) && TankActions.Inv(v) && Follows(v, r, u)
    ensures Different(Shots(Due(v.taken, v.now)))
  {
    var due := Due(v.taken, v.now);
    assert forall i <- due :: i in v.tank.inps by {
      assert forall i <- v.taken :: IsTaken(v, i);
    }
    assert OwnShots(v.tank.inps) by {
      assert forall i <- v.tank.inps :: i.Fire? ==> Waits(r, u, i);
    }
    DueIsBySerial(v.taken, v.now);
    assert TankActions.InOrder(due);
    OwnShotsInOrder(due, v.tank.inps);
    ShotsArePart(due);
    PartHasOwnIds(Shots(due), due);
  }

  /** A shot that waits in a tank is fired by no other. */
  lemma OthersDoNotFire(r: Core, u: nat, i: Input, id: int, other: int, angles: map<nat, real>)
    requires Registry.Inv(r) && Waits(r, u, i) && id in r.tanks && r.tanks[id] == u && other in r.tanks && other != id
    ensures r.tanks[other] in r.actions && i.shotId !in GameUpdates.FiredBy(r.(now := r.now + 1), other, angles)
  {
    var o := r.tanks[other];
    var t := r.actions[o];
    assert r.heap[u].id == id && r.heap[o].id == other;
    assert forall j <- t.inps :: j.Fire? ==> Waits(r, o, j);
    TickFacts(t, r.now + 1, Angle(angles, o));
    var fired := GameUpdates.FiredBy(r.(now := r.now + 1), other, angles);
    forall x | 0 <= x < |fired|
      ensures fired[x] != i.shotId
    {
      var j :| j in t.inps && j.Fire? && j.shotId == fired[x];
      assert Waits(r, o, j);
    }
  }

  lemma InPlace(v: World, v': World, n: nat, k: int, fired: seq<int>)
    requires n <= |v.taken| && |v.fired| <= |v'.fired| && FiresInPlace(v, v', n, k) && fired == v'.fired[|v.fired|..]
    requires Different(Shots(Due(v.taken, v.now)))
    ensures k in fired <==> HasShotFor(v, n)
  {
    var due, j := Shots(Due(v.taken, v.now)), |Shots(Due(v.taken[..n], v.now))|;
    if j < |fired| {
      assert fired[j] == k;
    }
    if k in fired {
      var x :| 0 <= x < |fired| && fired[x] == k;
      assert due[x] == due[j];
    }
  }

  /** A tank fires the id of a shot that is due exactly if a whole shot is left for it. */
  lemma ShotIsFiredExactly(r: Core, id: int, v: World, n: nat, angles: map<nat, real>)
    requires Registry.Inv(r) && TankActions.Inv(v) && SpeedOk(v) && id in r.tanks && Follows(v, r, r.tanks[id])
    requires n < |v.taken| && v.taken[n].Fire? && v.taken[n].trigger == r.now
    ensures v.taken[n].shotId in GameUpdates.FiredBy(r.(now := r.now + 1), id, angles) <==> HasShotFor(v, n)
  {
    var u := r.tanks[id];
    DueHaveOwnIds(r, v, u);
    DueShotFires(v, n, Angle(angles, u));
    UpdateFires(r, v, id, angles);
    InPlace(v, After(v, TankActions.Step(Angle(angles, u))), n, v.taken[n].shotId,
            GameUpdates.FiredBy(r.(now := r.now + 1), id, angles));
  }

  /** The ids that come into use from one state to another. */
  function Newcomers(r: Core, s: Core): set<int> {
    s.all.Keys - r.all.Keys
  }

  /** A shot that waits in a tank becomes a missile exactly if that tank fires it. */
  lemma FiledExactlyIfFired(r: Core, up: Registry.Event, id: int, k: int)
    requires Registry.Inv(r) && IsUpdate(r, up) && id in BeforeTanks(r, up.dead, up.missed).tanks
    requires id in r.tanks && exists i :: Waits(r, r.tanks[id], i) && i.shotId == k
    ensures k in Newcomers(r, Registry.Step(r, up)) <==>
      k in GameUpdates.FiredBy(r.(now := r.now + 1), id, up.angles)
  {
    var i :| Waits(r, r.tanks[id], i) && i.shotId == k;
    GameUpdates.UpdateFiles(r, up);
    assert Unused(k, r.heap, r.lastId);
    forall other | other in up.order && other != id
      ensures k !in GameUpdates.FiredBy(r.(now := r.now + 1), other, up.angles)
    {
      OthersDoNotFire(r, r.tanks[id], i, id, other, up.angles);
    }
  }

  /**
   * In every run of the game, the update at its time makes a client's shot a missile, new and filed under the id that
   * the message got, if and only if a whole shot is left after those that were taken earlier for that time.
   */
  lemma ShotInTheGame(run: seq<Registry.Event>, c: Core, w: World, id: int, e: Registry.Event,
                      events: seq<Registry.Event>, r: Core, v: World, up: Registry.Event, s: Core)
    requires IsFor(run, c, w, id, e) && e.shot && IsTimeFor(c, e, id, events, r, up)
    requires v == WorldOf(c, w, id, e, events)
    requires s == Registry.Step(r, up)
    ensures |w.taken| <= |v.taken|
    ensures c.lastId + 1 in Newcomers(r, s) <==> HasShotFor(v, |w.taken|)
  {
    ActionAtItsTime(run, c, w, id, e, events, r, v);
    DueShotInAnUpdate(r, id, v, |w.taken|, up, s, c.lastId + 1);
  }

  /** A shot that is due becomes a missile exactly if one is left for it. */
  lemma DueShotInAnUpdate(r: Core, id: int, v: World, n: nat, up: Registry.Event, s: Core, k: int)
    requires n < |v.taken| && v.taken[n].Fire? && v.taken[n].trigger == r.now && v.taken[n].shotId == k
    requires IsUpdate(r, up) && id in BeforeTanks(r, up.dead, up.missed).tanks && s == Registry.Step(r, up)
    ensures Agree(r, id, v) ==> (k in Newcomers(r, s) <==> HasShotFor(v, n))
  {
    if Agree(r, id, v) {
      assert IsTaken(v, v.taken[n]);
      assert Waits(r, r.tanks[id], v.taken[n]);
      ShotIsFiredExactly(r, id, v, n, up.angles);
      FiledExactlyIfFired(r, up, id, k);
    }
  }
}
