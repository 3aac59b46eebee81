/** The objects of a game by id: everything, the tanks, the missiles, and what clients may still have to hear of. */
module Registry {
  import opened TankActions
  import opened Ordering

  datatype Kind = TankKind | MissileKind | BlockKind

  /** An object; its place in the heap is its identity, its id is what the registries file it under. */
  datatype Obj = Obj(id: int, kind: Kind, forRemove: bool)

  type Index = map<int, nat>

  datatype Core = Core(now: int, lastId: int, heap: seq<Obj>, all: Index, zombies: Index, tanks: Index, shots: Index,
                       actions: map<nat, TankState>, players: map<int, nat>)

  // ---- Steps

  function AddObject(c: Core, o: Obj): Core {
    c.(heap := c.heap + [o], zombies := c.zombies[o.id := |c.heap|], all := c.all[o.id := |c.heap|])
  }

  /** A block, or a line of the map. */
  function AddBlock(c: Core): Core {
    AddObject(c.(lastId := c.lastId + 1), Obj(c.lastId + 1, BlockKind, false))
  }

  /** A player without a tank gets one. */
  function AddPlayer(c: Core, user: int, hasAi: bool): Core {
    if user in c.players then c
    else
      var id, u := c.lastId + 1, |c.heap|;
      var d := AddObject(c.(lastId := id), Obj(id, TankKind, false));
      d.(tanks := d.tanks[id := u], actions := d.actions[u := New(c.now, hasAi)], players := d.players[user := u])
  }

  /** A client's action for its tank; a shot that is taken uses up an id. */
  function Act(c: Core, user: int, client: int, trigger: int, shot: bool, angle: real, speed: real): Core {
    if user !in c.players || c.players[user] !in c.actions then c
    else
      var u := c.players[user];
      var t := c.actions[u];
      if HasClient(t.cinps, client) then c
      else
        var time := Clamped(trigger, c.now);
        if shot then
          c.(lastId := c.lastId + 1, actions := c.actions[u := Enqueue(t, Fire(t.made, client, time, c.lastId + 1))])
        else c.(actions := c.actions[u := Enqueue(t, Move(t.made, client, time, angle, speed))])
  }

  predicate IsFiled(u: nat, reg: Index) {
    exists id <- reg :: reg[id] == u
  }

  /** Objects of a registry that are to go. */
  function Marked(heap: seq<Obj>, which: set<nat>, reg: Index): (r: seq<Obj>)
    ensures |r| == |heap|
    ensures forall u :: 0 <= u < |r| ==> r[u].id == heap[u].id && r[u].kind == heap[u].kind
    ensures forall u :: 0 <= u < |r| ==> r[u].forRemove == (heap[u].forRemove || (u in which && IsFiled(u, reg)))
  {
    seq(|heap|, u requires 0 <= u < |heap| =>
      if u in which && IsFiled(u, reg) then heap[u].(forRemove := true) else heap[u])
  }

  function ToRemove(c: Core): set<int> {
    set id | id in c.all && c.all[id] < |c.heap| && c.heap[c.all[id]].forRemove
  }

  function Purged(c: Core): Core {
    var gone := ToRemove(c);
    c.(tanks := c.tanks - gone, shots := c.shots - gone, all := c.all - gone)
  }

  /** A missile under the id that its action got; making it uses up one more id. */
  function AddShot(c: Core, shotId: int): Core {
    var d := AddObject(c.(lastId := c.lastId + 1), Obj(shotId, MissileKind, false));
    d.(shots := d.shots[shotId := |c.heap|])
  }

  function AddShots(c: Core, ids: seq<int>): Core
    decreases |ids|
  {
    if ids == [] then c else AddShots(AddShot(c, ids[0]), ids[1..])
  }

  function Angle(angles: map<nat, real>, u: nat): real {
    if u in angles then angles[u] else 0.0
  }

  function UpdateTank(c: Core, id: int, angles: map<nat, real>): Core {
    if id !in c.tanks || c.tanks[id] !in c.actions then c
    else
      var u := c.tanks[id];
      var r := Tick(c.actions[u], c.now, Angle(angles, u));
      AddShots(c.(actions := c.actions[u := r.tank]), r.fired)
  }

  function UpdateTanks(c: Core, order: seq<int>, angles: map<nat, real>): Core
    decreases |order|
  {
    if order == [] then c else UpdateTanks(UpdateTank(c, order[0], angles), order[1..], angles)
  }

  /**
   * The time goes on, dead tanks and everything to be removed leave; then missiles that have flown too far are
   * marked.
   */
  function BeforeTanks(c: Core, dead: set<nat>, missed: set<nat>): Core {
    var d := Purged(c.(now := c.now + 1, heap := Marked(c.heap, dead, c.tanks)));
    d.(heap := Marked(d.heap, missed, d.shots))
  }

  /** One update; which tanks are dead and which missiles missed or hit is up to the geometry. */
  function Update(c: Core, order: seq<int>, dead: set<nat>, missed: set<nat>, hit: set<nat>, angles: map<nat,
                  real>): Core {
    var d := UpdateTanks(BeforeTanks(c, dead, missed), order, angles);
    d.(heap := Marked(d.heap, hit, d.shots))
  }

  /** An object that is long gone need not be told of any more. */
  function Forget(c: Core, ids: set<int>): Core {
    c.(zombies := c.zombies - ids)
  }

  // ---- What every step keeps

  /** Every entry leads to an object of that id. */
  predicate Filed(reg: Index, heap: seq<Obj>) {
    forall id <- reg :: reg[id] < |heap| && heap[reg[id]].id == id
  }

  /** A registry of some kind of object, inside the registry of all. */
  predicate Part(reg: Index, all: Index, heap: seq<Obj>, kind: Kind) {
    forall id <- reg :: id in all && all[id] == reg[id] && reg[id] < |heap| && heap[reg[id]].kind == kind
  }

  predicate IdsOk(heap: seq<Obj>, lastId: int) {
    && 0 <= lastId
    && (forall u :: 0 <= u < |heap| ==> 0 < heap[u].id <= lastId)
    && (forall u, v :: 0 <= u < v < |heap| ==> heap[u].id != heap[v].id)
  }

  /** No object has the id yet, and none will get it by counting on. */
  predicate Unused(id: int, heap: seq<Obj>, lastId: int) {
    0 < id <= lastId && forall u :: 0 <= u < |heap| ==> heap[u].id != id
  }

  predicate TankOk(t: TankState, now: int) {
    && InOrder(t.inps) && t.myStep <= now
    && forall i <- t.inps :: i.serial < t.made && i.trigger >= t.myStep
  }

  /** Tanks keep step with the game; those in `behind` have the present update still before them. */
  ghost predicate ActionsOk(c: Core, behind: seq<int>) {
    && (forall u <- c.actions :: TankOk(c.actions[u], c.now))
    && (forall id <- c.tanks :: c.tanks[id] in c.actions
         && c.actions[c.tanks[id]].myStep == if id in behind then c.now - 1 else c.now)
    && (forall user <- c.players :: c.players[user] in c.actions)
    && (forall u <- c.actions :: u < |c.heap|)
  }

  predicate Waits(c: Core, u: nat, i: Input) {
    u in c.actions && i in c.actions[u].inps && i.Fire?
  }

  /** Shots that still wait have ids of their own. */
  ghost predicate PendingOk(c: Core) {
    && (forall u, i :: Waits(c, u, i) ==> Unused(i.shotId, c.heap, c.lastId))
    && (forall u, i, v, j :: Waits(c, u, i) && Waits(c, v, j) && i.shotId == j.shotId ==> u == v && i == j)
  }

  ghost predicate RegistriesOk(c: Core) {
    && IdsOk(c.heap, c.lastId) && Filed(c.all, c.heap) && Filed(c.zombies, c.heap)
    && Part(c.tanks, c.all, c.heap, TankKind) && Part(c.shots, c.all, c.heap, MissileKind)
  }

  ghost predicate InvBut(c: Core, behind: seq<int>) {
    RegistriesOk(c) && ActionsOk(c, behind) && PendingOk(c)
  }

  ghost predicate Inv(c: Core) {
    InvBut(c, [])
  }

  /** Tanks and missiles are different objects, each also filed, under the same id, among all. */
  lemma RegistriesAreDisjoint(c: Core)
    requires RegistriesOk(c)
    ensures c.tanks.Keys !! c.shots.Keys
    ensures forall id :: id in c.tanks.Keys + c.shots.Keys ==>
      id in c.all && c.all[id] == (if id in c.tanks then c.tanks[id] else c.shots[id]) && c.heap[c.all[id]].id == id
  {
    forall id | id in c.tanks
      ensures id !in c.shots
    {
      assert c.heap[c.all[id]].kind == TankKind;
    }
  }

  /** Adding an object under an id that no object has hides no other. */
  lemma AddObjectKeeps(c: Core, o: Obj)
    requires RegistriesOk(c) && Unused(o.id, c.heap, c.lastId)
    ensures o.id !in c.all && o.id !in c.zombies
    ensures RegistriesOk(AddObject(c, o))
  {
  }

  lemma MoreIdsKeep(c: Core, n: int)
    requires RegistriesOk(c) && c.lastId <= n
    ensures RegistriesOk(c.(lastId := n)) && (forall id :: c.lastId < id <= n ==> Unused(id, c.heap, n))
  {
  }

  // ---- Shots that are fired in an update

  /** Ids about to be used: different, unused, and waited for by no other action. */
  ghost predicate DueOk(c: Core, ids: seq<int>) {
    && (forall x :: 0 <= x < |ids| ==> Unused(ids[x], c.heap, c.lastId))
    && (forall x, y :: 0 <= x < y < |ids| ==> ids[x] != ids[y])
    && (forall u, i :: Waits(c, u, i) ==> i.shotId !in ids)
  }

  lemma AddShotKeepsPending(c: Core, ids: seq<int>)
    requires PendingOk(c) && ids != [] && DueOk(c, ids)
    ensures PendingOk(AddShot(c, ids[0])) && DueOk(AddShot(c, ids[0]), ids[1..])
  {
    var r := AddShot(c, ids[0]);
    assert r.heap == c.heap + [Obj(ids[0], MissileKind, false)];
    assert forall u, i :: Waits(r, u, i) == Waits(c, u, i);
    forall u, i | Waits(r, u, i)
      ensures Unused(i.shotId, r.heap, r.lastId) && i.shotId !in ids[1..]
    {
      assert Waits(c, u, i);
    }
    forall x | 0 <= x < |ids[1..]|
      ensures Unused(ids[1..][x], r.heap, r.lastId)
    {
      assert Unused(ids[x + 1], c.heap, c.lastId) && ids[0] != ids[x + 1];
    }
  }

  lemma AddShotKeeps(c: Core, ids: seq<int>, behind: seq<int>)
    requires InvBut(c, behind) && ids != [] && DueOk(c, ids)
    ensures InvBut(AddShot(c, ids[0]), behind) && DueOk(AddShot(c, ids[0]), ids[1..])
    ensures ids[0] !in c.all && ids[0] !in c.zombies
  {
    assert Unused(ids[0], c.heap, c.lastId);
    AddShotKeepsPending(c, ids);
    AddShotKeepsRegistries(c, ids[0]);
    var r := AddShot(c, ids[0]);
    assert r.actions == c.actions && r.tanks == c.tanks && r.players == c.players;
    assert r.now == c.now && |r.heap| > |c.heap|;
  }

  lemma AddShotKeepsRegistries(c: Core, id: int)
    requires RegistriesOk(c) && Unused(id, c.heap, c.lastId)
    ensures RegistriesOk(AddShot(c, id)) && id !in c.all && id !in c.zombies
  {
    MoreIdsKeep(c, c.lastId + 1);
    AddObjectKeeps(c.(lastId := c.lastId + 1), Obj(id, MissileKind, false));
  }

  lemma {:induction false} AddShotsKeep(c: Core, ids: seq<int>, behind: seq<int>)
    requires InvBut(c, behind) && DueOk(c, ids)
    ensures var r := AddShots(c, ids);
      && InvBut(r, behind) && r.actions == c.actions && r.tanks == c.tanks
      && r.now == c.now && r.lastId == c.lastId + |ids|
    decreases |ids|
  {
    if ids != [] {
      AddShotKeeps(c, ids, behind);
      AddShotsKeep(AddShot(c, ids[0]), ids[1..], behind);
    }
  }

  lemma {:induction false} AddShotsKeepActions(c: Core, ids: seq<int>)
    ensures var r := AddShots(c, ids); r.actions == c.actions && r.tanks == c.tanks && r.now == c.now
    decreases |ids|
  {
    if ids != [] {
      AddShotsKeepActions(AddShot(c, ids[0]), ids[1..]);
    }
  }

  /** Different shots in line have different ids. */
  predicate OwnIds(s: seq<Input>) {
    forall x, y :: 0 <= x < y < |s| && s[x].Fire? && s[y].Fire? ==> s[x].shotId != s[y].shotId
  }

  lemma {:induction false} PartHasOwnIds(ids: seq<int>, ran: seq<Input>)
    requires IsPartOf(ids, ran) && OwnIds(ran)
    ensures forall x :: 0 <= x < |ids| ==> exists i <- ran :: i.Fire? && i.shotId == ids[x]
    ensures forall x, y :: 0 <= x < y < |ids| ==> ids[x] != ids[y]
    decreases |ran|
  {
    if ids != [] {
      assert ran == [ran[0]] + ran[1..];
      if ran[0].Fire? && ran[0].shotId == ids[0] && IsPartOf(ids[1..], ran[1..]) {
        PartHasOwnIds(ids[1..], ran[1..]);
        assert forall i <- ran[1..] :: i.Fire? ==> i.shotId != ids[0];
        assert ids == [ids[0]] + ids[1..];
        assert forall y :: 0 < y < |ids| ==> ids[y] == ids[1..][y - 1];
      } else {
        PartHasOwnIds(ids, ran[1..]);
      }
    }
  }

  lemma OrderSplits(ran: seq<Input>, rest: seq<Input>)
    requires InOrder(ran + rest)
    ensures InOrder(ran) && InOrder(rest) && forall i, j :: i in ran && j in rest ==> Before(i, j)
  {
    var all := ran + rest;
    assert forall x :: 0 <= x < |ran| ==> all[x] == ran[x];
    assert forall y :: 0 <= y < |rest| ==> all[|ran| + y] == rest[y];
    forall i, j | i in ran && j in rest
      ensures Before(i, j)
    {
      var x :| 0 <= x < |ran| && ran[x] == i;
      var y :| 0 <= y < |rest| && rest[y] == j;
      assert Before(all[x], all[|ran| + y]);
    }
  }

  /** Shots that wait in a tank have ids of their own. */
  predicate OwnShots(inps: seq<Input>) {
    forall i, j :: i in inps && j in inps && i.Fire? && j.Fire? && i.shotId == j.shotId ==> i == j
  }

  lemma OwnShotsInOrder(s: seq<Input>, inps: seq<Input>)
    requires InOrder(s) && OwnShots(inps) && forall i <- s :: i.Fire? ==> i in inps
    ensures OwnIds(s)
  {
  }

  /** The id was waiting in the queue, and no longer is. */
  predicate TakenFrom(id: int, inps: seq<Input>, rest: seq<Input>) {
    && (exists i <- inps :: i.Fire? && i.shotId == id)
    && forall i <- rest :: i.Fire? ==> i.shotId != id
  }

  lemma QueueSplits(inps: seq<Input>, ran: seq<Input>, rest: seq<Input>, fired: seq<int>)
    requires InOrder(ran + rest) && IsPartOf(fired, ran) && OwnShots(inps)
    requires forall i <- ran + rest :: i.Fire? ==> i in inps
    ensures forall x :: 0 <= x < |fired| ==> TakenFrom(fired[x], inps, rest)
    ensures forall x, y :: 0 <= x < y < |fired| ==> fired[x] != fired[y]
  {
    OrderSplits(ran, rest);
    assert forall i <- ran :: i in ran + rest;
    assert forall i <- rest :: i in ran + rest;
    OwnShotsInOrder(ran, inps);
    PartHasOwnIds(fired, ran);
    forall x | 0 <= x < |fired|
      ensures TakenFrom(fired[x], inps, rest)
    {
      var i :| i in ran && i.Fire? && i.shotId == fired[x];
      assert forall j <- rest :: Before(i, j);
    }
  }

  /** What an update does to a tank's queue, and which ids it fires. */
  lemma TickFacts(t: TankState, now: int, angle: real)
    requires TankOk(t, now) && t.myStep == now - 1 && OwnShots(t.inps)
    ensures var r := Tick(t, now, angle);
      && TankOk(r.tank, now) && r.tank.myStep == now
      && (forall i <- r.tank.inps :: i.Fire? ==> i in t.inps)
      && (forall x :: 0 <= x < |r.fired| ==> TakenFrom(r.fired[x], t.inps, r.tank.inps))
      && (forall x, y :: 0 <= x < y < |r.fired| ==> r.fired[x] != r.fired[y])
  {
    CleanedFacts(t, now, angle);
    RunFacts(t.inps, Cleaned(WithAi(t, now, angle)));
  }

  lemma RunFacts(inps: seq<Input>, v: TankState)
    requires OwnShots(inps) && forall i <- v.inps :: i.Fire? ==> i in inps
    requires InOrder(v.inps) && forall i <- v.inps :: i.serial < v.made && i.trigger >= v.myStep
    ensures var r := RunDue(v);
      && InOrder(r.tank.inps) && r.tank.myStep == v.myStep
      && (forall i <- r.tank.inps :: i.serial < r.tank.made && i.trigger > v.myStep && (i.Fire? ==> i in inps))
      && (forall x :: 0 <= x < |r.fired| ==> TakenFrom(r.fired[x], inps, r.tank.inps))
      && (forall x, y :: 0 <= x < y < |r.fired| ==> r.fired[x] != r.fired[y])
  {
    RunDueTakesFront(v);
    FiredRan(v);
    SplitFacts(inps, v, RunDue(v));
  }

  lemma SplitFacts(inps: seq<Input>, v: TankState, r: Ticked)
    requires OwnShots(inps) && forall i <- v.inps :: i.serial < v.made && (i.Fire? ==> i in inps)
    requires InOrder(v.inps) && r.ran + r.tank.inps == v.inps && IsPartOf(r.fired, r.ran)
    ensures InOrder(r.tank.inps) && forall i <- r.tank.inps :: i.serial < v.made && (i.Fire? ==> i in inps)
    ensures forall x :: 0 <= x < |r.fired| ==> TakenFrom(r.fired[x], inps, r.tank.inps)
    ensures forall x, y :: 0 <= x < y < |r.fired| ==> r.fired[x] != r.fired[y]
  {
    OrderSplits(r.ran, r.tank.inps);
    assert forall i <- r.tank.inps :: i in v.inps;
    QueueSplits(inps, r.ran, r.tank.inps, r.fired);
  }

  lemma CleanedFacts(t: TankState, now: int, angle: real)
    requires TankOk(t, now) && t.myStep == now - 1
    ensures var v := Cleaned(WithAi(t, now, angle));
      && InOrder(v.inps) && v.myStep == t.myStep && (forall i <- v.inps :: i.serial < v.made && i.trigger >= v.myStep)
      && forall i <- v.inps :: i.Fire? ==> i in t.inps
  {
    if t.hasAi {
      InsertKeepsOrder(t.inps, AiMove(t, now, angle));
    }
    NothingIsOverdue(WithAi(t, now, angle).inps, t.myStep);
  }

  /** A registered tank's update: its shots become missiles under their own ids, and no entry is lost. */
  lemma UpdateTankKeeps(c: Core, id: int, behind: seq<int>, angles: map<nat, real>)
    requires InvBut(c, [id] + behind) && id in c.tanks && id !in behind
    ensures InvBut(UpdateTank(c, id, angles), behind)
    ensures UpdateTank(c, id, angles).tanks == c.tanks
  {
    var u := c.tanks[id];
    var t := c.actions[u];
    var r := Tick(t, c.now, Angle(angles, u));
    var d := c.(actions := c.actions[u := r.tank]);
    assert forall i <- t.inps :: i.Fire? ==> Waits(c, u, i);
    TickFacts(t, c.now, Angle(angles, u));
    TickKeepsPending(c, u, r);
    TickKeepsActions(c, id, behind, r.tank);
    AddShotsKeep(d, r.fired, behind);
  }

  lemma TickKeepsActions(c: Core, id: int, behind: seq<int>, t: TankState)
    requires RegistriesOk(c) && ActionsOk(c, [id] + behind) && id in c.tanks && id !in behind
    requires TankOk(t, c.now) && t.myStep == c.now
    ensures ActionsOk(c.(actions := c.actions[c.tanks[id] := t]), behind)
  {
  }

  lemma TickKeepsPending(c: Core, u: nat, r: Ticked)
    requires PendingOk(c) && u in c.actions
    requires forall i <- r.tank.inps :: i.Fire? ==> i in c.actions[u].inps
    requires forall x :: 0 <= x < |r.fired| ==> TakenFrom(r.fired[x], c.actions[u].inps, r.tank.inps)
    requires forall x, y :: 0 <= x < y < |r.fired| ==> r.fired[x] != r.fired[y]
    ensures var d := c.(actions := c.actions[u := r.tank]); PendingOk(d) && DueOk(d, r.fired)
  {
    var d := c.(actions := c.actions[u := r.tank]);
    assert forall v, i :: Waits(d, v, i) ==> Waits(c, v, i);
    forall x | 0 <= x < |r.fired|
      ensures Unused(r.fired[x], d.heap, d.lastId)
      ensures forall v, i :: Waits(d, v, i) ==> i.shotId != r.fired[x]
    {
      assert TakenFrom(r.fired[x], c.actions[u].inps, r.tank.inps);
      var j :| j in c.actions[u].inps && j.Fire? && j.shotId == r.fired[x];
      assert Waits(c, u, j);
    }
  }

  /** Updates of some tanks, with those in `rest` still to come. */
  lemma {:induction false} UpdateTanksKeep(c: Core, order: seq<int>, rest: seq<int>, angles: map<nat, real>)
    requires InvBut(c, order + rest) && (forall id <- order :: id in c.tanks)
    requires forall x, y :: 0 <= x < y < |order + rest| ==> (order + rest)[x] != (order + rest)[y]
    ensures InvBut(UpdateTanks(c, order, angles), rest) && UpdateTanks(c, order, angles).tanks == c.tanks
    decreases |order|
  {
    if order == [] {
      assert order + rest == rest;
    } else {
      var id, others := order[0], order[1..] + rest;
      assert order + rest == [id] + others;
      NotAmongOthers(id, others);
      UpdateTankKeeps(c, id, others, angles);
      UpdateTanksKeep(UpdateTank(c, id, angles), order[1..], rest, angles);
    }
  }

  lemma NotAmongOthers(id: int, others: seq<int>)
    requires var all := [id] + others; forall x, y :: 0 <= x < y < |all| ==> all[x] != all[y]
    ensures id !in others && forall x, y :: 0 <= x < y < |others| ==> others[x] != others[y]
  {
    var all := [id] + others;
    forall x | 0 <= x < |others|
      ensures others[x] != id
    {
      assert all[0] != all[x + 1];
    }
    forall x, y | 0 <= x < y < |others|
      ensures others[x] != others[y]
    {
      assert all[x + 1] != all[y + 1];
    }
  }

  lemma MarkedKeeps(c: Core, which: set<nat>, reg: Index, behind: seq<int>)
    requires InvBut(c, behind)
    ensures InvBut(c.(heap := Marked(c.heap, which, reg)), behind)
  {
    var d := c.(heap := Marked(c.heap, which, reg));
    assert forall u, i :: Waits(d, u, i) == Waits(c, u, i);
    forall u, i | Waits(d, u, i)
      ensures Unused(i.shotId, d.heap, d.lastId)
    {
      assert Unused(i.shotId, c.heap, c.lastId);
    }
  }

  lemma PurgedKeeps(c: Core, behind: seq<int>)
    requires InvBut(c, behind)
    ensures InvBut(Purged(c), behind)
  {
    var d := Purged(c);
    assert forall u, i :: Waits(d, u, i) == Waits(c, u, i);
  }

  /** When the time goes on, all tanks have the update before them. */
  lemma TimeGoesOn(c: Core, order: seq<int>)
    requires Inv(c) && IsOrderOf(order, c.tanks.Keys)
    ensures InvBut(c.(now := c.now + 1), order)
  {
    var d := c.(now := c.now + 1);
    assert forall u, i :: Waits(d, u, i) == Waits(c, u, i);
    forall id | id in d.tanks
      ensures id in order && d.tanks[id] in d.actions && d.actions[d.tanks[id]].myStep == d.now - 1
    {
      assert id in c.tanks.Keys;
    }
  }

  lemma BeforeTanksInParts(c: Core, dead: set<nat>, missed: set<nat>)
    ensures var p := Purged(c.(heap := Marked(c.heap, dead, c.tanks)));
      var d := p.(now := p.now + 1);
      && BeforeTanks(c, dead, missed) == d.(heap := Marked(d.heap, missed, d.shots))
      && BeforeTanks(c, dead, missed).tanks == p.tanks
  {
  }

  lemma BeforeTanksKeeps(c: Core, dead: set<nat>, missed: set<nat>, order: seq<int>)
    requires Inv(c) && IsOrderOf(order, BeforeTanks(c, dead, missed).tanks.Keys)
    ensures InvBut(BeforeTanks(c, dead, missed), order)
  {
    var p := Purged(c.(heap := Marked(c.heap, dead, c.tanks)));
    var d := p.(now := p.now + 1);
    var r := d.(heap := Marked(d.heap, missed, d.shots));
    assert BeforeTanks(c, dead, missed) == r && r.tanks == p.tanks by {
      BeforeTanksInParts(c, dead, missed);
    }
    assert Inv(p) by {
      LeaversLeave(c, dead);
    }
    assert InvBut(r, order) by {
      MissilesMiss(p, missed, order);
    }
  }

  lemma LeaversLeave(c: Core, dead: set<nat>)
    requires Inv(c)
    ensures Inv(Purged(c.(heap := Marked(c.heap, dead, c.tanks))))
  {
    MarkedKeeps(c, dead, c.tanks, []);
    PurgedKeeps(c.(heap := Marked(c.heap, dead, c.tanks)), []);
  }

  lemma MissilesMiss(p: Core, missed: set<nat>, order: seq<int>)
    requires Inv(p) && IsOrderOf(order, p.tanks.Keys)
    ensures var d := p.(now := p.now + 1); InvBut(d.(heap := Marked(d.heap, missed, d.shots)), order)
  {
    TimeGoesOn(p, order);
    MarkedKeeps(p.(now := p.now + 1), missed, p.shots, order);
  }

  lemma UpdateKeeps(c: Core, order: seq<int>, dead: set<nat>, missed: set<nat>, hit: set<nat>, angles: map<nat, real>)
    requires Inv(c) && IsOrderOf(order, BeforeTanks(c, dead, missed).tanks.Keys)
    ensures Inv(Update(c, order, dead, missed, hit, angles))
  {
    BeforeTanksKeeps(c, dead, missed, order);
    var d := BeforeTanks(c, dead, missed);
    assert order + [] == order;
    UpdateTanksKeep(d, order, [], angles);
    var e := UpdateTanks(d, order, angles);
    MarkedKeeps(e, hit, e.shots, []);
  }

  lemma AddBlockKeeps(c: Core)
    requires Inv(c)
    ensures Inv(AddBlock(c)) && c.lastId + 1 !in c.all && c.lastId + 1 !in c.zombies
  {
    MoreIdsKeep(c, c.lastId + 1);
    var d, r := c.(lastId := c.lastId + 1), AddBlock(c);
    AddObjectKeeps(d, Obj(c.lastId + 1, BlockKind, false));
    MoreIdsKeepPending(c, r);
  }

  /** A new object under the next id is in nobody's way. */
  lemma MoreIdsKeepPending(c: Core, r: Core)
    requires PendingOk(c) && r.lastId == c.lastId + 1 && |r.heap| == |c.heap| + 1 && r.heap[..|c.heap|] == c.heap
    requires r.heap[|c.heap|].id == r.lastId && forall u, i :: Waits(r, u, i) ==> Waits(c, u, i)
    ensures PendingOk(r)
  {
  }

  lemma AddPlayerKeeps(c: Core, user: int, hasAi: bool)
    requires Inv(c)
    ensures Inv(AddPlayer(c, user, hasAi))
    ensures user !in c.players ==> c.lastId + 1 !in c.all && c.lastId + 1 !in c.zombies
  {
    if user !in c.players {
      AddTankKeepsRegistries(c, user, hasAi);
      AddTankKeepsActions(c, user, hasAi);
      MoreIdsKeepPending(c, AddPlayer(c, user, hasAi));
    }
  }

  lemma AddTankKeepsRegistries(c: Core, user: int, hasAi: bool)
    requires RegistriesOk(c) && user !in c.players
    ensures RegistriesOk(AddPlayer(c, user, hasAi)) && c.lastId + 1 !in c.all && c.lastId + 1 !in c.zombies
  {
    MoreIdsKeep(c, c.lastId + 1);
    AddObjectKeeps(c.(lastId := c.lastId + 1), Obj(c.lastId + 1, TankKind, false));
  }

  lemma AddTankKeepsActions(c: Core, user: int, hasAi: bool)
    requires RegistriesOk(c) && ActionsOk(c, []) && user !in c.players
    ensures ActionsOk(AddPlayer(c, user, hasAi), [])
    ensures forall u, i :: Waits(AddPlayer(c, user, hasAi), u, i) ==> Waits(c, u, i)
  {
    var r := AddPlayer(c, user, hasAi);
    assert r.actions == c.actions[|c.heap| := New(c.now, hasAi)];
    assert r.tanks == c.tanks[c.lastId + 1 := |c.heap|] && r.now == c.now && |r.heap| == |c.heap| + 1;
  }

  lemma ActKeeps(c: Core, user: int, client: int, trigger: int, shot: bool, angle: real, speed: real)
    requires Inv(c)
    ensures Inv(Act(c, user, client, trigger, shot, angle, speed))
  {
    if user in c.players && !HasClient(c.actions[c.players[user]].cinps, client) {
      var u := c.players[user];
      var t, time := c.actions[u], Clamped(trigger, c.now);
      var n := if shot then c.lastId + 1 else c.lastId;
      var i := if shot then Fire(t.made, client, time, n) else Move(t.made, client, time, angle, speed);
      InsertKeepsOrder(t.inps, i);
      var d := c.(lastId := n, actions := c.actions[u := Enqueue(t, i)]);
      assert d == Act(c, user, client, trigger, shot, angle, speed);
      MoreIdsKeep(c, n);
      assert ActionsOk(d, []) by {
        ActKeepsActions(c, u, i, n);
      }
      ActKeepsPending(c, u, i, n);
    }
  }

  lemma ActKeepsActions(c: Core, u: nat, i: Input, n: int)
    requires ActionsOk(c, []) && u in c.actions && i.serial == c.actions[u].made && i.trigger >= c.now + LEAD
    requires InOrder(Insert(c.actions[u].inps, i))
    ensures ActionsOk(c.(lastId := n, actions := c.actions[u := Enqueue(c.actions[u], i)]), [])
  {
  }

  lemma ActKeepsPending(c: Core, u: nat, i: Input, n: int)
    requires RegistriesOk(c) && PendingOk(c) && u in c.actions && c.lastId <= n
    requires (i.Fire? ==> i.shotId == n == c.lastId + 1)
    ensures PendingOk(c.(lastId := n, actions := c.actions[u := Enqueue(c.actions[u], i)]))
  {
    var d := c.(lastId := n, actions := c.actions[u := Enqueue(c.actions[u], i)]);
    forall v, j | Waits(d, v, j)
      ensures Waits(c, v, j) || (v == u && j == i)
      ensures Unused(j.shotId, d.heap, d.lastId)
    {
      if Waits(c, v, j) {
        assert Unused(j.shotId, c.heap, c.lastId);
      }
    }
    forall v, j, w, k | Waits(d, v, j) && Waits(d, w, k) && j.shotId == k.shotId
      ensures v == w && j == k
    {
      assert Waits(c, v, j) ==> Unused(j.shotId, c.heap, c.lastId);
      assert Waits(c, w, k) ==> Unused(k.shotId, c.heap, c.lastId);
    }
  }

  lemma ForgetKeeps(c: Core, ids: set<int>)
    requires Inv(c)
    ensures Inv(Forget(c, ids))
  {
    var d := Forget(c, ids);
    assert forall u, i :: Waits(d, u, i) == Waits(c, u, i);
  }

  // ---- Whole runs

  datatype Event =
    | Block | Player(user: int, hasAi: bool)
    | Message(user: int, client: int, trigger: int, shot: bool, angle: real, speed: real)
    | GameUpdate(order: seq<int>, dead: set<nat>, missed: set<nat>, hit: set<nat>, angles: map<nat, real>)
    | ForgetZombies(ids: set<int>)

  /** A proper update of the game: it visits the tanks left after the purge, in order. */
  ghost predicate IsUpdate(c: Core, e: Event) {
    e.GameUpdate? && IsOrderOf(e.order, BeforeTanks(c, e.dead, e.missed).tanks.Keys)
  }

  ghost function Step(c: Core, e: Event): Core {
    match e
    case Block => AddBlock(c)
    case Player(user, hasAi) => AddPlayer(c, user, hasAi)
    case Message(user, client, trigger, shot, angle, speed) => Act(c, user, client, trigger, shot, angle, speed)
    case GameUpdate(order, dead, missed, hit, angles) =>
      if IsUpdate(c, e) then Update(c, order, dead, missed, hit, angles) else c
    case ForgetZombies(ids) => Forget(c, ids)
  }

  ghost function Run(c: Core, events: seq<Event>): Core {
    if events == [] then c else Step(Run(c, events[..|events| - 1]), events[|events| - 1])
  }

  function Empty(): Core {
    Core(0, 0, [], map[], map[], map[], map[], map[], map[])
  }

  lemma StepKeeps(c: Core, e: Event)
    requires Inv(c)
    ensures Inv(Step(c, e))
  {
    match e
    case Block => AddBlockKeeps(c);
    case Player(user, hasAi) => AddPlayerKeeps(c, user, hasAi);
    case Message(user, client, trigger, shot, angle, speed) => ActKeeps(c, user, client, trigger, shot, angle, speed);
    case GameUpdate(order, dead, missed, hit, angles) =>
      if IsOrderOf(order, BeforeTanks(c, dead, missed).tanks.Keys) {
        UpdateKeeps(c, order, dead, missed, hit, angles);
      }
    case ForgetZombies(ids) => ForgetKeeps(c, ids);
  }

  lemma {:induction false} EveryRunKeeps(events: seq<Event>)
    ensures Inv(Run(Empty(), events))
  {
    if events != [] {
      EveryRunKeeps(events[..|events| - 1]);
      StepKeeps(Run(Empty(), events[..|events| - 1]), events[|events| - 1]);
    }
  }

  // ---- What a run never does

  /** Later objects only come after earlier ones, which keep their ids and kinds. */
  predicate Grown(heap: seq<Obj>, later: seq<Obj>) {
    |heap| <= |later| && forall u :: 0 <= u < |heap| ==> later[u].id == heap[u].id && later[u].kind == heap[u].kind
  }

  lemma {:induction false} AddShotsGrow(c: Core, ids: seq<int>)
    ensures Grown(c.heap, AddShots(c, ids).heap)
    decreases |ids|
  {
    if ids != [] {
      AddShotsGrow(AddShot(c, ids[0]), ids[1..]);
      assert Grown(c.heap, AddShot(c, ids[0]).heap);
    }
  }

  lemma {:induction false} UpdateTanksGrow(c: Core, order: seq<int>, angles: map<nat, real>)
    ensures Grown(c.heap, UpdateTanks(c, order, angles).heap)
    decreases |order|
  {
    if order != [] {
      var id := order[0];
      if id in c.tanks && c.tanks[id] in c.actions {
        var r := TankActions.Tick(c.actions[c.tanks[id]], c.now, Angle(angles, c.tanks[id]));
        AddShotsGrow(c.(actions := c.actions[c.tanks[id] := r.tank]), r.fired);
      }
      UpdateTanksGrow(UpdateTank(c, id, angles), order[1..], angles);
    }
  }

  lemma StepGrows(c: Core, e: Event)
    ensures Grown(c.heap, Step(c, e).heap)
  {
    if e.GameUpdate? {
      var d := BeforeTanks(c, e.dead, e.missed);
      UpdateTanksGrow(d, e.order, e.angles);
    }
  }

  /** In every run, an id leads to the same object as long as it is filed: no later object takes its place. */
  lemma IdsAreNeverReused(events: seq<Event>, e: Event, id: int)
    ensures var c, r := Run(Empty(), events), Step(Run(Empty(), events), e);
      && (id in c.all && id in r.all ==> r.all[id] == c.all[id])
      && (id in c.zombies && id in r.zombies ==> r.zombies[id] == c.zombies[id])
      && (id in c.tanks && id in r.tanks ==> r.tanks[id] == c.tanks[id])
      && (id in c.shots && id in r.shots ==> r.shots[id] == c.shots[id])
  {
    var c := Run(Empty(), events);
    EveryRunKeeps(events);
    StepKeeps(c, e);
    StepGrows(c, e);
  }

  /** In every run, tanks and missiles are disjoint parts of all objects. */
  lemma EveryRunKeepsPartsDisjoint(events: seq<Event>)
    ensures var c := Run(Empty(), events);
      && c.tanks.Keys !! c.shots.Keys
      && forall id :: id in c.tanks.Keys + c.shots.Keys ==>
           id in c.all && c.all[id] == (if id in c.tanks then c.tanks[id] else c.shots[id]) && c.all[id] < |c.heap|
  {
    EveryRunKeeps(events);
    RegistriesAreDisjoint(Run(Empty(), events));
  }
}
