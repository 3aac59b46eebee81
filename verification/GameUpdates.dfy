/** What an update does to the registries of a game: who leaves, who comes, who is marked, and who is left alone. */
module GameUpdates {
  import opened Ordering
  import opened Registry
  import TankActions

  // ---- The purge

  /** A registry after the purge: exactly the entries whose object is marked are gone. */
  ghost predicate PurgedOf(reg: Index, all: Index, heap: seq<Obj>, left: Index) {
    && (forall id :: id in left <==> id in reg && !(id in all && all[id] < |heap| && heap[all[id]].forRemove))
    && forall id <- left :: left[id] == reg[id]
  }

  lemma PurgedExactly(c: Core)
    ensures var r := Purged(c);
      && PurgedOf(c.all, c.all, c.heap, r.all) && PurgedOf(c.tanks, c.all, c.heap, r.tanks)
      && PurgedOf(c.shots, c.all, c.heap, r.shots) && r.zombies == c.zombies && r.heap == c.heap
  {
  }

  // ---- New missiles

  /** Everything filed stays as it is; objects only come behind the others, unmarked. */
  ghost predicate Kept(c: Core, d: Core) {
    && c.all.Keys <= d.all.Keys && (forall id <- c.all :: d.all[id] == c.all[id])
    && c.zombies.Keys <= d.zombies.Keys && (forall id <- c.zombies :: d.zombies[id] == c.zombies[id])
    && c.shots.Keys <= d.shots.Keys && (forall id <- c.shots :: d.shots[id] == c.shots[id])
    && (forall id <- d.shots :: id in c.shots || d.shots[id] >= |c.heap|)
    && d.tanks == c.tanks && |c.heap| <= |d.heap| && (forall u :: 0 <= u < |c.heap| ==> d.heap[u] == c.heap[u])
    && (forall u :: |c.heap| <= u < |d.heap| ==> !d.heap[u].forRemove)
  }

  lemma KeptAlong(b: Core, c: Core, d: Core)
    requires Kept(b, c) && Kept(c, d)
    ensures Kept(b, d)
  {
  }

  /** A live missile under its id in all three registries. */
  ghost predicate IsMissile(c: Core, id: int) {
    && id in c.all && id in c.zombies && id in c.shots && c.all[id] == c.zombies[id] == c.shots[id] < |c.heap|
    && c.heap[c.all[id]] == Obj(id, MissileKind, false)
  }

  /** The missile is new since then. */
  ghost predicate IsNewMissile(c: Core, d: Core, id: int) {
    IsMissile(d, id) && id !in c.all && |c.heap| <= d.all[id]
  }

  lemma AddShotFiles(c: Core, ids: seq<int>, behind: seq<int>)
    requires InvBut(c, behind) && ids != [] && DueOk(c, ids)
    ensures var d := AddShot(c, ids[0]);
      && InvBut(d, behind) && DueOk(d, ids[1..]) && Kept(c, d) && IsNewMissile(c, d, ids[0])
      && forall id <- d.all :: id in c.all || id == ids[0]
  {
    AddShotKeeps(c, ids, behind);
  }

  lemma NewOnTheWay(b: Core, c: Core, d: Core, id: int)
    requires Kept(b, c) && Kept(c, d) && (IsNewMissile(b, c, id) || IsNewMissile(c, d, id))
    ensures IsNewMissile(b, d, id)
  {
  }

  lemma {:induction false} AddShotsFile(c: Core, ids: seq<int>, behind: seq<int>)
    requires InvBut(c, behind) && DueOk(c, ids)
    ensures var r := AddShots(c, ids);
      && Kept(c, r) && (forall id <- ids :: IsNewMissile(c, r, id)) && forall id <- r.all :: id in c.all || id in ids
    decreases |ids|
  {
    if ids != [] {
      var first, rest, d, r := ids[0], ids[1..], AddShot(c, ids[0]), AddShots(c, ids);
      AddShotFiles(c, ids, behind);
      AddShotsFile(d, rest, behind);
      FilesFirst(c, d, r, first, rest);
      assert ids == [first] + rest;
    }
  }

  lemma FilesFirst(c: Core, d: Core, r: Core, first: int, rest: seq<int>)
    requires Kept(c, d) && IsNewMissile(c, d, first) && (forall id <- d.all :: id in c.all || id == first)
    requires Kept(d, r) && (forall id <- rest :: IsNewMissile(d, r, id))
    requires forall id <- r.all :: id in d.all || id in rest
    ensures Kept(c, r) && (forall id <- [first] + rest :: IsNewMissile(c, r, id))
    ensures forall id <- r.all :: id in c.all || id in [first] + rest
  {
    KeptAlong(c, d, r);
    forall id | id in [first] + rest
      ensures IsNewMissile(c, r, id)
    {
      NewOnTheWay(c, d, r, id);
    }
  }

  /** The ids that the tank under this id fires in an update. */
  function FiredBy(c: Core, id: int, angles: map<nat, real>): seq<int>
    requires id in c.tanks && c.tanks[id] in c.actions
  {
    TankActions.Tick(c.actions[c.tanks[id]], c.now, Angle(angles, c.tanks[id])).fired
  }

  lemma UpdateTankFiles(c: Core, id: int, behind: seq<int>, angles: map<nat, real>)
    requires InvBut(c, [id] + behind) && id in c.tanks && id !in behind
    ensures c.tanks[id] in c.actions
    ensures var r, fired := UpdateTank(c, id, angles), FiredBy(c, id, angles);
      && Kept(c, r) && (forall k <- fired :: IsNewMissile(c, r, k)) && (forall k <- r.all :: k in c.all || k in fired)
  {
    var u := c.tanks[id];
    var t := c.actions[u];
    var r := TankActions.Tick(t, c.now, Angle(angles, u));
    var d := c.(actions := c.actions[u := r.tank]);
    assert forall i <- t.inps :: i.Fire? ==> Waits(c, u, i);
    TickFacts(t, c.now, Angle(angles, u));
    TickKeepsPending(c, u, r);
    TickKeepsActions(c, id, behind, r.tank);
    AddShotsFile(d, r.fired, behind);
  }

  lemma UpdateTankSpares(c: Core, id: int, behind: seq<int>, angles: map<nat, real>)
    requires InvBut(c, [id] + behind) && id in c.tanks && id !in behind
    ensures var r := UpdateTank(c, id, angles);
      && r.tanks == c.tanks && r.now == c.now
      && forall k <- c.tanks :: k != id ==>
           c.tanks[k] in c.actions && c.tanks[k] in r.actions && r.actions[c.tanks[k]] == c.actions[c.tanks[k]]
  {
    var u := c.tanks[id];
    var r := TankActions.Tick(c.actions[u], c.now, Angle(angles, u));
    AddShotsKeepActions(c.(actions := c.actions[u := r.tank]), r.fired);
    assert forall k <- c.tanks :: c.heap[c.tanks[k]].id == k;
  }

  /** The updates of all tanks file exactly the missiles that they fire. */
  ghost predicate FilesWhatIsFired(c: Core, order: seq<int>, angles: map<nat, real>, r: Core) {
    && Kept(c, r) && (forall id <- order :: id in c.tanks && c.tanks[id] in c.actions)
    && (forall id <- order :: forall k <- FiredBy(c, id, angles) :: IsNewMissile(c, r, k))
    && forall k <- r.all :: k in c.all || exists id <- order :: k in FiredBy(c, id, angles)
  }

  lemma {:induction false} UpdateTanksFile(c: Core, order: seq<int>, angles: map<nat, real>)
    requires InvBut(c, order) && (forall id <- order :: id in c.tanks)
    requires forall x, y :: 0 <= x < y < |order| ==> order[x] != order[y]
    ensures FilesWhatIsFired(c, order, angles, UpdateTanks(c, order, angles))
    decreases |order|
  {
    if order != [] {
      var id, rest := order[0], order[1..];
      assert order == [id] + rest;
      NotAmongOthers(id, rest);
      UpdateTankKeeps(c, id, rest, angles);
      UpdateTankFiles(c, id, rest, angles);
      UpdateTankSpares(c, id, rest, angles);
      var d := UpdateTank(c, id, angles);
      UpdateTanksFile(d, rest, angles);
      FilesOneMore(c, d, id, rest, angles, UpdateTanks(d, rest, angles));
    }
  }

  lemma FilesOneMore(c: Core, d: Core, id: int, rest: seq<int>, angles: map<nat, real>, r: Core)
    requires id in c.tanks && c.tanks[id] in c.actions && Kept(c, d) && FilesWhatIsFired(d, rest, angles, r)
    requires forall k <- FiredBy(c, id, angles) :: IsNewMissile(c, d, k)
    requires forall k <- d.all :: k in c.all || k in FiredBy(c, id, angles)
    requires d.now == c.now && id !in rest && forall k <- c.tanks :: k != id ==>
      c.tanks[k] in c.actions && c.tanks[k] in d.actions && d.actions[c.tanks[k]] == c.actions[c.tanks[k]]
    ensures FilesWhatIsFired(c, [id] + rest, angles, r)
  {
    var order := [id] + rest;
    assert id in order && forall k <- order :: k == id || k in rest;
    assert forall k <- rest :: k in order && k in c.tanks && FiredBy(d, k, angles) == FiredBy(c, k, angles);
    assert Kept(c, r) by {
      KeptAlong(c, d, r);
    }
    forall j, k | j in order && k in FiredBy(c, j, angles)
      ensures IsNewMissile(c, r, k)
    {
      NewOnTheWay(c, d, r, k);
    }
    forall k | k in r.all
      ensures k in c.all || exists j <- order :: k in FiredBy(c, j, angles)
    {
      if k !in d.all {
        var j :| j in rest && k in FiredBy(d, j, angles);
      }
    }
  }

  // ---- Whole updates

  /** Marked objects leave in this update, and so do tanks found dead. */
  predicate Leaves(c: Core, e: Registry.Event, id: int)
    requires e.GameUpdate? && id in c.all && c.all[id] < |c.heap|
  {
    c.heap[c.all[id]].forRemove || (id in c.tanks && c.all[id] in e.dead)
  }

  /** Of the entries of a registry exactly those that do not leave are still there, unchanged. */
  ghost predicate LeftOf(c: Core, e: Registry.Event, reg: Index, left: Index)
    requires e.GameUpdate? && Filed(c.all, c.heap)
  {
    forall id <- c.all :: (id in left <==> id in reg && !Leaves(c, e, id)) && (id in left ==> left[id] == reg[id])
  }

  lemma BeforeTanksLeaves(c: Core, e: Registry.Event)
    requires Inv(c) && e.GameUpdate?
    ensures var d := BeforeTanks(c, e.dead, e.missed);
      && LeftOf(c, e, c.all, d.all) && LeftOf(c, e, c.tanks, d.tanks) && LeftOf(c, e, c.shots, d.shots)
      && d.all.Keys <= c.all.Keys && d.tanks.Keys <= c.tanks.Keys && d.shots.Keys <= c.shots.Keys
      && d.zombies == c.zombies
  {
    var m := c.(now := c.now + 1, heap := Marked(c.heap, e.dead, c.tanks));
    PurgedExactly(m);
    forall id | id in c.all
      ensures m.heap[m.all[id]].forRemove <==> Leaves(c, e, id)
    {
      if IsFiled(c.all[id], c.tanks) {
        var k :| k in c.tanks && c.tanks[k] == c.all[id];
        assert c.heap[c.all[k]].id == k;
      }
    }
  }

  /** After an update exactly these objects are marked. */
  ghost predicate MarksOf(c: Core, e: Registry.Event, r: Core)
    requires e.GameUpdate?
  {
    |c.heap| <= |r.heap| && forall u :: 0 <= u < |r.heap| ==>
      (r.heap[u].forRemove <==>
        || (u < |c.heap| && c.heap[u].forRemove) || (u in e.dead && IsFiled(u, c.tanks))
        || (u < |c.heap| && u in e.missed && IsFiled(u, r.shots)) || (u in e.hit && IsFiled(u, r.shots)))
  }

  lemma UpdateMarks(c: Core, e: Registry.Event, d: Core, t: Core)
    requires Inv(c) && e.GameUpdate? && d == BeforeTanks(c, e.dead, e.missed) && Kept(d, t)
    ensures MarksOf(c, e, t.(heap := Marked(t.heap, e.hit, t.shots)))
  {
    var r := t.(heap := Marked(t.heap, e.hit, t.shots));
    assert |d.heap| == |c.heap|;
    forall u | 0 <= u < |c.heap|
      ensures IsFiled(u, t.shots) <==> IsFiled(u, d.shots)
    {
      if IsFiled(u, t.shots) {
        var id :| id in t.shots && t.shots[id] == u;
        assert d.shots[id] == u;
      }
      if IsFiled(u, d.shots) {
        var id :| id in d.shots && d.shots[id] == u;
        assert t.shots[id] == u;
      }
    }
  }

  /** The tanks' updates change nothing of what the purge left. */
  lemma LeftOfKept(c: Core, e: Registry.Event, d: Core, t: Core)
    requires e.GameUpdate? && RegistriesOk(c) && RegistriesOk(t) && Kept(d, t)
    requires LeftOf(c, e, c.all, d.all) && LeftOf(c, e, c.tanks, d.tanks) && LeftOf(c, e, c.shots, d.shots)
    requires |d.heap| == |c.heap| && forall id <- t.all :: id in d.all || id in t.shots
    requires forall id <- t.all :: id in c.all ==> t.all[id] == c.all[id]
    ensures LeftOf(c, e, c.all, t.all) && LeftOf(c, e, c.tanks, t.tanks) && LeftOf(c, e, c.shots, t.shots)
  {
    assert forall id <- t.shots :: id in d.shots || t.all[id] >= |c.heap|;
  }

  /** An update in two parts: what it leaves, and what the tanks' updates add. */
  lemma UpdateInTwo(c: Core, e: Registry.Event)
    requires Inv(c) && IsUpdate(c, e)
    ensures var d := BeforeTanks(c, e.dead, e.missed);
      && FilesWhatIsFired(d, e.order, e.angles, UpdateTanks(d, e.order, e.angles))
      && LeftOf(c, e, c.all, d.all) && LeftOf(c, e, c.tanks, d.tanks) && LeftOf(c, e, c.shots, d.shots)
      && d.zombies == c.zombies && |d.heap| == |c.heap| && d.actions == c.actions && d.now == c.now + 1
      && d.all.Keys <= c.all.Keys && d.tanks.Keys <= c.tanks.Keys
      && InvBut(UpdateTanks(d, e.order, e.angles), [])
  {
    var d := BeforeTanks(c, e.dead, e.missed);
    BeforeTanksKeeps(c, e.dead, e.missed, e.order);
    BeforeTanksLeaves(c, e);
    UpdateTanksFile(d, e.order, e.angles);
    assert e.order + [] == e.order;
    UpdateTanksKeep(d, e.order, [], e.angles);
  }

  lemma UpdateIsMarks(c: Core, e: Registry.Event)
    requires IsUpdate(c, e)
    ensures var t := UpdateTanks(BeforeTanks(c, e.dead, e.missed), e.order, e.angles);
      Step(c, e) == t.(heap := Marked(t.heap, e.hit, t.shots))
  {
  }

  lemma SameIds(c: Core, d: Core, t: Core)
    requires RegistriesOk(c) && RegistriesOk(t) && |d.heap| == |c.heap| && Kept(d, t)
    requires forall u :: 0 <= u < |c.heap| ==> d.heap[u].id == c.heap[u].id
    ensures forall id <- t.all :: id in c.all ==> t.all[id] == c.all[id]
  {
  }

  /**
   * In every run, an update takes out of the three registries exactly the objects that are marked and the tanks found
   * dead. Everything else that is filed stays as it is, and nothing is forgotten.
   */
  lemma UpdateRemovesExactly(events: seq<Registry.Event>, e: Registry.Event)
    requires IsUpdate(Run(Empty(), events), e)
    ensures var c, r := Run(Empty(), events), Step(Run(Empty(), events), e);
      && Filed(c.all, c.heap)
      && OnlyLeaversGo(c, e, r)
      && (forall id <- c.tanks :: id in c.all) && (forall id <- c.shots :: id in c.all)
  {
    EveryRunKeeps(events);
    UpdateRemoves(Run(Empty(), events), e);
  }

  /** What the update leaves, and that nothing is forgotten. */
  ghost predicate OnlyLeaversGo(c: Core, e: Registry.Event, r: Core)
    requires e.GameUpdate? && Filed(c.all, c.heap)
  {
    && LeftOf(c, e, c.all, r.all) && LeftOf(c, e, c.tanks, r.tanks) && LeftOf(c, e, c.shots, r.shots)
    && forall id <- c.zombies :: id in r.zombies && r.zombies[id] == c.zombies[id]
  }

  lemma UpdateRemoves(c: Core, e: Registry.Event)
    requires Inv(c) && IsUpdate(c, e)
    ensures OnlyLeaversGo(c, e, Step(c, e))
  {
    var d := BeforeTanks(c, e.dead, e.missed);
    var t := UpdateTanks(d, e.order, e.angles);
    assert OnlyLeaversGo(c, e, t) by {
      UpdateInTwo(c, e);
      SameIds(c, d, t);
      LeftOfKept(c, e, d, t);
    }
    UpdateIsMarks(c, e);
  }

  lemma SameFired(c: Core, d: Core, order: seq<int>, angles: map<nat, real>)
    requires d.actions == c.actions && (forall id <- d.tanks :: id in c.tanks && d.tanks[id] == c.tanks[id])
    requires forall id <- order :: id in d.tanks && d.tanks[id] in d.actions
    ensures forall id <- order :: id in c.tanks && c.tanks[id] in c.actions
    ensures forall id <- order :: FiredBy(c.(now := d.now), id, angles) == FiredBy(d, id, angles)
  {
  }

  /** Exactly the missiles fired in an update are new, each filed under its own id in all registries. */
  ghost predicate NewAreFired(c: Core, e: Registry.Event, r: Core)
    requires e.GameUpdate? && forall id <- e.order :: id in c.tanks && c.tanks[id] in c.actions
  {
    var d := c.(now := c.now + 1);
    && (forall id <- e.order :: forall k <- FiredBy(d, id, e.angles) :: IsFiledMissile(c, r, k))
    && forall k <- r.all :: k in c.all || exists id <- e.order :: k in FiredBy(d, id, e.angles)
  }

  /** The missile is filed under its id in all three registries, and was not before. */
  ghost predicate IsFiledMissile(c: Core, r: Core, k: int) {
    && k !in c.all && k in r.all && k in r.zombies && k in r.shots && r.all[k] == r.zombies[k] == r.shots[k]
    && |c.heap| <= r.all[k] < |r.heap| && r.heap[r.all[k]].id == k && r.heap[r.all[k]].kind == MissileKind
  }

  lemma FiledAfterMarks(c: Core, d: Core, t: Core, r: Core, k: int)
    requires IsNewMissile(d, t, k) && |d.heap| == |c.heap|
    requires Filed(c.all, c.heap) && (k in c.all ==> t.all[k] == c.all[k])
    requires r == t.(heap := r.heap) && |r.heap| == |t.heap|
    requires forall u :: 0 <= u < |r.heap| ==> r.heap[u].id == t.heap[u].id && r.heap[u].kind == t.heap[u].kind
    ensures IsFiledMissile(c, r, k)
  {
  }

  lemma FiredAreFiled(c: Core, e: Registry.Event, d: Core, t: Core, r: Core)
    requires e.GameUpdate? && FilesWhatIsFired(d, e.order, e.angles, t) && |d.heap| == |c.heap| && Filed(c.all, c.heap)
    requires forall id <- t.all :: id in c.all ==> t.all[id] == c.all[id]
    requires forall id <- d.all :: id in c.all
    requires forall id <- e.order :: id in c.tanks && c.tanks[id] in c.actions
    requires forall id <- e.order :: FiredBy(c.(now := c.now + 1), id, e.angles) == FiredBy(d, id, e.angles)
    requires r == t.(heap := r.heap) && |r.heap| == |t.heap|
    requires forall u :: 0 <= u < |r.heap| ==> r.heap[u].id == t.heap[u].id && r.heap[u].kind == t.heap[u].kind
    ensures NewAreFired(c, e, r)
  {
    forall id, k | id in e.order && k in FiredBy(d, id, e.angles)
      ensures IsFiledMissile(c, r, k)
    {
      FiledAfterMarks(c, d, t, r, k);
    }
  }

  /** In every run an update files exactly the missiles that are fired, and no tanks. */
  lemma UpdateFilesExactly(events: seq<Registry.Event>, e: Registry.Event)
    requires IsUpdate(Run(Empty(), events), e)
    ensures var c, r := Run(Empty(), events), Step(Run(Empty(), events), e);
      && (forall id <- e.order :: id in c.tanks && c.tanks[id] in c.actions)
      && NewAreFired(c, e, r) && r.tanks.Keys <= c.tanks.Keys
  {
    var c := Run(Empty(), events);
    EveryRunKeeps(events);
    UpdateFiles(c, e);
  }

  lemma UpdateFiles(c: Core, e: Registry.Event)
    requires Inv(c) && IsUpdate(c, e)
    ensures (forall id <- e.order :: id in c.tanks && c.tanks[id] in c.actions)
    ensures NewAreFired(c, e, Step(c, e)) && Step(c, e).tanks.Keys <= c.tanks.Keys
  {
    var d := BeforeTanks(c, e.dead, e.missed);
    var t := UpdateTanks(d, e.order, e.angles);
    UpdateInTwo(c, e);
    SameIds(c, d, t);
    SameFired(c, d, e.order, e.angles);
    var r := t.(heap := Marked(t.heap, e.hit, t.shots));
    FiredAreFiled(c, e, d, t, r);
    assert Step(c, e) == r by {
      UpdateIsMarks(c, e);
    }
  }

  /** In every run, an update marks dead tanks and the missiles filed that missed or hit, and nothing else. */
  lemma UpdateMarksExactly(events: seq<Registry.Event>, e: Registry.Event)
    requires IsUpdate(Run(Empty(), events), e)
    ensures MarksOf(Run(Empty(), events), e, Step(Run(Empty(), events), e))
  {
    var c := Run(Empty(), events);
    EveryRunKeeps(events);
    UpdateInTwo(c, e);
    var d := BeforeTanks(c, e.dead, e.missed);
    UpdateMarks(c, e, d, UpdateTanks(d, e.order, e.angles));
  }

  // ---- Newcomers, and who is forgotten

  /** A new object filed under its id among all and zombies, and everything filed before as it was. */
  ghost predicate Joined(c: Core, r: Core, o: Obj) {
    && o.id !in c.all && o.id !in c.zombies && !o.forRemove && r.heap == c.heap + [o]
    && r.all.Keys == c.all.Keys + {o.id} && r.all[o.id] == |c.heap| && (forall id <- c.all :: r.all[id] == c.all[id])
    && r.zombies.Keys == c.zombies.Keys + {o.id} && r.zombies[o.id] == |c.heap|
    && (forall id <- c.zombies :: r.zombies[id] == c.zombies[id]) && r.shots == c.shots
  }

  lemma PlayerJoins(c: Core, user: int, hasAi: bool)
    requires Inv(c) && user !in c.players
    ensures Joined(c, AddPlayer(c, user, hasAi), Obj(c.lastId + 1, TankKind, false)) && c.lastId + 1 !in c.tanks
  {
    AddTankKeepsRegistries(c, user, hasAi);
  }

  /** A player without a tank gets a new one, filed as a tank; the player leads to it, and no other player changes. */
  lemma PlayerGetsATank(c: Core, user: int, hasAi: bool)
    requires Inv(c)
    ensures var r := Step(c, Player(user, hasAi)); user in c.players ==> r == c
    ensures user !in c.players ==> var id, r := c.lastId + 1, Step(c, Player(user, hasAi));
      && Joined(c, r, Obj(id, TankKind, false))
      && id !in c.tanks && r.tanks.Keys == c.tanks.Keys + {id} && (forall k <- c.tanks :: r.tanks[k] == c.tanks[k])
      && r.players.Keys == c.players.Keys + {user} && (forall v <- c.players :: r.players[v] == c.players[v])
      && r.players[user] == r.tanks[id] == r.all[id] && r.tanks[id] in r.actions
      && r.actions[r.tanks[id]] == TankActions.New(c.now, hasAi)
      && forall u <- c.actions :: u in r.actions && r.actions[u] == c.actions[u]
  {
    if user !in c.players {
      PlayerJoins(c, user, hasAi);
      assert |c.heap| !in c.actions;
    }
  }

  /** A block joins under a new id, and changes no tank, missile or player. */
  lemma BlockJoins(c: Core)
    requires Inv(c)
    ensures var r := Step(c, Block);
      && Joined(c, r, Obj(c.lastId + 1, BlockKind, false))
      && r.tanks == c.tanks && r.actions == c.actions && r.players == c.players
  {
    AddBlockKeeps(c);
  }

  /** In every run, an object is what clients may still have to hear of until it is forgotten, and not longer. */
  lemma ZombiesStayUntilForgotten(events: seq<Registry.Event>, e: Registry.Event)
    ensures var c, r := Run(Empty(), events), Step(Run(Empty(), events), e);
      forall id <- c.zombies ::
        && (id in r.zombies <==> !(e.ForgetZombies? && id in e.ids))
        && (id in r.zombies ==> r.zombies[id] == c.zombies[id])
  {
    var c := Run(Empty(), events);
    EveryRunKeeps(events);
    if IsUpdate(c, e) {
      UpdateRemovesExactly(events, e);
    } else if e.Player? {
      PlayerGetsATank(c, e.user, e.hasAi);
    } else if e.Block? {
      BlockJoins(c);
    }
  }
}
