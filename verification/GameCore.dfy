/** The game core in place: registries are changed entry by entry, and every update visits all objects. */
module GameCore {
  import opened Registry
  import opened Ordering
  import GameUpdates
  import TankActions

  class GameCore {
    var totalTime: int
    var shotId: int
    var heap: seq<Obj>
    var allObjects: Index
    var zombies: Index
    var tanks: Index
    var shots: Index
    var actions: map<nat, TankActions.TankState>
    var players: map<int, nat>

    constructor ()
      ensures State() == Empty()
    {
      totalTime, shotId, heap, allObjects, zombies := 0, 0, [], map[], map[];
      tanks, shots, actions, players := map[], map[], map[], map[];
    }

    ghost function State(): Core
      reads this
    {
      Core(totalTime, shotId, heap, allObjects, zombies, tanks, shots, actions, players)
    }

    method GenerateShotId() returns (id: int)
      modifies this`shotId
      ensures id == shotId == old(shotId) + 1
    {
      shotId := shotId + 1;
      id := shotId;
    }

    method AddObject(o: Obj) returns (u: nat)
      modifies this`heap, this`zombies, this`allObjects
      ensures u == |old(heap)| && State() == Registry.AddObject(old(State()), o)
    {
      u := |heap|;
      heap := heap + [o];
      zombies := zombies[o.id := u];
      allObjects := allObjects[o.id := u];
    }

    method AddPlayerWithTank(user: int, hasAi: bool)
      modifies this
      ensures State() == AddPlayer(old(State()), user, hasAi)
    {
      if user in players {
        return;
      }
      var id := GenerateShotId();
      var u := AddObject(Obj(id, TankKind, false));
      tanks := tanks[id := u];
      actions := actions[u := TankActions.New(totalTime, hasAi)];
      players := players[user := u];
    }

    /** A missile; it first gets an id of its own and then that of the action. */
    method InitShot(id: int)
      modifies this
      ensures State() == AddShot(old(State()), id)
    {
      var own := GenerateShotId();
      var u := AddObject(Obj(id, MissileKind, false));
      shots := shots[id := u];
    }

    method UpdateTank(id: int, angles: map<nat, real>)
      modifies this
      ensures State() == Registry.UpdateTank(old(State()), id, angles)
    {
      if id in tanks && tanks[id] in actions {
        var u := tanks[id];
        var r := TankActions.Tick(actions[u], totalTime, Angle(angles, u));
        actions := actions[u := r.tank];
        var ids := r.fired;
        ghost var c := State();
        while ids != []
          invariant AddShots(State(), ids) == AddShots(c, r.fired)
          decreases |ids|
        {
          InitShot(ids[0]);
          ids := ids[1..];
        }
      }
    }

    method Update(dead: set<nat>, missed: set<nat>, hit: set<nat>, angles: map<nat, real>) returns (order: seq<int>)
      modifies this
      ensures IsOrderOf(order, BeforeTanks(old(State()), dead, missed).tanks.Keys)
      ensures State() == Registry.Update(old(State()), order, dead, missed, hit, angles)
    {
      BeginUpdate(dead, missed);
      order := Ascending(tanks.Keys);
      var rest := order;
      ghost var c := State();
      while rest != []
        invariant UpdateTanks(State(), rest, angles) == UpdateTanks(c, order, angles)
        decreases |rest|
      {
        UpdateTank(rest[0], angles);
        rest := rest[1..];
      }
      heap := Marked(heap, hit, shots);
    }

    method BeginUpdate(dead: set<nat>, missed: set<nat>)
      modifies this
      ensures State() == BeforeTanks(old(State()), dead, missed)
    {
      totalTime := totalTime + 1;
      heap := Marked(heap, dead, tanks);
      Purge();
      heap := Marked(heap, missed, shots);
    }

    /** First finds what is to go, then takes it out of all three registries. */
    method Purge()
      modifies this`tanks, this`shots, this`allObjects
      ensures State() == Purged(old(State()))
      ensures GameUpdates.PurgedOf(old(allObjects), old(allObjects), heap, allObjects)
      ensures GameUpdates.PurgedOf(old(tanks), old(allObjects), heap, tanks)
      ensures GameUpdates.PurgedOf(old(shots), old(allObjects), heap, shots)
    {
      var forRemove := FindRemoved();
      ghost var gone := ToRemove(State());
      assert forRemove[..0] == [];
      for x := 0 to |forRemove|
        invariant tanks == old(tanks) - Elements(forRemove[..x]) && shots == old(shots) - Elements(forRemove[..x])
        invariant allObjects == old(allObjects) - Elements(forRemove[..x])
      {
        ElementsOfNext(forRemove, x);
        tanks := tanks - {forRemove[x]};
        shots := shots - {forRemove[x]};
        allObjects := allObjects - {forRemove[x]};
      }
      assert forRemove[..|forRemove|] == forRemove;
      GameUpdates.PurgedExactly(old(State()));
    }

    method FindRemoved() returns (forRemove: seq<int>)
      ensures Elements(forRemove) == ToRemove(State())
    {
      var ids := Ascending(allObjects.Keys);
      forRemove := [];
      for x := 0 to |ids|
        invariant forall id :: id in forRemove <==> id in ids[..x] && id in ToRemove(State())
      {
        assert ids[x] in ids && ids[..x + 1] == ids[..x] + [ids[x]];
        var u := allObjects[ids[x]];
        if u < |heap| && heap[u].forRemove {
          forRemove := forRemove + [ids[x]];
        }
      }
      assert ids[..|ids|] == ids;
      assert forall id :: id in ToRemove(State()) ==> id in ids;
      assert forall id :: id in Elements(forRemove) <==> id in ToRemove(State());
    }

    /** The nearest tank in range that is not to be removed and not on the same team; 0 if there is none. */
    method SuggestTarget(self: nat, range: real, distance: map<nat, real>, team: map<nat, int>) returns (res: int)
      requires RegistriesOk(State()) && self in team
      requires forall id <- tanks :: tanks[id] in distance && tanks[id] in team
      ensures res == 0 <==> forall id <- tanks :: !(Target(id, self, team) && distance[tanks[id]] < range)
      ensures res != 0 ==> res in tanks && distance[tanks[res]] < range && tanks[res] != self
      ensures res != 0 ==> team[tanks[res]] != team[self] || team[self] == 0
      ensures res != 0 ==> forall id <- tanks ::
        !heap[tanks[id]].forRemove && tanks[id] != self && (team[tanks[id]] != team[self] || team[self] == 0) ==>
          distance[tanks[res]] <= distance[tanks[id]] && (id < res ==> distance[tanks[res]] < distance[tanks[id]])
      ensures res != 0 ==>
        && res in allObjects && allObjects[res] == tanks[res] && tanks[res] < |heap|
        && heap[tanks[res]].kind == TankKind && !heap[tanks[res]].forRemove
    {
      var best := range;
      res := 0;
      var ids := Ascending(tanks.Keys);
      for x := 0 to |ids|
        invariant best <= range
        invariant res == 0 ==> best == range
        invariant res != 0 ==> res in tanks && Target(res, self, team) && distance[tanks[res]] == best < range
        invariant res != 0 ==> res in ids[..x]
        invariant forall y :: 0 <= y < x && Target(ids[y], self, team) ==>
          best <= distance[tanks[ids[y]]] && (res != 0 && ids[y] < res ==> best < distance[tanks[ids[y]]])
      {
        var id := ids[x];
        assert id in ids && id in tanks && heap[tanks[id]].id == id;
        var u := tanks[id];
        assert ids[..x + 1] == ids[..x] + [id];
        if !heap[u].forRemove && u != self && (team[u] != team[self] || team[self] == 0) && distance[u] < best {
          best, res := distance[u], id;
        }
      }
      assert forall id <- tanks :: id in ids;
    }

    /** A tank that may be aimed at. */
    predicate Target(id: int, self: nat, team: map<nat, int>)
      reads this
    {
      && id in tanks && tanks[id] < |heap| && !heap[tanks[id]].forRemove && tanks[id] != self
      && self in team && tanks[id] in team && (team[tanks[id]] != team[self] || team[self] == 0)
    }
  }

  function Elements(s: seq<int>): set<int> {
    set x | x in s
  }

  lemma ElementsOfNext(s: seq<int>, x: nat)
    requires x < |s|
    ensures Elements(s[..x + 1]) == Elements(s[..x]) + {s[x]}
  {
  }
}
