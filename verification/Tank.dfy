/** The tank object: its actions are taken, cleaned up and run in place. */
module Tank {
  import opened TankActions
  import opened TankEffects

  datatype Option<T> = None | Some(value: T)

  class Tank {
    var myStep: int
    var inps: seq<Input>
    var cinps: seq<Input>
    var remainShot: real
    var targetAngle: real
    var speed: real
    var made: nat
    const maxSpeed: real
    const hasAi: bool

    constructor (now: int, hasAi: bool)
      ensures State() == New(now, hasAi)
    {
      myStep, inps, cinps, remainShot := now, [], [], MAX_SHOT;
      targetAngle, speed, maxSpeed := 0.0, 0.0, 400.0;
      this.hasAi := hasAi;
      made := 0;
    }

    ghost function State(): TankState
      reads this
    {
      TankState(myStep, inps, cinps, remainShot, targetAngle, speed, maxSpeed, hasAi, made)
    }

    /** The remembered action of a client, if any. */
    method GetAction(client: int) returns (r: Option<Input>)
      ensures r.Some? <==> HasClient(cinps, client)
      ensures r.Some? ==> r.value in cinps && r.value.client == client
    {
      for x := 0 to |cinps|
        invariant forall y :: 0 <= y < x ==> cinps[y].client != client
      {
        if cinps[x].client == client {
          return Some(cinps[x]);
        }
      }
      return None;
    }

    method AddAction(actionTime: int, f: real, s: real, clientId: int) returns (p: Input)
      modifies this
      ensures p == Move(old(made), clientId, actionTime, f, s) && State() == Enqueue(old(State()), p)
    {
      p := Move(made, clientId, actionTime, f, s);
      made := made + 1;
      inps := Insert(inps, p);
      cinps := Put(cinps, p);
    }

    method AddShotAction(actionTime: int, clientId: int, shotId: int) returns (p: Input)
      modifies this
      ensures p == Fire(old(made), clientId, actionTime, shotId) && State() == Enqueue(old(State()), p)
    {
      p := Fire(made, clientId, actionTime, shotId);
      made := made + 1;
      inps := Insert(inps, p);
      cinps := Put(cinps, p);
    }

    /** What the room does with a client's message; nothing is taken while the client id is remembered. */
    method GetMsg(now: int, client: int, trigger: int, shot: bool, angle: real, speed: real, shotId: int)
      returns (taken: bool)
      modifies this
      ensures taken == !HasClient(old(cinps), client)
      ensures State() == After(World(old(State()), now, [], [], [], 0),
                               Message(client, trigger, shot, angle, speed, shotId)).tank
    {
      var actionTime := trigger;
      if actionTime < now + LEAD {
        actionTime := now + LEAD;
      }
      var inp := GetAction(client);
      if inp.Some? {
        return false;
      }
      if !shot {
        var p := AddAction(actionTime, angle, speed, client);
      } else {
        var p := AddShotAction(actionTime, client, shotId);
      }
      return true;
    }

    method Shot(shotId: int) returns (fired: seq<int>)
      modifies this`remainShot
      ensures State() == RunOne(old(State()), Fire(0, 0, 0, shotId))
      ensures fired == Fired(old(State()), Fire(0, 0, 0, shotId))
    {
      if remainShot < 1.0 {
        return [];
      }
      remainShot := remainShot - 1.0;
      return [shotId];
    }

    method RunOnThis(i: Input) returns (fired: seq<int>)
      modifies this
      ensures State() == RunOne(old(State()), i) && fired == Fired(old(State()), i)
    {
      fired := [];
      match i {
        case Move(_, _, _, targetFarman, targetSpeed) =>
          targetAngle := targetFarman;
          speed := targetSpeed;
          if speed < 0.0 {
            speed := 0.0;
          }
          if speed > maxSpeed {
            speed := maxSpeed;
          }
        case Fire(_, _, _, shotId) =>
          fired := Shot(shotId);
      }
    }

    /** Old actions go from the front of the queue. */
    method EraseOldActions()
      modifies this`inps
      ensures inps == DropBefore(old(inps), myStep)
    {
      while |inps| > 0
        invariant DropBefore(inps, myStep) == DropBefore(old(inps), myStep)
        decreases |inps|
      {
        if inps[0].trigger >= myStep {
          break;
        }
        inps := inps[1..];
      }
    }

    /** Old memories go from the smallest client id on, up to the first that is recent enough. */
    method EraseOldMemories()
      modifies this`cinps
      ensures cinps == DropBefore(old(cinps), myStep - MEMORY)
    {
      var limit := myStep - MEMORY;
      while |cinps| > 0
        invariant DropBefore(cinps, limit) == DropBefore(old(cinps), limit)
        decreases |cinps|
      {
        if cinps[0].trigger >= limit {
          break;
        }
        cinps := cinps[1..];
      }
    }

    /** Runs what triggers now; `fired` are the ids of the missiles made. */
    method RunTriggered() returns (fired: seq<int>, ghost ran: seq<Input>)
      modifies this
      ensures Ticked(State(), ran, fired) == RunDue(old(State()))
      ensures 0.0 <= maxSpeed ==> Steers(old(State()), ran, State())
      ensures 0.0 <= old(remainShot) ==> Shoots(Shots(ran), old(remainShot), fired)
    {
      fired, ran := [], [];
      ghost var all, t := RunDue(State()), State();
      while Find(inps, myStep) < |inps|
        invariant t == State()
        invariant all == Then(ran, fired, RunDue(t))
        decreases |inps|
      {
        var x := Find(inps, myStep);
        var i := inps[x];
        RunDueThen(t, ran, fired);
        ghost var t' := RunOne(t, i).(inps := Without(t.inps, x));
        var f := RunOnThis(i);
        inps := Without(inps, x);
        ran, fired := ran + [i], fired + f;
        t := t';
      }
      TakesEffect(old(State()));
    }

    method ClampSpeed()
      modifies this`speed
      ensures speed == var s := if old(speed) > maxSpeed then maxSpeed else old(speed); if s < 0.0 then 0.0 else s
    {
      if speed > maxSpeed {
        speed := maxSpeed;
      }
      if speed < 0.0 {
        speed := 0.0;
      }
    }

    /** `angle` is the course the tank's computer player wants, if it has one. */
    method UpdateInputs(now: int, angle: real) returns (fired: seq<int>, ghost ran: seq<Input>)
      modifies this
      ensures Ticked(State(), ran, fired) == RunDue(Cleaned(WithAi(old(State()), now, angle)))
    {
      if hasAi {
        var p := AddAction(now, angle, AI_SPEED, AI_CLIENT);
      }
      ghost var t := State();
      ClampSpeed();
      EraseOldActions();
      EraseOldMemories();
      assert State() == Cleaned(t);
      fired, ran := RunTriggered();
    }

    /** One update of the tank. */
    method Update(now: int, angle: real) returns (fired: seq<int>, ghost ran: seq<Input>)
      modifies this
      ensures Ticked(State(), ran, fired) == Tick(old(State()), now, angle)
      ensures 0.0 <= old(speed) <= maxSpeed && 0.0 <= old(remainShot) ==>
        Steers(old(State()), ran, State()) && Shoots(Shots(ran), old(remainShot), fired)
    {
      ghost var t := State();
      fired, ran := UpdateInputs(now, angle);
      Refill(now);
      if 0.0 <= t.speed <= t.maxSpeed && 0.0 <= t.remainShot {
        TickTakesEffect(t, now, angle);
      }
    }

    method Refill(now: int)
      modifies this
      ensures State() == Refilled(old(State()), now)
    {
      if myStep >= now {
        return;
      }
      remainShot := remainShot + REFILL;
      if remainShot > MAX_SHOT {
        remainShot := MAX_SHOT;
      }
      myStep := myStep + 1;
    }
  }

  /** What happened so far, and then the rest. */
  function Then(ran: seq<Input>, fired: seq<int>, r: Ticked): Ticked {
    Ticked(r.tank, ran + r.ran, fired + r.fired)
  }

  lemma TakesEffect(t: TankState)
    ensures 0.0 <= t.maxSpeed ==> Steers(t, RunDue(t).ran, RunDue(t).tank)
    ensures 0.0 <= t.remainShot ==> Shoots(Shots(RunDue(t).ran), t.remainShot, RunDue(t).fired)
  {
    if 0.0 <= t.maxSpeed {
      RunDueSteers(t);
    }
    if 0.0 <= t.remainShot {
      RunDueShoots(t);
    }
  }

  lemma RunDueThen(t: TankState, ran: seq<Input>, fired: seq<int>)
    requires Find(t.inps, t.myStep) < |t.inps|
    ensures var x := Find(t.inps, t.myStep);
      var i := t.inps[x];
      Then(ran, fired, RunDue(t)) ==
      Then(ran + [i], fired + Fired(t, i), RunDue(RunOne(t, i).(inps := Without(t.inps, x))))
  {
    var x := Find(t.inps, t.myStep);
    var i := t.inps[x];
    var r := RunDue(RunOne(t, i).(inps := Without(t.inps, x)));
    assert ran + ([i] + r.ran) == ran + [i] + r.ran;
    assert fired + (Fired(t, i) + r.fired) == fired + Fired(t, i) + r.fired;
  }
}
