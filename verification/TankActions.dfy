/** A tank's queued actions: when they run, how repeats are recognised, and how many shots they may fire. */
module TankActions {

  const MAX_SHOT: real := 3.0
  /** One and a half shots a second at twenty milliseconds a step. */
  const REFILL: real := 0.03
  const LEAD: int := 2
  const MEMORY: int := 1000
  const AI_CLIENT: int := 0
  const AI_SPEED: real := 1000.0

  /** An action; `serial` tells apart actions that are otherwise alike. */
  datatype Input =
    | Move(serial: nat, client: int, trigger: int, angle: real, speed: real)
    | Fire(serial: nat, client: int, trigger: int, shotId: int)

  /** `inps` is in the order of triggers, `cinps` in the order of client ids, one for each. */
  datatype TankState = TankState(myStep: int, inps: seq<Input>, cinps: seq<Input>, remainShot: real,
                                 targetAngle: real, speed: real, maxSpeed: real, hasAi: bool, made: nat)

  // ---- The two collections

  predicate Before(a: Input, b: Input) {
    a.trigger < b.trigger || (a.trigger == b.trigger && a.serial < b.serial)
  }

  predicate InOrder(s: seq<Input>) {
    forall x, y :: 0 <= x < y < |s| ==> Before(s[x], s[y])
  }

  /** Behind everything with the same trigger. */
  function Insert(s: seq<Input>, i: Input): (r: seq<Input>)
    ensures forall j :: j in r <==> (j in s || j == i)
  {
    if s == [] || i.trigger < s[0].trigger then [i] + s
    else
      assert s == [s[0]] + s[1..];
      [s[0]] + Insert(s[1..], i)
  }

  lemma {:induction false} InsertKeepsOrder(s: seq<Input>, i: Input)
    requires InOrder(s) && forall j <- s :: j.serial < i.serial
    ensures InOrder(Insert(s, i))
  {
    if s != [] && i.trigger >= s[0].trigger {
      InsertKeepsOrder(s[1..], i);
      var r := Insert(s[1..], i);
      forall y | 0 <= y < |r|
        ensures Before(s[0], r[y])
      {
        assert r[y] in r;
        if r[y] in s[1..] {
          var x :| 0 <= x < |s[1..]| && s[1..][x] == r[y];
        }
      }
    }
  }

  predicate ByClient(s: seq<Input>) {
    forall x, y :: 0 <= x < y < |s| ==> s[x].client < s[y].client
  }

  predicate HasClient(s: seq<Input>, client: int) {
    exists i <- s :: i.client == client
  }

  /** The entry for its client, put in or replaced. */
  function Put(s: seq<Input>, i: Input): (r: seq<Input>)
  {
    if s == [] || i.client < s[0].client then [i] + s
    else if i.client == s[0].client then [i] + s[1..]
    else [s[0]] + Put(s[1..], i)
  }

  lemma FirstIsLeast(s: seq<Input>)
    requires ByClient(s) && s != []
    ensures ByClient(s[1..]) && forall j :: j in s <==> j == s[0] || j in s[1..]
    ensures forall j <- s[1..] :: s[0].client < j.client
  {
  }

  lemma {:induction false} PutMembers(s: seq<Input>, i: Input)
    requires ByClient(s)
    ensures forall j :: j in Put(s, i) <==> j == i || (j in s && j.client != i.client)
  {
    if s != [] {
      FirstIsLeast(s);
      if i.client > s[0].client {
        PutMembers(s[1..], i);
      }
    }
  }

  lemma {:induction false} PutKeepsOrder(s: seq<Input>, i: Input)
    requires ByClient(s)
    ensures ByClient(Put(s, i))
  {
    if s != [] {
      FirstIsLeast(s);
      if i.client > s[0].client {
        PutKeepsOrder(s[1..], i);
        PutMembers(s[1..], i);
        AllAfterFirst(s[0], Put(s[1..], i));
      }
    }
  }

  lemma AllAfterFirst(a: Input, r: seq<Input>)
    requires ByClient(r) && forall j <- r :: a.client < j.client
    ensures ByClient([a] + r)
  {
  }

  lemma PutReplaces(s: seq<Input>, i: Input)
    requires ByClient(s)
    ensures ByClient(Put(s, i))
    ensures forall j :: j in Put(s, i) <==> j == i || (j in s && j.client != i.client)
  {
    PutMembers(s, i);
    PutKeepsOrder(s, i);
  }

  /** Without the leading entries that trigger before `step`; entries behind a later one stay. */
  function DropBefore(s: seq<Input>, step: int): (r: seq<Input>)
    ensures forall i <- r :: i in s
    ensures forall i <- s :: i.trigger >= step ==> i in r
  {
    if s == [] || s[0].trigger >= step then s
    else
      assert s == [s[0]] + s[1..];
      DropBefore(s[1..], step)
  }

  lemma {:induction false} DropBeforeIsTail(s: seq<Input>, step: int)
    ensures |DropBefore(s, step)| <= |s| && DropBefore(s, step) == s[|s| - |DropBefore(s, step)|..]
  {
    if s != [] && s[0].trigger < step {
      DropBeforeIsTail(s[1..], step);
    }
  }

  function Find(s: seq<Input>, step: int): (x: nat)
    ensures x <= |s| && (x < |s| ==> s[x].trigger == step)
    ensures forall y :: 0 <= y < x ==> s[y].trigger != step
  {
    if s == [] || s[0].trigger == step then 0 else 1 + Find(s[1..], step)
  }

  // ---- What a tank does

  function Enqueue(t: TankState, i: Input): TankState {
    t.(inps := Insert(t.inps, i), cinps := Put(t.cinps, i), made := t.made + 1)
  }

  function Held(speed: real, max: real): real {
    var s := if speed < 0.0 then 0.0 else speed;
    if s > max then max else s
  }

  /** Running an action: a move sets course and speed; a shot needs a whole one left. */
  function RunOne(t: TankState, i: Input): TankState {
    match i
    case Move(_, _, _, angle, speed) =>
      t.(targetAngle := angle, speed := Held(speed, t.maxSpeed))
    case Fire(_, _, _, _) => if t.remainShot < 1.0 then t else t.(remainShot := t.remainShot - 1.0)
  }

  function Fired(t: TankState, i: Input): seq<int> {
    if i.Fire? && t.remainShot >= 1.0 then [i.shotId] else []
  }

  datatype Ticked = Ticked(tank: TankState, ran: seq<Input>, fired: seq<int>)

  function Without(s: seq<Input>, x: nat): seq<Input>
    requires x < |s|
  {
    s[..x] + s[x + 1..]
  }

  /** All actions that trigger now, one after the other. */
  function RunDue(t: TankState): Ticked
    decreases |t.inps|
  {
    var x := Find(t.inps, t.myStep);
    if x == |t.inps| then Ticked(t, [], [])
    else
      var i := t.inps[x];
      var r := RunDue(RunOne(t, i).(inps := Without(t.inps, x)));
      Ticked(r.tank, [i] + r.ran, Fired(t, i) + r.fired)
  }

  function AiMove(t: TankState, now: int, angle: real): Input {
    Move(t.made, AI_CLIENT, now, angle, AI_SPEED)
  }

  function WithAi(t: TankState, now: int, angle: real): TankState {
    if t.hasAi then Enqueue(t, AiMove(t, now, angle)) else t
  }

  function Cleaned(t: TankState): TankState {
    var speed := if t.speed > t.maxSpeed then t.maxSpeed else t.speed;
    t.(speed := if speed < 0.0 then 0.0 else speed,
       inps := DropBefore(t.inps, t.myStep), cinps := DropBefore(t.cinps, t.myStep - MEMORY))
  }

  function Refilled(t: TankState, now: int): TankState {
    if t.myStep >= now then t
    else t.(myStep := t.myStep + 1,
            remainShot := if t.remainShot + REFILL > MAX_SHOT then MAX_SHOT else t.remainShot + REFILL)
  }

  /** One update at time `now`; `angle` is the course the computer player wants. */
  function Tick(t: TankState, now: int, angle: real): Ticked {
    var r := RunDue(Cleaned(WithAi(t, now, angle)));
    r.(tank := Refilled(r.tank, now))
  }

  /** A message is taken unless its client id is remembered; its trigger is at least two steps ahead. */
  function Clamped(trigger: int, now: int): int {
    if trigger < now + LEAD then now + LEAD else trigger
  }

  function New(now: int, hasAi: bool): TankState {
    TankState(now, [], [], MAX_SHOT, 0.0, 0.0, 400.0, hasAi, 0)
  }

  // ---- Running what is due

  /** Running actions changes the queue, the bucket, the course and the speed. */
  predicate SameBut(r: TankState, t: TankState) {
    r.myStep == t.myStep && r.cinps == t.cinps && r.maxSpeed == t.maxSpeed && r.hasAi == t.hasAi && r.made == t.made
  }

  lemma FindsFront(s: seq<Input>, step: int)
    requires InOrder(s) && forall i <- s :: i.trigger >= step
    ensures if s != [] && s[0].trigger == step then Find(s, step) == 0
            else Find(s, step) == |s| && forall i <- s :: i.trigger > step
  {
  }

  /** With the queue in order and nothing overdue, exactly the front part that triggers now runs. */
  lemma {:induction false} RunDueTakesFront(t: TankState)
    requires InOrder(t.inps) && forall i <- t.inps :: i.trigger >= t.myStep
    ensures var r := RunDue(t);
      && r.ran + r.tank.inps == t.inps
      && (forall i <- r.ran :: i.trigger == t.myStep) && (forall i <- r.tank.inps :: i.trigger > t.myStep)
      && SameBut(r.tank, t)
    decreases |t.inps|
  {
    FindsFront(t.inps, t.myStep);
    if t.inps != [] && t.inps[0].trigger == t.myStep {
      var t' := RunOne(t, t.inps[0]).(inps := t.inps[1..]);
      assert Without(t.inps, 0) == t.inps[1..];
      RunDueTakesFront(t');
      FrontOfAll(t.inps, RunDue(t').ran, RunDue(t').tank.inps);
      assert RunDue(t).ran == [t.inps[0]] + RunDue(t').ran && RunDue(t).tank == RunDue(t').tank;
    }
  }

  lemma FrontOfAll(s: seq<Input>, ran: seq<Input>, rest: seq<Input>)
    requires s != [] && ran + rest == s[1..]
    ensures [s[0]] + ran + rest == s
    ensures forall i <- [s[0]] + ran :: i == s[0] || i in ran
  {
  }

  /** Shots taken from the bucket are shots fired. */
  lemma {:induction false} RunDueSpendsShots(t: TankState)
    requires 0.0 <= t.remainShot
    ensures var r := RunDue(t);
      r.tank.remainShot == t.remainShot - |r.fired| as real && 0.0 <= r.tank.remainShot
    decreases |t.inps|
  {
    var x := Find(t.inps, t.myStep);
    if x < |t.inps| {
      RunDueSpendsShots(RunOne(t, t.inps[x]).(inps := Without(t.inps, x)));
    }
  }

  /** What is fired are shots that ran, in their order. */
  lemma {:induction false} FiredRan(t: TankState)
    ensures IsPartOf(RunDue(t).fired, RunDue(t).ran)
    decreases |t.inps|
  {
    var x := Find(t.inps, t.myStep);
    if x < |t.inps| {
      FiredRan(RunOne(t, t.inps[x]).(inps := Without(t.inps, x)));
      var r := RunDue(t);
      assert r.ran[1..] == RunDue(RunOne(t, t.inps[x]).(inps := Without(t.inps, x))).ran;
      if Fired(t, t.inps[x]) == [] {
        assert r.fired == RunDue(RunOne(t, t.inps[x]).(inps := Without(t.inps, x))).fired;
      }
    }
  }

  /** The ids are those of some of the shots, in the same order. */
  predicate IsPartOf(ids: seq<int>, ran: seq<Input>)
    decreases |ran|
  {
    if ids == [] then true
    else if ran == [] then false
    else (ran[0].Fire? && ran[0].shotId == ids[0] && IsPartOf(ids[1..], ran[1..])) || IsPartOf(ids, ran[1..])
  }

  // ---- Whole runs of one tank

  datatype Event =
    | Message(client: int, trigger: int, shot: bool, angle: real, speed: real, shotId: int)
    | Step(angle: real)

  /** An action that ran, and the step in which it did. */
  datatype Ran = Ran(step: int, input: Input)

  /** A registered tank with all that it ever took and ran; `now` counts updates. */
  datatype World = World(tank: TankState, now: int, taken: seq<Input>, log: seq<Ran>, fired: seq<int>, ticks: nat)

  function MessageInput(w: World, e: Event): Input
    requires e.Message?
  {
    var trigger := Clamped(e.trigger, w.now);
    if e.shot then Fire(w.tank.made, e.client, trigger, e.shotId)
    else Move(w.tank.made, e.client, trigger, e.angle, e.speed)
  }

  function Logged(step: int, ran: seq<Input>): (r: seq<Ran>)
    ensures |r| == |ran| && forall x :: 0 <= x < |r| ==> r[x] == Ran(step, ran[x])
  {
    seq(|ran|, x requires 0 <= x < |ran| => Ran(step, ran[x]))
  }

  function After(w: World, e: Event): World {
    match e
    case Message(client, _, _, _, _, _) =>
      if HasClient(w.tank.cinps, client) then w
      else
        var i := MessageInput(w, e);
        w.(tank := Enqueue(w.tank, i), taken := w.taken + [i])
    case Step(angle) =>
      var now := w.now + 1;
      var r := Tick(w.tank, now, angle);
      World(r.tank, now, if w.tank.hasAi then w.taken + [AiMove(w.tank, now, angle)] else w.taken,
            w.log + Logged(w.tank.myStep, r.ran), w.fired + r.fired, w.ticks + 1)
  }

  function Run(w: World, events: seq<Event>): World {
    if events == [] then w else After(Run(w, events[..|events| - 1]), events[|events| - 1])
  }

  function Start(now: int, hasAi: bool): World {
    World(New(now, hasAi), now, [], [], [], 0)
  }

  predicate EarlierRan(a: Ran, b: Ran) {
    a.step < b.step || (a.step == b.step && a.input.serial < b.input.serial)
  }

  /** What is taken waits until its trigger, and everything past it has run, once, in its own step. */
  ghost predicate QueueOk(w: World) {
    && w.tank.made == |w.taken| && InOrder(w.tank.inps)
    && (forall n :: 0 <= n < |w.taken| ==> w.taken[n].serial == n)
    && (forall i :: i in w.tank.inps <==> IsTaken(w, i) && i.trigger >= w.now)
  }

  predicate IsTaken(w: World, i: Input) {
    i.serial < |w.taken| && w.taken[i.serial] == i
  }

  ghost predicate LogOk(w: World) {
    && (forall x, y :: 0 <= x < y < |w.log| ==> EarlierRan(w.log[x], w.log[y]))
    && (forall x :: 0 <= x < |w.log| ==> w.log[x].step < w.now)
    && (forall r :: r in w.log <==> IsTaken(w, r.input) && r.step == r.input.trigger < w.now)
  }

  /** An action is remembered for its client while it is not long past; the computer player's renews itself. */
  ghost predicate Remembered(w: World, i: Input) {
    w.now <= i.trigger + MEMORY ==>
      exists e <- w.tank.cinps :: e.client == i.client && (e.trigger >= i.trigger || Renewed(w, e))
  }

  predicate Renewed(w: World, e: Input) {
    w.tank.hasAi && e.client == AI_CLIENT && e.trigger >= w.now
  }

  ghost predicate MemoryOk(w: World) {
    ByClient(w.tank.cinps) && forall i <- w.taken :: Remembered(w, i)
  }

  ghost predicate Inv(w: World) {
    w.tank.myStep == w.now && 0.0 <= w.tank.remainShot <= MAX_SHOT && QueueOk(w) && LogOk(w) && MemoryOk(w)
  }

  lemma StartIsInv(now: int, hasAi: bool)
    ensures Inv(Start(now, hasAi))
  {
  }

  // ---- Taking an action

  lemma TakeKeepsQueue(w: World, i: Input)
    requires QueueOk(w) && i.serial == w.tank.made && i.trigger >= w.now
    ensures QueueOk(w.(tank := Enqueue(w.tank, i), taken := w.taken + [i]))
  {
    var r := w.(tank := Enqueue(w.tank, i), taken := w.taken + [i]);
    assert forall j <- w.tank.inps :: IsTaken(w, j);
    InsertKeepsOrder(w.tank.inps, i);
    forall j
      ensures j in r.tank.inps <==> IsTaken(r, j) && j.trigger >= r.now
    {
      assert j in w.tank.inps <==> IsTaken(w, j) && j.trigger >= w.now;
    }
  }

  lemma TakeKeepsLog(w: World, i: Input)
    requires LogOk(w) && i.serial == |w.taken| && i.trigger >= w.now
    ensures LogOk(w.(tank := Enqueue(w.tank, i), taken := w.taken + [i]))
  {
  }

  lemma TakeKeepsMemory(w: World, i: Input)
    requires MemoryOk(w) && (HasClient(w.tank.cinps, i.client) ==> w.tank.hasAi && i.client == AI_CLIENT)
    requires i.trigger >= w.now + 1
    ensures MemoryOk(w.(tank := Enqueue(w.tank, i), taken := w.taken + [i]))
  {
    var r := w.(tank := Enqueue(w.tank, i), taken := w.taken + [i]);
    PutReplaces(w.tank.cinps, i);
    assert i in r.tank.cinps;
    forall j | j in r.taken
      ensures Remembered(r, j)
    {
      if j != i {
        assert Remembered(w, j);
        if w.now <= j.trigger + MEMORY {
          var e :| e in w.tank.cinps && e.client == j.client && (e.trigger >= j.trigger || Renewed(w, e));
          if e.client == i.client {
            assert HasClient(w.tank.cinps, i.client);
            assert Renewed(r, i);
          } else {
            assert e in r.tank.cinps;
          }
        }
      }
    }
  }

  lemma MessageKeeps(w: World, e: Event)
    requires Inv(w) && e.Message?
    ensures Inv(After(w, e))
  {
    if !HasClient(w.tank.cinps, e.client) {
      var i := MessageInput(w, e);
      TakeKeepsQueue(w, i);
      TakeKeepsLog(w, i);
      TakeKeepsMemory(w, i);
    }
  }

  // ---- One update

  /** The world just before the update's actions run: the computer player has moved and old entries are gone. */
  function BeforeRun(w: World, angle: real): World {
    var now := w.now + 1;
    w.(tank := Cleaned(WithAi(w.tank, now, angle)),
       taken := if w.tank.hasAi then w.taken + [AiMove(w.tank, now, angle)] else w.taken)
  }

  lemma NothingIsOverdue(s: seq<Input>, step: int)
    requires forall i <- s :: i.trigger >= step
    ensures DropBefore(s, step) == s
  {
  }

  function Moved(w: World, angle: real): World {
    var ai := AiMove(w.tank, w.now + 1, angle);
    if w.tank.hasAi then w.(tank := Enqueue(w.tank, ai), taken := w.taken + [ai]) else w
  }

  lemma BeforeRunIsCleaned(w: World, angle: real)
    ensures BeforeRun(w, angle) == Moved(w, angle).(tank := Cleaned(Moved(w, angle).tank))
  {
  }

  lemma MovedKeepsQueue(w: World, angle: real)
    requires QueueOk(w) && LogOk(w)
    ensures QueueOk(Moved(w, angle)) && LogOk(Moved(w, angle))
  {
    if w.tank.hasAi {
      TakeKeepsQueue(w, AiMove(w.tank, w.now + 1, angle));
      TakeKeepsLog(w, AiMove(w.tank, w.now + 1, angle));
    }
  }

  lemma CleanedKeepsQueue(v: World)
    requires QueueOk(v) && LogOk(v) && v.tank.myStep == v.now
    ensures QueueOk(v.(tank := Cleaned(v.tank))) && LogOk(v.(tank := Cleaned(v.tank)))
  {
  }

  lemma BeforeRunKeepsQueue(w: World, angle: real)
    requires QueueOk(w) && LogOk(w) && w.tank.myStep == w.now
    ensures QueueOk(BeforeRun(w, angle)) && LogOk(BeforeRun(w, angle))
  {
    MovedKeepsQueue(w, angle);
    CleanedKeepsQueue(Moved(w, angle));
    BeforeRunIsCleaned(w, angle);
  }

  /** Old entries leave the memory; recent ones stay, also into the next step. */
  lemma BeforeRunKeepsMemory(w: World, angle: real)
    requires MemoryOk(w) && w.tank.myStep == w.now
    ensures MemoryOk(BeforeRun(w, angle).(now := w.now + 1))
  {
    MovedKeepsMemory(w, angle);
    BeforeRunIsCleaned(w, angle);
    CleanedKeepsMemory(Moved(w, angle), AiMove(w.tank, w.now + 1, angle));
  }

  lemma MovedKeepsMemory(w: World, angle: real)
    requires MemoryOk(w)
    ensures MemoryOk(Moved(w, angle))
    ensures w.tank.hasAi ==> AiMove(w.tank, w.now + 1, angle) in Moved(w, angle).tank.cinps
  {
    if w.tank.hasAi {
      var ai := AiMove(w.tank, w.now + 1, angle);
      TakeKeepsMemory(w, ai);
      PutReplaces(w.tank.cinps, ai);
    }
  }

  lemma CleanedKeepsMemory(v: World, ai: Input)
    requires MemoryOk(v) && v.tank.myStep == v.now
    requires v.tank.hasAi ==> ai in v.tank.cinps && ai.client == AI_CLIENT && ai.trigger == v.now + 1
    ensures MemoryOk(v.(tank := Cleaned(v.tank), now := v.now + 1))
  {
    assert ByClient(DropBefore(v.tank.cinps, v.now - MEMORY)) by {
      DropBeforeIsTail(v.tank.cinps, v.now - MEMORY);
    }
    forall i | i in v.taken
      ensures Remembered(v.(tank := Cleaned(v.tank), now := v.now + 1), i)
    {
      CleanedRemembers(v, ai, i);
    }
  }

  lemma CleanedRemembers(v: World, ai: Input, i: Input)
    requires Remembered(v, i) && v.tank.myStep == v.now
    requires v.tank.hasAi ==> ai in v.tank.cinps && ai.client == AI_CLIENT && ai.trigger == v.now + 1
    ensures Remembered(v.(tank := Cleaned(v.tank), now := v.now + 1), i)
  {
  }

  lemma StepUnfolds(w: World, angle: real)
    requires w.tank.myStep == w.now
    ensures var v, w' := BeforeRun(w, angle), After(w, Step(angle));
      var r := RunDue(v.tank);
      && v.now == w.now == v.tank.myStep && v.log == w.log && v.tank.remainShot == w.tank.remainShot
      && w'.now == v.now + 1 && w'.taken == v.taken && w'.log == v.log + Logged(v.now, r.ran)
      && w'.ticks == w.ticks + 1 && w'.fired == w.fired + r.fired && w.taken <= w'.taken
      && w'.tank == Refilled(r.tank, w'.now)
  {
  }

  lemma StepKeeps(w: World, angle: real)
    requires Inv(w)
    ensures Inv(After(w, Step(angle)))
    ensures var w' := After(w, Step(angle));
      |w'.fired| as real + w'.tank.remainShot <= |w.fired| as real + w.tank.remainShot + REFILL
  {
    BeforeRunKeepsQueue(w, angle);
    BeforeRunKeepsMemory(w, angle);
    StepUnfolds(w, angle);
    var v := BeforeRun(w, angle);
    assert forall i <- v.tank.inps :: i.trigger >= v.now;
    RunDueTakesFront(v.tank);
    RunDueSpendsShots(v.tank);
    FinishStep(v, RunDue(v.tank), w, After(w, Step(angle)));
  }

  /** The end of an update, whatever made the queue split into what ran and what waits. */
  lemma FinishStep(v: World, r: Ticked, w: World, w': World)
    requires QueueOk(v) && LogOk(v) && MemoryOk(v.(now := v.now + 1)) && v.now == v.tank.myStep
    requires r.ran + r.tank.inps == v.tank.inps
    requires (forall i <- r.ran :: i.trigger == v.now) && (forall i <- r.tank.inps :: i.trigger > v.now)
    requires SameBut(r.tank, v.tank) && r.tank.remainShot == v.tank.remainShot - |r.fired| as real
    requires 0.0 <= r.tank.remainShot
    requires w'.now == v.now + 1 && w'.taken == v.taken && w'.log == v.log + Logged(v.now, r.ran)
    requires w'.fired == w.fired + r.fired && w'.tank == Refilled(r.tank, w'.now)
    requires v.tank.remainShot == w.tank.remainShot
    ensures Inv(w')
    ensures |w'.fired| as real + w'.tank.remainShot <= |w.fired| as real + w.tank.remainShot + REFILL
  {
    RanAreLogged(v, r, w');
    FrontLeaves(v, r, w');
    SameMemory(v.(now := w'.now), w');
  }

  lemma SameMemory(v: World, r: World)
    requires MemoryOk(v) && r.taken == v.taken && r.now == v.now
    requires r.tank.cinps == v.tank.cinps && r.tank.hasAi == v.tank.hasAi
    ensures MemoryOk(r)
  {
  }

  /** After the front part ran, the rest is what waits. */
  lemma FrontLeaves(v: World, r: Ticked, w': World)
    requires QueueOk(v) && r.ran + r.tank.inps == v.tank.inps
    requires (forall i <- r.ran :: i.trigger == v.now) && (forall i <- r.tank.inps :: i.trigger > v.now)
    requires w'.now == v.now + 1 && w'.taken == v.taken && w'.tank.made == v.tank.made && w'.tank.inps == r.tank.inps
    ensures QueueOk(w')
  {
    assert w'.tank.inps == v.tank.inps[|r.ran|..];
    forall i
      ensures i in w'.tank.inps <==> IsTaken(w', i) && i.trigger >= w'.now
    {
      assert i in v.tank.inps <==> IsTaken(v, i) && i.trigger >= v.now;
      assert i in v.tank.inps <==> i in r.ran || i in r.tank.inps;
    }
  }

  lemma RanAreLogged(v: World, r: Ticked, w': World)
    requires QueueOk(v) && LogOk(v) && r.ran + r.tank.inps == v.tank.inps
    requires (forall i <- r.ran :: i.trigger == v.now) && (forall i <- r.tank.inps :: i.trigger > v.now)
    requires w'.now == v.now + 1 && w'.taken == v.taken && w'.log == v.log + Logged(v.now, r.ran)
    ensures LogOk(w')
  {
    var more := Logged(v.now, r.ran);
    forall x, y | 0 <= x < y < |more|
      ensures EarlierRan(more[x], more[y])
    {
      assert r.ran[x] == v.tank.inps[x] && r.ran[y] == v.tank.inps[y];
      assert r.ran[x] in r.ran && r.ran[y] in r.ran;
    }
    forall x
      ensures x in w'.log <==> IsTaken(w', x.input) && x.step == x.input.trigger < w'.now
    {
      assert x in v.log <==> IsTaken(v, x.input) && x.step == x.input.trigger < v.now;
      assert x.input in v.tank.inps <==> IsTaken(v, x.input) && x.input.trigger >= v.now;
      assert x.input in v.tank.inps <==> x.input in r.ran || x.input in r.tank.inps;
      InLogged(v.now, r.ran, x);
    }
  }

  lemma InLogged(step: int, ran: seq<Input>, x: Ran)
    ensures x in Logged(step, ran) <==> x.step == step && x.input in ran
  {
  }

  // ---- Main results

  lemma AfterKeeps(w: World, e: Event)
    requires Inv(w)
    ensures var w' := After(w, e); var k := if e.Step? then 1 else 0;
      && Inv(w') && w.taken <= w'.taken && w'.ticks == w.ticks + k && w'.now == w.now + k
      && |w'.fired| as real + w'.tank.remainShot <= |w.fired| as real + w.tank.remainShot + REFILL * k as real
  {
    if e.Step? {
      StepUnfolds(w, e.angle);
      StepKeeps(w, e.angle);
    } else {
      MessageKeeps(w, e);
    }
  }

  lemma {:induction false} RunKeeps(w: World, events: seq<Event>)
    requires Inv(w)
    ensures var r := Run(w, events);
      && Inv(r) && w.taken <= r.taken && r.ticks >= w.ticks && r.now - w.now == r.ticks - w.ticks
      && |r.fired| as real + r.tank.remainShot <=
         |w.fired| as real + w.tank.remainShot + REFILL * (r.ticks - w.ticks) as real
  {
    if events != [] {
      RunKeeps(w, events[..|events| - 1]);
      AfterKeeps(Run(w, events[..|events| - 1]), events[|events| - 1]);
    }
  }

  /**
   * In every run, an action taken from a message runs exactly once if its trigger is past, in the step that equals
   * it; otherwise not yet.
   */
  lemma TakenRunsExactlyOnce(w: World, e: Event, events: seq<Event>)
    requires Inv(w) && e.Message? && !HasClient(w.tank.cinps, e.client)
    ensures var i := MessageInput(w, e); var r := Run(After(w, e), events);
      && i.trigger == (if e.trigger < w.now + 2 then w.now + 2 else e.trigger)
      && (Ran(i.trigger, i) in r.log <==> i.trigger < r.now)
      && forall x, y :: 0 <= x < |r.log| && 0 <= y < |r.log|
           && r.log[x].input.serial == i.serial && r.log[y].input.serial == i.serial
           ==> (x == y && r.log[x] == Ran(i.trigger, i))
  {
    var i, v := MessageInput(w, e), After(w, e);
    MessageKeeps(w, e);
    RunKeeps(v, events);
    var r := Run(v, events);
    assert IsTaken(r, i) by {
      assert v.taken[i.serial] == i && r.taken[i.serial] == v.taken[i.serial];
    }
    forall x | 0 <= x < |r.log| && r.log[x].input.serial == i.serial
      ensures r.log[x] == Ran(i.trigger, i)
    {
      assert r.log[x] in r.log;
    }
  }

  /** As long as an action is not more than a thousand steps past, no message with its client id is taken. */
  lemma RepeatsAreIgnored(w: World, events: seq<Event>, i: Input, e: Event)
    requires Inv(w) && i in w.taken && e.Message? && e.client == i.client
    requires Run(w, events).now <= i.trigger + MEMORY
    ensures After(Run(w, events), e) == Run(w, events)
  {
    RunKeeps(w, events);
    var r := Run(w, events);
    assert i in r.taken;
    assert Remembered(r, i);
  }

  /** In any stretch of a run no more shots are fired than the bucket holds at first and gains by its updates. */
  lemma ShotsAreBounded(w: World, events: seq<Event>)
    requires Inv(w)
    ensures var r := Run(w, events);
      && 0.0 <= r.tank.remainShot <= MAX_SHOT
      && |r.fired| as real - |w.fired| as real <= MAX_SHOT + REFILL * (r.ticks - w.ticks) as real
  {
    RunKeeps(w, events);
  }

  function Least(a: real, b: real): real {
    if a <= b then a else b
  }

  /** From one world to a later one the bucket only filled: by one and a half shots a second, up to its size. */
  predicate OnlyRefilled(w: World, r: World) {
    && w.ticks <= r.ticks
    && r.tank.remainShot == Least(MAX_SHOT, w.tank.remainShot + REFILL * (r.ticks - w.ticks) as real)
  }

  lemma RefillsAdd(u: World, v: World, w: World)
    requires OnlyRefilled(u, v) && OnlyRefilled(v, w)
    ensures OnlyRefilled(u, w)
  {
    var j, k := v.ticks - u.ticks, w.ticks - v.ticks;
    assert (j + k) as real == j as real + k as real;
  }

  lemma QuietAfter(w: World, e: Event)
    requires Inv(w) && After(w, e).fired == w.fired
    ensures OnlyRefilled(w, After(w, e))
  {
    if e.Step? {
      QuietStepRefills(w, e.angle);
    }
  }

  /** A stretch without shots only fills the bucket. */
  lemma {:induction false} QuietTankRefills(w: World, events: seq<Event>)
    requires Inv(w) && Run(w, events).fired == w.fired
    ensures OnlyRefilled(w, Run(w, events))
  {
    if events != [] {
      var before, e := Run(w, events[..|events| - 1]), events[|events| - 1];
      assert Inv(before) by {
        RunKeeps(w, events[..|events| - 1]);
      }
      assert before.fired == w.fired == After(before, e).fired by {
        FiredOnlyGrows(w, events[..|events| - 1]);
      }
      QuietTankRefills(w, events[..|events| - 1]);
      assert OnlyRefilled(before, After(before, e)) by {
        QuietAfter(before, e);
      }
      RefillsAdd(w, before, After(before, e));
    }
  }

  lemma {:induction false} FiredOnlyGrows(w: World, events: seq<Event>)
    ensures w.fired <= Run(w, events).fired
  {
    if events != [] {
      FiredOnlyGrows(w, events[..|events| - 1]);
    }
  }

  lemma QuietStepRefills(w: World, angle: real)
    requires Inv(w) && After(w, Step(angle)).fired == w.fired
    ensures After(w, Step(angle)).ticks == w.ticks + 1
    ensures After(w, Step(angle)).tank.remainShot == Least(MAX_SHOT, w.tank.remainShot + REFILL)
  {
    StepUnfolds(w, angle);
    RunDueSpendsShots(BeforeRun(w, angle).tank);
    var r := RunDue(BeforeRun(w, angle).tank);
    assert r.tank.myStep == w.now by {
      BeforeRunKeepsQueue(w, angle);
      RunDueTakesFront(BeforeRun(w, angle).tank);
    }
  }

  // ---- The client id of the computer player

  /** The tank was updated, or a message came with the computer player's client id. */
  predicate AiIdUsed(events: seq<Event>) {
    exists e <- events :: e.Step? || e.client == AI_CLIENT
  }

  lemma TakenIsRemembered(w: World, i: Input)
    requires ByClient(w.tank.cinps)
    ensures HasClient(Enqueue(w.tank, i).cinps, i.client)
    ensures forall client :: client != i.client ==>
      (HasClient(Enqueue(w.tank, i).cinps, client) <==> HasClient(w.tank.cinps, client))
  {
    PutReplaces(w.tank.cinps, i);
    var cinps := Enqueue(w.tank, i).cinps;
    assert i in cinps;
  }

  /** After an update the computer player's own action is remembered. */
  lemma StepRemembersAi(w: World, angle: real)
    requires Inv(w) && w.tank.hasAi
    ensures HasClient(After(w, Step(angle)).tank.cinps, AI_CLIENT) && After(w, Step(angle)).tank.hasAi
  {
    var w', ai := After(w, Step(angle)), AiMove(w.tank, w.now + 1, angle);
    StepKeeps(w, angle);
    assert ai in w'.taken && w'.now == w.now + 1;
    assert Remembered(w', ai);
    HasAiStays(w, Step(angle));
  }

  lemma HasAiStays(w: World, e: Event)
    requires Inv(w)
    ensures After(w, e).tank.hasAi == w.tank.hasAi
  {
    if e.Step? {
      BeforeRunKeepsQueue(w, e.angle);
      assert forall i <- BeforeRun(w, e.angle).tank.inps :: i.trigger >= w.now;
      RunDueTakesFront(BeforeRun(w, e.angle).tank);
      StepUnfolds(w, e.angle);
    }
  }

  /** On a computer player's tank that client id is remembered from its first use on. */
  lemma {:induction false} AiIdRemembered(now: int, events: seq<Event>)
    ensures var w := Run(Start(now, true), events);
      Inv(w) && w.tank.hasAi && (HasClient(w.tank.cinps, AI_CLIENT) <==> AiIdUsed(events))
  {
    StartIsInv(now, true);
    if events != [] {
      var before, e := events[..|events| - 1], events[|events| - 1];
      var b := Run(Start(now, true), before);
      AiIdRemembered(now, before);
      AfterKeeps(b, e);
      AiIdRemembersNext(b, e);
      AiIdUsedNext(before, e);
      assert events == before + [e];
    }
  }

  lemma AiIdUsedNext(before: seq<Event>, e: Event)
    ensures AiIdUsed(before + [e]) <==> AiIdUsed(before) || e.Step? || e.client == AI_CLIENT
  {
    assert forall d :: d in before + [e] <==> d in before || d == e;
  }

  lemma AiIdRemembersNext(b: World, e: Event)
    requires Inv(b) && b.tank.hasAi
    ensures var w := After(b, e);
      && w.tank.hasAi
      && (HasClient(w.tank.cinps, AI_CLIENT) <==>
            HasClient(b.tank.cinps, AI_CLIENT) || e.Step? || e.client == AI_CLIENT)
  {
    HasAiStays(b, e);
    if e.Step? {
      StepRemembersAi(b, e.angle);
    } else if !HasClient(b.tank.cinps, e.client) {
      TakenIsRemembered(b, MessageInput(b, e));
    }
  }

  /**
   * A computer player's tank takes a message with that client id exactly if it is the first and nothing was updated
   * before.
   */
  lemma AiTakesItsIdOnlyAtFirst(now: int, events: seq<Event>, e: Event)
    requires e.Message? && e.client == AI_CLIENT
    ensures var w := Run(Start(now, true), events); After(w, e).taken != w.taken <==> !AiIdUsed(events)
  {
    AiIdRemembered(now, events);
  }
}
