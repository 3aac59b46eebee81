/** What a tank's actions do when they run: the course and speed of moves, and the missiles of shots. */
module TankEffects {
  import opened TankActions

  // ---- What is due in a step

  /** The actions that trigger in the step, in the order in which they were taken. */
  function Due(taken: seq<Input>, step: int): (r: seq<Input>)
    ensures forall i :: i in r <==> i in taken && i.trigger == step
  {
    if taken == [] then []
    else
      var before, i := taken[..|taken| - 1], taken[|taken| - 1];
      assert taken == before + [i];
      Due(before, step) + if i.trigger == step then [i] else []
  }

  function Moves(s: seq<Input>): (r: seq<Input>)
    ensures forall i <- r :: i.Move? && i in s
  {
    if s == [] then [] else (if s[0].Move? then [s[0]] else []) + Moves(s[1..])
  }

  /** The ids of the shots. */
  function Shots(s: seq<Input>): seq<int> {
    if s == [] then [] else (if s[0].Fire? then [s[0].shotId] else []) + Shots(s[1..])
  }

  lemma {:induction false} MovesInParts(a: seq<Input>, b: seq<Input>)
    ensures Moves(a + b) == Moves(a) + Moves(b)
  {
    if a == [] {
      assert a + b == b;
    } else {
      var first := if a[0].Move? then [a[0]] else [];
      assert (a + b)[0] == a[0] && (a + b)[1..] == a[1..] + b;
      MovesInParts(a[1..], b);
      assert first + (Moves(a[1..]) + Moves(b)) == first + Moves(a[1..]) + Moves(b);
    }
  }

  lemma {:induction false} ShotsInParts(a: seq<Input>, b: seq<Input>)
    ensures Shots(a + b) == Shots(a) + Shots(b)
  {
    if a == [] {
      assert a + b == b;
    } else {
      var first := if a[0].Fire? then [a[0].shotId] else [];
      assert (a + b)[0] == a[0] && (a + b)[1..] == a[1..] + b;
      ShotsInParts(a[1..], b);
      assert first + (Shots(a[1..]) + Shots(b)) == first + Shots(a[1..]) + Shots(b);
    }
  }

  predicate BySerial(s: seq<Input>) {
    forall x, y :: 0 <= x < y < |s| ==> s[x].serial < s[y].serial
  }

  lemma {:induction false} DueIsBySerial(taken: seq<Input>, step: int)
    requires forall n :: 0 <= n < |taken| ==> taken[n].serial == n
    ensures BySerial(Due(taken, step)) && forall i <- Due(taken, step) :: i.serial < |taken|
  {
    if taken != [] {
      DueIsBySerial(taken[..|taken| - 1], step);
    }
  }

  lemma {:induction false} SameBySerial(a: seq<Input>, b: seq<Input>)
    requires BySerial(a) && BySerial(b) && forall i :: i in a <==> i in b
    ensures a == b
  {
    assert a != [] ==> a[0] in b;
    assert b != [] ==> b[0] in a;
    if a != [] {
      assert a[0] == b[0];
      assert a == [a[0]] + a[1..] && b == [b[0]] + b[1..];
      assert forall i :: i in a[1..] <==> i in a && i != a[0];
      assert forall i :: i in b[1..] <==> i in b && i != b[0];
      SameBySerial(a[1..], b[1..]);
    }
  }

  /** The part in front of a queue in order that triggers in one step is in the order of arrival. */
  lemma FrontBySerial(inps: seq<Input>, ran: seq<Input>, rest: seq<Input>, step: int)
    requires InOrder(inps) && ran + rest == inps && forall i <- ran :: i.trigger == step
    ensures BySerial(ran)
  {
    assert forall x :: 0 <= x < |ran| ==> ran[x] == inps[x] && ran[x] in ran;
  }

  lemma SameMembers(v: World, w: World, ran: seq<Input>, rest: seq<Input>)
    requires QueueOk(v) && QueueOk(w) && v.now == w.now && ran + rest == v.tank.inps
    requires w.taken <= v.taken && forall i <- v.taken[|w.taken|..] :: i.trigger != w.now
    requires (forall i <- ran :: i.trigger == v.now) && (forall i <- rest :: i.trigger > v.now)
    ensures forall i :: i in ran <==> i in Due(w.taken, w.now)
  {
    assert v.taken == w.taken + v.taken[|w.taken|..];
    forall i
      ensures i in ran <==> i in w.taken && i.trigger == w.now
    {
      assert i in v.tank.inps <==> IsTaken(v, i) && i.trigger >= v.now;
      assert i in v.tank.inps <==> i in ran || i in rest;
    }
  }

  /** The front part of a queue that triggers now is what is due. */
  lemma FrontIsDue(v: World, w: World, ran: seq<Input>, rest: seq<Input>)
    requires QueueOk(v) && QueueOk(w) && v.now == w.now && ran + rest == v.tank.inps
    requires w.taken <= v.taken && forall i <- v.taken[|w.taken|..] :: i.trigger != w.now
    requires (forall i <- ran :: i.trigger == v.now) && (forall i <- rest :: i.trigger > v.now)
    ensures ran == Due(w.taken, w.now)
  {
    FrontBySerial(v.tank.inps, ran, rest, v.now);
    SameMembers(v, w, ran, rest);
    DueIsBySerial(w.taken, w.now);
    SameBySerial(ran, Due(w.taken, w.now));
  }

  lemma FrontRuns(v: World, w: World)
    requires QueueOk(v) && QueueOk(w) && v.now == w.now == v.tank.myStep
    requires w.taken <= v.taken && forall i <- v.taken[|w.taken|..] :: i.trigger != w.now
    ensures RunDue(v.tank).ran == Due(w.taken, w.now)
  {
    assert forall i <- v.tank.inps :: i.trigger >= v.now;
    RunDueTakesFront(v.tank);
    FrontIsDue(v, w, RunDue(v.tank).ran, RunDue(v.tank).tank.inps);
  }

  /** The actions that an update runs are those due. */
  lemma RanIsDue(w: World, angle: real)
    requires Inv(w)
    ensures RunDue(BeforeRun(w, angle).tank).ran == Due(w.taken, w.now)
  {
    BeforeRunKeepsQueue(w, angle);
    FrontRuns(BeforeRun(w, angle), w);
  }

  // ---- What running them does

  /** The speed, or the nearer end of what the tank can do. */
  predicate IsNearest(v: real, speed: real, max: real) {
    && 0.0 <= v <= max && (0.0 <= speed <= max ==> v == speed)
    && (speed < 0.0 ==> v == 0.0) && (speed > max ==> v == max)
  }

  /** The last move sets course and speed; without one they stay. */
  predicate Steers(t: TankState, ran: seq<Input>, r: TankState) {
    var m := Moves(ran);
    if m == [] then r.targetAngle == t.targetAngle && r.speed == t.speed
    else r.targetAngle == m[|m| - 1].angle && IsNearest(r.speed, m[|m| - 1].speed, t.maxSpeed)
  }

  lemma SteersOneMore(t: TankState, i: Input, u: TankState, ran: seq<Input>, r: TankState)
    requires 0.0 <= t.maxSpeed == u.maxSpeed && Steers(u, ran, r)
    requires u.targetAngle == RunOne(t, i).targetAngle && u.speed == RunOne(t, i).speed
    ensures Steers(t, [i] + ran, r)
  {
    assert ([i] + ran)[0] == i && ([i] + ran)[1..] == ran;
  }

  lemma {:induction false} RunDueSteers(t: TankState)
    requires 0.0 <= t.maxSpeed
    ensures Steers(t, RunDue(t).ran, RunDue(t).tank) && RunDue(t).tank.maxSpeed == t.maxSpeed
    decreases |t.inps|
  {
    var x := Find(t.inps, t.myStep);
    if x < |t.inps| {
      var i := t.inps[x];
      var u := RunOne(t, i).(inps := Without(t.inps, x));
      RunDueSteers(u);
      SteersOneMore(t, i, u, RunDue(u).ran, RunDue(u).tank);
    }
  }

  /** There is a whole shot left after so many. */
  predicate IsLeft(remain: real, shots: nat) {
    remain - shots as real >= 1.0
  }

  /** The first shots fire, as many as there are whole ones in the bucket; each fires its own id. */
  predicate Shoots(shots: seq<int>, remain: real, fired: seq<int>) {
    fired <= shots && forall j :: 0 <= j < |shots| ==> (j < |fired| <==> IsLeft(remain, j))
  }

  lemma {:induction false} RunDueShoots(t: TankState)
    requires 0.0 <= t.remainShot
    ensures Shoots(Shots(RunDue(t).ran), t.remainShot, RunDue(t).fired)
    decreases |t.inps|
  {
    var x := Find(t.inps, t.myStep);
    if x < |t.inps| {
      var i := t.inps[x];
      var u := RunOne(t, i).(inps := Without(t.inps, x));
      RunDueShoots(u);
      assert ([i] + RunDue(u).ran)[1..] == RunDue(u).ran;
      ShootsOneMore(t, i, Shots(RunDue(u).ran), RunDue(u).fired);
    }
  }

  lemma ShootsOneMore(t: TankState, i: Input, shots: seq<int>, fired: seq<int>)
    requires 0.0 <= t.remainShot && Shoots(shots, RunOne(t, i).remainShot, fired)
    ensures Shoots((if i.Fire? then [i.shotId] else []) + shots, t.remainShot, Fired(t, i) + fired)
  {
    var all, f := (if i.Fire? then [i.shotId] else []) + shots, Fired(t, i) + fired;
    if i.Move? {
      assert all == shots && f == fired;
    } else if t.remainShot < 1.0 {
      assert shots != [] ==> !IsLeft(t.remainShot, 0);
    } else {
      forall j | 0 <= j < |all|
        ensures j < |f| <==> IsLeft(t.remainShot, j)
      {
        if j > 0 {
          assert IsLeft(t.remainShot, j) == IsLeft(t.remainShot - 1.0, j - 1);
        }
      }
    }
  }

  /** One update of a tank within its bounds: what ran, course, speed and missiles. */
  lemma TickTakesEffect(t: TankState, now: int, angle: real)
    requires 0.0 <= t.speed <= t.maxSpeed && 0.0 <= t.remainShot
    ensures var r := Tick(t, now, angle);
      Steers(t, r.ran, r.tank) && Shoots(Shots(r.ran), t.remainShot, r.fired)
  {
    RunDueSteers(Cleaned(WithAi(t, now, angle)));
    RunDueShoots(Cleaned(WithAi(t, now, angle)));
  }

  // ---- Whole updates

  predicate SpeedOk(w: World) {
    0.0 <= w.tank.speed <= w.tank.maxSpeed
  }

  /** From one world to the next by an update that runs `due`. */
  predicate Runs(w: World, due: seq<Input>, r: World) {
    && r.log == w.log + Logged(w.now, due) && Steers(w.tank, due, r.tank)
    && w.fired <= r.fired && Shoots(Shots(due), w.tank.remainShot, r.fired[|w.fired|..])
  }

  /**
   * An update runs exactly what is due, in the order in which it was taken. Course and speed are then those of the last
   * move, or stay without one, and the first shots fire, as long as there is a whole one left.
   */
  lemma UpdateRunsWhatIsDue(w: World, angle: real)
    requires Inv(w) && SpeedOk(w)
    ensures Runs(w, Due(w.taken, w.now), After(w, Step(angle))) && SpeedOk(After(w, Step(angle)))
    ensures After(w, Step(angle)).tank.maxSpeed == w.tank.maxSpeed
  {
    var v, w' := BeforeRun(w, angle), After(w, Step(angle));
    RanIsDue(w, angle);
    StepUnfolds(w, angle);
    assert v.tank.speed == w.tank.speed && v.tank.targetAngle == w.tank.targetAngle;
    RunDueSteers(v.tank);
    RunDueShoots(v.tank);
    assert w'.fired[|w.fired|..] == RunDue(v.tank).fired;
  }

  lemma AfterStaysInBounds(w: World, e: Event)
    requires Inv(w) && SpeedOk(w)
    ensures Inv(After(w, e)) && SpeedOk(After(w, e)) && After(w, e).tank.maxSpeed == w.tank.maxSpeed
  {
    AfterKeeps(w, e);
    if e.Step? {
      UpdateRunsWhatIsDue(w, e.angle);
    }
  }

  lemma {:induction false} SpeedStaysInBounds(w: World, events: seq<Event>)
    requires Inv(w) && SpeedOk(w)
    ensures Inv(Run(w, events)) && SpeedOk(Run(w, events)) && Run(w, events).tank.maxSpeed == w.tank.maxSpeed
  {
    if events != [] {
      SpeedStaysInBounds(w, events[..|events| - 1]);
      AfterStaysInBounds(Run(w, events[..|events| - 1]), events[|events| - 1]);
    }
  }

  /** The computer player's move is taken in every update, for the next one, with its course and full speed. */
  lemma AiMovesInEveryUpdate(w: World, angle: real)
    requires Inv(w)
    ensures After(w, Step(angle)).taken ==
      if w.tank.hasAi then w.taken + [Move(|w.taken|, 0, w.now + 1, angle, 1000.0)] else w.taken
  {
  }

  // ---- A client's message

  /** When a message's action is to run: not before two steps from now. */
  function TimeOf(now: int, trigger: int): int {
    if trigger < now + 2 then now + 2 else trigger
  }

  /** A message whose client id is not remembered is taken as it is, behind all others. */
  lemma MessageIsTaken(w: World, e: Event)
    requires Inv(w) && e.Message? && !HasClient(w.tank.cinps, e.client)
    ensures var n, t := |w.taken|, TimeOf(w.now, e.trigger);
      After(w, e).taken == w.taken +
        [if e.shot then Fire(n, e.client, t, e.shotId) else Move(n, e.client, t, e.angle, e.speed)]
  {
  }

  lemma {:induction false} DueInParts(a: seq<Input>, b: seq<Input>, step: int)
    ensures Due(a + b, step) == Due(a, step) + Due(b, step)
  {
    if b == [] {
      assert a + b == a;
    } else {
      assert (a + b)[..|a + b| - 1] == a + b[..|b| - 1];
      DueInParts(a, b[..|b| - 1], step);
    }
  }

  /** What is due around one action that is. */
  lemma DueAround(taken: seq<Input>, n: nat, step: int)
    requires n < |taken| && taken[n].trigger == step
    ensures Due(taken, step) == Due(taken[..n], step) + [taken[n]] + Due(taken[n + 1..], step)
  {
    assert taken == taken[..n] + [taken[n]] + taken[n + 1..];
    DueInParts(taken[..n] + [taken[n]], taken[n + 1..], step);
    DueInParts(taken[..n], [taken[n]], step);
    assert Due([taken[n]], step) == [taken[n]] by {
      assert [taken[n]][..0] == [];
    }
  }

  /** No move taken later triggers in the same step. */
  predicate NoLaterMove(taken: seq<Input>, n: nat, step: int) {
    forall m :: n < m < |taken| && taken[m].Move? ==> taken[m].trigger != step
  }

  lemma LastMove(taken: seq<Input>, n: nat, step: int)
    requires n < |taken| && taken[n].Move? && taken[n].trigger == step && NoLaterMove(taken, n, step)
    ensures var m := Moves(Due(taken, step)); m != [] && m[|m| - 1] == taken[n]
  {
    var a, b := Due(taken[..n], step), Due(taken[n + 1..], step);
    DueAround(taken, n, step);
    MovesInParts(a + [taken[n]], b);
    MovesInParts(a, [taken[n]]);
    NoMoves(b);
  }

  lemma {:induction false} NoMoves(s: seq<Input>)
    requires forall i <- s :: !i.Move?
    ensures Moves(s) == []
  {
    if s != [] {
      NoMoves(s[1..]);
    }
  }

  /** The message's action after any further events, in the step in which it is to run. */
  predicate IsDueNow(w: World, e: Event, r: World)
    requires e.Message?
  {
    r.now == TimeOf(w.now, e.trigger)
  }

  /** The tank has that course, and that speed or the nearer bound. */
  predicate Goes(t: TankState, angle: real, speed: real) {
    t.targetAngle == angle && IsNearest(t.speed, speed, t.maxSpeed)
  }

  lemma DueMoveSteers(r: World, n: nat, angle: real)
    requires Inv(r) && SpeedOk(r) && n < |r.taken| && r.taken[n].Move? && r.taken[n].trigger == r.now
    requires NoLaterMove(r.taken, n, r.now)
    ensures Goes(After(r, Step(angle)).tank, r.taken[n].angle, r.taken[n].speed)
  {
    LastMove(r.taken, n, r.now);
    UpdateRunsWhatIsDue(r, angle);
  }

  /**
   * A client's move: the update at its time sets the tank's course to the message's angle, and its speed to the
   * message's or the nearer bound, unless a later move was taken for that time.
   */
  lemma MoveTakesEffect(w: World, e: Event, events: seq<Event>, r: World, angle: real)
    requires Inv(w) && SpeedOk(w) && e.Message? && !e.shot && !HasClient(w.tank.cinps, e.client)
    requires r == Run(After(w, e), events) && IsDueNow(w, e, r) && NoLaterMove(r.taken, |w.taken|, r.now)
    ensures Goes(After(r, Step(angle)).tank, e.angle, e.speed)
  {
    StillTaken(w, e, events);
    DueMoveSteers(r, |w.taken|, angle);
  }

  /** A whole shot is left for the action taken as number `n`, after those taken earlier for the same step. */
  predicate HasShotFor(w: World, n: nat)
    requires n <= |w.taken|
  {
    IsLeft(w.tank.remainShot, |Shots(Due(w.taken[..n], w.now))|)
  }

  /** The update from `w` to `r` fires the shot number `n` with that id if one is left for it, in its place. */
  predicate FiresInPlace(w: World, r: World, n: nat, shotId: int)
    requires n <= |w.taken| && |w.fired| <= |r.fired|
  {
    var fired, due, j := r.fired[|w.fired|..], Shots(Due(w.taken, w.now)), |Shots(Due(w.taken[..n], w.now))|;
    fired <= due && j < |due| && due[j] == shotId && (j < |fired| <==> HasShotFor(w, n))
  }

  lemma DueShotFires(r: World, n: nat, angle: real)
    requires Inv(r) && SpeedOk(r) && n < |r.taken| && r.taken[n].Fire? && r.taken[n].trigger == r.now
    ensures |r.fired| <= |After(r, Step(angle)).fired|
    ensures FiresInPlace(r, After(r, Step(angle)), n, r.taken[n].shotId)
  {
    ShotInPlace(r.taken, n, r.now);
    UpdateRunsWhatIsDue(r, angle);
  }

  /** A message's action is still the one taken, under its number. */
  lemma StillTaken(w: World, e: Event, events: seq<Event>)
    requires Inv(w) && SpeedOk(w) && e.Message? && !HasClient(w.tank.cinps, e.client)
    ensures var n, t, r := |w.taken|, TimeOf(w.now, e.trigger), Run(After(w, e), events);
      && Inv(r) && SpeedOk(r) && r.tank.maxSpeed == w.tank.maxSpeed && n < |r.taken|
      && r.taken[n] == if e.shot then Fire(n, e.client, t, e.shotId) else Move(n, e.client, t, e.angle, e.speed)
  {
    var d := After(w, e);
    MessageKeeps(w, e);
    MessageIsTaken(w, e);
    RunKeeps(d, events);
    SpeedStaysInBounds(d, events);
    assert d.taken[|w.taken|] == Run(d, events).taken[|w.taken|];
  }

  /**
   * A client's shot: the update at its time fires a missile with exactly the message's id if there is a whole shot left
   * after those that were taken earlier for that time, and otherwise nothing for it.
   */
  lemma ShotTakesEffect(w: World, e: Event, events: seq<Event>, r: World, angle: real)
    requires Inv(w) && SpeedOk(w) && e.Message? && e.shot && !HasClient(w.tank.cinps, e.client)
    requires r == Run(After(w, e), events) && IsDueNow(w, e, r)
    ensures |w.taken| < |r.taken| && |r.fired| <= |After(r, Step(angle)).fired|
    ensures FiresInPlace(r, After(r, Step(angle)), |w.taken|, e.shotId)
  {
    StillTaken(w, e, events);
    DueShotFires(r, |w.taken|, angle);
  }

  lemma ShotInPlace(taken: seq<Input>, n: nat, step: int)
    requires n < |taken| && taken[n].Fire? && taken[n].trigger == step
    ensures var s, j := Shots(Due(taken, step)), |Shots(Due(taken[..n], step))|; j < |s| && s[j] == taken[n].shotId
  {
    var a, b := Due(taken[..n], step), Due(taken[n + 1..], step);
    DueAround(taken, n, step);
    ShotsInParts(a + [taken[n]], b);
    ShotsInParts(a, [taken[n]]);
  }

  // ---- What is remembered

  /** An entry of the memory of client ids, once the computer player has renewed its own. */
  predicate IsEntry(w: World, angle: real, i: Input) {
    if w.tank.hasAi && i.client == 0 then i == Move(|w.taken|, 0, w.now + 1, angle, 1000.0) else i in w.tank.cinps
  }

  lemma {:induction false} RunDueKeepsMemory(t: TankState)
    ensures RunDue(t).tank.cinps == t.cinps
    decreases |t.inps|
  {
    var x := Find(t.inps, t.myStep);
    if x < |t.inps| {
      RunDueKeepsMemory(RunOne(t, t.inps[x]).(inps := Without(t.inps, x)));
    }
  }

  lemma MemoryOfUpdate(w: World, angle: real)
    requires Inv(w)
    ensures After(w, Step(angle)).tank.cinps == DropBefore(Moved(w, angle).tank.cinps, w.now - 1000)
  {
    var v := BeforeRun(w, angle);
    StepUnfolds(w, angle);
    RunDueKeepsMemory(v.tank);
    RefilledKeepsMemory(RunDue(v.tank).tank, After(w, Step(angle)).now);
    BeforeRunIsCleaned(w, angle);
    CleanedMemory(Moved(w, angle).tank);
  }

  lemma RefilledKeepsMemory(t: TankState, now: int)
    ensures Refilled(t, now).cinps == t.cinps
  {
  }

  lemma CleanedMemory(t: TankState)
    ensures Cleaned(t).cinps == DropBefore(t.cinps, t.myStep - 1000)
  {
  }

  lemma EntriesOfUpdate(w: World, angle: real)
    requires Inv(w)
    ensures ByClient(Moved(w, angle).tank.cinps)
    ensures forall j :: j in Moved(w, angle).tank.cinps <==> IsEntry(w, angle, j)
  {
    PutReplaces(w.tank.cinps, AiMove(w.tank, w.now + 1, angle));
  }

  /** Some entry with that client id or a smaller one is at most a thousand steps past. */
  ghost predicate IsShielded(w: World, angle: real, client: int) {
    exists j :: IsEntry(w, angle, j) && j.client <= client && j.trigger >= w.now - 1000
  }

  /**
   * An update forgets an entry exactly if it and all with smaller client ids are more than a thousand steps past, since
   * entries go in the order of client ids up to the first that is not.
   */
  lemma UpdateForgetsExactly(w: World, angle: real, i: Input)
    requires Inv(w)
    ensures i in After(w, Step(angle)).tank.cinps <==> IsEntry(w, angle, i) && IsShielded(w, angle, i.client)
  {
    var mem := Moved(w, angle).tank.cinps;
    MemoryOfUpdate(w, angle);
    EntriesOfUpdate(w, angle);
    DroppedExactly(mem, w.now - 1000, i);
  }

  /**
   * On a computer player's tank its own entry, which every update renews, shields all others: a client id from 0 on
   * that is remembered once is remembered for ever, and no message with it is taken any more.
   */
  lemma {:induction false} AiNeverForgets(w: World, events: seq<Event>, client: int)
    requires Inv(w) && w.tank.hasAi && client >= 0 && HasClient(w.tank.cinps, client)
    ensures var r := Run(w, events);
      && Inv(r) && r.tank.hasAi && HasClient(r.tank.cinps, client)
      && forall e: Event :: e.Message? && e.client == client ==> After(r, e) == r
  {
    if events != [] {
      var b, e := Run(w, events[..|events| - 1]), events[|events| - 1];
      AiNeverForgets(w, events[..|events| - 1], client);
      AfterKeeps(b, e);
      HasAiStays(b, e);
      if e.Step? {
        StepShields(b, e.angle, client);
      } else if !HasClient(b.tank.cinps, e.client) {
        TakenIsRemembered(b, MessageInput(b, e));
      }
    }
  }

  lemma StepShields(w: World, angle: real, client: int)
    requires Inv(w) && w.tank.hasAi && client >= 0 && HasClient(w.tank.cinps, client)
    ensures HasClient(After(w, Step(angle)).tank.cinps, client)
  {
    var ai := Move(|w.taken|, 0, w.now + 1, angle, 1000.0);
    var i :| i in w.tank.cinps && i.client == client;
    var j := if client == 0 then ai else i;
    assert IsEntry(w, angle, ai) && IsEntry(w, angle, j);
    UpdateForgetsExactly(w, angle, j);
  }

  lemma {:induction false} DroppedExactly(s: seq<Input>, step: int, i: Input)
    requires ByClient(s)
    ensures i in DropBefore(s, step) <==> i in s && exists j <- s :: j.client <= i.client && j.trigger >= step
  {
    if s != [] {
      FirstIsLeast(s);
      if s[0].trigger < step {
        DroppedExactly(s[1..], step, i);
      } else {
        assert i in s ==> s[0] in s && s[0].client <= i.client;
      }
    }
  }
}
