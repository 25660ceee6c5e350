/**
 The bus object itself: registers that the library updates in place, with a 32-bit activity
 time. Every method is proved to take exactly the steps of the node model, so what `LinkRuns`
 says about runs holds for the object.
 */
module LinkBus {
  import opened Bytes
  import opened Clock
  import opened Link
  import opened LinkRuns

  predicate Interrupting(a: Action) {
    a.Tick? || a.Hear? || a.Predict?
  }

  /** No packet is picked up. */
  predicate NoLoad(run: seq<Action>) {
    forall a :: a in run ==> !a.Load?
  }

  lemma {:induction false} RunExtends(cfg: Config, n: Node, run: seq<Action>, a: Action)
    requires ValidRun(cfg, n, run) && Enabled(Run(cfg, n, run), a)
    ensures ValidRun(cfg, n, run + [a]) && Run(cfg, n, run + [a]) == Step(cfg, Run(cfg, n, run), a)
    decreases |run|
  {
    if run != [] {
      assert (run + [a])[1..] == run[1..] + [a];
      RunExtends(cfg, Step(cfg, n, run[0]), run[1..], a);
    } else {
      assert (run + [a])[1..] == [];
    }
  }

  // ---- what happens around the main program ----

  /** The clock and the interrupts of a run, without the steps of the main program. */
  function Outside(run: seq<Action>): seq<Action> {
    if run == [] then []
    else
      var n := |run| - 1;
      Outside(run[..n]) + if Interrupting(run[n]) then [run[n]] else []
  }

  /** What `env` tells for the pauses `from` up to `end`. */
  function Between(env: seq<seq<Action>>, from: nat, end: nat): seq<Action>
    requires from <= end <= |env|
  {
    if from == end then [] else Between(env, from, end - 1) + env[end - 1]
  }

  lemma {:induction false} OutsideConcat(a: seq<Action>, b: seq<Action>)
    ensures Outside(a + b) == Outside(a) + Outside(b)
  {
    if b == [] {
      assert a + b == a;
    } else {
      assert (a + b)[..|a + b| - 1] == a + b[..|b| - 1];
      OutsideConcat(a, b[..|b| - 1]);
    }
  }

  lemma {:induction false} OutsideAll(run: seq<Action>)
    requires forall a :: a in run ==> Interrupting(a)
    ensures Outside(run) == run
  {
    if run != [] {
      OutsideAll(run[..|run| - 1]);
    }
  }

  lemma {:induction false} OutsideMore(run: seq<Action>, more: seq<Action>)
    requires forall a :: a in more ==> Interrupting(a)
    ensures Outside(run + more) == Outside(run) + more
  {
    OutsideConcat(run, more);
    OutsideAll(more);
  }

  lemma {:induction false} OnePause(env: seq<seq<Action>>, i: nat)
    requires i < |env|
    ensures Between(env, i, i + 1) == env[i]
  {
    assert Between(env, i, i) == [];
  }

  lemma {:induction false} OutsideStep(run: seq<Action>, a: Action)
    requires !Interrupting(a)
    ensures Outside(run + [a]) == Outside(run)
  {
    assert (run + [a])[..|run|] == run;
  }

  lemma {:induction false} BetweenAdds(env: seq<seq<Action>>, i: nat, j: nat, k: nat)
    requires i <= j <= k <= |env|
    ensures Between(env, i, k) == Between(env, i, j) + Between(env, j, k)
    decreases k
  {
    if j < k {
      BetweenAdds(env, i, j, k - 1);
    }
  }

  /** From `run` to `more`, what happened around the main program is what `env` tells from `i` up to `k`. */
  predicate Meets(run: seq<Action>, more: seq<Action>, env: seq<seq<Action>>, i: nat, k: nat) {
    i <= k <= |env| && Outside(more) == Outside(run) + Between(env, i, k)
  }

  lemma {:induction false} MeetsMore(
      run: seq<Action>, more: seq<Action>, most: seq<Action>, env: seq<seq<Action>>, i: nat, j: nat, k: nat)
    requires Meets(run, more, env, i, j) && Meets(more, most, env, j, k)
    ensures Meets(run, most, env, i, k)
  {
    BetweenAdds(env, i, j, k);
  }

  lemma {:induction false} MeetsPause(run: seq<Action>, env: seq<seq<Action>>, i: nat)
    requires i < |env| && forall a :: a in env[i] ==> Interrupting(a)
    ensures Meets(run, run + env[i], env, i, i + 1)
  {
    OutsideMore(run, env[i]);
    OnePause(env, i);
  }

  /** One step of the main program. */
  lemma {:induction false} MainStep(cfg: Config, n: Node, run: seq<Action>, a: Action) returns (more: seq<Action>)
    requires ValidRun(cfg, n, run) && Enabled(Run(cfg, n, run), a) && !Interrupting(a)
    ensures ValidRun(cfg, n, more) && Run(cfg, n, more) == Step(cfg, Run(cfg, n, run), a)
    ensures run <= more && |more| == |run| + 1 && more[|run|] == a && Outside(more) == Outside(run)
    ensures NoLoad(run) && !a.Load? ==> NoLoad(more)
  {
    more := run + [a];
    RunExtends(cfg, n, run, a);
    OutsideStep(run, a);
  }

  /** What `ub_send_packet` does on a bus whose status was `before`: on an idle one it starts, and its code tells how it ended. */
  predicate SendsNow(before: Status, sent: seq<Action>, after: Status, code: int, cut: bool) {
    if before.Idle? then [Start] <= sent && (!cut ==> code == if after.Sending? then 0 else -2)
    else !cut && code == 1 && sent == []
  }

  class UartBus {
    const cfg: Config
    var status: Status
    var wi: int
    var lastBusActivity: nat
    var toSend: seq<byte>
    var now: nat                // real time, only seen through `CurrentUsec`
    var log: History            // callbacks made and bytes put on the wire
    ghost var lastAt: nat
    ghost var pc: Pc

    ghost predicate Valid()
      reads this
    {
      lastBusActivity == Counter(lastAt)
    }

    ghost function Model(): Node
      reads this
    {
      Node(status, wi, lastAt, toSend, pc, now, log)
    }

    function CurrentUsec(): nat
      reads this
    {
      Counter(now)
    }

    constructor (cfg: Config, now: nat)
      ensures Valid() && Model() == Init(now) && this.cfg == cfg
    {
      this.cfg, this.now := cfg, now;
      status, wi, toSend, log, pc := Connecting, NOTHING, [], Empty, Main;
      lastBusActivity, lastAt := Counter(now), now;
    }

    method UpdateLastActivityNow()
      modifies this`lastBusActivity, this`lastAt
      ensures Valid() && Model() == old(Model()).Touch()
    {
      lastBusActivity, lastAt := CurrentUsec(), now;
    }

    method Emit(e: Entry)
      modifies this`log
      ensures Model() == old(Model()).Emit(e)
    {
      log := Snoc(log, now, e);
    }

    method IsSliceExceeded(update: bool) returns (exceeded: bool)
      requires Valid()
      modifies this`lastBusActivity, this`lastAt
      ensures Valid() && exceeded == SliceExceeded(cfg, old(Model()))
      ensures Model() == if update then old(Model()).Touch() else old(Model())
    {
      var last, usec := lastBusActivity, CurrentUsec();
      if update {
        UpdateLastActivityNow();
      }
      var mul: nat := cfg.packetTimeout;
      if status == Fairwait {
        mul := wi % 0x100;
      }
      var timeout := cfg.byteTime * mul;
      if usec < last {
        return usec + (WRAP - 1 - last) >= timeout;
      }
      return usec - last >= timeout;
    }

    method NoteCollision()
      modifies this`status, this`log
      ensures Model() == CollisionHappened(old(Model()))
    {
      var prev := status;
      status := Collision;
      if prev != Collision {
        Emit(Notified(CollisionStart));
      }
      if prev == Sending {
        Emit(Notified(SendEnd));
      }
    }

    method OutUpdateState(rnd: byte)
      requires Valid()
      modifies this`status, this`wi, this`lastBusActivity, this`lastAt, this`toSend, this`log
      ensures Valid() && Model() == UpdateState(cfg, old(Model()), rnd)
    {
      if status == Idle {
        return;
      }
      var exceeded := IsSliceExceeded(false);
      if !exceeded {
        return;
      }
      match status {
        case Fairwait =>
          status := Idle;
          UpdateLastActivityNow();
        case Receiving =>
          wi, status := FairwaitCycles(cfg) + rnd % 3, Fairwait;
          UpdateLastActivityNow();
          Emit(Notified(ReceiveEnd));
        case Sending =>
          if wi != NOTHING {
            NoteCollision();
            return;
          }
          toSend, wi, status := [], FairwaitCycles(cfg), Fairwait;
          UpdateLastActivityNow();
          Emit(Notified(SendEnd));
        case Collision =>
          wi, status := FairwaitCycles(cfg), Fairwait;
          UpdateLastActivityNow();
          Emit(Notified(CollisionEnd));
        case Connecting =>
          status := Idle;
      }
    }

    method HandleEcho(data: word) returns (collided: bool)
      requires Valid()
      modifies this`status, this`wi, this`lastBusActivity, this`lastAt, this`log
      ensures Valid() && collided == (data > 255 || old(wi) != data || SliceExceeded(cfg, old(Model())))
      ensures Model().(lastAt := 0) == CheckAndHandleCollision(cfg, old(Model()), data).(lastAt := 0)
      ensures lastAt == if data > 255 || old(wi) != data then old(lastAt) else now
    {
      collided := data > 255 || wi != data;
      if !collided {
        collided := IsSliceExceeded(true);
      }
      if collided {
        NoteCollision();
        if !cfg.skipCollisionData {
          Emit(Received(data % 0x100));
        }
      } else {
        wi := NOTHING;
      }
    }

    method PredictTransmissionStart()
      requires Valid()
      modifies this`status, this`lastBusActivity, this`lastAt, this`log
      ensures Valid() && Model() == Link.PredictTransmissionStart(old(Model()))
    {
      if status == Idle || status == Fairwait {
        status := Receiving;
        UpdateLastActivityNow();
        Emit(Notified(ReceiveStart));
      }
    }

    method OutRecByte(data: word)
      requires Valid()
      modifies this`status, this`wi, this`lastBusActivity, this`lastAt, this`log
      ensures Valid() && Model() == RecByte(cfg, old(Model()), data)
    {
      Emit(Heard(data, status == Connecting));
      if status == Sending || status == Collision {
        var _ := HandleEcho(data);
        UpdateLastActivityNow();
        return;
      } else if status != Receiving {
        PredictTransmissionStart();
      } else {
        UpdateLastActivityNow();
      }
      Emit(Received(data % 0x100));
    }

    method Interrupt(a: Action)
      requires Valid() && Interrupting(a)
      modifies this`status, this`wi, this`lastBusActivity, this`lastAt, this`log, this`now
      ensures Valid() && Model() == Step(cfg, old(Model()), a) && (old(MayPut(Model())) ==> MayPut(Model()))
    {
      match a {
        case Tick(d) => now := now + d;
        case Hear(data) => OutRecByte(data);
        case Predict => PredictTransmissionStart();
      }
    }

    /** The clock and the interrupts, while the main program is between two shared accesses. */
    method Interrupts(env: seq<Action>, ghost start: Node, ghost run: seq<Action>) returns (ghost run': seq<Action>)
      requires Valid() && forall a :: a in env ==> Interrupting(a)
      requires ValidRun(cfg, start, run) && Model() == Run(cfg, start, run)
      modifies this`status, this`wi, this`lastBusActivity, this`lastAt, this`log, this`now
      ensures Valid() && ValidRun(cfg, start, run') && Model() == Run(cfg, start, run') && run' == run + env
      ensures old(MayPut(Model())) ==> MayPut(Model())
    {
      run' := run;
      for k := 0 to |env|
        invariant old(MayPut(Model())) ==> MayPut(Model())
        invariant Valid() && ValidRun(cfg, start, run') && Model() == Run(cfg, start, run') && run' == run + env[..k]
      {
        assert env[k] in env;
        RunExtends(cfg, start, run', env[k]);
        Interrupt(env[k]);
        run' := run' + [env[k]];
      }
    }

    /** Interrupts between two statements of `ub_send_packet`, if `env` goes on. */
    method Pause(env: seq<seq<Action>>, from: nat, ghost start: Node, ghost run: seq<Action>)
      returns (k: nat, cut: bool, ghost run': seq<Action>)
      requires Valid() && from <= |env| && forall e, a :: e in env && a in e ==> Interrupting(a)
      requires ValidRun(cfg, start, run) && Model() == Run(cfg, start, run)
      modifies this`status, this`wi, this`lastBusActivity, this`lastAt, this`log, this`now
      ensures Valid() && from <= k <= |env| && ValidRun(cfg, start, run') && Model() == Run(cfg, start, run')
      ensures run <= run' && if cut then k == |env| && run' == run else k == from + 1 && |run'| == |run| + |env[from]|
      ensures Meets(run, run', env, from, k)
      ensures NoLoad(run) ==> NoLoad(run')
      ensures old(MayPut(Model())) ==> MayPut(Model())
    {
      k, cut, run' := from, from == |env|, run;
      if !cut {
        MeetsPause(run, env, k);
        run' := Interrupts(env[k], start, run');
        k := k + 1;
      }
    }

    /** One round of the wait loop of `ub_send_packet`. */
    method PollAndPause(env: seq<seq<Action>>, from: nat, ghost start: Node, ghost run: seq<Action>)
      returns (k: nat, cut: bool, ghost run': seq<Action>)
      requires Valid() && from <= |env| && forall e, a :: e in env && a in e ==> Interrupting(a)
      requires ValidRun(cfg, start, run) && Model() == Run(cfg, start, run) && AwaitsEcho(Model())
      modifies this`status, this`wi, this`lastBusActivity, this`lastAt, this`toSend, this`log, this`now
      ensures Valid() && toSend == old(toSend) && Meets(run, run', env, from, k) && if cut then k == |env| else from < k
      ensures ValidRun(cfg, start, run') && Model() == Run(cfg, start, run') && run <= run' && (NoLoad(run) ==> NoLoad(run'))
    {
      ghost var polled := MainStep(cfg, start, run, Poll(0));
      OutUpdateState(0);
      k, cut, run' := Pause(env, from, start, polled);
    }

    /**
     The wait loop of `ub_send_packet`: polls until the echo has come or the send is over.
     `env` tells what happens between two rounds; with none left the run is cut short.
     */
    method AwaitEcho(env: seq<seq<Action>>, from: nat, ghost start: Node, ghost run: seq<Action>)
      returns (k: nat, cut: bool, ghost run': seq<Action>)
      requires Valid() && from <= |env| && forall e, a :: e in env && a in e ==> Interrupting(a)
      requires ValidRun(cfg, start, run) && Model() == Run(cfg, start, run) && pc.Loop?
      modifies this`status, this`wi, this`lastBusActivity, this`lastAt, this`toSend, this`log, this`now
      ensures Valid() && from <= k <= |env| && toSend == old(toSend)
      ensures ValidRun(cfg, start, run') && Model() == Run(cfg, start, run') && run <= run' && (NoLoad(run) ==> NoLoad(run'))
      ensures Meets(run, run', env, from, k) && if cut then k == |env| else !AwaitsEcho(Model())
    {
      k, cut, run' := from, false, run;
      while status == Sending && wi != NOTHING
        invariant Valid() && from <= k <= |env| && toSend == old(toSend)
        invariant ValidRun(cfg, start, run') && Model() == Run(cfg, start, run') && run <= run' && !cut
        invariant (NoLoad(run) ==> NoLoad(run')) && Meets(run, run', env, from, k)
        decreases |env| - k
      {
        ghost var j, before := k, run';
        k, cut, run' := PollAndPause(env, k, start, before);
        MeetsMore(run, before, run', env, from, j, k);
        if cut {
          return;
        }
      }
    }

    method BeginSend()
      requires Valid() && Enabled(Model(), Start)
      modifies this`status, this`wi, this`lastBusActivity, this`lastAt, this`log, this`pc
      ensures Valid() && Model() == Step(cfg, old(Model()), Start)
    {
      status := Sending;
      UpdateLastActivityNow();
      Emit(Notified(SendStart));
      wi, pc := NOTHING, Loop(0);
    }

    method PutByte(i: nat)
      requires pc == Loop(i) && Enabled(Model(), SendNext)
      modifies this`wi, this`log, this`pc
      ensures Model() == Step(cfg, old(Model()), SendNext)
    {
      var val := toSend[i];
      wi := val;
      Emit(Put(val));
      pc := Loop(i + 1);
    }

    ghost method LeaveSend()
      requires Valid() && pc.Loop? && pc.i <= |toSend| && !AwaitsEcho(Model())
      requires status == Sending ==> pc.i == |toSend|
      modifies this`pc
      ensures Valid() && Model() == Step(cfg, old(Model()), if status == Sending then Finish else Abort)
    {
      pc := Main;
    }

    /** The end of a round of the loop of `ub_send_packet`: the byte goes out, with interrupts before and after. */
    method PutAndPause(i: nat, env: seq<seq<Action>>, from: nat, ghost start: Node, ghost run: seq<Action>)
      returns (k: nat, cut: bool, ghost run': seq<Action>)
      requires Valid() && pc == Loop(i) && i < |toSend| && from <= |env| && MayPut(Model())
      requires forall e, a :: e in env && a in e ==> Interrupting(a)
      requires ValidRun(cfg, start, run) && Model() == Run(cfg, start, run)
      modifies this`status, this`wi, this`lastBusActivity, this`lastAt, this`log, this`now, this`pc
      ensures Valid() && Meets(run, run', env, from, k) && (cut ==> k == |env|)
      ensures ValidRun(cfg, start, run') && Model() == Run(cfg, start, run') && run <= run' && (NoLoad(run) ==> NoLoad(run'))
      ensures !cut ==> pc == Loop(i + 1)
    {
      k, cut, run' := Pause(env, from, start, run);
      if cut {
        return;
      }
      ghost var j := k;
      ghost var put := MainStep(cfg, start, run', SendNext);
      PutByte(i);
      k, cut, run' := Pause(env, k, start, put);
      MeetsMore(run, put, run', env, from, j, k);
    }

    /** One round of the loop of `ub_send_packet`. */
    method SendByte(i: nat, env: seq<seq<Action>>, from: nat, ghost start: Node, ghost run: seq<Action>)
      returns (aborted: bool, k: nat, cut: bool, ghost run': seq<Action>)
      requires Valid() && pc == Loop(i) && i < |toSend| && from <= |env|
      requires forall e, a :: e in env && a in e ==> Interrupting(a)
      requires ValidRun(cfg, start, run) && Model() == Run(cfg, start, run)
      modifies this`status, this`wi, this`lastBusActivity, this`lastAt, this`toSend, this`log, this`now, this`pc
      ensures Valid() && Meets(run, run', env, from, k) && toSend == old(toSend) && (cut ==> k == |env|)
      ensures ValidRun(cfg, start, run') && Model() == Run(cfg, start, run') && run <= run' && (NoLoad(run) ==> NoLoad(run'))
      ensures !cut ==> if aborted then pc == Main && status != Sending else pc == Loop(i + 1)
    {
      aborted := false;
      k, cut, run' := AwaitEcho(env, from, start, run);
      if cut {
        return;
      }
      if status != Sending {
        run' := MainStep(cfg, start, run', Abort);
        LeaveSend();
        aborted := true;
        return;
      }
      ghost var j, waited := k, run';
      k, cut, run' := PutAndPause(i, env, k, start, waited);
      MeetsMore(run, waited, run', env, from, j, k);
    }

    /** The beginning of `ub_send_packet` on an idle bus. */
    method StartAndPause(env: seq<seq<Action>>) returns (k: nat, cut: bool, ghost run: seq<Action>)
      requires Valid() && Enabled(Model(), Start) && forall e, a :: e in env && a in e ==> Interrupting(a)
      modifies this`status, this`wi, this`lastBusActivity, this`lastAt, this`log, this`now, this`pc
      ensures Valid() && pc == Loop(0) && Meets([], run, env, 0, k) && (cut ==> k == |env|)
      ensures ValidRun(cfg, old(Model()), run) && Model() == Run(cfg, old(Model()), run) && [Start] <= run && NoLoad(run)
    {
      ghost var start := Model();
      ghost var started := MainStep(cfg, start, [], Start);
      BeginSend();
      k, cut, run := Pause(env, 0, start, started);
    }

    /** The end of `ub_send_packet`, when all bytes are put. */
    method AwaitLastEcho(env: seq<seq<Action>>, from: nat, ghost start: Node, ghost run: seq<Action>)
      returns (k: nat, cut: bool, ghost run': seq<Action>)
      requires Valid() && from <= |env| && forall e, a :: e in env && a in e ==> Interrupting(a)
      requires ValidRun(cfg, start, run) && Model() == Run(cfg, start, run) && pc == Loop(|toSend|)
      modifies this`status, this`wi, this`lastBusActivity, this`lastAt, this`toSend, this`log, this`now, this`pc
      ensures Valid() && toSend == old(toSend) && Meets(run, run', env, from, k) && if cut then k == |env| else pc == Main
      ensures ValidRun(cfg, start, run') && Model() == Run(cfg, start, run') && run <= run' && (NoLoad(run) ==> NoLoad(run'))
    {
      k, cut, run' := AwaitEcho(env, from, start, run);
      if !cut {
        ghost var last := if status == Sending then Finish else Abort;
        run' := MainStep(cfg, start, run', last);
        LeaveSend();
      }
    }

    /**
     `ub_send_packet`, of the buffer `toSend`: 1 when the bus is not idle, 0 when every byte was
     echoed, -2 on a collision; `cut` when `env` ends before that.
     */
    method SendPacket(env: seq<seq<Action>>) returns (code: int, k: nat, cut: bool, ghost run: seq<Action>)
      requires Valid() && pc == Main && toSend != [] && forall e, a :: e in env && a in e ==> Interrupting(a)
      modifies this`status, this`wi, this`lastBusActivity, this`lastAt, this`toSend, this`log, this`now, this`pc
      ensures Valid() && ValidRun(cfg, old(Model()), run) && Model() == Run(cfg, old(Model()), run) && NoLoad(run)
      ensures toSend == old(toSend)
      ensures k <= |env| && Outside(run) == Between(env, 0, k) && if cut then k == |env| else pc == Main
      ensures SendsNow(old(status), run, status, code, cut)
    {
      code, k, cut, run := 0, 0, false, [];
      ghost var start := Model();
      if status != Idle {
        code := 1;
        return;
      }

      k, cut, run := StartAndPause(env);
      if cut {
        return;
      }

      for i := 0 to |toSend|
        invariant Valid() && Meets([], run, env, 0, k) && toSend == old(toSend) && pc == Loop(i) && [Start] <= run && !cut
        invariant ValidRun(cfg, start, run) && Model() == Run(cfg, start, run) && NoLoad(run)
      {
        var aborted;
        ghost var j, before := k, run;
        aborted, k, cut, run := SendByte(i, env, k, start, before);
        MeetsMore([], before, run, env, 0, j, k);
        if cut {
          return;
        }
        if aborted {
          code := -2;
          return;
        }
      }

      ghost var j, before := k, run;
      k, cut, run := AwaitLastEcho(env, k, start, before);
      MeetsMore([], before, run, env, 0, j, k);
      if !cut && status != Sending {
        code := -2;
      }
    }

    method PickUp(packet: seq<byte>)
      requires Valid() && Enabled(Model(), Load(packet))
      modifies this`toSend, this`log
      ensures Valid() && Model() == Step(cfg, old(Model()), Load(packet))
    {
      toSend := packet;
      Emit(Loaded(toSend));
    }

    method SendLoaded(late: seq<Action>, env: seq<seq<Action>>, ghost start: Node, ghost run: seq<Action>)
      returns (code: int, k: nat, cut: bool, ghost sent: seq<Action>)
      requires Valid() && pc == Main && toSend != []
      requires (forall a :: a in late ==> Interrupting(a)) && forall e, a :: e in env && a in e ==> Interrupting(a)
      requires ValidRun(cfg, start, run) && Model() == Run(cfg, start, run)
      modifies this`status, this`wi, this`lastBusActivity, this`lastAt, this`toSend, this`log, this`now, this`pc
      ensures Valid() && ValidRun(cfg, start, run + late + sent) && Model() == Run(cfg, start, run + late + sent) && NoLoad(sent)
      ensures ValidRun(cfg, start, run + late) && SendsNow(Run(cfg, start, run + late).status, sent, status, code, cut)
      ensures toSend == old(toSend) && k <= |env| && Outside(sent) == Between(env, 0, k)
      ensures if cut then k == |env| else pc == Main
    {
      ghost var met := Interrupts(late, start, run);
      code, k, cut, sent := SendPacket(env);
      RunsCompose(cfg, start, met, sent);
    }

    /** The beginning of `ub_manage_connection`: polls; on an idle bus, `early` happens next. */
    method PollForIdle(rnd: byte, early: seq<Action>) returns (idle: bool, ghost run: seq<Action>)
      requires Valid() && pc == Main && forall a :: a in early ==> Interrupting(a)
      modifies this`status, this`wi, this`lastBusActivity, this`lastAt, this`toSend, this`log, this`now
      ensures Valid() && ValidRun(cfg, old(Model()), run) && Model() == Run(cfg, old(Model()), run) && NoLoad(run)
      ensures
        var polled := UpdateState(cfg, old(Model()), rnd);
        idle == polled.status.Idle? && toSend == polled.toSend && run == if idle then [Poll(rnd)] + early else [Poll(rnd)]
    {
      run := [];
      ghost var start := Model();
      RunExtends(cfg, start, run, Poll(rnd));
      OutUpdateState(rnd);
      run := run + [Poll(rnd)];
      idle := status == Idle;
      if idle {
        run := Interrupts(early, start, run);
      }
    }

    /**
     `ub_manage_connection`: polls, picks up a packet when there is none, and sends. `offer` is
     what `send_on_idle` has; `early` happens before the pick-up, `late` between it and the send.
     */
    method ManageConnection(rnd: byte, offer: Option<seq<byte>>, early: seq<Action>, late: seq<Action>, env: seq<seq<Action>>)
      returns (code: int, k: nat, cut: bool, ghost run: seq<Action>, ghost sent: seq<Action>)
      requires Valid() && pc == Main
      requires forall a :: a in early || a in late ==> Interrupting(a)
      requires forall e, a :: e in env && a in e ==> Interrupting(a)
      modifies this
      ensures Valid() && ValidRun(cfg, old(Model()), run) && Model() == Run(cfg, old(Model()), run)
      ensures k <= |env| && Outside(sent) == Between(env, 0, k) && if cut then k == |env| else pc == Main
      ensures
        var polled, met := UpdateState(cfg, old(Model()), rnd), [Poll(rnd)] + early;
        if !polled.status.Idle? then !cut && code == 2 && run == [Poll(rnd)]
        else if polled.toSend != [] then
          && run == met + late + sent && toSend == polled.toSend && ValidRun(cfg, old(Model()), met + late)
          && SendsNow(Run(cfg, old(Model()), met + late).status, sent, status, code, cut)
        else match offer
          case None => !cut && code == 1 && run == met
          case Some(packet) =>
            if packet == [] then !cut && code == 2 && run == met + [Load([])]
            else
              var ready := met + [Load(packet)] + late;
              && run == ready + sent && toSend == packet && ValidRun(cfg, old(Model()), ready)
              && SendsNow(Run(cfg, old(Model()), ready).status, sent, status, code, cut)
    {
      code, k, cut, sent := 2, 0, false, [];
      ghost var start := Model();
      var idle;
      idle, run := PollForIdle(rnd, early);
      if !idle {
        return;
      }
      if toSend == [] {
        if offer.None? {
          code := 1;
          return;
        }
        RunExtends(cfg, start, run, Load(offer.value));
        PickUp(offer.value);
        run := run + [Load(offer.value)];
      }
      if toSend != [] {
        code, k, cut, sent := SendLoaded(late, env, start, run);
        run := run + late + sent;
      }
    }
  }

  /** What the return value 0 of `ub_send_packet` means on a bus that has only been used as it should. */
  lemma {:induction false} SuccessMeansEchoed(cfg: Config, n: Node, run: seq<Action>)
    requires Control(cfg, n) && Echo(n) && ValidRun(cfg, n, run)
    requires Run(cfg, n, run).pc == Main && Run(cfg, n, run).status.Sending?
    ensures
      var m := Run(cfg, n, run);
      HeardSinceStart(m.log) == PutSinceStart(m.log) == m.toSend
    decreases |run|
  {
    if run != [] {
      ControlKept(cfg, n, run[0]);
      EchoKept(cfg, n, run[0]);
      SuccessMeansEchoed(cfg, Step(cfg, n, run[0]), run[1..]);
    }
  }
}
