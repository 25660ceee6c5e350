/** The upload in which nothing goes wrong, from the first request to the last. */
module IdealUpload {
  import opened Bytes
  import opened Flash
  import opened Upload
  import opened UploadClient

  /** In the last wait the request was delivered, once, and its answer was heard. */
  predicate Undisturbed(w0: World, log: seq<Request>, script: seq<Turn>)
    requires IsDevice(w0.dev) && 0 < |log| <= |script|
  {
    var n := |log| - 1;
    script[n] == Turn([log[n]], Some(Handle(Play(w0, log[..n], script).dev, log[n]).1))
  }

  predicate AllUndisturbed(w0: World, log: seq<Request>, script: seq<Turn>)
    requires IsDevice(w0.dev) && |log| <= |script|
    decreases |log|
  {
    log == [] || (AllUndisturbed(w0, log[..|log| - 1], script) && Undisturbed(w0, log, script))
  }

  /** The address before push `i`. */
  function IdealAddress(job: Job, i: nat): nat {
    job.App() + if 32 * i <= |job.image| then 32 * i else |job.image|
  }

  /** Request `n`: the stage, the start, the address twice, the pieces of 32 bytes one after the other, and the commit. */
  function IdealRequest(job: Job, n: nat): Request
    requires job.Valid() && job.codeStart == job.App()
  {
    if n == 0 then GetStage
    else if n == 1 then StartFlash
    else if n < 4 then GetNextAddress
    else if 32 * (n - 4) < |job.image| then PushOf(job, job.App() + 32 * (n - 4))
    else CommitFlash
  }

  /** The phase and the device before request `n`. */
  predicate Ideal(job: Job, n: nat, phase: Phase, w: World)
    requires job.Valid()
  {
    match n
    case 0 => phase == AskingStage && w.dev == job.reset && !StartsOver(w)
    case 1 => phase == Starting && w.dev == job.reset && !StartsOver(w)
    case 2 => phase == AskingStart && w.dev == job.Started() && !StartsOver(w)
    case 3 => phase == Pushing(0) && w.dev == job.Started()
    case _ =>
      && IdealAddress(job, n - 4) < SPACE && phase == Settled(job, IdealAddress(job, n - 4))
      && IsDevice(w.dev) && Flashing(job, w.dev) && w.dev.addr == IdealAddress(job, n - 4)
  }

  lemma {:induction false} IdealAsks(job: Job, n: nat, phase: Phase, w: World)
    requires job.Valid() && job.codeStart == job.App() && Ideal(job, n, phase, w)
    ensures RequestOf(job, phase) == IdealRequest(job, n)
    ensures n >= 4 && 32 * (n - 4) < |job.image| ==> phase == Pushing(IdealAddress(job, n - 4))
  {
  }

  lemma {:induction false} UndisturbedWait(w: World, req: Request, turn: Turn)
    requires IsDevice(w.dev) && turn.deliveries == [req] && (req.StartFlash? ==> !StartsOver(w))
    ensures
      var m := Wait(w, req, turn);
      && m.dev == Handle(w.dev, req).0 && m.sent == w.sent + {req}
      && Answer(Function(req), Handle(w.dev, req).1) in m.answers
  {
    var sent := Send(w, req);
    assert DeliverAll(sent, [req]) == Deliver(sent, req) by {
      assert [req][1..] == [];
      assert DeliverAll(Deliver(sent, req), []) == Deliver(sent, req);
    }
    if req.StartFlash? {
      StillEarly(w, sent, req);
    }
  }

  /** The first four requests. */
  lemma {:induction false} IdealStart(job: Job, n: nat, phase: Phase, w: World, turn: Turn)
    requires job.Valid() && job.codeStart == job.App() && IsDevice(w.dev) && n < 4 && Ideal(job, n, phase, w)
    requires turn == Turn([IdealRequest(job, n)], Some(Handle(w.dev, IdealRequest(job, n)).1))
    ensures RequestOf(job, phase) == IdealRequest(job, n)
    ensures Ideal(job, n + 1, NextPhase(job, phase, Handle(w.dev, IdealRequest(job, n)).1), Wait(w, IdealRequest(job, n), turn))
  {
    var req := IdealRequest(job, n);
    UndisturbedWait(w, req, turn);
    assert job.image[..0] == [];
    if n < 3 {
      StillEarly(w, Wait(w, req, turn), req);
    }
  }

  /** A push. */
  lemma {:induction false} IdealPush(job: Job, n: nat, phase: Phase, w: World, turn: Turn)
    requires job.Valid() && job.codeStart == job.App() && IsDevice(w.dev) && n >= 4 && Ideal(job, n, phase, w)
    requires 32 * (n - 4) < |job.image|
    requires turn == Turn([IdealRequest(job, n)], Some(Handle(w.dev, IdealRequest(job, n)).1))
    ensures RequestOf(job, phase) == IdealRequest(job, n)
    ensures Ideal(job, n + 1, NextPhase(job, phase, Handle(w.dev, IdealRequest(job, n)).1), Wait(w, IdealRequest(job, n), turn))
  {
    var req := IdealRequest(job, n);
    IdealAsks(job, n, phase, w);
    IdealPushed(job, n - 4, w.dev, req.payload);
    UndisturbedWait(w, req, turn);
    IdealMoved(job, n, phase, Handle(w.dev, req).1, Wait(w, req, turn));
  }

  lemma {:induction false} IdealMoved(job: Job, n: nat, phase: Phase, reply: Reply, w: World)
    requires job.Valid() && job.codeStart == job.App() && n >= 4 && phase.Pushing? && IdealAddress(job, n - 3) < SPACE
    requires reply == Pushed(IdealAddress(job, n - 3)) && IsDevice(w.dev) && Flashing(job, w.dev) && w.dev.addr == IdealAddress(job, n - 3)
    ensures Ideal(job, n + 1, NextPhase(job, phase, reply), w)
  {
  }

  lemma {:induction false} IdealPushed(job: Job, i: nat, dev: Device, payload: seq<byte>)
    requires job.Valid() && job.codeStart == job.App() && IsDevice(dev) && Flashing(job, dev)
    requires 32 * i < |job.image| && dev.addr == IdealAddress(job, i) && payload == PushOf(job, IdealAddress(job, i)).payload
    ensures
      var (after, reply) := Handle(dev, PushCode(payload));
      && IsDevice(after) && Flashing(job, after) && after.addr == IdealAddress(job, i + 1)
      && reply == Pushed(IdealAddress(job, i + 1))
  {
    PieceExtends(job, 32 * i);
    AnswersInStage(job, dev, payload);
    AddressRoundTrip(payload, dev.addr);
    PushTaken(job, dev, payload, Fill(dev, payload[2..]));
  }

  /** The commit. */
  lemma {:induction false} IdealCommit(job: Job, n: nat, phase: Phase, w: World, turn: Turn)
    requires job.Valid() && job.codeStart == job.App() && IsDevice(w.dev) && n >= 4 && Ideal(job, n, phase, w)
    requires 32 * (n - 4) >= |job.image|
    requires turn == Turn([CommitFlash], Some(Handle(w.dev, CommitFlash).1))
    ensures RequestOf(job, phase) == IdealRequest(job, n)
    ensures NextPhase(job, phase, Handle(w.dev, CommitFlash).1) == Ended(Ok(job.App()))
    ensures HoldsImage(job, Wait(w, CommitFlash, turn).dev)
  {
    UndisturbedWait(w, CommitFlash, turn);
    CommitObeyed(job, w.dev);
    assert Handle(w.dev, CommitFlash).1 == Done;
    CommittedHoldsImage(job, Handle(w.dev, CommitFlash).0);
  }

  /** What is after request `n`: the next state, or the end. */
  predicate IdealAfter(job: Job, n: nat, phase: Phase, w: World)
    requires job.Valid() && job.codeStart == job.App()
  {
    if IdealRequest(job, n).CommitFlash? then phase == Ended(Ok(job.App())) && HoldsImage(job, w.dev)
    else Ideal(job, n + 1, phase, w)
  }

  lemma {:induction false} IdealStep(job: Job, n: nat, phase: Phase, w: World, turn: Turn)
    requires job.Valid() && job.codeStart == job.App() && IsDevice(w.dev) && Ideal(job, n, phase, w)
    requires turn == Turn([RequestOf(job, phase)], Some(Handle(w.dev, RequestOf(job, phase)).1))
    ensures RequestOf(job, phase) == IdealRequest(job, n)
    ensures IdealAfter(job, n, NextPhase(job, phase, turn.heard.value), Wait(w, RequestOf(job, phase), turn))
  {
    IdealAsks(job, n, phase, w);
    if n < 4 {
      IdealStart(job, n, phase, w, turn);
    } else if 32 * (n - 4) < |job.image| {
      IdealPush(job, n, phase, w, turn);
    } else {
      IdealCommit(job, n, phase, w, turn);
    }
  }

  /** The last wait of an undisturbed run, without the definitions of the run. */
  lemma {:induction false} LastWait(job: Job, w0: World, log: seq<Request>, script: seq<Turn>)
    requires IsDevice(w0.dev) && 0 < |log| <= |script| && Undisturbed(w0, log, script) && Obeys(job, w0, log, script)
    requires log[|log| - 1].StartFlash? ==> !StartsOver(Play(w0, log[..|log| - 1], script))
    ensures
      var n := |log| - 1;
      var phase, w := PhaseAt(job, w0, log[..n], script), Play(w0, log[..n], script);
      && log[n] == RequestOf(job, phase) && script[n] == Turn([log[n]], Some(Handle(w.dev, log[n]).1))
      && Play(w0, log, script) == Wait(w, log[n], script[n])
      && PhaseAt(job, w0, log, script) == NextPhase(job, phase, script[n].heard.value)
  {
    var n := |log| - 1;
    UndisturbedWait(Play(w0, log[..n], script), log[n], script[n]);
  }

  lemma {:induction false} IdealNext(job: Job, w0: World, log: seq<Request>, script: seq<Turn>)
    requires job.Valid() && job.codeStart == job.App() && IsDevice(w0.dev) && 0 < |log| <= |script|
    requires Obeys(job, w0, log, script) && Undisturbed(w0, log, script)
    requires
      var n := |log| - 1;
      Ideal(job, n, PhaseAt(job, w0, log[..n], script), Play(w0, log[..n], script))
    ensures
      var n := |log| - 1;
      log[n] == IdealRequest(job, n) && IdealAfter(job, n, PhaseAt(job, w0, log, script), Play(w0, log, script))
  {
    var n := |log| - 1;
    var phase, w := PhaseAt(job, w0, log[..n], script), Play(w0, log[..n], script);
    IdealAsks(job, n, phase, w);
    LastWait(job, w0, log, script);
    IdealStep(job, n, phase, w, script[n]);
  }

  predicate AllIdeal(job: Job, log: seq<Request>)
    requires job.Valid() && job.codeStart == job.App()
  {
    forall j :: 0 <= j < |log| ==> log[j] == IdealRequest(job, j)
  }

  /**
   When every request is delivered once and its answer heard, the client sends exactly these requests, each piece
   of the image once and in order, and ends with the image in the flash.
   */
  lemma {:induction false} IdealRun(job: Job, w0: World, log: seq<Request>, script: seq<Turn>)
    requires job.Valid() && job.codeStart == job.App() && w0 == World(job.reset, {}, {}) && 0 < |log| <= |script|
    requires Obeys(job, w0, log, script) && AllUndisturbed(w0, log, script)
    requires |log| >= 6 ==> 32 * (|log| - 6) < |job.image|
    ensures AllIdeal(job, log)
    ensures IdealAfter(job, |log| - 1, PhaseAt(job, w0, log, script), Play(w0, log, script))
    decreases |log|
  {
    var init := log[..|log| - 1];
    if init == [] {
      IdealFirst(job, w0, init, script);
    } else {
      IdealRun(job, w0, init, script);
      NotYetOver(job, |init| - 1, PhaseAt(job, w0, init, script), Play(w0, init, script));
    }
    IdealExtends(job, w0, init, log, script);
  }

  lemma {:induction false} IdealFirst(job: Job, w0: World, log: seq<Request>, script: seq<Turn>)
    requires job.Valid() && job.codeStart == job.App() && w0 == World(job.reset, {}, {}) && log == []
    ensures Ideal(job, 0, PhaseAt(job, w0, log, script), Play(w0, log, script)) && AllIdeal(job, log)
  {
  }

  lemma {:induction false} IdealExtends(job: Job, w0: World, init: seq<Request>, log: seq<Request>, script: seq<Turn>)
    requires job.Valid() && job.codeStart == job.App() && IsDevice(w0.dev) && 0 < |log| <= |script| && init == log[..|log| - 1]
    requires Obeys(job, w0, log, script) && Undisturbed(w0, log, script) && AllIdeal(job, init)
    requires Ideal(job, |init|, PhaseAt(job, w0, init, script), Play(w0, init, script))
    ensures AllIdeal(job, log) && IdealAfter(job, |log| - 1, PhaseAt(job, w0, log, script), Play(w0, log, script))
  {
    IdealNext(job, w0, log, script);
    OneMoreIdeal(job, init, log);
  }

  lemma {:induction false} NotYetOver(job: Job, n: nat, phase: Phase, w: World)
    requires job.Valid() && job.codeStart == job.App() && IdealAfter(job, n, phase, w) && (n >= 4 ==> 32 * (n - 4) < |job.image|)
    ensures Ideal(job, n + 1, phase, w)
  {
  }

  lemma {:induction false} OneMoreIdeal(job: Job, init: seq<Request>, log: seq<Request>)
    requires job.Valid() && job.codeStart == job.App() && AllIdeal(job, init) && init <= log && |log| == |init| + 1
    requires log[|init|] == IdealRequest(job, |init|)
    ensures AllIdeal(job, log)
  {
  }
}
