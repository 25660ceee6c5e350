/**
 The client of the upload: `push_code` and `verify_code`, whatever the channel does in each wait for
 an answer.
 */
module UploadClient {
  import opened Arithmetic
  import opened Bytes
  import opened Flash
  import opened Upload

  datatype RpcError = Transaction | Posix(errno: byte) | Other

  /** What happens while the client waits once: deliveries, then a matching answer or the timeout. */
  datatype Turn = Turn(deliveries: seq<Request>, heard: Option<Reply>)

  function Wait(w: World, req: Request, turn: Turn): (r: World)
    requires IsDevice(w.dev)
    ensures IsDevice(r.dev)
  {
    DeliverAll(Send(w, req), turn.deliveries)
  }

  // ---- a run is what was sent in each wait ----

  /** The world after the client sent `log`, one request in each wait. */
  function Play(w0: World, log: seq<Request>, script: seq<Turn>): (w: World)
    requires IsDevice(w0.dev) && |log| <= |script|
    ensures IsDevice(w.dev)
  {
    if log == [] then w0
    else
      var n := |log| - 1;
      Wait(Play(w0, log[..n], script), log[n], script[n])
  }

  /** The last wait brought an answer to its request. */
  predicate Heard(w0: World, log: seq<Request>, script: seq<Turn>)
    requires IsDevice(w0.dev) && |log| <= |script|
  {
    && log != []
    && var n := |log| - 1;
    script[n].heard.Some? && Answer(Function(log[n]), script[n].heard.value) in Play(w0, log, script).answers
  }

  /** How many waits, from `from` on, were in vain. */
  function Vain(w0: World, log: seq<Request>, script: seq<Turn>, from: nat): nat
    requires IsDevice(w0.dev) && |log| <= |script|
    decreases |log|
  {
    if |log| <= from then 0
    else Vain(w0, log[..|log| - 1], script, from) + if Heard(w0, log, script) then 0 else 1
  }

  /** From `from` on, all waits are for the same answer. */
  predicate Same(log: seq<Request>, from: nat) {
    forall j :: from <= j < |log| ==> log[j] == log[from]
  }

  predicate Addresses(log: seq<Request>, from: nat) {
    forall j :: from <= j < |log| ==> log[j].GetNextAddress?
  }

  /** The client knows where to go on, or has just heard it, having asked from `from` on. */
  predicate Learned(w0: World, log: seq<Request>, script: seq<Turn>, from: nat, retry: nat)
    requires IsDevice(w0.dev) && |log| <= |script|
  {
    || |log| == from
    || (&& from < |log| <= from + retry && Addresses(log, from)
        && Heard(w0, log, script) && Vain(w0, log, script, from) == |log| - from - 1)
  }

  /**
   A round of the closure in the push loop, from wait `from` on, that failed: the address was asked for
   as often as retries, always in vain, or it was known or learned and then the one push was in vain.
   */
  predicate FailedRound(w0: World, log: seq<Request>, script: seq<Turn>, from: nat, retry: nat)
    requires IsDevice(w0.dev) && |log| <= |script|
  {
    && from < |log|
    && (|| (|log| == from + retry && Addresses(log, from) && Vain(w0, log, script, from) == retry)
        || (&& log[|log| - 1].PushCode? && !Heard(w0, log, script)
            && Learned(w0, log[..|log| - 1], script, from, retry)))
  }

  /** After a round that ended with a push, the next one is the same push again. */
  predicate Resumes(log: seq<Request>, from: nat, mid: nat) {
    from < mid < |log| && log[mid - 1].PushCode? ==> |log| == mid + 1 && log[mid] == log[mid - 1]
  }

  /** `n` rounds of the push loop failed, one after the other, the first one from wait `from` on. */
  predicate FailedRounds(w0: World, log: seq<Request>, script: seq<Turn>, from: nat, n: nat, retry: nat)
    requires IsDevice(w0.dev) && |log| <= |script|
    decreases n
  {
    if n == 0 then |log| == from
    else exists mid ::
        && from <= mid < |log| && FailedRounds(w0, log[..mid], script, from, n - 1, retry)
        && FailedRound(w0, log, script, mid, retry) && Resumes(log, from, mid)
  }

  /** A transaction that began at wait `from`: its request, or the round it consists of, failed `retry` times and there was nothing else. */
  predicate GaveUp(w0: World, log: seq<Request>, script: seq<Turn>, from: nat, retry: nat)
    requires IsDevice(w0.dev) && |log| <= |script|
  {
    || (|log| == from + retry && Same(log, from) && Vain(w0, log, script, from) == retry)
    || FailedRounds(w0, log, script, from, retry, retry)
  }

  /**
   Every error has its cause: a transaction that gave up, an answer that the device was already started or
   has no code to commit, or another start address.
   */
  predicate Explained(job: Job, w0: World, log: seq<Request>, script: seq<Turn>, from: nat, retry: nat, error: RpcError)
    requires IsDevice(w0.dev) && |log| <= |script|
  {
    match error
    case Transaction => GaveUp(w0, log, script, from, retry)
    case Posix(errno) =>
      && Heard(w0, log, script) && script[|log| - 1].heard == Some(Errno(errno))
      && ((log[|log| - 1].StartFlash? && errno == 114) || (log[|log| - 1].CommitFlash? && errno == 77))
    case Other =>
      && Heard(w0, log, script) && log[|log| - 1].GetNextAddress?
      && var reply := script[|log| - 1].heard.value;
      reply.Address? && reply.addr != job.codeStart
  }

  lemma {:induction false} PlayNext(w0: World, log: seq<Request>, script: seq<Turn>, req: Request)
    requires IsDevice(w0.dev) && |log| < |script|
    ensures Play(w0, log + [req], script) == Wait(Play(w0, log, script), req, script[|log|])
  {
    assert (log + [req])[..|log|] == log;
  }

  lemma {:induction false} VainNext(w0: World, log: seq<Request>, script: seq<Turn>, from: nat, req: Request)
    requires IsDevice(w0.dev) && from <= |log| < |script|
    ensures Vain(w0, log + [req], script, from)
         == Vain(w0, log, script, from) + if Heard(w0, log + [req], script) then 0 else 1
  {
    assert (log + [req])[..|log|] == log;
  }

  lemma {:induction false} VainAdds(w0: World, log: seq<Request>, more: seq<Request>, script: seq<Turn>, from: nat)
    requires IsDevice(w0.dev) && log <= more && from <= |log| && |more| <= |script|
    ensures Vain(w0, more, script, from) == Vain(w0, log, script, from) + Vain(w0, more, script, |log|)
    decreases |more|
  {
    if |more| > |log| {
      VainAdds(w0, log, more[..|more| - 1], script, from);
    } else {
      assert log == more;
    }
  }

  /** `log` goes on with `req` only. */
  predicate Repeats(log: seq<Request>, more: seq<Request>, req: Request) {
    log <= more && forall j :: |log| <= j < |more| ==> more[j] == req
  }

  lemma {:induction false} RepeatsGiveUp(w0: World, log: seq<Request>, more: seq<Request>, script: seq<Turn>, req: Request)
    requires IsDevice(w0.dev) && |more| <= |script| && Repeats(log, more, req)
    requires Vain(w0, more, script, |log|) == |more| - |log|
    ensures GaveUp(w0, more, script, |log|, |more| - |log|)
  {
    assert Same(more, |log|);
  }

  // ---- the client ----

  lemma {:induction false} WaitKept(job: Job, w: World, req: Request, turn: Turn)
    requires job.Valid() && Sound(job, w) && GoodRequest(job, w.dev, req)
    ensures Sound(job, Wait(w, req, turn)) && Grown(w.dev, Wait(w, req, turn).dev)
    ensures Wait(w, req, turn).sent == w.sent + {req}
    ensures GoodRequest(job, Wait(w, req, turn).dev, req)
  {
    SendKept(job, w, req);
    DeliverAllKept(job, Send(w, req), turn.deliveries);
    assert req in Wait(w, req, turn).sent;
  }

  /** What an answer that is in the world says is true. */
  lemma {:induction false} AnswerIsGood(job: Job, w: World, a: Answer)
    requires job.Valid() && Sound(job, w) && a in w.answers
    ensures GoodAnswer(job, w.dev, a)
  {
  }

  /** Sending a good request again and again keeps the invariant. */
  lemma {:induction false} RepeatsKept(job: Job, w0: World, log: seq<Request>, more: seq<Request>, script: seq<Turn>, req: Request)
    requires job.Valid() && IsDevice(w0.dev) && |more| <= |script| && Repeats(log, more, req)
    requires Sound(job, Play(w0, log, script)) && GoodRequest(job, Play(w0, log, script).dev, req)
    ensures Sound(job, Play(w0, more, script)) && GoodRequest(job, Play(w0, more, script).dev, req)
    ensures Grown(Play(w0, log, script).dev, Play(w0, more, script).dev)
    ensures Play(w0, more, script).sent <= Play(w0, log, script).sent + {req}
    decreases |more|
  {
    if |more| == |log| {
      assert more == log;
    } else {
      var n := |more| - 1;
      RepeatsKept(job, w0, log, more[..n], script, req);
      WaitKept(job, Play(w0, more[..n], script), req, script[n]);
    }
  }

  // ---- what the client should do, without its loops ----

  /** What the client waits for; `Pushing(0)` asks where to go on. */
  datatype Phase =
    | AskingStage
    | Starting
    | AskingStart
    | Pushing(addr: word)
    | Committing
    | Ended(result: Result<word, RpcError>)

  /** What it sends in a phase. */
  function RequestOf(job: Job, phase: Phase): Request {
    match phase
    case AskingStage => GetStage
    case Starting => StartFlash
    case AskingStart => GetNextAddress
    case Pushing(addr) => if job.codeStart == job.App() <= addr < job.End() then PushOf(job, addr) else GetNextAddress
    case _ => CommitFlash
  }

  /** Where it goes on: all is pushed when the address is behind the code. */
  function Settled(job: Job, addr: word): Phase {
    if addr != 0 && job.End() <= addr then Committing else Pushing(addr)
  }

  /** The phase after an answer. */
  function NextPhase(job: Job, phase: Phase, reply: Reply): Phase {
    match (phase, reply)
    case (AskingStage, Stage(stage)) => if stage == 0 then Starting else AskingStart
    case (Starting, Done) => AskingStart
    case (AskingStart, Address(addr)) => if addr == job.codeStart then Pushing(0) else Ended(Err(Other))
    case (Pushing(_), Address(addr)) => Settled(job, addr)
    case (Pushing(_), Pushed(addr)) => Settled(job, addr)
    case (Pushing(_), Errno(6)) => Pushing(0)
    case (Committing, Done) => Ended(Ok(job.App()))
    case (_, Errno(errno)) => Ended(Err(RpcError.Posix(errno)))
    case _ => Ended(Err(Other))
  }

  /** The phase after all waits: an answer moves on, and without one the phase stays. */
  function PhaseAt(job: Job, w0: World, log: seq<Request>, script: seq<Turn>): Phase
    requires IsDevice(w0.dev) && |log| <= |script|
    decreases |log|
  {
    if log == [] then AskingStage
    else
      var n := |log| - 1;
      var phase := PhaseAt(job, w0, log[..n], script);
      if Heard(w0, log, script) then NextPhase(job, phase, script[n].heard.value) else phase
  }

  /** Every request is the one of its phase. */
  predicate Obeys(job: Job, w0: World, log: seq<Request>, script: seq<Turn>)
    requires IsDevice(w0.dev) && |log| <= |script|
    decreases |log|
  {
    log == [] ||
    var n := |log| - 1;
    Obeys(job, w0, log[..n], script) && log[n] == RequestOf(job, PhaseAt(job, w0, log[..n], script))
  }

  /** Where a run is. */
  predicate At(job: Job, w0: World, log: seq<Request>, script: seq<Turn>, phase: Phase)
    requires IsDevice(w0.dev) && |log| <= |script|
  {
    Obeys(job, w0, log, script) && PhaseAt(job, w0, log, script) == phase
  }

  /** Waiting in vain, the client stays in its phase and repeats its request. */
  lemma {:induction false} VainStays(job: Job, w0: World, log: seq<Request>, more: seq<Request>, script: seq<Turn>, phase: Phase)
    requires IsDevice(w0.dev) && |log| <= |more| <= |script|
    requires At(job, w0, log, script, phase) && Repeats(log, more, RequestOf(job, phase))
    requires Vain(w0, more, script, |log|) >= |more| - |log|
    ensures At(job, w0, more, script, phase)
    decreases |more|
  {
    if |more| == |log| {
      assert more == log;
    } else {
      VainAtMost(w0, more[..|more| - 1], script, |log|);
      VainStays(job, w0, log, more[..|more| - 1], script, phase);
    }
  }

  lemma {:induction false} VainAtMost(w0: World, log: seq<Request>, script: seq<Turn>, from: nat)
    requires IsDevice(w0.dev) && from <= |log| <= |script|
    ensures Vain(w0, log, script, from) <= |log| - from
    decreases |log|
  {
    if |log| > from {
      VainAtMost(w0, log[..|log| - 1], script, from);
    }
  }

  /** The first answer moves it on. */
  lemma {:induction false} AnswerMoves(
      job: Job, w0: World, log: seq<Request>, more: seq<Request>, script: seq<Turn>, phase: Phase, reply: Reply)
    requires IsDevice(w0.dev) && |log| < |more| <= |script| && At(job, w0, log, script, phase)
    requires Repeats(log, more, RequestOf(job, phase)) && Vain(w0, more, script, |log|) == |more| - |log| - 1
    requires Heard(w0, more, script) && script[|more| - 1].heard == Some(reply)
    ensures At(job, w0, more, script, NextPhase(job, phase, reply))
  {
    VainStays(job, w0, log, more[..|more| - 1], script, phase);
  }

  /** The loop of `UartBusDevice::call`: sends the request up to `attempts` times, until it is answered. */
  method Ask(
      w1: World, req: Request, attempts: nat, script: seq<Turn>, from: nat,
      ghost w0: World, ghost log: seq<Request>)
    returns (w: World, answer: Option<Reply>, k: nat, cut: bool, ghost more: seq<Request>)
    requires IsDevice(w0.dev) && |log| == from <= |script| && w1 == Play(w0, log, script)
    ensures from <= k == |more| <= |script| && w == Play(w0, more, script) && Repeats(log, more, req)
    ensures k <= from + attempts && (cut ==> k == |script|)
    ensures cut || answer.None? ==> Vain(w0, more, script, from) == k - from
    ensures !cut && answer.None? ==> k == from + attempts
    ensures !cut && answer.Some? ==>
      && from < k && Heard(w0, more, script) && script[k - 1].heard == answer
      && Vain(w0, more, script, from) == k - from - 1
  {
    w, answer, k, cut, more := w1, None, from, false, log;
    for i := 0 to attempts
      invariant from + i == k == |more| <= |script| && w == Play(w0, more, script) && Repeats(log, more, req)
      invariant answer.None? && !cut && Vain(w0, more, script, from) == i
    {
      if k == |script| {
        cut := true;
        return;
      }
      PlayNext(w0, more, script, req);
      VainNext(w0, more, script, from, req);
      w, more := Wait(w, req, script[k]), more + [req];
      var heard := script[k].heard;
      k := k + 1;
      if heard.Some? && Answer(Function(req), heard.value) in w.answers {
        answer := heard;
        return;
      }
    }
  }

  function ResultOf(answer: Option<Reply>): Result<Reply, RpcError> {
    match answer
    case None => Err(Transaction)
    case Some(Errno(errno)) => Err(Posix(errno))
    case Some(reply) => Ok(reply)
  }

  /** What the client makes of the answer, or of none, is as it should be. */
  lemma {:induction false} ResultIsGood(
      job: Job, w0: World, log: seq<Request>, more: seq<Request>, script: seq<Turn>, req: Request, reply: Option<Reply>, retry: nat)
    requires job.Valid() && IsDevice(w0.dev) && |more| <= |script| && Repeats(log, more, req) && Sound(job, Play(w0, more, script))
    requires reply.Some? ==> Heard(w0, more, script) && |log| < |more| && script[|more| - 1].heard == reply
    requires reply.None? ==> |more| == |log| + retry && Vain(w0, more, script, |log|) == retry
    requires req.PushCode? ==> CommitFlash !in Play(w0, more, script).sent
    ensures ResultOf(reply).Ok? ==>
      GoodAnswer(job, Play(w0, more, script).dev, Answer(Function(req), ResultOf(reply).value)) && !ResultOf(reply).value.Errno?
    ensures ResultOf(reply).Err? && !(req.PushCode? && ResultOf(reply).error == Posix(6)) ==>
      Explained(job, w0, more, script, |log|, retry, ResultOf(reply).error)
  {
    if reply.Some? {
      AnswerIsGood(job, Play(w0, more, script), Answer(Function(req), reply.value));
    } else {
      RepeatsGiveUp(w0, log, more, script, req);
    }
  }

  /**
   What a call with up to `attempts` waits means, from the requests `log` to the requests `more`: the invariant is
   kept, the request is repeated until its first answer, which is true of the device, and an error has its cause.
   */
  ghost predicate Called(
      job: Job, w0: World, log: seq<Request>, more: seq<Request>, script: seq<Turn>, w1: World, w: World,
      req: Request, attempts: nat, answer: Result<Reply, RpcError>, cut: bool)
    requires job.Valid()
  {
    && IsDevice(w0.dev) && Sound(job, w) && Grown(w1.dev, w.dev) && GoodRequest(job, w.dev, req) && w.sent <= w1.sent + {req}
    && |log| <= |more| <= |script| && w == Play(w0, more, script) && Repeats(log, more, req)
    && |more| <= |log| + attempts && (answer.Err? ==> !answer.error.Other?)
    && if cut then |more| == |script| && Vain(w0, more, script, |log|) == |more| - |log|
       else match answer
         case Ok(reply) =>
           && Answered(w0, log, more, script, reply)
           && GoodAnswer(job, w.dev, Answer(Function(req), reply)) && !reply.Errno?
         case Err(Posix(errno)) =>
           && Answered(w0, log, more, script, Errno(errno))
           && ((req.PushCode? && errno == 6) || Explained(job, w0, more, script, |log|, attempts, Posix(errno)))
         case Err(_) =>
           && |more| == |log| + attempts && Vain(w0, more, script, |log|) == attempts
           && Explained(job, w0, more, script, |log|, attempts, Transaction)
  }

  /** The last wait brought the first answer. */
  predicate Answered(w0: World, log: seq<Request>, more: seq<Request>, script: seq<Turn>, reply: Reply)
    requires IsDevice(w0.dev) && |more| <= |script|
  {
    && |log| < |more| && Heard(w0, more, script) && script[|more| - 1].heard == Some(reply)
    && Vain(w0, more, script, |log|) == |more| - |log| - 1
  }

  lemma {:induction false} IsCalled(
      job: Job, w0: World, log: seq<Request>, more: seq<Request>, script: seq<Turn>, w1: World, w: World,
      req: Request, attempts: nat, reply: Option<Reply>, cut: bool)
    requires job.Valid() && Sound(job, w1) && GoodRequest(job, w1.dev, req) && (req.PushCode? ==> CommitFlash !in w1.sent)
    requires IsDevice(w0.dev) && |log| <= |more| <= |script| && w1 == Play(w0, log, script) && w == Play(w0, more, script)
    requires Repeats(log, more, req) && |more| <= |log| + attempts
    requires cut ==> |more| == |script| && Vain(w0, more, script, |log|) == |more| - |log|
    requires !cut && reply.None? ==> |more| == |log| + attempts && Vain(w0, more, script, |log|) == attempts
    requires !cut && reply.Some? ==> Answered(w0, log, more, script, reply.value)
    ensures Called(job, w0, log, more, script, w1, w, req, attempts, ResultOf(reply), cut)
  {
    RepeatsKept(job, w0, log, more, script, req);
    if !cut {
      ResultIsGood(job, w0, log, more, script, req, reply, attempts);
    }
  }

  /** What a call means for the phase. */
  ghost predicate Moved(
      job: Job, w0: World, more: seq<Request>, script: seq<Turn>, phase: Phase, answer: Result<Reply, RpcError>, cut: bool)
    requires IsDevice(w0.dev) && |more| <= |script|
  {
    At(job, w0, more, script,
       if cut then phase
       else match answer
         case Ok(reply) => NextPhase(job, phase, reply)
         case Err(Posix(errno)) => NextPhase(job, phase, Errno(errno))
         case Err(_) => phase)
  }

  lemma {:induction false} CallMoves(
      job: Job, w0: World, log: seq<Request>, more: seq<Request>, script: seq<Turn>, w1: World, w: World, phase: Phase,
      attempts: nat, answer: Result<Reply, RpcError>, cut: bool)
    requires job.Valid() && Called(job, w0, log, more, script, w1, w, RequestOf(job, phase), attempts, answer, cut)
    requires At(job, w0, log, script, phase)
    ensures Moved(job, w0, more, script, phase, answer, cut)
  {
    if cut || answer == Err(Transaction) {
      VainStays(job, w0, log, more, script, phase);
    } else {
      AnswerMoves(job, w0, log, more, script, phase, script[|more| - 1].heard.value);
    }
  }

  /**
   `UartBusDevice::call`. `script` tells what the channel does in each wait, from `from` on; when it
   ends the run is cut.
   */
  method Call(
      job: Job, w1: World, req: Request, attempts: nat, script: seq<Turn>, from: nat,
      ghost w0: World, ghost log: seq<Request>)
    returns (w: World, answer: Result<Reply, RpcError>, k: nat, cut: bool, ghost more: seq<Request>)
    requires job.Valid() && Sound(job, w1) && GoodRequest(job, w1.dev, req) && (req.PushCode? ==> CommitFlash !in w1.sent)
    requires IsDevice(w0.dev) && |log| == from <= |script| && w1 == Play(w0, log, script)
    ensures Sound(job, w) && Grown(w1.dev, w.dev) && from <= k <= |script| && (cut ==> k == |script|)
    ensures !cut && answer.Ok? ==> from < k && script[k - 1].heard == Some(answer.value)
    ensures k == |more| && Called(job, w0, log, more, script, w1, w, req, attempts, answer, cut)
  {
    var reply;
    w, reply, k, cut, more := Ask(w1, req, attempts, script, from, w0, log);
    answer := ResultOf(reply);
    IsCalled(job, w0, log, more, script, w1, w, req, attempts, reply, cut);
  }

  /** A reported address that is not the code's start explains the refusal to push. */
  lemma {:induction false} OtherExplained(
      job: Job, w0: World, log: seq<Request>, script: seq<Turn>, from: nat, reply: Reply, retry: nat)
    requires IsDevice(w0.dev) && 0 < |log| <= |script| && log[|log| - 1].GetNextAddress? && Heard(w0, log, script)
    requires script[|log| - 1].heard == Some(reply) && reply.Address?
    ensures reply.addr != job.codeStart ==> Explained(job, w0, log, script, from, retry, Other)
  {
  }

  lemma {:induction false} AddressAnswer(job: Job, dev: Device, reply: Reply)
    requires job.Valid() && GoodAnswer(job, dev, Answer(Function(GetNextAddress), reply))
    ensures reply.Address? && job.App() <= reply.addr <= dev.addr && reply.addr != 0
  {
  }

  lemma {:induction false} PushAnswer(job: Job, dev: Device, req: Request, reply: Reply)
    requires job.Valid() && req.PushCode? && GoodAnswer(job, dev, Answer(Function(req), reply)) && !reply.Errno?
    ensures reply.Pushed? && job.App() <= reply.next <= dev.addr
  {
  }

  /** The loop of `transaction` around a call with one attempt. */
  method AskAgain(
      w1: World, req: Request, retry: nat, script: seq<Turn>, from: nat,
      ghost w0: World, ghost log: seq<Request>)
    returns (w: World, answer: Option<Reply>, k: nat, cut: bool, ghost more: seq<Request>)
    requires IsDevice(w0.dev) && |log| == from <= |script| && w1 == Play(w0, log, script)
    ensures from <= k == |more| <= |script| && w == Play(w0, more, script) && Repeats(log, more, req)
    ensures k <= from + retry && (cut ==> k == |script| && Vain(w0, more, script, from) == k - from)
    ensures !cut && answer.None? ==> k == from + retry && Vain(w0, more, script, from) == retry
    ensures !cut && answer.Some? ==>
      && from < k && Heard(w0, more, script) && script[k - 1].heard == answer
      && Vain(w0, more, script, from) == k - from - 1
  {
    w, answer, k, cut, more := w1, None, from, false, log;
    for i := 0 to retry
      invariant from + i == k == |more| <= |script| && w == Play(w0, more, script) && Repeats(log, more, req)
      invariant answer.None? && !cut && Vain(w0, more, script, from) == i
    {
      ghost var before := more;
      w, answer, k, cut, more := Ask(w, req, 1, script, k, w0, before);
      VainAdds(w0, before, more, script, from);
      if cut || answer.Some? {
        return;
      }
    }
  }

  /** `transaction` around a call that is not repeated by itself. */
  method RetriedCall(
      job: Job, w1: World, req: Request, retry: nat, script: seq<Turn>, from: nat,
      ghost w0: World, ghost log: seq<Request>)
    returns (w: World, answer: Result<Reply, RpcError>, k: nat, cut: bool, ghost more: seq<Request>)
    requires job.Valid() && Sound(job, w1) && GoodRequest(job, w1.dev, req) && !req.PushCode?
    requires IsDevice(w0.dev) && |log| == from <= |script| && w1 == Play(w0, log, script)
    ensures Sound(job, w) && Grown(w1.dev, w.dev) && from <= k <= |script| && (cut ==> k == |script|)
    ensures !cut && answer.Ok? ==> from < k && script[k - 1].heard == Some(answer.value)
    ensures k == |more| && Called(job, w0, log, more, script, w1, w, req, retry, answer, cut)
  {
    var reply;
    w, reply, k, cut, more := AskAgain(w1, req, retry, script, from, w0, log);
    answer := ResultOf(reply);
    IsCalled(job, w0, log, more, script, w1, w, req, retry, reply, cut);
  }

  // ---- push_code ----

  /** Where the client goes on: 0 when it must ask the device. */
  predicate Continues(job: Job, dev: Device, addr: word) {
    && job.codeStart == job.App() && Begun(dev)
    && (addr == 0 || job.App() <= addr <= dev.addr)
  }

  lemma {:induction false} NextRound(w0: World, log: seq<Request>, more: seq<Request>, script: seq<Turn>, from: nat, n: nat, retry: nat)
    requires IsDevice(w0.dev) && |more| <= |script| && log <= more && from <= |log|
    requires FailedRounds(w0, log, script, from, n, retry) && FailedRound(w0, more, script, |log|, retry)
    requires Resumes(more, from, |log|)
    ensures FailedRounds(w0, more, script, from, n + 1, retry)
  {
    assert more[..|log|] == log;
  }

  lemma {:induction false} PushInVain(
      w0: World, log: seq<Request>, asked: seq<Request>, more: seq<Request>, script: seq<Turn>, req: Request, retry: nat)
    requires IsDevice(w0.dev) && |asked| <= |more| <= |script| && log <= asked && Learned(w0, asked, script, |log|, retry)
    requires req.PushCode? && Repeats(asked, more, req) && |more| == |asked| + 1 && !Heard(w0, more, script)
    ensures FailedRound(w0, more, script, |log|, retry)
  {
    assert more[..|asked|] == asked;
  }

  // ---- answers of their own ----

  /** The answer tells of the device as it is now, as it does when it is the one to this very request. */
  predicate FreshReply(dev: Device, req: Request, reply: Reply) {
    match req
    case GetNextAddress => reply.Address? ==> reply.addr == dev.addr
    case PushCode(payload) =>
      |payload| >= 2 ==>
        && (reply.Pushed? ==> AddressOf(payload) < reply.next == dev.addr)
        && (reply.Errno? ==> AddressOf(payload) != dev.addr)
    case _ => true
  }

  /** No answer that was heard is a late one. */
  predicate Fresh(w0: World, log: seq<Request>, script: seq<Turn>)
    requires IsDevice(w0.dev) && |log| <= |script|
    decreases |log|
  {
    log == [] ||
    var n := |log| - 1;
    && Fresh(w0, log[..n], script)
    && (Heard(w0, log, script) ==> FreshReply(Play(w0, log, script).dev, log[n], script[n].heard.value))
  }

  lemma {:induction false} FreshBefore(w0: World, log: seq<Request>, more: seq<Request>, script: seq<Turn>)
    requires IsDevice(w0.dev) && |more| <= |script| && log <= more
    ensures Fresh(w0, more, script) ==> Fresh(w0, log, script)
    decreases |more|
  {
    if |log| == |more| {
      assert log == more;
    } else {
      FreshBefore(w0, log, more[..|more| - 1], script);
    }
  }

  /** What is left to do: the bytes that the device lacks count twice, a client that is behind the device once. */
  function Left(job: Job, dev: Device, addr: word): int {
    2 * (job.End() - dev.addr) + if addr != 0 && addr < dev.addr then 1 else 0
  }

  /** The push of the piece at `addr`. */
  function PushOf(job: Job, addr: word): (req: Request)
    requires job.codeStart == job.App() <= addr < job.End()
    ensures req.PushCode? && GoodPush(job, req.payload) && AddressOf(req.payload) == addr
  {
    PushIsGood(job, addr);
    var payload := AddressBytes(addr) + job.Piece(addr - job.codeStart);
    AddressRoundTrip(payload, addr);
    PushCode(payload)
  }

  lemma {:induction false} AddressLearned(
      job: Job, w0: World, log: seq<Request>, more: seq<Request>, script: seq<Turn>, retry: nat, reply: Reply)
    requires job.Valid() && IsDevice(w0.dev) && |log| < |more| <= |script| && |more| <= |log| + retry
    requires Repeats(log, more, GetNextAddress) && Heard(w0, more, script) && Vain(w0, more, script, |log|) == |more| - |log| - 1
    requires script[|more| - 1].heard == Some(reply)
    requires GoodAnswer(job, Play(w0, more, script).dev, Answer(Function(GetNextAddress), reply))
    ensures Learned(w0, more, script, |log|, retry)
    ensures reply.Address? && reply.addr != 0 && job.App() <= reply.addr <= Play(w0, more, script).dev.addr
    ensures Fresh(w0, more, script) ==> reply.addr == Play(w0, more, script).dev.addr
  {
    assert more[|more| - 1] == GetNextAddress;
  }

  /** The question for the address is never answered with an error number, so it was in vain. */
  lemma {:induction false} AddressFailed(
      job: Job, w0: World, log: seq<Request>, more: seq<Request>, script: seq<Turn>, retry: nat, error: RpcError)
    requires IsDevice(w0.dev) && |log| < |more| <= |script| && Repeats(log, more, GetNextAddress) && !error.Other?
    requires Explained(job, w0, more, script, |log|, retry, error)
    requires error == Transaction ==> |more| == |log| + retry && Vain(w0, more, script, |log|) == retry
    ensures error == Transaction && FailedRound(w0, more, script, |log|, retry)
  {
    assert more[|more| - 1] == GetNextAddress;
  }

  /** What the question for the address in the closure brings. */
  ghost predicate AskedNext(
      job: Job, w0: World, log: seq<Request>, more: seq<Request>, script: seq<Turn>, w1: World, w: World,
      retry: nat, addr: word, failed: bool, cut: bool)
    requires job.Valid() && IsDevice(w0.dev)
  {
    && Sound(job, w) && Continues(job, w.dev, addr) && CommitFlash !in w.sent && Grown(w1.dev, w.dev)
    && |log| <= |more| <= |script| && w == Play(w0, more, script) && Repeats(log, more, GetNextAddress)
    && |more| <= |log| + retry && (if cut then |more| == |script| else |log| < |more|)
    && At(job, w0, more, script, if cut then Pushing(0) else Settled(job, addr))
    && (!cut && failed ==> addr == 0 && FailedRound(w0, more, script, |log|, retry))
    && (!cut && !failed ==> addr != 0 && Learned(w0, more, script, |log|, retry))
    && (!cut && !failed && Fresh(w0, more, script) ==> addr == w.dev.addr)
  }

  /** The address of an answer, or 0. */
  function AddressIn(answer: Result<Reply, RpcError>): word {
    if answer.Ok? && answer.value.Address? then answer.value.addr else 0
  }

  lemma {:induction false} NextIsAsked(
      job: Job, w0: World, log: seq<Request>, more: seq<Request>, script: seq<Turn>, w1: World, w: World,
      retry: nat, answer: Result<Reply, RpcError>, cut: bool)
    requires job.Valid() && Continues(job, w1.dev, 0) && CommitFlash !in w1.sent && 0 < retry
    requires Called(job, w0, log, more, script, w1, w, GetNextAddress, retry, answer, cut)
    requires At(job, w0, log, script, Pushing(0))
    ensures AskedNext(job, w0, log, more, script, w1, w, retry, if cut then 0 else AddressIn(answer), cut || answer.Err?, cut)
    ensures !cut && answer.Ok? ==> answer.value.Address?
  {
    CallMoves(job, w0, log, more, script, w1, w, Pushing(0), retry, answer, cut);
    if !cut {
      match answer
      case Ok(reply) => AddressLearned(job, w0, log, more, script, retry, reply);
      case Err(error) => AddressFailed(job, w0, log, more, script, retry, error);
    }
  }

  /** `flash_get_next_address` in the closure. */
  method AskNext(
      job: Job, w1: World, retry: nat, script: seq<Turn>, from: nat,
      ghost w0: World, ghost log: seq<Request>)
    returns (w: World, addr: word, failed: bool, k: nat, cut: bool, ghost more: seq<Request>)
    requires job.Valid() && Sound(job, w1) && Continues(job, w1.dev, 0) && CommitFlash !in w1.sent && 0 < retry
    requires IsDevice(w0.dev) && |log| == from <= |script| && w1 == Play(w0, log, script) && At(job, w0, log, script, Pushing(0))
    ensures Sound(job, w) && Continues(job, w.dev, addr) && from <= k <= |script| && (cut ==> k == |script|)
    ensures k == |more| && AskedNext(job, w0, log, more, script, w1, w, retry, addr, failed, cut)
  {
    var answer;
    w, answer, k, cut, more := Call(job, w1, GetNextAddress, retry, script, from, w0, log);
    NextIsAsked(job, w0, log, more, script, w1, w, retry, answer, cut);
    addr := if !cut && answer.Ok? then answer.value.addr else 0;
    failed := cut || answer.Err?;
  }

  /** The beginning of the closure: asks for the address if it is not known. */
  method LearnAddress(
      job: Job, w1: World, addr1: word, retry: nat, script: seq<Turn>, from: nat,
      ghost w0: World, ghost log: seq<Request>)
    returns (w: World, addr: word, failed: bool, k: nat, cut: bool, ghost more: seq<Request>)
    requires job.Valid() && Sound(job, w1) && Continues(job, w1.dev, addr1) && CommitFlash !in w1.sent && 0 < retry
    requires IsDevice(w0.dev) && |log| == from <= |script| && w1 == Play(w0, log, script)
    requires At(job, w0, log, script, Settled(job, addr1))
    ensures Sound(job, w) && Continues(job, w.dev, addr) && CommitFlash !in w.sent && Grown(w1.dev, w.dev)
    ensures |more| <= |script| && At(job, w0, more, script, if cut then Pushing(0) else Settled(job, addr))
    ensures from <= k == |more| <= |script| && w == Play(w0, more, script) && Repeats(log, more, GetNextAddress)
    ensures k <= from + retry && (cut ==> k == |script|)
    ensures addr1 != 0 ==> !cut && more == log && !failed && addr == addr1
    ensures !cut && failed ==> addr == 0 && FailedRound(w0, more, script, from, retry)
    ensures !cut && !failed ==> addr != 0 && Learned(w0, more, script, from, retry)
    ensures !cut && !failed && addr1 == 0 && Fresh(w0, more, script) ==> addr == w.dev.addr
  {
    w, addr, failed, k, cut, more := w1, addr1, false, from, false, log;
    if addr == 0 {
      w, addr, failed, k, cut, more := AskNext(job, w, retry, script, k, w0, log);
    }
  }

  /** What one push brings. */
  ghost predicate PushedOne(
      job: Job, w0: World, log: seq<Request>, more: seq<Request>, script: seq<Turn>, w1: World, w: World,
      addr1: word, addr: word, failed: bool, cut: bool)
    requires job.Valid() && IsDevice(w0.dev) && job.codeStart == job.App() <= addr1 < job.End()
  {
    && Sound(job, w) && Continues(job, w.dev, addr) && CommitFlash !in w.sent && Grown(w1.dev, w.dev)
    && |log| <= |more| <= |script| && w == Play(w0, more, script) && Repeats(log, more, PushOf(job, addr1))
    && |more| <= |log| + 1 && (if cut then |more| == |script| else |more| == |log| + 1)
    && At(job, w0, more, script, if cut then Pushing(addr1) else Settled(job, addr))
    && (!cut && failed ==> addr == addr1 && !Heard(w0, more, script))
    && (!cut && !failed && Fresh(w0, more, script) ==> addr1 != w.dev.addr && (addr == 0 || addr == w.dev.addr))
  }

  /** Where the client goes on after a push. */
  function AfterPush(addr: word, answer: Result<Reply, RpcError>): word {
    match answer
    case Ok(Pushed(next)) => next
    case Err(Posix(6)) => 0
    case _ => addr
  }

  lemma {:induction false} OneIsPushed(
      job: Job, w0: World, log: seq<Request>, more: seq<Request>, script: seq<Turn>, w1: World, w: World,
      addr1: word, answer: Result<Reply, RpcError>, cut: bool)
    requires job.Valid() && Continues(job, w1.dev, addr1) && CommitFlash !in w1.sent && job.App() <= addr1 < job.End()
    requires Called(job, w0, log, more, script, w1, w, PushOf(job, addr1), 1, answer, cut)
    requires At(job, w0, log, script, Pushing(addr1))
    ensures PushedOne(
      job, w0, log, more, script, w1, w, addr1, if cut then addr1 else AfterPush(addr1, answer), answer == Err(Transaction), cut)
    ensures !cut && answer.Ok? ==> answer.value.Pushed?
    ensures !cut && answer.Err? ==> answer.error == Posix(6) || answer.error == Transaction
  {
    CallMoves(job, w0, log, more, script, w1, w, Pushing(addr1), 1, answer, cut);
    if !cut {
      match answer
      case Ok(reply) =>
        PushWasTaken(job, w0, log, more, script, w, addr1, reply);
      case Err(Posix(errno)) =>
        PushWasRefused(job, w0, log, more, script, w, addr1, errno);
      case Err(_) =>
        OneInVain(w0, log, more, script);
    }
  }

  lemma {:induction false} OneInVain(w0: World, log: seq<Request>, more: seq<Request>, script: seq<Turn>)
    requires IsDevice(w0.dev) && log <= more && |more| == |log| + 1 <= |script| && Vain(w0, more, script, |log|) == 1
    ensures !Heard(w0, more, script)
  {
  }

  lemma {:induction false} PushWasTaken(
      job: Job, w0: World, log: seq<Request>, more: seq<Request>, script: seq<Turn>, w: World, addr1: word, reply: Reply)
    requires job.Valid() && IsDevice(w0.dev) && job.codeStart == job.App() <= addr1 < job.End() && |more| <= |script|
    requires Repeats(log, more, PushOf(job, addr1)) && Answered(w0, log, more, script, reply) && w == Play(w0, more, script)
    requires GoodAnswer(job, w.dev, Answer(3, reply)) && !reply.Errno?
    ensures reply.Pushed? && job.App() <= reply.next <= w.dev.addr
    ensures Fresh(w0, more, script) ==> addr1 < reply.next == w.dev.addr
  {
    PushAnswer(job, w.dev, PushOf(job, addr1), reply);
    assert more[|more| - 1] == PushOf(job, addr1);
  }

  lemma {:induction false} PushWasRefused(
      job: Job, w0: World, log: seq<Request>, more: seq<Request>, script: seq<Turn>, w: World, addr1: word, errno: byte)
    requires job.Valid() && IsDevice(w0.dev) && job.codeStart == job.App() <= addr1 < job.End() && |more| <= |script|
    requires Repeats(log, more, PushOf(job, addr1)) && Answered(w0, log, more, script, Errno(errno)) && w == Play(w0, more, script)
    requires errno == 6 || Explained(job, w0, more, script, |log|, 1, Posix(errno))
    ensures errno == 6
    ensures Fresh(w0, more, script) ==> addr1 != w.dev.addr
  {
    assert more[|more| - 1] == PushOf(job, addr1);
  }

  /** The end of the closure: one push, and where to go on after its answer. */
  method PushOne(
      job: Job, w1: World, addr1: word, script: seq<Turn>, from: nat,
      ghost w0: World, ghost log: seq<Request>)
    returns (w: World, failed: bool, addr: word, k: nat, cut: bool, ghost more: seq<Request>)
    requires job.Valid() && Sound(job, w1) && Continues(job, w1.dev, addr1) && CommitFlash !in w1.sent
    requires IsDevice(w0.dev) && |log| == from <= |script| && w1 == Play(w0, log, script)
    requires job.App() <= addr1 < job.End() && At(job, w0, log, script, Pushing(addr1))
    ensures Sound(job, w) && Continues(job, w.dev, addr) && from <= k <= |script| && (cut ==> k == |script|)
    ensures k == |more| && PushedOne(job, w0, log, more, script, w1, w, addr1, addr, failed, cut)
  {
    var answer;
    w, answer, k, cut, more := Call(job, w1, PushOf(job, addr1), 1, script, from, w0, log);
    OneIsPushed(job, w0, log, more, script, w1, w, addr1, answer, cut);
    failed, addr := answer == Err(Transaction), addr1;
    if !cut {
      match answer {
        case Ok(reply) => addr := reply.next;
        case Err(error) =>
          if error == Posix(6) {
            addr := 0;
          }
      }
    }
  }

  /** Where the push loop is after the requests `more`, if it was after `log` before. */
  ghost predicate Went(
      job: Job, w0: World, log: seq<Request>, more: seq<Request>, script: seq<Turn>,
      w: World, addr: word, done: Result<bool, RpcError>, cut: bool)
    requires job.Valid() && IsDevice(w0.dev)
  {
    && Sound(job, w) && Continues(job, w.dev, addr) && CommitFlash !in w.sent
    && log <= more && |more| <= |script| && w == Play(w0, more, script) && Obeys(job, w0, more, script)
    && if cut then |more| == |script|
       else
         && At(job, w0, more, script, Settled(job, addr)) && (done.Err? ==> done.error == Transaction)
         && (done == Ok(false) ==> |log| < |more|)
         && (done == Ok(true) ==> w.dev.addr == job.End() && At(job, w0, more, script, Committing))
  }

  /** What a round means: a transaction error is a failed round, and otherwise there is progress, if no answer was late. */
  ghost predicate Stepped(
      job: Job, w0: World, log: seq<Request>, more: seq<Request>, script: seq<Turn>, dev1: Device, addr1: word, retry: nat,
      w: World, addr: word, done: Result<bool, RpcError>, cut: bool)
    requires job.Valid() && IsDevice(w0.dev)
  {
    && Went(job, w0, log, more, script, w, addr, done, cut) && |more| <= |log| + retry + 1
    && (!cut && done.Err? ==>
          && FailedRound(w0, more, script, |log|, retry) && EndsAt(job, more, addr)
          && (addr1 != 0 ==> addr == addr1 && |more| == |log| + 1 && more[|log|].PushCode?)
          && (Fresh(w0, more, script) ==> Left(job, w.dev, addr) <= Left(job, dev1, addr1)))
    && (!cut && done == Ok(false) && Fresh(w0, more, script) ==> Left(job, w.dev, addr) < Left(job, dev1, addr1))
  }

  /** The closure that `push_code` retries; `done` when the device has taken everything. */
  method PushStep(
      job: Job, w1: World, addr1: word, retry: nat, script: seq<Turn>, from: nat,
      ghost w0: World, ghost log: seq<Request>)
    returns (w: World, done: Result<bool, RpcError>, addr: word, k: nat, cut: bool, ghost more: seq<Request>)
    requires job.Valid() && Sound(job, w1) && Continues(job, w1.dev, addr1) && CommitFlash !in w1.sent && 0 < retry
    requires IsDevice(w0.dev) && |log| == from <= |script| && w1 == Play(w0, log, script)
    requires At(job, w0, log, script, Settled(job, addr1))
    ensures Sound(job, w) && Continues(job, w.dev, addr) && from <= k <= |script| && (cut ==> k == |script|)
    ensures !cut && done == Ok(true) ==> w.dev.addr == job.End()
    ensures k == |more| && Stepped(job, w0, log, more, script, w1.dev, addr1, retry, w, addr, done, cut)
  {
    var failed;
    done := Ok(false);
    w, addr, failed, k, cut, more := LearnAddress(job, w1, addr1, retry, script, from, w0, log);
    if cut {
      return;
    }
    if failed {
      done := Err(Transaction);
      return;
    }
    if job.End() <= addr {
      done := Ok(true);
      TakenWhole(job, w, addr);
      return;
    }
    if addr == 0 || addr < job.codeStart {
      // neither the failed-reset error nor the invalid-offset retry of `push_code` can occur
      assert false;
    }
    ghost var asked, learned, at := more, w, addr;
    w, failed, addr, k, cut, more := PushOne(job, w, addr, script, k, w0, asked);
    if !cut {
      StepProgress(job, w0, asked, more, script, w1.dev, addr1, learned.dev, at, w.dev, addr);
      if failed {
        done := Err(Transaction);
        PushInVain(w0, log, asked, more, script, PushOf(job, at), retry);
      }
    }
  }

  /** A failed round that ended with a push leaves the client where it pushed. */
  predicate EndsAt(job: Job, log: seq<Request>, addr: word) {
    log != [] && log[|log| - 1].PushCode? ==>
      job.codeStart == job.App() <= addr < job.End() && addr != 0 && log[|log| - 1] == PushOf(job, addr)
  }

  /** From `dev1` and `addr1`, over the address `at` learned or known, to `dev2` and `addr2`. */
  lemma {:induction false} StepProgress(
      job: Job, w0: World, asked: seq<Request>, more: seq<Request>, script: seq<Turn>,
      dev1: Device, addr1: word, learned: Device, at: word, dev2: Device, addr2: word)
    requires IsDevice(w0.dev) && asked <= more && |more| <= |script|
    requires dev1.addr <= learned.addr <= dev2.addr && 0 < at <= learned.addr
    requires if addr1 == 0 then Fresh(w0, asked, script) ==> at == learned.addr else at == addr1 && learned == dev1
    requires addr2 == at || (Fresh(w0, more, script) ==> at != dev2.addr && (addr2 == 0 || addr2 == dev2.addr))
    ensures Fresh(w0, more, script) ==> Left(job, dev2, addr2) <= Left(job, dev1, addr1)
    ensures Fresh(w0, more, script) && at != dev2.addr && (addr2 == 0 || addr2 == dev2.addr) ==>
      Left(job, dev2, addr2) < Left(job, dev1, addr1)
  {
    FreshBefore(w0, asked, more, script);
  }

  lemma {:induction false} TakenWhole(job: Job, w: World, addr: word)
    requires job.Valid() && Sound(job, w) && Continues(job, w.dev, addr) && job.End() <= addr && addr != 0
    ensures w.dev.addr == job.End()
  {
  }

  lemma {:induction false} RoundsExplain(job: Job, w0: World, log: seq<Request>, script: seq<Turn>, from: nat, retry: nat)
    requires IsDevice(w0.dev) && |log| <= |script| && FailedRounds(w0, log, script, from, retry, retry)
    ensures Explained(job, w0, log, script, from, retry, Transaction)
  {
  }

  /** Waits of the rounds of one transaction. */
  function RoundWaits(retry: nat): nat {
    Times(retry, retry + 1)
  }

  lemma {:induction false} OneMoreRound(tries: nat, retry: nat)
    requires tries < retry
    ensures Times(tries, retry + 1) + retry + 1 == Times(tries + 1, retry + 1) <= RoundWaits(retry)
  {
    TimesMonotone(tries + 1, retry, retry + 1);
  }

  lemma {:induction false} SameAgain(job: Job, before: seq<Request>, more: seq<Request>, from: nat, was: word, addr: word)
    requires before <= more && |before| < |more| && EndsAt(job, more, addr) && (from < |before| ==> EndsAt(job, before, was))
    requires was != 0 ==> addr == was && |more| == |before| + 1 && more[|before|].PushCode?
    ensures Resumes(more, from, |before|)
  {
  }

  /** Where the transaction around the closure is after `tries` failed rounds, if it began with `dev1` and `addr1`. */
  ghost predicate Trying(
      job: Job, w: World, addr: word, w0: World, log: seq<Request>, more: seq<Request>, script: seq<Turn>,
      tries: nat, retry: nat, dev1: Device, addr1: word)
  {
    && job.Valid() && Sound(job, w) && Continues(job, w.dev, addr) && CommitFlash !in w.sent
    && IsDevice(w0.dev) && log <= more && |more| <= |script| && w == Play(w0, more, script)
    && At(job, w0, more, script, Settled(job, addr))
    && FailedRounds(w0, more, script, |log|, tries, retry) && (|log| < |more| ==> EndsAt(job, more, addr))
    && |more| <= |log| + Times(tries, retry + 1)
    && (Fresh(w0, more, script) ==> Left(job, w.dev, addr) <= Left(job, dev1, addr1))
  }

  /** What one more round in the transaction means. */
  ghost predicate Tried(
      job: Job, w0: World, log: seq<Request>, more: seq<Request>, script: seq<Turn>, tries: nat, retry: nat,
      dev0: Device, addr0: word, w: World, addr: word, done: Result<bool, RpcError>, cut: bool)
    requires job.Valid() && IsDevice(w0.dev)
  {
    && Went(job, w0, log, more, script, w, addr, done, cut) && |more| <= |log| + Times(tries, retry + 1)
    && (!cut && done.Err? ==> Trying(job, w, addr, w0, log, more, script, tries, retry, dev0, addr0))
    && (!cut && done == Ok(false) && Fresh(w0, more, script) ==> Left(job, w.dev, addr) < Left(job, dev0, addr0))
  }

  lemma {:induction false} RoundTried(
      job: Job, w1: World, addr1: word, w0: World, log: seq<Request>, before: seq<Request>, script: seq<Turn>,
      tries: nat, retry: nat, dev0: Device, addr0: word, w: World, addr: word, more: seq<Request>, done: Result<bool, RpcError>, cut: bool)
    requires Trying(job, w1, addr1, w0, log, before, script, tries, retry, dev0, addr0) && tries < retry
    requires Stepped(job, w0, before, more, script, w1.dev, addr1, retry, w, addr, done, cut)
    ensures Tried(job, w0, log, more, script, tries + 1, retry, dev0, addr0, w, addr, done, cut)
  {
    OneMoreRound(tries, retry);
    FreshBefore(w0, before, more, script);
    if !cut && done.Err? {
      SameAgain(job, before, more, |log|, addr1, addr);
      NextRound(w0, before, more, script, |log|, tries, retry);
    }
  }

  /** One more round. */
  method TryRound(
      job: Job, w1: World, addr1: word, retry: nat, script: seq<Turn>, from: nat,
      ghost w0: World, ghost log: seq<Request>, ghost before: seq<Request>, ghost tries: nat, ghost dev0: Device, ghost addr0: word)
    returns (w: World, done: Result<bool, RpcError>, addr: word, k: nat, cut: bool, ghost more: seq<Request>)
    requires Trying(job, w1, addr1, w0, log, before, script, tries, retry, dev0, addr0) && |before| == from && tries < retry
    ensures k == |more| && Tried(job, w0, log, more, script, tries + 1, retry, dev0, addr0, w, addr, done, cut)
  {
    w, done, addr, k, cut, more := PushStep(job, w1, addr1, retry, script, from, w0, before);
    RoundTried(job, w1, addr1, w0, log, before, script, tries, retry, dev0, addr0, w, addr, more, done, cut);
  }

  /** The transaction around the closure: rounds until one does not fail, up to `retry` of them. */
  method PushRounds(
      job: Job, w1: World, addr1: word, retry: nat, script: seq<Turn>, from: nat,
      ghost w0: World, ghost log: seq<Request>)
    returns (w: World, done: Result<bool, RpcError>, addr: word, k: nat, cut: bool, ghost more: seq<Request>)
    requires job.Valid() && Sound(job, w1) && Continues(job, w1.dev, addr1) && CommitFlash !in w1.sent
    requires IsDevice(w0.dev) && |log| == from <= |script| && w1 == Play(w0, log, script)
    requires At(job, w0, log, script, Settled(job, addr1))
    ensures Sound(job, w) && Continues(job, w.dev, addr) && from <= k <= |script| && (cut ==> k == |script|)
    ensures !cut && done == Ok(true) ==> w.dev.addr == job.End()
    ensures k == |more| <= from + RoundWaits(retry) && Went(job, w0, log, more, script, w, addr, done, cut)
    ensures !cut && done.Err? ==> FailedRounds(w0, more, script, from, retry, retry)
    ensures !cut && done == Ok(false) && Fresh(w0, more, script) ==> Left(job, w.dev, addr) < Left(job, w1.dev, addr1)
  {
    w, done, addr, k, cut, more := w1, Err(Transaction), addr1, from, false, log;
    for tries := 0 to retry
      invariant Trying(job, w, addr, w0, log, more, script, tries, retry, w1.dev, addr1) && k == |more|
      invariant !cut && done == Err(Transaction)
    {
      w, done, addr, k, cut, more := TryRound(job, w, addr, retry, script, k, w0, log, more, tries, w1.dev, addr1);
      if cut || done.Ok? {
        OneMoreRound(tries, retry);
        return;
      }
    }
  }

  lemma {:induction false} DeviceInRange(job: Job, w: World)
    requires job.Valid() && Sound(job, w) && job.codeStart == job.App() && Begun(w.dev)
    ensures job.App() <= w.dev.addr <= job.End()
  {
  }

  /** Where the loop of `push_code` is after `count` transactions that did not fail and did not end it. */
  ghost predicate InLoop(
      job: Job, w: World, addr: word, w0: World, log: seq<Request>, more: seq<Request>, script: seq<Turn>, count: nat, retry: nat)
  {
    && job.Valid() && Sound(job, w) && Continues(job, w.dev, addr) && CommitFlash !in w.sent
    && IsDevice(w0.dev) && log <= more && |more| <= |script| && w == Play(w0, more, script)
    && At(job, w0, more, script, Settled(job, addr))
    && |more| <= |log| + Times(count, RoundWaits(retry))
    && (Fresh(w0, more, script) ==> count + Left(job, w.dev, addr) <= 2 * |job.image|)
  }

  /** The waits of `count + 1` transactions are within the bound if each of the first `count` made progress. */
  lemma {:induction false} WithinBound(job: Job, count: nat, retry: nat, waits: nat)
    requires waits <= Times(count, RoundWaits(retry)) + RoundWaits(retry) && count <= 2 * |job.image|
    ensures waits <= Times(2 * |job.image| + 1, RoundWaits(retry))
  {
    var per := RoundWaits(retry);
    TimesMonotone(count + 1, 2 * |job.image| + 1, per);
  }

  lemma {:induction false} NothingPushed(
      job: Job, w: World, w0: World, log: seq<Request>, script: seq<Turn>, retry: nat)
    requires job.Valid() && Sound(job, w) && Continues(job, w.dev, 0) && CommitFlash !in w.sent
    requires IsDevice(w0.dev) && |log| <= |script| && w == Play(w0, log, script) && At(job, w0, log, script, Pushing(0))
    ensures InLoop(job, w, 0, w0, log, log, script, 0, retry)
  {
    DeviceInRange(job, w);
  }

  /** One transaction of the loop. */
  method PushOnce(
      job: Job, w1: World, addr1: word, retry: nat, script: seq<Turn>, from: nat,
      ghost w0: World, ghost log: seq<Request>, ghost before: seq<Request>, ghost count: nat)
    returns (w: World, done: Result<bool, RpcError>, addr: word, k: nat, cut: bool, ghost more: seq<Request>)
    requires InLoop(job, w1, addr1, w0, log, before, script, count, retry) && |before| == from
    ensures from <= k == |more| && Went(job, w0, log, more, script, w, addr, done, cut)
    ensures !cut && done.Err? ==> Explained(job, w0, more, script, from, retry, done.error)
    ensures Fresh(w0, more, script) ==> k <= |log| + Times(2 * |job.image| + 1, RoundWaits(retry))
    ensures !cut && done.Ok? && !done.value ==> from < k && InLoop(job, w, addr, w0, log, more, script, count + 1, retry)
  {
    w, done, addr, k, cut, more := PushRounds(job, w1, addr1, retry, script, from, w0, before);
    FreshBefore(w0, before, more, script);
    InTime(job, w1, addr1, w0, log, before, script, count, retry, more);
    if !cut && done.Err? {
      RoundsExplain(job, w0, more, script, from, retry);
    }
  }

  lemma {:induction false} InTime(
      job: Job, w: World, addr: word, w0: World, log: seq<Request>, before: seq<Request>, script: seq<Turn>,
      count: nat, retry: nat, more: seq<Request>)
    requires InLoop(job, w, addr, w0, log, before, script, count, retry)
    requires before <= more && |more| <= |script| && |more| <= |before| + RoundWaits(retry)
    ensures |more| <= |log| + Times(count + 1, RoundWaits(retry))
    ensures Fresh(w0, more, script) ==> |more| <= |log| + Times(2 * |job.image| + 1, RoundWaits(retry))
  {
    FreshBefore(w0, before, more, script);
    DeviceInRange(job, w);
    if Fresh(w0, more, script) {
      WithinBound(job, count, retry, |more| - |log|);
    }
  }

  /** The loop of `push_code`; a transaction that fails began at wait `begun`. */
  method PushPieces(
      job: Job, w1: World, retry: nat, script: seq<Turn>, from: nat,
      ghost w0: World, ghost log: seq<Request>)
    returns (w: World, done: Result<bool, RpcError>, k: nat, cut: bool, ghost more: seq<Request>, ghost begun: nat)
    requires job.Valid() && Sound(job, w1) && Continues(job, w1.dev, 0) && CommitFlash !in w1.sent
    requires IsDevice(w0.dev) && |log| == from <= |script| && w1 == Play(w0, log, script) && At(job, w0, log, script, Pushing(0))
    ensures Sound(job, w) && Continues(job, w.dev, 0)
    ensures from <= k == |more| <= |script| && w == Play(w0, more, script) && log <= more
    ensures Obeys(job, w0, more, script) && (cut ==> k == |script|)
    ensures !cut && done.Ok? ==> w.dev.addr == job.End() && At(job, w0, more, script, Committing)
    ensures !cut && done.Err? ==> done.error == Transaction && Explained(job, w0, more, script, begun, retry, done.error)
    ensures CommitFlash !in w.sent
    ensures Fresh(w0, more, script) ==> k <= from + Times(2 * |job.image| + 1, RoundWaits(retry))
  {
    var addr: word := 0;
    w, k, cut, more := w1, from, false, log;
    ghost var count := 0;
    NothingPushed(job, w, w0, log, script, retry);
    while true
      invariant InLoop(job, w, addr, w0, log, more, script, count, retry) && k == |more|
      decreases |script| - k
    {
      begun := k;
      w, done, addr, k, cut, more := PushOnce(job, w, addr, retry, script, k, w0, log, more, count);
      if cut || done.Err? || done.value {
        return;
      }
      count := count + 1;
    }
  }

  /** Requests other than pushes and commits leave the time of the start requests open. */
  lemma {:induction false} StillEarly(w1: World, w: World, req: Request)
    requires !StartsOver(w1) && w.sent <= w1.sent + {req} && !req.PushCode? && !req.CommitFlash?
    ensures !StartsOver(w)
  {
    forall late | late in w.sent ensures !late.PushCode? && !late.CommitFlash? {
      assert late in w1.sent + {req};
    }
  }

  lemma {:induction false} StartedAtApplication(job: Job, w: World)
    requires job.Valid() && Sound(job, w) && Begun(w.dev) && !StartsOver(w)
    ensures w.dev.addr == job.App()
  {
  }

  /** `flash_start`, retried. */
  method StartStage(
      job: Job, w1: World, retry: nat, script: seq<Turn>, from: nat,
      ghost w0: World, ghost log: seq<Request>)
    returns (w: World, failed: Option<RpcError>, k: nat, cut: bool, ghost more: seq<Request>)
    requires job.Valid() && Sound(job, w1) && !StartsOver(w1)
    requires IsDevice(w0.dev) && |log| == from <= |script| && w1 == Play(w0, log, script) && At(job, w0, log, script, Starting)
    ensures Sound(job, w) && !StartsOver(w) && from <= k == |more| <= |script| && w == Play(w0, more, script)
    ensures k <= from + retry && (cut ==> k == |script|) && Obeys(job, w0, more, script)
    ensures !cut && failed.None? ==> Begun(w.dev) && At(job, w0, more, script, AskingStart)
    ensures !cut && failed.Some? ==> !failed.value.Other? && Explained(job, w0, more, script, from, retry, failed.value)
    ensures !cut && failed.Some? && failed.value.Posix? ==> At(job, w0, more, script, Ended(Err(failed.value)))
  {
    var answer;
    w, answer, k, cut, more := RetriedCall(job, w1, StartFlash, retry, script, from, w0, log);
    StillEarly(w1, w, StartFlash);
    CallMoves(job, w0, log, more, script, w1, w, Starting, retry, answer, cut);
    failed := if !cut && answer.Err? then Some(answer.error) else None;
  }

  /** The beginning of `push_code`: brings the device to the flashing stage. */
  method EnterStage(job: Job, w1: World, retry: nat, script: seq<Turn>)
    returns (w: World, failed: Option<RpcError>, k: nat, cut: bool, ghost log: seq<Request>, ghost begun: nat)
    requires job.Valid() && Sound(job, w1) && !StartsOver(w1)
    ensures Sound(job, w) && !StartsOver(w)
    ensures k == |log| <= |script| && w == Play(w1, log, script) && k <= 2 * retry && (cut ==> k == |script|)
    ensures !cut && failed.None? ==> Begun(w.dev)
    ensures !cut && failed.Some? ==> !failed.value.Other?
    ensures Obeys(job, w1, log, script) && (!cut && failed.None? ==> At(job, w1, log, script, AskingStart))
    ensures !cut && failed.Some? && failed.value.Posix? ==> At(job, w1, log, script, Ended(Err(failed.value)))
    ensures !cut && failed.Some? ==> Explained(job, w1, log, script, begun, retry, failed.value)
  {
    var answer;
    failed, begun := None, 0;
    w, answer, k, cut, log := Call(job, w1, GetStage, retry, script, 0, w1, []);
    StillEarly(w1, w, GetStage);
    CallMoves(job, w1, [], log, script, w1, w, AskingStage, retry, answer, cut);
    if cut {
      return;
    }
    if answer.Err? {
      failed := Some(answer.error);
      return;
    }
    if answer.value.stage == 0 {
      begun := k;
      w, failed, k, cut, log := StartStage(job, w, retry, script, k, w1, log);
    }
  }

  /** What the question for the start address brings. */
  ghost predicate AskedStart(
      job: Job, w0: World, log: seq<Request>, more: seq<Request>, script: seq<Turn>, w: World,
      retry: nat, addr: Result<word, RpcError>, cut: bool)
    requires job.Valid() && IsDevice(w0.dev)
  {
    && Sound(job, w) && Begun(w.dev) && !StartsOver(w)
    && |log| <= |more| <= |script| && w == Play(w0, more, script) && |more| <= |log| + retry && (cut ==> |more| == |script|)
    && Obeys(job, w0, more, script)
    && (!cut ==> match addr
          case Err(error) => error == Transaction && Explained(job, w0, more, script, |log|, retry, error)
          case Ok(a) =>
            && job.App() <= a <= w.dev.addr
            && At(job, w0, more, script, if a == job.codeStart then Pushing(0) else Ended(Err(Other)))
            && (a != job.codeStart ==> Explained(job, w0, more, script, |log|, retry, Other)))
  }

  lemma {:induction false} StartIsAsked(
      job: Job, w0: World, log: seq<Request>, more: seq<Request>, script: seq<Turn>, w1: World, w: World,
      retry: nat, answer: Result<Reply, RpcError>, addr: Result<word, RpcError>, cut: bool)
    requires job.Valid() && Begun(w1.dev) && !StartsOver(w1)
    requires Called(job, w0, log, more, script, w1, w, GetNextAddress, retry, answer, cut)
    requires At(job, w0, log, script, AskingStart)
    requires addr == if answer.Ok? then Ok(AddressIn(answer)) else Err(answer.error)
    ensures AskedStart(job, w0, log, more, script, w, retry, addr, cut)
    ensures !cut && answer.Ok? ==> answer.value.Address?
  {
    StillEarly(w1, w, GetNextAddress);
    CallMoves(job, w0, log, more, script, w1, w, AskingStart, retry, answer, cut);
    if !cut {
      match answer
      case Ok(reply) =>
        AddressAnswer(job, w.dev, reply);
        assert more[|more| - 1] == GetNextAddress;
        OtherExplained(job, w0, more, script, |log|, reply, retry);
      case Err(_) =>
    }
  }

  /** `flash_get_next_address`; an address that is not the code's start explains the refusal to push. */
  method AskAddress(
      job: Job, w1: World, retry: nat, script: seq<Turn>, from: nat,
      ghost w0: World, ghost log: seq<Request>)
    returns (w: World, addr: Result<word, RpcError>, k: nat, cut: bool, ghost more: seq<Request>)
    requires job.Valid() && Sound(job, w1) && Begun(w1.dev) && !StartsOver(w1)
    requires IsDevice(w0.dev) && |log| == from <= |script| && w1 == Play(w0, log, script) && At(job, w0, log, script, AskingStart)
    ensures Sound(job, w) && Begun(w.dev) && from <= k <= |script| && (cut ==> k == |script|)
    ensures !cut && addr.Ok? ==> job.App() <= addr.value <= w.dev.addr
    ensures k == |more| && AskedStart(job, w0, log, more, script, w, retry, addr, cut)
  {
    var answer;
    w, answer, k, cut, more := Call(job, w1, GetNextAddress, retry, script, from, w0, log);
    addr := if answer.Ok? then Ok(AddressIn(answer)) else Err(answer.error);
    StartIsAsked(job, w0, log, more, script, w1, w, retry, answer, addr, cut);
  }

  /** The device's start address must be that of the code. */
  method StartAddress(
      job: Job, w1: World, retry: nat, script: seq<Turn>, from: nat,
      ghost w0: World, ghost log: seq<Request>)
    returns (w: World, start: Result<word, RpcError>, k: nat, cut: bool, ghost more: seq<Request>)
    requires job.Valid() && Sound(job, w1) && Begun(w1.dev) && !StartsOver(w1)
    requires IsDevice(w0.dev) && |log| == from <= |script| && w1 == Play(w0, log, script) && At(job, w0, log, script, AskingStart)
    ensures Sound(job, w) && Begun(w.dev) && !StartsOver(w)
    ensures from <= k == |more| <= |script| && w == Play(w0, more, script) && k <= from + retry && (cut ==> k == |script|)
    ensures !cut && start.Ok? ==> start.value == job.codeStart == job.App()
    ensures !cut && start == Err(Other) ==> job.codeStart != job.App()
    ensures !cut && start.Err? ==> Explained(job, w0, more, script, from, retry, start.error)
    ensures !cut && start.Err? ==> !start.error.Posix?
    ensures Obeys(job, w0, more, script) && (!cut && start.Ok? ==> At(job, w0, more, script, Pushing(0)))
    ensures !cut && start == Err(Other) ==> At(job, w0, more, script, Ended(Err(Other)))
  {
    w, start, k, cut, more := AskAddress(job, w1, retry, script, from, w0, log);
    if !cut && start.Ok? {
      StartedAtApplication(job, w);
      if start.value != job.codeStart {
        start := Err(Other);
      }
    }
  }

  // ---- when the upload succeeds ----

  /** Wait `i` brought an answer. */
  predicate HeardAt(w0: World, log: seq<Request>, script: seq<Turn>, i: nat)
    requires IsDevice(w0.dev) && |log| <= |script|
  {
    i < |log| && Heard(w0, log[..i + 1], script)
  }

  /** None of `n` waits from `from` on brought an answer. */
  predicate Dead(w0: World, log: seq<Request>, script: seq<Turn>, from: nat, n: nat)
    requires IsDevice(w0.dev) && |log| <= |script|
  {
    from + n <= |log| && forall i :: from <= i < from + n ==> !HeardAt(w0, log, script, i)
  }

  /** Of any `retry` waits in a row, one brings an answer. */
  ghost predicate Lively(w0: World, log: seq<Request>, script: seq<Turn>, retry: nat)
    requires IsDevice(w0.dev) && |log| <= |script|
  {
    forall j: nat :: !Dead(w0, log, script, j, retry)
  }

  lemma {:induction false} HeardEarlier(w0: World, log: seq<Request>, more: seq<Request>, script: seq<Turn>, i: nat)
    requires IsDevice(w0.dev) && log <= more && i < |log| && |more| <= |script|
    ensures HeardAt(w0, log, script, i) <==> HeardAt(w0, more, script, i)
  {
    assert log[..i + 1] == more[..i + 1];
  }

  lemma {:induction false} DeadEarlier(w0: World, log: seq<Request>, more: seq<Request>, script: seq<Turn>, from: nat, n: nat)
    requires IsDevice(w0.dev) && log <= more && |more| <= |script| && Dead(w0, log, script, from, n)
    ensures Dead(w0, more, script, from, n)
  {
    forall i | from <= i < from + n ensures !HeardAt(w0, more, script, i) {
      HeardEarlier(w0, log, more, script, i);
    }
  }

  /** One more wait in vain. */
  lemma {:induction false} DeadMore(w0: World, log: seq<Request>, more: seq<Request>, script: seq<Turn>, from: nat, n: nat)
    requires IsDevice(w0.dev) && log <= more && |more| == |log| + 1 <= |script| && from + n == |log|
    requires Dead(w0, log, script, from, n) && !Heard(w0, more, script)
    ensures Dead(w0, more, script, from, n + 1)
  {
    DeadEarlier(w0, log, more, script, from, n);
    assert more[..|more|] == more;
  }

  lemma {:induction false} AllInVain(w0: World, log: seq<Request>, script: seq<Turn>, from: nat)
    requires IsDevice(w0.dev) && from <= |log| <= |script|
    ensures Vain(w0, log, script, from) <= |log| - from
    ensures Vain(w0, log, script, from) == |log| - from ==> Dead(w0, log, script, from, |log| - from)
    decreases |log|
  {
    if |log| > from {
      var init := log[..|log| - 1];
      AllInVain(w0, init, script, from);
      if Vain(w0, log, script, from) == |log| - from {
        DeadMore(w0, init, log, script, from, |log| - 1 - from);
      }
    }
  }

  /** A round that fails has only questions without answer, or ends with a push without answer. */
  lemma {:induction false} RoundDies(w0: World, log: seq<Request>, script: seq<Turn>, from: nat, retry: nat)
    requires IsDevice(w0.dev) && |log| <= |script| && FailedRound(w0, log, script, from, retry)
    ensures Dead(w0, log, script, from, retry) || (log[|log| - 1].PushCode? && !Heard(w0, log, script))
  {
    if !(log[|log| - 1].PushCode? && !Heard(w0, log, script)) {
      AllInVain(w0, log, script, from);
    }
  }

  /** Failed rounds have `retry` questions in a row without answer, or end in as many pushes without answer as there are rounds. */
  lemma {:induction false} RoundsDie(w0: World, log: seq<Request>, script: seq<Turn>, from: nat, n: nat, retry: nat) returns (j: nat)
    requires IsDevice(w0.dev) && |log| <= |script| && 0 < n && FailedRounds(w0, log, script, from, n, retry)
    ensures Dead(w0, log, script, j, retry) || (log != [] && log[|log| - 1].PushCode? && j + n == |log| && Dead(w0, log, script, j, n))
    ensures from <= j
    decreases n
  {
    var mid :| && from <= mid < |log| && FailedRounds(w0, log[..mid], script, from, n - 1, retry)
               && FailedRound(w0, log, script, mid, retry) && Resumes(log, from, mid);
    RoundDies(w0, log, script, mid, retry);
    j := mid;
    if !Dead(w0, log, script, mid, retry) {
      j := PushesDie(w0, log, script, from, n, retry, mid);
    }
  }

  lemma {:induction false} PushesDie(
      w0: World, log: seq<Request>, script: seq<Turn>, from: nat, n: nat, retry: nat, mid: nat) returns (j: nat)
    requires IsDevice(w0.dev) && |log| <= |script| && 0 < n && from <= mid < |log|
    requires FailedRounds(w0, log[..mid], script, from, n - 1, retry) && Resumes(log, from, mid)
    requires log[|log| - 1].PushCode? && !Heard(w0, log, script)
    ensures Dead(w0, log, script, j, retry) || (j + n == |log| && Dead(w0, log, script, j, n))
    ensures from <= j
    decreases n, 0
  {
    if n == 1 {
      j := |log| - 1;
      assert log[..|log|] == log;
    } else {
      var before := log[..mid];
      j := RoundsDie(w0, before, script, from, n - 1, retry);
      if Dead(w0, before, script, j, retry) {
        DeadEarlier(w0, before, log, script, j, retry);
      } else {
        assert before[mid - 1] == log[mid - 1];
        DeadMore(w0, before, log, script, j, n - 1);
      }
    }
  }

  /** A client that gave up was not answered often enough. */
  lemma {:induction false} GaveUpIsDead(w0: World, log: seq<Request>, script: seq<Turn>, from: nat, retry: nat)
    requires IsDevice(w0.dev) && |log| <= |script| && 0 < retry && GaveUp(w0, log, script, from, retry)
    ensures !Lively(w0, log, script, retry)
  {
    if FailedRounds(w0, log, script, from, retry, retry) {
      var j := RoundsDie(w0, log, script, from, retry, retry);
    } else {
      AllInVain(w0, log, script, from);
    }
  }

  /** As many waits as an upload needs if no answer comes late. */
  function EnoughWaits(job: Job, retry: nat): nat {
    4 * retry + Times(2 * |job.image| + 1, RoundWaits(retry))
  }

  lemma {:induction false} EnoughWaitsIsProduct(job: Job, retry: nat)
    ensures EnoughWaits(job, retry) == 4 * retry + (2 * |job.image| + 1) * (retry * (retry + 1))
  {
    TimesIsProduct(retry, retry + 1);
    TimesIsProduct(2 * |job.image| + 1, retry * (retry + 1));
  }

  /** Whatever is answered to a commit, the image is committed. */
  lemma {:induction false} CommitAnswered(job: Job, w0: World, log: seq<Request>, script: seq<Turn>)
    requires job.Valid() && IsDevice(w0.dev) && 0 < |log| <= |script| && Sound(job, Play(w0, log, script))
    requires Heard(w0, log, script) && log[|log| - 1].CommitFlash?
    ensures HoldsImage(job, Play(w0, log, script).dev)
  {
    var w := Play(w0, log, script);
    AnswerIsGood(job, w, Answer(4, script[|log| - 1].heard.value));
    CommittedHoldsImage(job, w.dev);
  }

  /** What a run of `push_code` that sent `log` means. */
  ghost predicate PushOutcome(
      job: Job, w0: World, log: seq<Request>, script: seq<Turn>, begun: nat, retry: nat, w: World,
      result: Result<word, RpcError>, cut: bool)
    requires job.Valid() && IsDevice(w0.dev)
  {
    // wherever it is cut, the device has taken a prefix of the image and nothing else
    && Sound(job, w) && |log| <= |script| && w == Play(w0, log, script) && (cut ==> |log| == |script|)
    // the client sends and returns what its phases say
    && Obeys(job, w0, log, script) && (!cut && result != Err(Transaction) ==> PhaseAt(job, w0, log, script) == Ended(result))
    // Ok: the commit was answered, and the image is in the flash
    && (!cut && result.Ok? ==>
          && HoldsImage(job, w.dev) && result.value == job.codeStart
          && Heard(w0, log, script) && log[|log| - 1].CommitFlash?)
    // every error has its cause; a refused commit means that the image was committed before
    && (!cut && result.Err? ==> Explained(job, w0, log, script, begun, retry, result.error))
    && (!cut && result.Err? && result.error.Posix? ==>
          log != [] && (log[|log| - 1].CommitFlash? ==> HoldsImage(job, w.dev)))
    && (!cut && result == Err(Other) ==> job.codeStart != job.App())
    // however many answers are lost, nothing is given up while one of `retry` waits in a row is answered
    && (!cut && 0 < retry && Lively(w0, log, script, retry) ==> result != Err(Transaction))
    // and the run ends, if no answer comes late
    && (Fresh(w0, log, script) ==> |log| <= EnoughWaits(job, retry))
  }

  /** A run that ends before the commit, because it is cut or with an error. */
  lemma {:induction false} EndedEarly(
      job: Job, w0: World, log: seq<Request>, script: seq<Turn>, begun: nat, retry: nat, w: World,
      result: Result<word, RpcError>, cut: bool)
    requires job.Valid() && IsDevice(w0.dev) && Sound(job, w)
    requires |log| <= |script| && w == Play(w0, log, script) && (cut ==> |log| == |script|)
    requires !cut ==> result.Err? && Explained(job, w0, log, script, begun, retry, result.error)
    requires !cut && result == Err(Other) ==> job.codeStart != job.App()
    requires Obeys(job, w0, log, script) && (!cut && result != Err(Transaction) ==> At(job, w0, log, script, Ended(result)))
    requires CommitFlash !in w.sent
    requires Fresh(w0, log, script) ==> |log| <= 4 * retry + Times(2 * |job.image| + 1, RoundWaits(retry))
    ensures PushOutcome(job, w0, log, script, begun, retry, w, result, cut)
  {
    if !cut {
      LastWasSent(w0, log, script);
      if result == Err(Transaction) && 0 < retry {
        GaveUpIsDead(w0, log, script, begun, retry);
      }
    }
  }

  lemma {:induction false} LastWasSent(w0: World, log: seq<Request>, script: seq<Turn>)
    requires IsDevice(w0.dev) && |log| <= |script|
    ensures log != [] ==> log[|log| - 1] in Play(w0, log, script).sent
  {
    if log != [] {
      var n := |log| - 1;
      DeliverAllSent(Send(Play(w0, log[..n], script), log[n]), script[n].deliveries);
    }
  }

  /** The commit was answered, given up, or cut. */
  lemma {:induction false} EndedWithCommit(
      job: Job, w0: World, pushed: seq<Request>, log: seq<Request>, script: seq<Turn>, retry: nat, w: World,
      result: Result<word, RpcError>, cut: bool)
    requires job.Valid() && IsDevice(w0.dev) && Sound(job, w)
    requires |log| <= |script| && w == Play(w0, log, script) && (cut ==> |log| == |script|)
    requires pushed <= log && |log| <= |pushed| + retry && forall j :: |pushed| <= j < |log| ==> log[j] == CommitFlash
    requires Fresh(w0, pushed, script) ==> |pushed| <= 3 * retry + Times(2 * |job.image| + 1, RoundWaits(retry))
    requires !cut && result.Ok? ==> result.value == job.codeStart && |pushed| < |log| && Heard(w0, log, script)
    requires !cut && result.Err? ==> !result.error.Other? && Explained(job, w0, log, script, |pushed|, retry, result.error)
    requires !cut && result.Err? && result.error.Posix? ==> |pushed| < |log| && Heard(w0, log, script)
    requires Obeys(job, w0, log, script) && (!cut && result != Err(Transaction) ==> At(job, w0, log, script, Ended(result)))
    ensures PushOutcome(job, w0, log, script, |pushed|, retry, w, result, cut)
  {
    FreshBefore(w0, pushed, log, script);
    if !cut {
      if result == Err(Transaction) {
        if 0 < retry {
          GaveUpIsDead(w0, log, script, |pushed|, retry);
        }
      } else {
        CommitAnswered(job, w0, log, script);
      }
    }
  }

  /** `push_code` up to the loop: the device is in the stage, at the address of the code. */
  method Prepare(job: Job, w0: World, retry: nat, script: seq<Turn>)
    returns (w: World, start: Result<word, RpcError>, k: nat, cut: bool, ghost log: seq<Request>, ghost begun: nat)
    requires job.Valid() && w0 == World(job.reset, {}, {})
    ensures Sound(job, w) && CommitFlash !in w.sent
    ensures k == |log| <= |script| && w == Play(w0, log, script) && k <= 3 * retry && (cut ==> k == |script|)
    ensures !cut && start.Ok? ==> start.value == job.codeStart == job.App() && Begun(w.dev)
    ensures !cut && start.Err? ==> Explained(job, w0, log, script, begun, retry, start.error)
    ensures !cut && start == Err(Other) ==> job.codeStart != job.App()
    ensures Obeys(job, w0, log, script) && (!cut && start.Ok? ==> At(job, w0, log, script, Pushing(0)))
    ensures !cut && start.Err? && start.error != Transaction ==> At(job, w0, log, script, Ended(start))
  {
    var failed;
    w, failed, k, cut, log, begun := EnterStage(job, w0, retry, script);
    if cut || failed.Some? {
      start := if failed.Some? then Err(failed.value) else Err(Transaction);
      return;
    }
    begun := k;
    w, start, k, cut, log := StartAddress(job, w, retry, script, k, w0, log);
  }

  lemma {:induction false} CommitEnds(
      job: Job, w0: World, log: seq<Request>, more: seq<Request>, script: seq<Turn>, w1: World, w: World,
      retry: nat, answer: Result<Reply, RpcError>, result: Result<word, RpcError>, cut: bool)
    requires job.Valid() && job.codeStart == job.App()
    requires Called(job, w0, log, more, script, w1, w, CommitFlash, retry, answer, cut)
    requires At(job, w0, log, script, Committing)
    requires Fresh(w0, log, script) ==> |log| <= 3 * retry + Times(2 * |job.image| + 1, RoundWaits(retry))
    requires result == if answer.Ok? then Ok(job.App()) else Err(answer.error)
    ensures PushOutcome(job, w0, more, script, |log|, retry, w, result, cut)
  {
    CallMoves(job, w0, log, more, script, w1, w, Committing, retry, answer, cut);
    EndedWithCommit(job, w0, log, more, script, retry, w, result, cut);
  }

  /** The end of `push_code`: the commit. */
  method CommitImage(
      job: Job, w1: World, start: word, retry: nat, script: seq<Turn>, from: nat,
      ghost w0: World, ghost log: seq<Request>)
    returns (w: World, result: Result<word, RpcError>, k: nat, cut: bool, ghost more: seq<Request>)
    requires job.Valid() && Sound(job, w1) && Begun(w1.dev) && start == job.codeStart == job.App() && w1.dev.addr == job.End()
    requires IsDevice(w0.dev) && |log| == from <= |script| && w1 == Play(w0, log, script)
    requires Fresh(w0, log, script) ==> from <= 3 * retry + Times(2 * |job.image| + 1, RoundWaits(retry))
    requires At(job, w0, log, script, Committing)
    ensures Sound(job, w) && (!cut && result.Ok? ==> HoldsImage(job, w.dev) && result.value == job.codeStart)
    ensures k == |more| && PushOutcome(job, w0, more, script, from, retry, w, result, cut)
  {
    var answer;
    w, answer, k, cut, more := RetriedCall(job, w1, CommitFlash, retry, script, from, w0, log);
    result := if answer.Ok? then Ok(start) else Err(answer.error);
    CommitEnds(job, w0, log, more, script, w1, w, retry, answer, result, cut);
  }

  /**
   `push_code`. Wherever the channel cuts the run, the device has taken a prefix of the image and
   nothing else. A run that ends well leaves the image in the flash; one that fails tells why. If no
   answer comes late, the run ends within a bound; if moreover one of any `retry` waits in a row brings an
   answer, however many others are lost, it ends well, unless the answer to the start or the commit is lost
   and the repeated one is refused, or the code does not belong to this device.
   */
  method PushImage(job: Job, w0: World, retry: nat, script: seq<Turn>)
    returns (w: World, result: Result<word, RpcError>, k: nat, cut: bool, ghost log: seq<Request>, ghost begun: nat)
    requires job.Valid() && w0 == World(job.reset, {}, {})
    ensures Sound(job, w) && k <= |script| && (cut ==> k == |script|)
    ensures !cut && result.Ok? ==> HoldsImage(job, w.dev) && result.value == job.codeStart
    ensures !cut && result == Err(Other) ==> job.codeStart != job.App()
    ensures k == |log| && PushOutcome(job, w0, log, script, begun, retry, w, result, cut)
  {
    var start;
    w, start, k, cut, log, begun := Prepare(job, w0, retry, script);
    result := start;
    if cut || start.Err? {
      EndedEarly(job, w0, log, script, begun, retry, w, result, cut);
      return;
    }
    var done;
    ghost var prepared := log;
    w, done, k, cut, log, begun := PushPieces(job, w, retry, script, k, w0, prepared);
    if cut || done.Err? {
      result := Err(Transaction);
      EndedEarly(job, w0, log, script, begun, retry, w, result, cut);
      return;
    }
    begun := k;
    w, result, k, cut, log := CommitImage(job, w, start.value, retry, script, k, w0, log);
  }

  /**
   When an upload succeeds: with enough waits, no late answers and one answer in any `retry` waits in a row,
   the run ends, and then the image is in the flash, unless the device refused a repeated start. Such a refusal
   is the only way in which lost answers make an upload fail; a refused commit only comes after the image is stored.
   */
  lemma {:induction false} UploadEnds(
      job: Job, w0: World, log: seq<Request>, script: seq<Turn>, begun: nat, retry: nat, w: World,
      result: Result<word, RpcError>, cut: bool)
    requires job.Valid() && IsDevice(w0.dev) && PushOutcome(job, w0, log, script, begun, retry, w, result, cut)
    requires job.codeStart == job.App() && 0 < retry && EnoughWaits(job, retry) < |script|
    requires Fresh(w0, log, script) && Lively(w0, log, script, retry)
    ensures !cut
    ensures result.Ok? || result == Err(Posix(114)) || result == Err(Posix(77))
    ensures HoldsImage(job, w.dev) || (result == Err(Posix(114)) && Heard(w0, log, script) && log[|log| - 1].StartFlash?)
  {
  }

  /** A start request that is repeated, because the answer to the first one was lost, is refused, and ends the upload. */
  lemma {:induction false} RepeatedStartIsRefused(job: Job)
    requires job.Valid()
    ensures Handle(job.reset, StartFlash) == (job.Started(), Done)
    ensures ResultOf(Some(Handle(job.Started(), StartFlash).1)) == Err(Posix(114))
  {
  }

  /** The answer that the device gives to a request now is a fresh one. */
  lemma {:induction false} OwnAnswerIsFresh(job: Job, dev: Device, req: Request)
    requires job.Valid() && Flashing(job, dev) && IsDevice(dev) && GoodRequest(job, dev, req)
    ensures FreshReply(Handle(dev, req).0, req, Handle(dev, req).1)
  {
    if req.PushCode? {
      PieceExtends(job, AddressOf(req.payload) - job.codeStart);
      AnswersInStage(job, dev, req.payload);
    }
  }

  // ---- verify_code ----

  /** Up to `to`, the memory holds the image. */
  predicate Agrees(job: Job, flash: seq<byte>, to: nat)
    requires to <= |flash|
  {
    forall i :: job.codeStart <= i < to && i < job.End() ==> flash[i] == job.image[i - job.codeStart]
  }

  lemma {:induction false} AgreesOnAll(job: Job, flash: seq<byte>)
    requires job.End() <= |flash|
    ensures Agrees(job, flash, job.End()) <==> flash[job.codeStart..job.End()] == job.image
  {
    var part := flash[job.codeStart..job.End()];
    if part == job.image {
      assert forall i :: job.codeStart <= i < job.End() ==> flash[i] == part[i - job.codeStart];
    }
  }

  /** What the device answers to a read of `length` bytes. */
  function ReadBack(flash: seq<byte>, addr: nat, length: nat): seq<byte>
    requires addr + length <= |flash|
  {
    flash[addr..addr + length]
  }

  lemma {:induction false} PieceAgrees(job: Job, flash: seq<byte>, addr: nat)
    requires job.End() <= |flash| && job.codeStart <= addr < job.End()
    requires Agrees(job, flash, addr)
    ensures
      var piece := job.Piece(addr - job.codeStart);
      addr + |piece| <= job.End() && (ReadBack(flash, addr, |piece|) == piece <==> Agrees(job, flash, addr + |piece|))
  {
    var piece := job.Piece(addr - job.codeStart);
    var read := ReadBack(flash, addr, |piece|);
    if read == piece {
      assert forall i :: addr <= i < addr + |piece| ==> flash[i] == read[i - addr];
    }
    if Agrees(job, flash, addr + |piece|) {
      assert forall k :: 0 <= k < |piece| ==> read[k] == flash[addr + k];
    }
  }

  /** What a wait for the code brings: nothing, an answer that can not be read, or the code at an address. */
  datatype Read = Silence | Unreadable | Code(addr: word)

  /** The block that is asked for in wait `k`: each answer for it moves on to the next. */
  function Asking(job: Job, script: seq<Read>, k: nat): nat
    requires k <= |script|
  {
    if k == 0 then job.codeStart
    else
      var addr := Asking(job, script, k - 1);
      if IsFor(script[k - 1], addr) then addr + BLOCK_SIZE else addr
  }

  predicate IsFor(read: Read, addr: nat) {
    read.Code? && read.addr == addr
  }

  predicate Silent(script: seq<Read>, from: nat, to: nat)
    requires to <= |script|
  {
    forall j :: from <= j < to ==> script[j].Silence?
  }

  /** One `read_program_code`, in the waits `from` up to `to`: none was answered, or the first answer is not for `addr`. */
  predicate FailedRead(script: seq<Read>, addr: nat, from: nat, to: nat, retry: nat)
    requires to <= |script|
  {
    || (to == from + retry && Silent(script, from, to))
    || (from < to <= from + retry && Silent(script, from, to - 1) && !script[to - 1].Silence? && !IsFor(script[to - 1], addr))
  }

  /** `n` reads of the block at `addr` failed, one after the other. */
  predicate FailedReads(script: seq<Read>, addr: nat, from: nat, to: nat, n: nat, retry: nat)
    requires to <= |script|
    decreases n
  {
    if n == 0 then to == from
    else exists mid :: from <= mid <= to && FailedReads(script, addr, from, mid, n - 1, retry) && FailedRead(script, addr, mid, to, retry)
  }

  /** `UartBusDevice::read_program_code`: waits up to `retry` times for the first answer. */
  method ReadProgramCode(script: seq<Read>, from: nat, retry: nat) returns (read: Read, k: nat, cut: bool)
    requires from <= |script|
    ensures from <= k <= |script| && (cut ==> k == |script| && Silent(script, from, k))
    ensures !cut && read.Silence? ==> k == from + retry && Silent(script, from, k)
    ensures !cut && !read.Silence? ==> from < k <= from + retry && Silent(script, from, k - 1) && script[k - 1] == read
  {
    read, k, cut := Silence, from, false;
    for i := 0 to retry
      invariant from + i == k <= |script| && Silent(script, from, k)
    {
      if k == |script| {
        cut := true;
        return;
      }
      k := k + 1;
      if !script[k - 1].Silence? {
        read := script[k - 1];
        return;
      }
    }
  }

  lemma {:induction false} AskingOn(job: Job, script: seq<Read>, from: nat, to: nat)
    requires from <= to <= |script| && Silent(script, from, to)
    ensures Asking(job, script, to) == Asking(job, script, from)
  {
    if from < to {
      AskingOn(job, script, from, to - 1);
    }
  }

  /** The transaction around the read of one block: reads until the answer is for this block. */
  method ReadBlock(job: Job, script: seq<Read>, from: nat, addr: nat, retry: nat)
    returns (heard: bool, k: nat, cut: bool)
    requires from <= |script| && addr == Asking(job, script, from)
    ensures from <= k <= |script| && (cut ==> k == |script|)
    ensures !cut && heard ==> Asking(job, script, k) == addr + BLOCK_SIZE
    ensures !cut && !heard ==> FailedReads(script, addr, from, k, retry, retry)
  {
    heard, k, cut := false, from, false;
    for i := 0 to retry
      invariant from <= k <= |script| && addr == Asking(job, script, k)
      invariant FailedReads(script, addr, from, k, i, retry)
    {
      var begun := k;
      var read;
      read, k, cut := ReadProgramCode(script, begun, retry);
      if cut {
        return;
      }
      AskingOn(job, script, begun, if read.Silence? then k else k - 1);
      if read.Code? && read.addr == addr {
        heard := true;
        return;
      }
      assert FailedRead(script, addr, begun, k, retry);
    }
  }

  /**
   `verify_code`, of a device whose memory is `flash`. Each entry of `script` is one wait; an answer may
   be a late one, for another block. A read that fails for good began at wait `begun`.
   */
  method VerifyCode(job: Job, flash: seq<byte>, retry: nat, script: seq<Read>)
    returns (result: Result<(), RpcError>, k: nat, cut: bool, ghost begun: nat)
    requires |flash| == SPACE && job.End() <= SPACE
    ensures begun <= k <= |script| && (cut ==> k == |script|)
    ensures !cut && result.Err? ==> !result.error.Posix?
    ensures !cut && result.Ok? ==> flash[job.codeStart..job.End()] == job.image
    ensures !cut && result == Err(Other) ==> flash[job.codeStart..job.End()] != job.image
    ensures !cut && result == Err(Transaction) ==>
      Asking(job, script, begun) < job.End() && FailedReads(script, Asking(job, script, begun), begun, k, retry, retry)
  {
    result, cut, begun := Ok(()), false, 0;
    AgreesOnAll(job, flash);
    k := 0;
    var addr := job.codeStart;
    while addr < job.End()
      invariant job.codeStart <= addr && begun <= k <= |script| && result.Ok? && addr == Asking(job, script, k)
      invariant Agrees(job, flash, if addr < job.End() then addr else job.End())
    {
      var piece := job.Piece(addr - job.codeStart);
      PieceAgrees(job, flash, addr);
      var heard;
      begun := k;
      heard, k, cut := ReadBlock(job, script, k, addr, retry);
      if cut {
        return;
      }
      if !heard {
        result := Err(Transaction);
        return;
      }
      if ReadBack(flash, addr, |piece|) != piece {
        result := Err(Other);
        return;
      }
      addr := addr + BLOCK_SIZE;
    }
  }
}
