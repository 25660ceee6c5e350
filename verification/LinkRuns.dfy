/** What holds at every moment of every run of a node. */
module LinkRuns {
  import opened Bytes
  import opened Clock
  import opened Link

  /** The history of a byte heard by a sending node, up to each entry of the collision it may cause. */
  function AfterHeard(n: Node, data: word): History {
    Snoc(n.log, n.now, Heard(data, n.status.Connecting?))
  }

  function AfterCollisionStart(n: Node, data: word): History {
    Snoc(AfterHeard(n, data), n.now, Notified(CollisionStart))
  }

  function AfterCollidedSend(n: Node, data: word): History {
    Snoc(AfterCollisionStart(n, data), n.now, Notified(SendEnd))
  }

  // ---- control ----

  /** How the registers, the program counter and the status fit together. */
  predicate Control(cfg: Config, n: Node) {
    && n.lastAt <= n.now
    && (n.status.Fairwait? ==> FairwaitCycles(cfg) <= n.wi <= FairwaitCycles(cfg) + 2)
    && (n.pc.Loop? ==> (n.status.Sending? || n.status.Collision?) && n.pc.i <= |n.toSend|)
    && (n.status.Sending? || n.status.Collision? ==> n.toSend != [])
  }

  lemma {:induction false} ControlKept(cfg: Config, n: Node, a: Action)
    requires Control(cfg, n) && Enabled(n, a)
    ensures Control(cfg, Step(cfg, n, a))
  {
  }

  // ---- echo ----

  /** A sending node has heard exactly what it sent, up to the byte whose echo it waits for. */
  predicate Echo(n: Node) {
    n.status.Sending? ==>
      var heard, put := HeardSinceStart(n.log), PutSinceStart(n.log);
      match n.pc
      case Main => n.wi == NOTHING && heard == n.toSend && put == n.toSend
      case Loop(i) =>
        && i <= |n.toSend|
        && put == n.toSend[..i]
        && if n.wi == NOTHING then heard == n.toSend[..i]
           else 0 < i && n.wi == n.toSend[i - 1] && heard == n.toSend[..i - 1]
  }

  lemma {:induction false} EchoKept(cfg: Config, n: Node, a: Action)
    requires Control(cfg, n) && Echo(n) && Enabled(n, a)
    ensures Echo(Step(cfg, n, a))
  {
    if n.pc.Loop? {
      var i := n.pc.i;
      assert 0 < i ==> n.toSend[..i] == n.toSend[..i - 1] + [n.toSend[i - 1]];
      assert n.toSend[..|n.toSend|] == n.toSend;
      assert i < |n.toSend| ==> n.toSend[..i + 1] == n.toSend[..i] + [n.toSend[i]];
    }
  }

  /** Every send in `h` that ended without collision was heard, and sent, exactly as loaded. */
  predicate EchoedSends(h: History) {
    match h
    case Empty => true
    case Snoc(p, _, Notified(SendEnd)) =>
      && EchoedSends(p)
      && (!JustCollided(p) ==>
            Loads(p) != [] && HeardSinceStart(p) == PutSinceStart(p) == Loads(p)[|Loads(p)| - 1])
    case Snoc(p, _, _) => EchoedSends(p)
  }

  // ---- retransmission ----

  /** The packet the node still has to send. */
  function Pending(n: Node): seq<seq<byte>> {
    if n.toSend == [] then [] else [n.toSend]
  }

  /** What was loaded is what went out cleanly, in the same order, followed by what is pending. */
  predicate Conserved(n: Node) {
    Loads(n.log) == CleanSends(n.log) + Pending(n) && !JustCollided(n.log)
  }

  lemma {:induction false} SendsHeard(cfg: Config, n: Node, data: word)
    requires Control(cfg, n) && Echo(n) && Conserved(n) && EchoedSends(n.log)
    ensures Conserved(RecByte(cfg, n, data)) && EchoedSends(RecByte(cfg, n, data).log)
  {
    var h1, h2, h3 := AfterHeard(n, data), AfterCollisionStart(n, data), AfterCollidedSend(n, data);
    assert EchoedSends(h1) && EchoedSends(h2) && EchoedSends(h3);
    assert Loads(h1) == Loads(h2) == Loads(h3);
    assert CleanSends(h1) == CleanSends(h2) == CleanSends(h3);
  }

  lemma {:induction false} SendsPolled(cfg: Config, n: Node, rnd: byte)
    requires Control(cfg, n) && Echo(n) && Conserved(n) && EchoedSends(n.log) && Enabled(n, Poll(rnd))
    ensures Conserved(UpdateState(cfg, n, rnd)) && EchoedSends(UpdateState(cfg, n, rnd).log)
  {
    var m := UpdateState(cfg, n, rnd);
    assert CleanSends(m.log) + [] == CleanSends(m.log);
  }

  lemma {:induction false} SendsKept(cfg: Config, n: Node, a: Action)
    requires Control(cfg, n) && Echo(n) && Conserved(n) && EchoedSends(n.log) && Enabled(n, a)
    ensures Conserved(Step(cfg, n, a)) && EchoedSends(Step(cfg, n, a).log)
  {
    match a
    case Hear(data) => SendsHeard(cfg, n, data);
    case Poll(rnd) => SendsPolled(cfg, n, rnd);
    case _ =>
      var m := Step(cfg, n, a);
      assert CleanSends(m.log) + [] == CleanSends(m.log);
  }

  // ---- trace grammar ----

  /** A complete use of the bus, as the events tell it. */
  datatype Exchange = Reception | Transmission | CollidedTransmission

  function EventsOf(x: Exchange): seq<Event> {
    match x
    case Reception => [ReceiveStart, ReceiveEnd]
    case Transmission => [SendStart, SendEnd]
    case CollidedTransmission => [SendStart, CollisionStart, SendEnd, CollisionEnd]
  }

  function Flatten(xs: seq<Exchange>): seq<Event> {
    if xs == [] then [] else Flatten(xs[..|xs| - 1]) + EventsOf(xs[|xs| - 1])
  }

  /** The events of the exchange that is going on. */
  function OpenPart(s: Status): seq<Event> {
    match s
    case Receiving => [ReceiveStart]
    case Sending => [SendStart]
    case Collision => [SendStart, CollisionStart, SendEnd]
    case _ => []
  }

  ghost predicate Grammar(n: Node) {
    exists xs :: Events(n.log) == Flatten(xs) + OpenPart(n.status)
  }

  lemma {:induction false} GrammarHeard(cfg: Config, n: Node, data: word, xs: seq<Exchange>)
    requires Events(n.log) == Flatten(xs) + OpenPart(n.status)
    ensures Events(RecByte(cfg, n, data).log) == Flatten(xs) + OpenPart(RecByte(cfg, n, data).status)
  {
    var h1, h2, h3 := AfterHeard(n, data), AfterCollisionStart(n, data), AfterCollidedSend(n, data);
    assert Events(h1) == Events(n.log);
    if n.status.Sending? || n.status.Collision? {
      assert Events(h2) == Events(n.log) + [CollisionStart];
      assert Events(h3) == Events(h2) + [SendEnd];
    }
  }

  lemma {:induction false} GrammarPolled(cfg: Config, n: Node, rnd: byte, xs: seq<Exchange>) returns (ys: seq<Exchange>)
    requires Events(n.log) == Flatten(xs) + OpenPart(n.status)
    ensures Events(UpdateState(cfg, n, rnd).log) == Flatten(ys) + OpenPart(UpdateState(cfg, n, rnd).status)
  {
    var m := UpdateState(cfg, n, rnd);
    ys := xs;
    if m.status.Fairwait? && !n.status.Fairwait? {
      match n.status
      case Receiving =>
        ys := Completes(xs, Reception, [ReceiveStart], ReceiveEnd);
      case Sending =>
        ys := Completes(xs, Transmission, [SendStart], SendEnd);
      case Collision =>
        ys := Completes(xs, CollidedTransmission, [SendStart, CollisionStart, SendEnd], CollisionEnd);
    } else if m.status.Collision? && n.status.Sending? {
      var h := Snoc(n.log, n.now, Notified(CollisionStart));
      assert Events(h) == Events(n.log) + [CollisionStart];
    }
  }

  /** With its last event the open exchange is one of the complete ones. */
  lemma {:induction false} Completes(xs: seq<Exchange>, x: Exchange, open: seq<Event>, last: Event) returns (ys: seq<Exchange>)
    requires EventsOf(x) == open + [last]
    ensures Flatten(xs) + open + [last] == Flatten(ys) + []
  {
    ys := xs + [x];
    assert ys[..|ys| - 1] == xs;
    assert Flatten(ys) == Flatten(xs) + (open + [last]);
  }

  lemma {:induction false} GrammarKept(cfg: Config, n: Node, a: Action)
    requires Control(cfg, n) && Grammar(n) && Enabled(n, a)
    ensures Grammar(Step(cfg, n, a))
  {
    var xs :| Events(n.log) == Flatten(xs) + OpenPart(n.status);
    var m := Step(cfg, n, a);
    match a
    case Hear(data) =>
      GrammarHeard(cfg, n, data, xs);
    case Poll(rnd) =>
      var ys := GrammarPolled(cfg, n, rnd, xs);
    case _ =>
      assert Events(m.log) == Flatten(xs) + OpenPart(m.status);
  }

  // ---- fairness ----

  /** The byte times that the two flags ask a node to wait for after an exchange. */
  function FairByteTimes(cfg: Config): nat {
    match (cfg.fairwaitHigh, cfg.fairwaitLow)
    case (false, false) => 1
    case (false, true) => 2
    case (true, false) => 3
    case (true, true) => 4
  }

  /** The silence a node must see before it may send. */
  function Silence(cfg: Config): nat {
    cfg.byteTime * cfg.packetTimeout + cfg.byteTime * FairByteTimes(cfg)
  }

  /** How long ago the last byte was, in the worst case, in each status. */
  predicate Quiet(cfg: Config, n: Node) {
    match LastHeard(n.log)
    case None => true
    case Some(heard) =>
      match n.status
      case Connecting => false
      case Fairwait => heard + cfg.byteTime * cfg.packetTimeout <= n.lastAt
      case Idle => heard + Silence(cfg) <= n.lastAt
      case _ => heard <= n.lastAt
  }

  /** Every send in `h` began at least `Silence` after the byte before it. */
  predicate FairSends(cfg: Config, h: History) {
    match h
    case Empty => true
    case Snoc(p, at, Notified(SendStart)) =>
      FairSends(cfg, p) && (LastHeard(p).Some? ==> LastHeard(p).value + Silence(cfg) <= at)
    case Snoc(p, _, _) => FairSends(cfg, p)
  }

  lemma {:induction false} TimesMonotone(k: nat, x: nat, y: nat)
    requires x <= y
    ensures k * x <= k * y
  {
  }

  lemma {:induction false} QuietHeard(cfg: Config, n: Node, data: word)
    requires Control(cfg, n) && Quiet(cfg, n) && FairSends(cfg, n.log)
    ensures Quiet(cfg, RecByte(cfg, n, data)) && FairSends(cfg, RecByte(cfg, n, data).log)
  {
    var h1, h2, h3 := AfterHeard(n, data), AfterCollisionStart(n, data), AfterCollidedSend(n, data);
    assert FairSends(cfg, h1) && FairSends(cfg, h2) && FairSends(cfg, h3);
    assert LastHeard(h1) == LastHeard(h2) == LastHeard(h3);
  }

  lemma {:induction false} QuietPolled(cfg: Config, n: Node, rnd: byte)
    requires Control(cfg, n) && Quiet(cfg, n) && FairSends(cfg, n.log)
    ensures Quiet(cfg, UpdateState(cfg, n, rnd)) && FairSends(cfg, UpdateState(cfg, n, rnd).log)
  {
    MeasuredBounds(n.lastAt, n.now);
    match n.status
    case Fairwait => TimesMonotone(cfg.byteTime, FairwaitCycles(cfg), n.wi);
    case Connecting =>
    case Idle =>
    case Receiving =>
    case Sending =>
    case Collision =>
  }

  lemma {:induction false} QuietKept(cfg: Config, n: Node, a: Action)
    requires Control(cfg, n) && Quiet(cfg, n) && FairSends(cfg, n.log) && Enabled(n, a)
    ensures Quiet(cfg, Step(cfg, n, a)) && FairSends(cfg, Step(cfg, n, a).log)
  {
    match a
    case Hear(data) => QuietHeard(cfg, n, data);
    case Poll(rnd) => QuietPolled(cfg, n, rnd);
    case _ =>
  }

  // ---- receptions ----

  /** Frames open and close in turn, with no other event in between; `receiving` tells whether one is open after `h`. */
  predicate Nested(h: History, receiving: bool) {
    match h
    case Empty => !receiving
    case Snoc(p, _, Notified(ReceiveStart)) => receiving && Nested(p, false)
    case Snoc(p, _, Notified(ReceiveEnd)) => !receiving && Nested(p, true)
    case Snoc(p, _, Notified(_)) => !receiving && Nested(p, false)
    case Snoc(p, _, _) => Nested(p, receiving)
  }

  lemma {:induction false} NestedKept(cfg: Config, n: Node, a: Action)
    requires Nested(n.log, n.status.Receiving?) && Enabled(n, a)
    ensures Nested(Step(cfg, n, a).log, Step(cfg, n, a).status.Receiving?)
  {
    if a.Hear? {
      var h1, h2, h3 := AfterHeard(n, a.data), AfterCollisionStart(n, a.data), AfterCollidedSend(n, a.data);
      assert Nested(h1, n.status.Receiving?);
      assert n.status.Sending? ==> Nested(h2, false) && Nested(h3, false);
    }
  }

  // ---- what the application gets to see ----

  /** A byte is reported inside of a frame, or when it was heard before the node was connected. */
  predicate NoStrayBytes(h: History) {
    match h
    case Empty => true
    case Snoc(p, _, Received(_)) =>
      NoStrayBytes(p) && (Nested(p, true) || (p.Snoc? && p.entry.Heard? && p.entry.connecting))
    case Snoc(p, _, _) => NoStrayBytes(p)
  }

  lemma {:induction false} NoStrayBytesKept(cfg: Config, n: Node, a: Action)
    requires cfg.skipCollisionData && Nested(n.log, n.status.Receiving?) && NoStrayBytes(n.log) && Enabled(n, a)
    ensures NoStrayBytes(Step(cfg, n, a).log)
  {
    if a.Hear? {
      var h1, h2, h3 := AfterHeard(n, a.data), AfterCollisionStart(n, a.data), AfterCollidedSend(n, a.data);
      assert NoStrayBytes(h1) && NoStrayBytes(h2) && NoStrayBytes(h3);
      assert Nested(h1, n.status.Receiving?);
      if Listens(n.status) {
        var h4 := Snoc(h1, n.now, Notified(ReceiveStart));
        assert NoStrayBytes(h4) && Nested(h4, true);
      }
    } else {
      var h := Snoc(n.log, n.now, Notified(CollisionStart));
      assert NoStrayBytes(h);
    }
  }

  predicate Listens(s: Status) {
    s.Idle? || s.Fairwait?
  }

  /** A byte that a listening or receiving node hears is the next byte of its frame. */
  lemma {:induction false} HeardIsReported(cfg: Config, n: Node, data: word)
    requires Listens(n.status) || n.status.Receiving?
    ensures
      var m := Step(cfg, n, Hear(data));
      m.status.Receiving? && OpenFrame(m.log) == (if n.status.Receiving? then OpenFrame(n.log) else []) + [data % 0x100]
  {
    var h := AfterHeard(n, data);
    assert OpenFrame(h) == OpenFrame(n.log);
    var g := Snoc(h, n.now, Notified(ReceiveStart));
    assert OpenFrame(g) == [];
  }

  // ---- every run ----

  ghost predicate Invariant(cfg: Config, n: Node) {
    && Control(cfg, n)
    && Echo(n)
    && EchoedSends(n.log)
    && Conserved(n)
    && Grammar(n)
    && Quiet(cfg, n)
    && FairSends(cfg, n.log)
    && Nested(n.log, n.status.Receiving?)
  }

  lemma {:induction false} InvariantKept(cfg: Config, n: Node, a: Action)
    requires Invariant(cfg, n) && Enabled(n, a)
    ensures Invariant(cfg, Step(cfg, n, a))
  {
    ControlKept(cfg, n, a);
    EchoKept(cfg, n, a);
    SendsKept(cfg, n, a);
    GrammarKept(cfg, n, a);
    QuietKept(cfg, n, a);
    NestedKept(cfg, n, a);
  }

  lemma {:induction false} InvariantAlong(cfg: Config, n: Node, run: seq<Action>)
    requires Invariant(cfg, n) && ValidRun(cfg, n, run)
    ensures Invariant(cfg, Run(cfg, n, run))
    decreases |run|
  {
    if run != [] {
      InvariantKept(cfg, n, run[0]);
      InvariantAlong(cfg, Step(cfg, n, run[0]), run[1..]);
    }
  }

  /** Runs compose. */
  lemma {:induction false} RunsCompose(cfg: Config, n: Node, run: seq<Action>, more: seq<Action>)
    requires ValidRun(cfg, n, run) && ValidRun(cfg, Run(cfg, n, run), more)
    ensures ValidRun(cfg, n, run + more) && Run(cfg, n, run + more) == Run(cfg, Run(cfg, n, run), more)
    decreases |run|
  {
    if run == [] {
      assert run + more == more;
    } else {
      assert (run + more)[1..] == run[1..] + more;
      RunsCompose(cfg, Step(cfg, n, run[0]), run[1..], more);
    }
  }

  lemma {:induction false} InvariantAtInit(cfg: Config, now: nat)
    ensures Invariant(cfg, Init(now))
  {
    assert Events(Empty) == Flatten([]) + OpenPart(Connecting);
  }

  /** The node as `run` leaves it, counted from power-on. */
  ghost predicate Reachable(cfg: Config, n: Node) {
    exists start: nat, run :: ValidRun(cfg, Init(start), run) && n == Run(cfg, Init(start), run)
  }

  lemma {:induction false} ReachableInvariant(cfg: Config, n: Node)
    requires Reachable(cfg, n)
    ensures Invariant(cfg, n)
  {
    var start: nat, run :| ValidRun(cfg, Init(start), run) && n == Run(cfg, Init(start), run);
    InvariantAtInit(cfg, start);
    InvariantAlong(cfg, Init(start), run);
  }

  /** Neither its own bytes nor the remains of a collision are reported to the application. */
  lemma {:induction false} OnlyFramesAreReported(cfg: Config, start: nat, run: seq<Action>)
    requires cfg.skipCollisionData && ValidRun(cfg, Init(start), run)
    ensures NoStrayBytes(Run(cfg, Init(start), run).log)
  {
    NoStrayAlong(cfg, Init(start), run);
  }

  lemma {:induction false} NoStrayAlong(cfg: Config, n: Node, run: seq<Action>)
    requires cfg.skipCollisionData && Nested(n.log, n.status.Receiving?) && NoStrayBytes(n.log) && ValidRun(cfg, n, run)
    ensures NoStrayBytes(Run(cfg, n, run).log)
    decreases |run|
  {
    if run != [] {
      NestedKept(cfg, n, run[0]);
      NoStrayBytesKept(cfg, n, run[0]);
      NoStrayAlong(cfg, Step(cfg, n, run[0]), run[1..]);
    }
  }

  /** A `send_end` without collision means that the wire carried the packet and nothing else. */
  lemma {:induction false} CleanSendWasHeard(cfg: Config, n: Node)
    requires Reachable(cfg, n)
    ensures EchoedSends(n.log)
  {
    ReachableInvariant(cfg, n);
  }

  /** Each loaded packet goes out cleanly once, in order; a collided one is repeated before the next. */
  lemma {:induction false} LoadedPacketsGoOutInOrder(cfg: Config, n: Node)
    requires Reachable(cfg, n)
    ensures Loads(n.log) == CleanSends(n.log) + (if n.toSend == [] then [] else [n.toSend])
  {
    ReachableInvariant(cfg, n);
  }

  /** The events are complete exchanges, followed by the one the status tells is going on. */
  lemma {:induction false} EventsAreExchanges(cfg: Config, n: Node)
    requires Reachable(cfg, n)
    ensures exists xs :: Events(n.log) == Flatten(xs) + OpenPart(n.status)
  {
    ReachableInvariant(cfg, n);
  }

  /** No send begins, and no node is idle, before the required silence has really passed. */
  lemma {:induction false} SendsAreFair(cfg: Config, n: Node)
    requires Reachable(cfg, n)
    ensures FairSends(cfg, n.log)
    ensures n.status.Idle? && LastHeard(n.log).Some? ==> LastHeard(n.log).value + Silence(cfg) <= n.now
  {
    ReachableInvariant(cfg, n);
  }
}
