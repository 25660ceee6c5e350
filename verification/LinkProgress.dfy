/** What a node gets done: silence ends every exchange, and an undisturbed send succeeds. */
module LinkProgress {
  import opened Bytes
  import opened Clock
  import opened Link
  import opened LinkRuns

  // ---- silence ----

  /** A pause that outlasts the packet timeout and the longest fair wait, and that the counter can measure. */
  predicate Long(cfg: Config, pause: int) {
    cfg.byteTime * cfg.packetTimeout < pause && cfg.byteTime * 6 < pause < WRAP
  }

  /** The event that ends the exchange a node is in. */
  function Closing(s: Status): seq<Event> {
    match s
    case Receiving => [ReceiveEnd]
    case Sending => [SendEnd]
    case Collision => [CollisionEnd]
    case _ => []
  }

  function Polled(cfg: Config, n: Node, pause: nat, rnd: byte): Node
    requires n.pc.Main?
  {
    Step(cfg, Step(cfg, n, Tick(pause)), Poll(rnd))
  }

  lemma {:induction false} LongIsExceeded(cfg: Config, n: Node)
    requires Control(cfg, n) && Long(cfg, n.now - n.lastAt)
    ensures SliceExceeded(cfg, n)
  {
    MeasuredBounds(n.lastAt, n.now);
    if n.status.Fairwait? {
      TimesMonotone(cfg.byteTime, n.wi, 6);
    }
  }

  /** A node in an exchange leaves it at a poll after a long silence; one in no exchange becomes idle. */
  lemma {:induction false} PollEndsExchange(cfg: Config, n: Node, pause: nat, rnd: byte)
    requires Invariant(cfg, n) && n.pc.Main? && Long(cfg, n.now + pause - n.lastAt)
    ensures
      var m := Polled(cfg, n, pause, rnd);
      && Events(m.log) == Events(n.log) + Closing(n.status) && m.pc.Main?
      && (m.status.Idle? || (m.status.Fairwait? && m.lastAt == m.now))
      && (Closing(n.status) == [] ==> m.status.Idle?)
  {
    ControlKept(cfg, n, Tick(pause));
    LongIsExceeded(cfg, Step(cfg, n, Tick(pause)));
  }

  /**
   In every reachable state outside of the send loop: after two long silences, with a poll after each, the
   node is idle, and the exchange it was in is closed with its last event.
   */
  lemma {:induction false} SilenceMakesIdle(cfg: Config, n: Node, pause: nat, rnd: byte, pause': nat, rnd': byte)
    requires Reachable(cfg, n) && n.pc.Main? && Long(cfg, n.now + pause - n.lastAt) && Long(cfg, pause')
    ensures
      var m := Polled(cfg, n, pause, rnd);
      && m.pc.Main?
      && Polled(cfg, m, pause', rnd').status.Idle?
      && Events(Polled(cfg, m, pause', rnd').log) == Events(n.log) + Closing(n.status)
  {
    ReachableInvariant(cfg, n);
    PollEndsExchange(cfg, n, pause, rnd);
    var m := Polled(cfg, n, pause, rnd);
    if m.status.Fairwait? {
      InvariantKept(cfg, n, Tick(pause));
      InvariantKept(cfg, Step(cfg, n, Tick(pause)), Poll(rnd));
      PollEndsExchange(cfg, m, pause', rnd');
    }
  }

  /**
   How long the fair wait is: as many byte times as the flags say, and after a reception up to two more, by chance.
   The node is idle exactly at the first poll after it.
   */
  lemma {:induction false} FairWaitIsExact(cfg: Config, n: Node, rnd: byte, pause: nat, rnd': byte)
    requires Reachable(cfg, n) && n.pc.Main? && !n.status.Fairwait? && Step(cfg, n, Poll(rnd)).status.Fairwait?
    ensures
      var m := Step(cfg, n, Poll(rnd));
      var extra := if n.status.Receiving? then rnd % 3 else 0;
      && m.pc.Main?
      && (Polled(cfg, m, pause, rnd').status.Idle? <==>
            Measured(n.now, n.now + pause) >= cfg.byteTime * (FairByteTimes(cfg) + extra))
  {
  }

  /** A sender whose echo stays out longer than the packet timeout notices at its next poll, and keeps the packet. */
  lemma {:induction false} LostEchoIsCollision(cfg: Config, n: Node, rnd: byte)
    requires Reachable(cfg, n) && AwaitsEcho(n)
    requires cfg.byteTime * cfg.packetTimeout < n.now - n.lastAt < WRAP
    ensures
      var m := Step(cfg, n, Poll(rnd));
      && m.status.Collision? && Events(m.log) == Events(n.log) + [CollisionStart, SendEnd]
      && Enabled(m, Abort) && m.toSend == n.toSend != []
  {
    ReachableInvariant(cfg, n);
    MeasuredBounds(n.lastAt, n.now);
    var h := Snoc(n.log, n.now, Notified(CollisionStart));
    assert Events(h) == Events(n.log) + [CollisionStart];
  }

  // ---- an undisturbed send ----

  /** How long the next byte takes to go out after the last activity, and its echo after that. */
  datatype Gap = Gap(put: nat, echo: nat)

  predicate Prompt(cfg: Config, g: Gap) {
    g.put + g.echo < cfg.byteTime * cfg.packetTimeout
  }

  /** The sender put the byte and heard it back, and nothing else happened. */
  function ByteRun(g: Gap, b: byte): seq<Action> {
    [Tick(g.put), SendNext, Tick(g.echo), Hear(b)]
  }

  function BytesRun(packet: seq<byte>, gaps: seq<Gap>, i: nat): seq<Action>
    requires i <= |packet| == |gaps|
    decreases |packet| - i
  {
    if i == |packet| then [] else ByteRun(gaps[i], packet[i]) + BytesRun(packet, gaps, i + 1)
  }

  /** The sender has put and heard `i` bytes, the last one just now. */
  predicate InLoop(n: Node, packet: seq<byte>, i: nat) {
    n.status.Sending? && n.pc == Loop(i) && n.wi == NOTHING && n.toSend == packet && n.lastAt == n.now && i <= |packet|
  }

  lemma {:induction false} ByteGoesOut(cfg: Config, n: Node, packet: seq<byte>, i: nat, g: Gap) returns (m: Node)
    requires InLoop(n, packet, i) && i < |packet| && Prompt(cfg, g)
    ensures ValidRun(cfg, n, ByteRun(g, packet[i])) && m == Run(cfg, n, ByteRun(g, packet[i]))
    ensures InLoop(m, packet, i + 1) && Events(m.log) == Events(n.log) && Loads(m.log) == Loads(n.log)
  {
    var run := ByteRun(g, packet[i]);
    var n1 := Step(cfg, n, Tick(g.put));
    var n2 := Step(cfg, n1, SendNext);
    var n3 := Step(cfg, n2, Tick(g.echo));
    MeasuredBounds(n3.lastAt, n3.now);
    m := Step(cfg, n3, Hear(packet[i]));
    assert Events(n2.log) == Events(n.log) && Loads(n2.log) == Loads(n.log);
    FourSteps(cfg, n, run, n1, n2, n3, m);
  }

  lemma {:induction false} FourSteps(cfg: Config, n: Node, run: seq<Action>, n1: Node, n2: Node, n3: Node, n4: Node)
    requires |run| == 4
    requires Enabled(n, run[0]) && n1 == Step(cfg, n, run[0]) && Enabled(n1, run[1]) && n2 == Step(cfg, n1, run[1])
    requires Enabled(n2, run[2]) && n3 == Step(cfg, n2, run[2]) && Enabled(n3, run[3]) && n4 == Step(cfg, n3, run[3])
    ensures ValidRun(cfg, n, run) && Run(cfg, n, run) == n4
  {
    var run1, run2, run3 := run[1..], run[2..], run[3..];
    assert run1[0] == run[1] && run1[1..] == run2 && run2[0] == run[2] && run2[1..] == run3 && run3[0] == run[3] && run3[1..] == [];
    assert ValidRun(cfg, n4, []) && Run(cfg, n4, []) == n4;
    assert ValidRun(cfg, n3, run3) && Run(cfg, n3, run3) == n4;
    assert ValidRun(cfg, n2, run2) && Run(cfg, n2, run2) == n4;
    assert ValidRun(cfg, n1, run1) && Run(cfg, n1, run1) == n4;
  }

  lemma {:induction false} BytesGoOut(cfg: Config, n: Node, packet: seq<byte>, gaps: seq<Gap>, i: nat) returns (m: Node)
    requires InLoop(n, packet, i) && |gaps| == |packet| && forall k :: 0 <= k < |gaps| ==> Prompt(cfg, gaps[k])
    ensures ValidRun(cfg, n, BytesRun(packet, gaps, i)) && m == Run(cfg, n, BytesRun(packet, gaps, i))
    ensures InLoop(m, packet, |packet|) && Events(m.log) == Events(n.log) && Loads(m.log) == Loads(n.log)
    decreases |packet| - i
  {
    m := n;
    if i < |packet| {
      var next := ByteGoesOut(cfg, n, packet, i, gaps[i]);
      m := BytesGoOut(cfg, next, packet, gaps, i + 1);
      RunsCompose(cfg, n, ByteRun(gaps[i], packet[i]), BytesRun(packet, gaps, i + 1));
    }
  }

  /** The whole send: it starts, every byte is echoed in time, and a poll after the silence ends it. */
  function CleanRun(packet: seq<byte>, gaps: seq<Gap>, pause: nat, rnd: byte): seq<Action>
    requires |packet| == |gaps|
  {
    [Start] + BytesRun(packet, gaps, 0) + [Finish, Tick(pause), Poll(rnd)]
  }

  lemma {:induction false} SendEnds(cfg: Config, n: Node, pause: nat, rnd: byte) returns (m: Node)
    requires InLoop(n, n.toSend, |n.toSend|) && Long(cfg, pause)
    ensures ValidRun(cfg, n, [Finish, Tick(pause), Poll(rnd)]) && m == Run(cfg, n, [Finish, Tick(pause), Poll(rnd)])
    ensures m.status.Fairwait? && m.toSend == [] && Events(m.log) == Events(n.log) + [SendEnd] && Loads(m.log) == Loads(n.log)
  {
    var run := [Finish, Tick(pause), Poll(rnd)];
    var n1 := Step(cfg, n, Finish);
    var n2 := Step(cfg, n1, Tick(pause));
    MeasuredBounds(n2.lastAt, n2.now);
    m := Step(cfg, n2, Poll(rnd));
    var run1, run2 := run[1..], run[2..];
    assert run1[0] == run[1] && run1[1..] == run2 && run2[0] == run[2] && run2[1..] == [];
    assert ValidRun(cfg, m, []) && Run(cfg, m, []) == m;
    assert ValidRun(cfg, n2, run2) && Run(cfg, n2, run2) == m;
    assert ValidRun(cfg, n1, run1) && Run(cfg, n1, run1) == m;
  }

  lemma {:induction false} SendBegins(cfg: Config, n: Node) returns (m: Node)
    requires n.status.Idle? && n.pc.Main? && n.toSend != []
    ensures ValidRun(cfg, n, [Start]) && m == Run(cfg, n, [Start])
    ensures InLoop(m, n.toSend, 0) && Events(m.log) == Events(n.log) + [SendStart] && Loads(m.log) == Loads(n.log)
  {
    m := Step(cfg, n, Start);
    assert [Start][1..] == [];
    assert ValidRun(cfg, m, []) && Run(cfg, m, []) == m;
  }

  lemma {:induction false} UndisturbedSend(cfg: Config, n: Node, gaps: seq<Gap>, pause: nat, rnd: byte)
    requires Invariant(cfg, n) && n.status.Idle? && n.pc.Main? && n.toSend != []
    requires |gaps| == |n.toSend| && Long(cfg, pause) && forall k :: 0 <= k < |gaps| ==> Prompt(cfg, gaps[k])
    ensures ValidRun(cfg, n, CleanRun(n.toSend, gaps, pause, rnd))
    ensures
      var m := Run(cfg, n, CleanRun(n.toSend, gaps, pause, rnd));
      && m.status.Fairwait? && m.toSend == [] && CleanSends(m.log) == CleanSends(n.log) + [n.toSend]
      && Events(m.log) == Events(n.log) + [SendStart, SendEnd]
  {
    var packet := n.toSend;
    var n1 := SendBegins(cfg, n);
    var n2 := BytesGoOut(cfg, n1, packet, gaps, 0);
    var n3 := SendEnds(cfg, n2, pause, rnd);
    RunsCompose(cfg, n, [Start], BytesRun(packet, gaps, 0));
    RunsCompose(cfg, n, [Start] + BytesRun(packet, gaps, 0), [Finish, Tick(pause), Poll(rnd)]);
    InvariantAlong(cfg, n, CleanRun(packet, gaps, pause, rnd));
    assert CleanSends(n3.log) + [] == CleanSends(n3.log);
  }

  /**
   A node that may send, does, and hears each byte back within the packet timeout has sent its packet
   cleanly after the silence, with the two events of an undisturbed send, and can take the next one.
   */
  lemma {:induction false} UndisturbedSendSucceeds(cfg: Config, n: Node, gaps: seq<Gap>, pause: nat, rnd: byte)
    requires Reachable(cfg, n) && n.status.Idle? && n.pc.Main? && n.toSend != []
    requires |gaps| == |n.toSend| && Long(cfg, pause) && forall k :: 0 <= k < |gaps| ==> Prompt(cfg, gaps[k])
    ensures ValidRun(cfg, n, CleanRun(n.toSend, gaps, pause, rnd))
    ensures
      var m := Run(cfg, n, CleanRun(n.toSend, gaps, pause, rnd));
      && m.status.Fairwait? && m.toSend == [] && CleanSends(m.log) == CleanSends(n.log) + [n.toSend]
      && Events(m.log) == Events(n.log) + [SendStart, SendEnd]
  {
    ReachableInvariant(cfg, n);
    UndisturbedSend(cfg, n, gaps, pause, rnd);
  }
}
