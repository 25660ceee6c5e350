/**
 Uploading code: the client retries its requests over a channel that may lose, delay and repeat
 both the requests and the answers, while the device obeys whatever reaches it.
 */
module Upload {
  import opened Arithmetic
  import opened Bytes
  import opened Flash

  const BLOCK_SIZE: nat := 32

  /** The path of the called function, which is how an answer is paired with a request. */
  function Function(req: Request): nat {
    match req
    case GetStage => 0
    case StartFlash => 1
    case GetNextAddress => 2
    case PushCode(_) => 3
    case CommitFlash => 4
  }

  datatype Answer = Answer(path: nat, reply: Reply)

  /** All requests and answers ever sent are still on their way, and may arrive any number of times. */
  datatype World = World(dev: Device, sent: set<Request>, answers: set<Answer>)

  /** Start requests are all delivered, or lost, before the first push or commit is sent. */
  predicate StartsOver(w: World) {
    exists req :: req in w.sent && (req.PushCode? || req.CommitFlash?)
  }

  function Deliver(w: World, req: Request): (r: World)
    requires IsDevice(w.dev)
    ensures IsDevice(r.dev)
  {
    if req !in w.sent || (req.StartFlash? && StartsOver(w)) then w
    else
      var (dev, reply) := Handle(w.dev, req);
      w.(dev := dev, answers := w.answers + {Answer(Function(req), reply)})
  }

  function DeliverAll(w: World, reqs: seq<Request>): (r: World)
    requires IsDevice(w.dev)
    ensures IsDevice(r.dev)
    decreases |reqs|
  {
    if reqs == [] then w else DeliverAll(Deliver(w, reqs[0]), reqs[1..])
  }

  function Send(w: World, req: Request): World {
    w.(sent := w.sent + {req})
  }

  /** The code to be uploaded, and the device as the reset left it. */
  datatype Job = Job(reset: Device, codeStart: nat, image: seq<byte>)
  {
    function App(): word {
      reset.appStart
    }

    function End(): nat {
      codeStart + |image|
    }

    predicate Valid() {
      && IsDevice(reset) && !reset.flashing && reset.addr == 0 && reset.writes == []
      && FIRST_PAGE <= App() <= LAST_PAGE && Rem(App(), reset.pageSize) == 0
      && (codeStart == App() ==> InWindow(App(), End(), reset.pageSize))
    }

    /** The device in the flashing stage, before the first push. */
    function Started(): Device {
      reset.(flashing := true, addr := App())
    }

    /** At most 32 bytes of the image. */
    function Piece(offset: nat): seq<byte>
      requires offset <= |image|
    {
      var length := if offset + BLOCK_SIZE < |image| then BLOCK_SIZE else |image| - offset;
      seq(length, i requires 0 <= i < length => image[offset + i])
    }
  }

  /** A push carries the piece of the image that belongs at its address. */
  predicate GoodPush(job: Job, payload: seq<byte>) {
    && |payload| >= 2
    && var a := AddressOf(payload);
    job.codeStart == job.App() && job.codeStart <= a < job.End() && payload[2..] == job.Piece(a - job.codeStart)
  }

  predicate Begun(dev: Device) {
    dev.addr != 0
  }

  /** The device has taken a prefix of the image, each byte once, and nothing else. */
  predicate Flashing(job: Job, dev: Device)
    requires job.Valid()
  {
    && dev.flashing
    && job.App() <= dev.addr <= job.App() + |job.image|
    && dev == Fill(job.Started(), job.image[..dev.addr - job.App()])
  }

  /** The device has taken the whole image and committed it. */
  predicate Committed(job: Job, dev: Device)
    requires job.Valid()
  {
    && !dev.flashing && job.codeStart == job.App() && dev.addr == job.End()
    && dev == Commit(Fill(job.Started(), job.image))
  }

  /** An answer is true of the device, now and later. The error numbers are those of `errno.h`. */
  predicate GoodAnswer(job: Job, dev: Device, a: Answer)
    requires job.Valid()
  {
    match a.path
    case 0 => a.reply == Stage(0) || (a.reply == Stage(1) && Begun(dev))
    case 1 => (a.reply == Done || a.reply == Errno(114)) && Begun(dev)
    case 2 => a.reply.Address? && job.App() <= a.reply.addr <= dev.addr
    case 3 =>
      || a.reply == Errno(6) || (a.reply == Errno(107) && Committed(job, dev))
      || (a.reply.Pushed? && job.App() <= a.reply.next <= dev.addr)
    case 4 => (a.reply == Done || a.reply == Errno(77)) && Committed(job, dev)
    case _ => false
  }

  predicate GoodRequest(job: Job, dev: Device, req: Request) {
    match req
    case GetNextAddress => Begun(dev)
    case PushCode(payload) => Begun(dev) && GoodPush(job, payload)
    case CommitFlash => Begun(dev) && job.codeStart == job.App() && dev.addr == job.End()
    case _ => true
  }

  predicate GoodDevice(job: Job, dev: Device)
    requires job.Valid()
  {
    IsDevice(dev) && (dev == job.reset || Flashing(job, dev) || Committed(job, dev))
  }

  /** What holds at every moment of an upload. */
  predicate Sound(job: Job, w: World)
    requires job.Valid()
  {
    && GoodDevice(job, w.dev)
    && (forall req :: req in w.sent ==> GoodRequest(job, w.dev, req))
    && (forall a :: a in w.answers ==> GoodAnswer(job, w.dev, a))
    && (!StartsOver(w) ==> w.dev == job.reset || w.dev == job.Started())
    && (Committed(job, w.dev) ==> CommitFlash in w.sent)
  }

  // ---- the device obeys one request ----

  lemma {:induction false} PieceExtends(job: Job, taken: nat)
    requires taken < |job.image|
    ensures 0 < |job.Piece(taken)| <= |job.image| - taken
    ensures job.image[..taken] + job.Piece(taken) == job.image[..taken + |job.Piece(taken)|]
  {
  }

  /** Filling on with more of the image is still filling with a prefix of the image. */
  lemma {:induction false} PrefixTaken(job: Job, dev: Device, taken: nat, piece: seq<byte>)
    requires job.Valid() && taken + |piece| <= |job.image| && job.App() + |job.image| < SPACE
    requires dev == Fill(job.Started(), job.image[..taken]) && dev.flashing && dev.addr == job.App() + taken
    requires job.image[..taken] + piece == job.image[..taken + |piece|]
    ensures Flashing(job, Fill(dev, piece)) && Fill(dev, piece).addr == dev.addr + |piece|
  {
    FillConcat(job.Started(), job.image[..taken], piece);
    FillMoves(dev, piece);
  }

  lemma {:induction false} PieceTaken(job: Job, dev: Device, taken: nat)
    requires job.Valid() && Flashing(job, dev) && job.codeStart == job.App()
    requires dev.addr == job.App() + taken && taken < |job.image|
    ensures Flashing(job, Fill(dev, job.Piece(taken))) && dev.addr < Fill(dev, job.Piece(taken)).addr
  {
    PieceExtends(job, taken);
    PrefixTaken(job, dev, taken, job.Piece(taken));
  }

  lemma {:induction false} FillMoves(d: Device, code: seq<byte>)
    requires IsDevice(d) && d.addr + |code| < SPACE
    ensures Fill(d, code).addr == d.addr + |code| && Fill(d, code).flashing == d.flashing
    ensures Fill(d, code).pageSize == d.pageSize && Fill(d, code).appStart == d.appStart
  {
    if code != [] {
      FillMoves(d, code[..|code| - 1]);
      FillByteMoves(Fill(d, code[..|code| - 1]), code[|code| - 1]);
    }
  }

  lemma {:induction false} FillByteMoves(d: Device, b: byte)
    requires IsDevice(d) && d.addr + 1 < SPACE
    ensures FillByte(d, b).addr == d.addr + 1 && FillByte(d, b).flashing == d.flashing
    ensures FillByte(d, b).pageSize == d.pageSize && FillByte(d, b).appStart == d.appStart
  {
  }

  /** What was known of the device stays true of it. */
  predicate Grown(before: Device, after: Device) {
    && before.addr <= after.addr
    && (Begun(before) ==> Begun(after))
  }

  /** The device after a request, and what it answered, are as they should be. */
  predicate Obeyed(job: Job, dev: Device, req: Request)
    requires job.Valid() && IsDevice(dev)
  {
    var (after, reply) := Handle(dev, req);
    && GoodDevice(job, after) && GoodAnswer(job, after, Answer(Function(req), reply)) && Grown(dev, after)
    && (Committed(job, dev) ==> after == dev) && (Committed(job, after) && !Committed(job, dev) ==> req.CommitFlash?)
    && (dev.addr == job.End() && job.codeStart == job.App() && Begun(dev) ==> after.addr == job.End())
  }

  lemma {:induction false} StartObeyed(job: Job, dev: Device)
    requires job.Valid() && (dev == job.reset || dev == job.Started())
    ensures Obeyed(job, dev, StartFlash)
  {
    assert job.image[..0] == [];
  }

  lemma {:induction false} PushObeyed(job: Job, dev: Device, payload: seq<byte>)
    requires job.Valid() && GoodDevice(job, dev) && GoodRequest(job, dev, PushCode(payload))
    ensures Obeyed(job, dev, PushCode(payload))
  {
    PieceExtends(job, AddressOf(payload) - job.codeStart);
    if Handle(dev, PushCode(payload)).1.Pushed? {
      AddressRoundTrip(payload, dev.addr);
      PushTaken(job, dev, payload, Handle(dev, PushCode(payload)).0);
    }
  }

  lemma {:induction false} PushTaken(job: Job, dev: Device, payload: seq<byte>, after: Device)
    requires job.Valid() && Flashing(job, dev) && IsDevice(dev) && job.codeStart == job.App()
    requires GoodPush(job, payload) && AddressOf(payload) == dev.addr && after == Fill(dev, payload[2..])
    ensures GoodDevice(job, after) && Flashing(job, after) && job.App() <= dev.addr < after.addr && dev.addr < job.End()
  {
    PieceTaken(job, dev, dev.addr - job.App());
  }

  lemma {:induction false} CommitObeyed(job: Job, dev: Device)
    requires job.Valid() && GoodDevice(job, dev) && GoodRequest(job, dev, CommitFlash)
    ensures Obeyed(job, dev, CommitFlash)
  {
    var (after, reply) := Handle(dev, CommitFlash);
    if reply.Done? {
      assert job.image[..|job.image|] == job.image;
    }
  }

  lemma {:induction false} DeviceKept(job: Job, w: World, req: Request)
    requires job.Valid() && Sound(job, w) && req in w.sent && (req.StartFlash? ==> !StartsOver(w))
    ensures Obeyed(job, w.dev, req)
  {
    assert GoodRequest(job, w.dev, req);
    match req
    case StartFlash => StartObeyed(job, w.dev);
    case PushCode(payload) => PushObeyed(job, w.dev, payload);
    case CommitFlash => CommitObeyed(job, w.dev);
    case _ =>
  }

  lemma {:induction false} DeliverKept(job: Job, w: World, req: Request)
    requires job.Valid() && Sound(job, w)
    ensures Sound(job, Deliver(w, req)) && Grown(w.dev, Deliver(w, req).dev) && Deliver(w, req).sent == w.sent
  {
    if req in w.sent && (req.StartFlash? ==> !StartsOver(w)) {
      DeviceKept(job, w, req);
      var m := Deliver(w, req);
      forall r | r in m.sent ensures GoodRequest(job, m.dev, r) {
        assert GoodRequest(job, w.dev, r);
      }
      forall a | a in m.answers ensures GoodAnswer(job, m.dev, a) {
        assert a in w.answers ==> GoodAnswer(job, w.dev, a);
      }
    }
  }

  lemma {:induction false} DeliverAllKept(job: Job, w: World, reqs: seq<Request>)
    requires job.Valid() && Sound(job, w)
    ensures Sound(job, DeliverAll(w, reqs)) && Grown(w.dev, DeliverAll(w, reqs).dev)
    ensures DeliverAll(w, reqs).sent == w.sent
    decreases |reqs|
  {
    if reqs != [] {
      DeliverKept(job, w, reqs[0]);
      DeliverAllKept(job, Deliver(w, reqs[0]), reqs[1..]);
    }
  }

  lemma {:induction false} DeliverAllSent(w: World, reqs: seq<Request>)
    requires IsDevice(w.dev)
    ensures DeliverAll(w, reqs).sent == w.sent
    decreases |reqs|
  {
    if reqs != [] {
      DeliverAllSent(Deliver(w, reqs[0]), reqs[1..]);
    }
  }

  lemma {:induction false} SendKept(job: Job, w: World, req: Request)
    requires job.Valid() && Sound(job, w) && GoodRequest(job, w.dev, req)
    ensures Sound(job, Send(w, req))
  {
    var m := Send(w, req);
    assert forall r :: r in w.sent ==> r in m.sent;
    assert StartsOver(w) ==> StartsOver(m);
  }

  // ---- what the device answers ----

  /**
   The answers of a device in each of its states during an upload, with the numbers of `errno.h`: a push is
   taken exactly at the device's address, and at any other address it is refused with 6 and changes nothing.
   */
  lemma {:induction false} AnswersInStage(job: Job, dev: Device, payload: seq<byte>)
    requires job.Valid() && Flashing(job, dev) && IsDevice(dev) && GoodPush(job, payload)
    ensures Handle(dev, GetStage) == (dev, Stage(1)) && Handle(dev, GetNextAddress) == (dev, Address(dev.addr))
    ensures Handle(dev, StartFlash).1 == Errno(114) && Handle(dev, CommitFlash).1 == Done
    ensures
      var (after, reply) := Handle(dev, PushCode(payload));
      if AddressOf(payload) == dev.addr then
        after.addr == dev.addr + |payload| - 2 && reply == Pushed(after.addr)
      else
        after == dev && reply == Errno(6)
  {
    PieceExtends(job, AddressOf(payload) - job.codeStart);
    if AddressOf(payload) == dev.addr {
      AddressRoundTrip(payload, dev.addr);
      FillMoves(dev, payload[2..]);
    }
  }

  lemma {:induction false} AnswersOutsideStage(job: Job, dev: Device, payload: seq<byte>)
    requires job.Valid() && (dev == job.reset || Committed(job, dev)) && IsDevice(dev)
    ensures Handle(dev, GetStage) == (dev, Stage(0)) && Handle(dev, GetNextAddress) == (dev, Address(dev.addr))
    ensures Handle(dev, StartFlash).1 == Done && Handle(dev, StartFlash).0 == dev.(flashing := true, addr := dev.appStart)
    ensures Handle(dev, PushCode(payload)) == (dev, Errno(107)) && Handle(dev, CommitFlash) == (dev, Errno(77))
  {
  }

  // ---- what the invariant gives ----

  lemma {:induction false} PushIsGood(job: Job, addr: word)
    requires job.codeStart == job.App() <= addr < job.End()
    ensures GoodPush(job, AddressBytes(addr) + job.Piece(addr - job.codeStart))
  {
    var payload := AddressBytes(addr) + job.Piece(addr - job.codeStart);
    assert payload[2..] == job.Piece(addr - job.codeStart);
    AddressRoundTrip(payload, addr);
  }

  /** At every moment of an upload the device holds exactly a prefix of the image, staged in order. */
  lemma {:induction false} FlashingIsStaged(job: Job, dev: Device)
    requires job.Valid() && Flashing(job, dev) && (job.codeStart == job.App() || dev == job.Started())
    ensures dev.pageSize == job.reset.pageSize && dev.appStart == job.App()
    ensures IsDevice(dev) && Staged(dev, job.reset.flash, job.App(), job.image[..dev.addr - job.App()])
  {
    var staged := StageFrom(job.Started(), job.image[..dev.addr - job.App()]);
  }

  /** The memory has the image in its place, and is the old one outside of the pages of the image. */
  predicate HoldsImage(job: Job, dev: Device)
    requires job.Valid()
  {
    && IsDevice(dev) && job.codeStart == job.App() && dev.addr == job.End() <= EndOfPages(dev) <= SPACE
    && dev.flash[..job.End()] == job.reset.flash[..job.App()] + job.image
    && dev.flash[EndOfPages(dev)..] == job.reset.flash[EndOfPages(dev)..]
  }

  lemma {:induction false} CommitHoldsImage(job: Job, staged: Device)
    requires job.Valid() && Flashing(job, staged) && job.codeStart == job.App() && staged.addr == job.End()
    ensures IsDevice(staged) && HoldsImage(job, Commit(staged))
  {
    assert job.image[..|job.image|] == job.image;
    FlashingIsStaged(job, staged);
    CommitOfStaged(job, staged);
  }

  lemma {:induction false} CommitOfStaged(job: Job, staged: Device)
    requires job.Valid() && IsDevice(staged) && staged.pageSize == job.reset.pageSize
    requires job.codeStart == job.App() && staged.addr == job.End()
    requires Staged(staged, job.reset.flash, job.App(), job.image)
    ensures HoldsImage(job, Commit(staged))
  {
    CommitStores(staged, job.reset.flash, job.App(), job.image);
    CommitKeepsAddress(staged);
  }

  lemma {:induction false} CommitKeepsAddress(dev: Device)
    requires IsDevice(dev)
    ensures Commit(dev).addr == dev.addr && EndOfPages(Commit(dev)) == EndOfPages(dev)
  {
  }

  lemma {:induction false} CommittedHoldsImage(job: Job, dev: Device)
    requires job.Valid() && Committed(job, dev)
    ensures HoldsImage(job, dev)
  {
    assert job.image[..|job.image|] == job.image;
    FillMoves(job.Started(), job.image);
    CommitHoldsImage(job, Fill(job.Started(), job.image));
  }
}
