/**
 Why the start requests must be over before the pushes: `blf_start_flash` resets the address of the device
 in any of its states. What is left of the image after such a start, and after any number of them, exactly.
 */
module LateStart {
  import opened Arithmetic
  import opened Bytes
  import opened Flash
  import opened Upload

  /** A device with this bootloader, in any state: idle, in the stage, or with a committed image. */
  predicate Ours(job: Job, dev: Device) {
    && job.Valid() && job.codeStart == job.App()
    && IsDevice(dev) && dev.pageSize == job.reset.pageSize && dev.appStart == job.App()
  }

  lemma {:induction false} UploadIsOurs(job: Job, dev: Device)
    requires job.Valid() && job.codeStart == job.App() && GoodDevice(job, dev)
    ensures Ours(job, dev)
  {
    if Flashing(job, dev) {
      FlashingIsStaged(job, dev);
    } else if Committed(job, dev) {
      FillKeeps(job.Started(), job.image);
    }
  }

  /** The device is being flashed with the image, and has taken some of it. */
  predicate InStage(job: Job, dev: Device) {
    job.Valid() && job.codeStart == job.App() && Flashing(job, dev)
  }

  lemma {:induction false} TakenIsStaged(job: Job, dev: Device)
    requires InStage(job, dev)
    ensures Ours(job, dev)
    ensures Staged(dev, job.reset.flash, job.App(), job.image[..dev.addr - job.App()])
    ensures job.App() <= PageOf(dev.addr, dev.pageSize) <= dev.addr <= job.End() <= SPACE
  {
    FlashingIsStaged(job, dev);
  }

  /** After a start request, the first `m` bytes of the image are taken. */
  function Again(job: Job, dev: Device, m: nat): (r: Device)
    requires IsDevice(dev) && m <= |job.image|
    ensures IsDevice(r)
  {
    Fill(Handle(dev, StartFlash).0, job.image[..m])
  }

  // ---- the log of page writes does not matter ----

  predicate Alike(d: Device, e: Device) {
    d.(writes := []) == e.(writes := [])
  }

  lemma {:induction false} FillByteAlike(d: Device, e: Device, b: byte)
    requires IsDevice(d) && IsDevice(e) && Alike(d, e)
    ensures Alike(FillByte(d, b), FillByte(e, b))
  {
  }

  lemma {:induction false} FillAlike(d: Device, e: Device, code: seq<byte>)
    requires IsDevice(d) && IsDevice(e) && Alike(d, e)
    ensures Alike(Fill(d, code), Fill(e, code))
  {
    if code != [] {
      var n := |code| - 1;
      FillAlike(d, e, code[..n]);
      FillByteAlike(Fill(d, code[..n]), Fill(e, code[..n]), code[n]);
    }
  }

  lemma {:induction false} CommitAlike(d: Device, e: Device, i: nat)
    requires IsDevice(d) && IsDevice(e) && Alike(d, e)
    ensures Commit(d).flash == Commit(e).flash && EndOfPages(d) == EndOfPages(e) && TailByte(d, i) == TailByte(e, i)
  {
  }

  // ---- the memory after one start ----

  /** The restarted device, with an empty log, has staged the bytes over the memory it had. */
  lemma {:induction false} AgainIsStaged(job: Job, dev: Device, m: nat) returns (staged: Device)
    requires Ours(job, dev) && m <= |job.image|
    ensures IsDevice(staged) && Alike(staged, Again(job, dev, m)) && staged.pageSize == job.reset.pageSize && staged.appStart == job.App()
    ensures staged.addr == job.App() + m && staged.flashing && Staged(staged, dev.flash, job.App(), job.image[..m])
  {
    var restarted := Handle(dev, StartFlash).0;
    var clean := restarted.(writes := []);
    staged := StageFrom(clean, job.image[..m]);
    FillAlike(clean, restarted, job.image[..m]);
  }

  lemma {:induction false} StartedAgain(job: Job, dev: Device, m: nat)
    requires Ours(job, dev) && m <= |job.image|
    ensures
      var again := Again(job, dev, m);
      && Ours(job, again) && again.addr == job.App() + m
      && Handle(again, CommitFlash) == (Commit(again), Done) && Ours(job, Commit(again))
  {
    var staged := AgainIsStaged(job, dev, m);
  }

  /** The memory of a device that has staged code, before the commit. */
  lemma {:induction false} StagedByte(d: Device, before: seq<byte>, start: nat, code: seq<byte>, i: nat)
    requires IsDevice(d) && Staged(d, before, start, code) && start <= i < SPACE
    ensures d.addr == start + |code| && |before| == SPACE
    ensures d.flash[i] == if i < PageOf(d.addr, d.pageSize) then code[i - start] else before[i]
  {
    SplicedByte(before, start, code[..|code| - Rem(d.addr, d.pageSize)], i);
  }

  lemma {:induction false} SplicedByte(before: seq<byte>, start: nat, done: seq<byte>, i: nat)
    requires start + |done| <= |before| && start <= i < |before|
    ensures Spliced(before, start, done)[i] == if i < start + |done| then done[i - start] else before[i]
  {
  }

  lemma {:induction false} AgainByte(job: Job, dev: Device, m: nat, i: nat)
    requires Ours(job, dev) && m <= |job.image| && job.App() <= i < job.End() <= SPACE
    ensures Again(job, dev, m).flash[i]
         == if i < PageOf(job.App() + m, dev.pageSize) then job.image[i - job.App()] else dev.flash[i]
  {
    var staged := AgainIsStaged(job, dev, m);
    StagedByte(staged, dev.flash, job.App(), job.image[..m], i);
    assert staged.flash == Again(job, dev, m).flash;
  }

  lemma {:induction false} CommittedAgainByte(job: Job, dev: Device, m: nat, i: nat)
    requires Ours(job, dev) && m <= |job.image| && job.App() <= i < job.End() <= SPACE
    ensures
      var again := Again(job, dev, m);
      Commit(again).flash[i]
      == if i < job.App() + m then job.image[i - job.App()] else if i < EndOfPages(again) then TailByte(again, i) else dev.flash[i]
  {
    var staged := AgainIsStaged(job, dev, m);
    CommittedByte(staged, dev.flash, job.App(), job.image[..m], i);
    CommitAlike(staged, Again(job, dev, m), i);
  }

  lemma {:induction false} InPlaceIff(flash: seq<byte>, start: nat, image: seq<byte>)
    requires start + |image| <= |flash|
    ensures flash[start..start + |image|] == image
       <==> forall i :: start <= i < start + |image| ==> flash[i] == image[i - start]
  {
    var part := flash[start..start + |image|];
    if part == image {
      assert forall i :: start <= i < start + |image| ==> flash[i] == part[i - start];
    }
  }

  // ---- any number of starts ----

  /** A start request, the first bytes of the image, and perhaps a commit. */
  datatype Episode = Episode(taken: nat, committed: bool)

  predicate Within(job: Job, eps: seq<Episode>) {
    forall k :: 0 <= k < |eps| ==> eps[k].taken <= |job.image|
  }

  function Restart(job: Job, dev: Device, e: Episode): (r: Device)
    requires IsDevice(dev) && e.taken <= |job.image|
    ensures IsDevice(r)
  {
    var again := Again(job, dev, e.taken);
    if e.committed then Handle(again, CommitFlash).0 else again
  }

  function Restarts(job: Job, dev: Device, eps: seq<Episode>): (r: Device)
    requires IsDevice(dev) && Within(job, eps)
    ensures IsDevice(r)
  {
    if eps == [] then dev else Restart(job, Restarts(job, dev, eps[..|eps| - 1]), eps[|eps| - 1])
  }

  /**
   Address `i` has the byte of the image after one episode. A commit writes all bytes taken and erases the
   rest of their last page; without it, only the full pages are written.
   */
  predicate KeptBy(job: Job, dev: Device, e: Episode, i: nat, before: bool)
    requires job.Valid() && IsDevice(dev) && e.taken <= |job.image| && job.App() <= i < job.App() + |job.image|
  {
    var again := Again(job, dev, e.taken);
    var end := job.App() + e.taken;
    if e.committed then
      i < end || (if i < EndOfPages(again) then job.image[i - job.App()] == TailByte(again, i) else before)
    else
      i < PageOf(end, dev.pageSize) || before
  }

  /** Address `i` has the byte of the image after all episodes. */
  predicate Kept(job: Job, dev: Device, eps: seq<Episode>, i: nat)
    requires job.Valid() && IsDevice(dev) && Within(job, eps) && job.App() <= i < job.App() + |job.image| <= SPACE
  {
    if eps == [] then dev.flash[i] == job.image[i - job.App()]
    else
      var init := eps[..|eps| - 1];
      KeptBy(job, Restarts(job, dev, init), eps[|eps| - 1], i, Kept(job, dev, init, i))
  }

  lemma {:induction false} RestartIsOurs(job: Job, dev: Device, e: Episode)
    requires Ours(job, dev) && e.taken <= |job.image|
    ensures Ours(job, Restart(job, dev, e))
  {
    StartedAgain(job, dev, e.taken);
  }

  lemma {:induction false} RestartsAreOurs(job: Job, dev: Device, eps: seq<Episode>)
    requires Ours(job, dev) && Within(job, eps)
    ensures Ours(job, Restarts(job, dev, eps))
  {
    if eps != [] {
      RestartsAreOurs(job, dev, eps[..|eps| - 1]);
      RestartIsOurs(job, Restarts(job, dev, eps[..|eps| - 1]), eps[|eps| - 1]);
    }
  }

  lemma {:induction false} RestartKeepsIff(job: Job, dev: Device, e: Episode, i: nat)
    requires Ours(job, dev) && e.taken <= |job.image| && job.App() <= i < job.End() <= SPACE
    ensures Restart(job, dev, e).flash[i] == job.image[i - job.App()]
       <==> KeptBy(job, dev, e, i, dev.flash[i] == job.image[i - job.App()])
  {
    if e.committed {
      StartedAgain(job, dev, e.taken);
      CommittedAgainByte(job, dev, e.taken, i);
    } else {
      AgainByte(job, dev, e.taken, i);
    }
  }

  lemma {:induction false} KeptIff(job: Job, dev: Device, eps: seq<Episode>, i: nat)
    requires Ours(job, dev) && Within(job, eps) && job.App() <= i < job.End() <= SPACE
    ensures Restarts(job, dev, eps).flash[i] == job.image[i - job.App()] <==> Kept(job, dev, eps, i)
  {
    if eps != [] {
      var init := eps[..|eps| - 1];
      KeptIff(job, dev, init, i);
      RestartsAreOurs(job, dev, init);
      RestartKeepsIff(job, Restarts(job, dev, init), eps[|eps| - 1], i);
    }
  }

  lemma {:induction false} CommitsSucceed(job: Job, dev: Device, eps: seq<Episode>, k: nat)
    requires Ours(job, dev) && Within(job, eps) && k < |eps|
    ensures Handle(Again(job, Restarts(job, dev, eps[..k]), eps[k].taken), CommitFlash).1.Done?
  {
    RestartsAreOurs(job, dev, eps[..k]);
    StartedAgain(job, Restarts(job, dev, eps[..k]), eps[k].taken);
  }

  /**
   From any state of the device and for any number of starts, pushes from the beginning of the image and
   commits: the image is in the memory in the end exactly when, for each byte of it, the last episode that
   touched it wrote it or left there what the image has, and a byte that none touched was right before.
   */
  lemma {:induction false} RestartsIff(job: Job, dev: Device, eps: seq<Episode>)
    requires Ours(job, dev) && Within(job, eps)
    ensures job.End() <= SPACE
    ensures Restarts(job, dev, eps).flash[job.App()..job.End()] == job.image
       <==> forall i :: job.App() <= i < job.End() ==> Kept(job, dev, eps, i)
  {
    forall i | job.App() <= i < job.End()
      ensures Restarts(job, dev, eps).flash[i] == job.image[i - job.App()] <==> Kept(job, dev, eps, i)
    {
      KeptIff(job, dev, eps, i);
    }
    AllKept(job, dev, eps, Restarts(job, dev, eps).flash);
  }

  lemma {:induction false} AllKept(job: Job, dev: Device, eps: seq<Episode>, flash: seq<byte>)
    requires Ours(job, dev) && Within(job, eps) && job.End() <= SPACE == |flash|
    requires forall i :: job.App() <= i < job.End() ==> (flash[i] == job.image[i - job.App()] <==> Kept(job, dev, eps, i))
    ensures flash[job.App()..job.End()] == job.image <==> forall i :: job.App() <= i < job.End() ==> Kept(job, dev, eps, i)
  {
    InPlaceIff(flash, job.App(), job.image);
    if flash[job.App()..job.End()] == job.image {
      forall i | job.App() <= i < job.End() ensures Kept(job, dev, eps, i) {
        assert flash[i] == job.image[i - job.App()];
      }
    } else {
      var i :| job.App() <= i < job.End() && flash[i] != job.image[i - job.App()];
      assert !Kept(job, dev, eps, i);
    }
  }

  // ---- a start in the stage ----

  /** The memory of a device in the stage: whole pages of the image, then what was there before. */
  lemma {:induction false} FlashOfTaken(job: Job, dev: Device, i: nat)
    requires InStage(job, dev) && IsDevice(dev) && job.App() <= i < job.End() <= SPACE
    ensures dev.flash[i] == if i < PageOf(dev.addr, dev.pageSize) then job.image[i - job.App()] else job.reset.flash[i]
  {
    TakenIsStaged(job, dev);
    StagedByte(dev, job.reset.flash, job.App(), job.image[..dev.addr - job.App()], i);
  }

  /** What address `i` of the image holds after the restart, `m` bytes and the commit, if pages were written before `page`. */
  function Left(job: Job, page: nat, again: Device, m: nat, i: nat): byte
    requires job.Valid() && IsDevice(again) && job.App() <= i < job.App() + |job.image| <= SPACE
  {
    if i < job.App() + m then job.image[i - job.App()]
    else if i < EndOfPages(again) then TailByte(again, i)
    else if i < page then job.image[i - job.App()]
    else job.reset.flash[i]
  }

  lemma {:induction false} LeftInFlash(job: Job, dev: Device, m: nat, i: nat)
    requires InStage(job, dev) && Ours(job, dev) && m <= |job.image| && job.App() <= i < job.End() <= SPACE
    ensures Commit(Again(job, dev, m)).flash[i] == Left(job, PageOf(dev.addr, dev.pageSize), Again(job, dev, m), m, i)
  {
    CommittedAgainByte(job, dev, m, i);
    FlashOfTaken(job, dev, i);
  }

  /** The image survives exactly when these two parts of it are already there. */
  predicate Survives(job: Job, page: nat, again: Device, m: nat)
    requires job.Valid() && IsDevice(again) && job.App() + |job.image| <= SPACE
  {
    var end := job.App() + |job.image|;
    && (forall i :: job.App() + m <= i < end && i < EndOfPages(again) ==> job.image[i - job.App()] == TailByte(again, i))
    && (forall i :: job.App() + m <= i < end && EndOfPages(again) <= i && page <= i ==>
          job.image[i - job.App()] == job.reset.flash[i])
  }

  lemma {:induction false} SurvivesIff(job: Job, page: nat, again: Device, m: nat)
    requires job.Valid() && IsDevice(again) && job.codeStart == job.App() && job.End() <= SPACE
    ensures Survives(job, page, again, m)
       <==> forall i :: job.App() <= i < job.End() ==> Left(job, page, again, m, i) == job.image[i - job.App()]
  {
    if forall i :: job.App() <= i < job.End() ==> Left(job, page, again, m, i) == job.image[i - job.App()] {
      forall i | job.App() + m <= i < job.End() && i < EndOfPages(again) ensures job.image[i - job.App()] == TailByte(again, i) {
        assert Left(job, page, again, m, i) == job.image[i - job.App()];
      }
      forall i | job.App() + m <= i < job.End() && EndOfPages(again) <= i && page <= i
        ensures job.image[i - job.App()] == job.reset.flash[i]
      {
        assert Left(job, page, again, m, i) == job.image[i - job.App()];
      }
    }
  }

  lemma {:induction false} SurvivesInFlash(job: Job, page: nat, again: Device, m: nat, flash: seq<byte>)
    requires job.Valid() && IsDevice(again) && job.codeStart == job.App() && job.End() <= SPACE == |flash|
    requires forall i :: job.App() <= i < job.End() ==> flash[i] == Left(job, page, again, m, i)
    ensures flash[job.App()..job.End()] == job.image <==> Survives(job, page, again, m)
  {
    InPlaceIff(flash, job.App(), job.image);
    SurvivesIff(job, page, again, m);
    if forall i :: job.App() <= i < job.End() ==> Left(job, page, again, m, i) == job.image[i - job.App()] {
      forall i | job.App() <= i < job.End() ensures flash[i] == job.image[i - job.App()] {
        assert flash[i] == Left(job, page, again, m, i);
      }
    }
  }

  /**
   For every state of the device in the stage, and every number of bytes that are pushed again after a
   late start request: the commit succeeds, and leaves the image exactly when the rest of the last page
   pushed again, which it erases, and the part of the image behind the pages written before were
   already as the image has them.
   */
  lemma {:induction false} LateStartIff(job: Job, dev: Device, m: nat)
    requires InStage(job, dev) && IsDevice(dev) && m <= |job.image|
    ensures job.End() <= SPACE && Handle(Again(job, dev, m), CommitFlash).1.Done?
    ensures Handle(Again(job, dev, m), CommitFlash).0.flash[job.App()..job.End()] == job.image
       <==> Survives(job, PageOf(dev.addr, dev.pageSize), Again(job, dev, m), m)
  {
    TakenIsStaged(job, dev);
    StartedAgain(job, dev, m);
    LeftEverywhere(job, dev, m, PageOf(dev.addr, dev.pageSize), Again(job, dev, m));
  }

  lemma {:induction false} LeftEverywhere(job: Job, dev: Device, m: nat, page: nat, again: Device)
    requires InStage(job, dev) && Ours(job, dev) && m <= |job.image| && job.End() <= SPACE
    requires page == PageOf(dev.addr, dev.pageSize) && IsDevice(again) && again == Again(job, dev, m)
    ensures Commit(again).flash[job.App()..job.End()] == job.image <==> Survives(job, page, again, m)
  {
    forall i | job.App() <= i < job.End() ensures Commit(again).flash[i] == Left(job, page, again, m, i) {
      LeftInFlash(job, dev, m, i);
    }
    SurvivesInFlash(job, page, again, m, Commit(again).flash);
  }

  /** With nothing pushed again, what was in the page buffer is lost: the rest of the image is there exactly if it was before. */
  lemma {:induction false} LateStartLosesTail(job: Job, dev: Device)
    requires InStage(job, dev) && IsDevice(dev)
    ensures job.App() <= PageOf(dev.addr, dev.pageSize) <= job.End() <= SPACE
    ensures
      var (committed, reply) := Handle(Handle(dev, StartFlash).0, CommitFlash);
      var page := PageOf(dev.addr, dev.pageSize);
      reply.Done? &&
      (committed.flash[job.App()..job.End()] == job.image <==> job.reset.flash[page..job.End()] == job.image[page - job.App()..])
  {
    assert job.image[..0] == [];
    assert Again(job, dev, 0) == Handle(dev, StartFlash).0;
    TakenIsStaged(job, dev);
    LateStartIff(job, dev, 0);
    NothingAgain(job, PageOf(dev.addr, dev.pageSize), Handle(dev, StartFlash).0);
  }

  lemma {:induction false} NothingAgain(job: Job, page: nat, again: Device)
    requires job.Valid() && IsDevice(again) && job.codeStart == job.App() <= page <= job.End() <= SPACE
    requires again.addr == job.App() && again.pageSize == job.reset.pageSize
    ensures Survives(job, page, again, 0) <==> job.reset.flash[page..job.End()] == job.image[page - job.App()..]
  {
    var rest := job.image[page - job.App()..];
    InPlaceIff(job.reset.flash, page, rest);
    if forall i :: page <= i < page + |rest| ==> job.reset.flash[i] == rest[i - page] {
      forall i | page <= i < job.End() ensures job.image[i - job.App()] == job.reset.flash[i] {
        assert rest[i - page] == job.image[i - job.App()];
      }
    }
    if Survives(job, page, again, 0) {
      forall i | page <= i < page + |rest| ensures job.reset.flash[i] == rest[i - page] {
        assert rest[i - page] == job.image[i - job.App()];
      }
    }
  }

  /** Pushed again as a whole, in whatever state the device was, the image is there. */
  lemma {:induction false} AllAgainSurvives(job: Job, dev: Device)
    requires Ours(job, dev)
    ensures job.End() <= SPACE
    ensures
      var (committed, reply) := Handle(Again(job, dev, |job.image|), CommitFlash);
      reply.Done? && committed.flash[job.App()..job.End()] == job.image
  {
    var whole := [Episode(|job.image|, true)];
    StartedAgain(job, dev, |job.image|);
    assert whole[..0] == [];
    assert Restarts(job, dev, []) == dev;
    RestartsIff(job, dev, whole);
  }

  /**
   With the first block pushed again, as a client does that hears a late answer, the rest of its page
   is erased, although the device may have had the whole image, even committed.
   */
  lemma {:induction false} LateStartErases(job: Job, dev: Device)
    requires Ours(job, dev) && job.reset.pageSize in {64, 128}
    requires |job.image| > BLOCK_SIZE && job.image[BLOCK_SIZE] != ERASED
    ensures job.End() <= SPACE
    ensures
      var restarted := Handle(dev, StartFlash).0;
      var (pushed, next) := Handle(restarted, PushCode(AddressBytes(restarted.addr) + job.Piece(0)));
      var (committed, reply) := Handle(pushed, CommitFlash);
      && next == Pushed(job.App() + BLOCK_SIZE) && reply.Done?
      && committed.flash[job.App() + BLOCK_SIZE] == ERASED && committed.flash[job.App()..job.End()] != job.image
  {
    FirstBlockAgain(job, dev);
    StartedAgain(job, dev, BLOCK_SIZE);
    ErasedBehindBlock(job, dev);
    InPlaceIff(Commit(Again(job, dev, BLOCK_SIZE)).flash, job.App(), job.image);
  }

  lemma {:induction false} FirstBlockAgain(job: Job, dev: Device)
    requires Ours(job, dev) && |job.image| > BLOCK_SIZE
    ensures
      var restarted := Handle(dev, StartFlash).0;
      Handle(restarted, PushCode(AddressBytes(restarted.addr) + job.Piece(0)))
      == (Again(job, dev, BLOCK_SIZE), Pushed(job.App() + BLOCK_SIZE))
  {
    var restarted := Handle(dev, StartFlash).0;
    assert job.Piece(0) == job.image[..BLOCK_SIZE];
    PushFills(restarted, job.Piece(0));
    FillMoves(restarted, job.Piece(0));
  }

  lemma {:induction false} ErasedBehindBlock(job: Job, dev: Device)
    requires Ours(job, dev) && job.reset.pageSize in {64, 128} && |job.image| > BLOCK_SIZE
    ensures job.End() <= SPACE && Commit(Again(job, dev, BLOCK_SIZE)).flash[job.App() + BLOCK_SIZE] == ERASED
  {
    StartedAgain(job, dev, BLOCK_SIZE);
    BlockIsEven(job.App(), job.reset.pageSize);
    CommittedAgainByte(job, dev, BLOCK_SIZE, job.App() + BLOCK_SIZE);
  }

  /** A block ends inside of a larger page, at an even address. */
  lemma {:induction false} BlockIsEven(a: nat, pageSize: nat)
    requires (pageSize == 64 || pageSize == 128) && Rem(a, pageSize) == 0
    ensures Rem(a + BLOCK_SIZE, pageSize) == BLOCK_SIZE
  {
    if pageSize == 64 {
      RemIsRemainder(a, 64);
      RemIsRemainder(a + BLOCK_SIZE, 64);
    } else {
      RemIsRemainder(a, 128);
      RemIsRemainder(a + BLOCK_SIZE, 128);
    }
  }
}
