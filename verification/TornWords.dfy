/**
 Power cuts that tear log words.

 A log word that a cut has torn can never be programmed again, and the scan stops there: resuming the exchange repeats
 the leg before that word and fails at it, boot after boot. Here is what that means for a boot, and for whole runs: when
 the board still comes up, and into what.
 */
module TornWords {
  import opened Layout
  import opened BootRecord
  import opened FlashModel
  import opened SwapModel
  import opened DriverFacts
  import opened ScratchExchange
  import opened Exchange
  import opened EngineRuns
  import opened Refinement
  import opened Runs
  import opened Faults
  import opened MixedImages
  import Mailbox
  import I = Ideal

  /** The word of leg `c`, the first unlogged one, is torn. */
  ghost predicate TornAt(log: Log, c: nat) {
    TornLog(log) && Progress(log, 0) == c
  }

  /** The next driver call is cut, and would leave a word it programs with something other than `v`. */
  ghost predicate TearsNext(m: Machine, v: word) {
    && m.alive && m.script != []
    && m.script[0].outcome == Cut && m.script[0].fate == Torn && NoiseWord(m.script[0], 0) != v
  }

  /** A cut in the log write of a completed leg tears its word and keeps the exchange under way. */
  lemma CutTearsWord(m: Machine, p: Pair)
    requires OnCourse(m, p) && Honest(m) && Progress(m.log, 0) < STEP_COUNT
    ensures
      var c := Progress(m.log, 0);
      var d := Copy(m, LegDest(c), LegSource(c));
      var n := LegThenLog(m, c).m;
      d.err == Success && TearsNext(d.m, LogEntry(c)) ==> !n.alive && TornAt(n.log, c) && OnCourse(n, p)
  {
    hide Copy, Progress, Before, LogOk, LogWhole, LogFair, LegDest, LegSource, LogEntry, NoiseWord, Swapping, SlotCrc,
      StagedCrc;
    var c := Progress(m.log, 0);
    var d := Copy(m, LegDest(c), LegSource(c));
    CopyFacts(m, LegDest(c), LegSource(c));
    if d.err == Success && TearsNext(d.m, LogEntry(c)) {
      PutKeepsLog(m, LegDest(c), Content(d.m, LegDest(c)));
      LegKeepsCourse(m, c, p);
      var n := LegThenLog(m, c).m;
      assert n.log[c] == Programmed(NoiseWord(d.m.script[0], 0));
      LogStep(m.log, c, n.log[c]);
    }
  }

  // ----- The engine at a torn word -----

  lemma PutKeepsLog(m: Machine, r: Region, s: Sector)
    requires InFlash(r)
    ensures
      var n := Put(m, r, s);
      n.log == m.log && n.record == m.record && n.mail == m.mail
  {
  }

  /** The machine with leg `c` done once more. */
  function LegDone(m: Machine, c: nat): Machine
    requires c < STEP_COUNT
  {
    Put(m, LegDest(c), Content(m, LegSource(c)))
  }

  lemma TornWordStays(m: Machine, c: nat)
    requires c < LOG_WORDS && m.log[c].Programmed? && Fair(m)
    ensures
      var w := WriteLog(m, c, LogEntry(c));
      && w.err != Success && Later(m, w.m) && w.m.record == m.record && w.m.mail == m.mail
      && (w.m.alive || Clean(m) ==> SameFlash(m, w.m))
  {
    hide LogEntry;
    AfterFacts(m);
  }

  /** The leg before the torn word is done again, or cut, and its word refused. */
  lemma LegsStopAtTornWord(m: Machine, c: nat)
    requires Fair(m) && TornAt(m.log, c)
    ensures
      var l := Legs(m, c);
      && l.err != Success && Later(m, l.m) && l.m.record == m.record && l.m.mail == m.mail
      && (l.m.alive ==> SameFlash(LegDone(m, c), l.m))
      && (Clean(m) ==> OnlyRegion(m, l.m, LegDest(c)))
  {
    hide Copy, WriteLog, Progress, LegDest, LegSource, LogEntry, Honest, Fair, Clean, Calm;
    CleanIsHonest(m);
    CopyFacts(m, LegDest(c), LegSource(c));
    var d := Copy(m, LegDest(c), LegSource(c));
    PutKeepsLog(m, LegDest(c), Content(d.m, LegDest(c)));
    if d.err == Success {
      TornWordStays(d.m, c);
    }
  }

  /**
   The engine cannot get past a torn log word. A call whose driver calls work or are cut ends in an error and leaves the
   record as it is. If it keeps its power it leaves the log as well, with the leg before the torn word done again.
   */
  lemma EngineStopsAtTornWord(m: Machine, c: nat)
    requires Fair(m) && Swapping(m.record) && TornAt(m.log, c)
    ensures
      var r := SwapProcess(m);
      && r.result == Error && r.m.record == m.record && r.m.mail == m.mail && Later(m, r.m)
      && (r.m.alive ==> SameFlash(LegDone(m, c), r.m))
      && (r.m.alive || Clean(m) ==> r.m.log == m.log && OnlyRegion(m, r.m, LegDest(c)))
  {
    hide Scan, Legs, Conclude, Later, Progress, LegDest, LegSource, Fair, Clean;
    ScanIsExact(m, 0);
    var s := Scan(m, 0);
    PutKeepsLog(m, LegDest(c), Content(m, LegSource(c)));
    PutKeepsLog(m, LegDest(c), Content(s.m, LegDest(c)));
    PutBack(m, LegDest(c));
    if s.err == Success {
      LaterKeeps(m, s.m);
      LegsStopAtTornWord(s.m, c);
      var l := Legs(s.m, c);
      LaterTrans(m, s.m, l.m);
      PutKeepsLog(m, LegDest(c), Content(l.m, LegDest(c)));
      PutOnSameFlash(m, s.m, LegDest(c), LegSource(c), Content(l.m, LegDest(c)));
      PutContent(m, LegDest(c), Content(m, LegSource(c)));
    }
  }

  lemma PutBack(m: Machine, r: Region)
    requires InFlash(r)
    ensures Put(m, r, Content(m, r)) == m
  {
  }

  lemma PutContent(m: Machine, r: Region, s: Sector)
    requires InFlash(r)
    ensures Content(Put(m, r, s), r) == s
  {
  }

  lemma PutOnSameFlash(m: Machine, n: Machine, dest: Region, src: Region, s: Sector)
    requires InFlash(dest) && InFlash(src) && SameFlash(m, n)
    ensures SameFlash(Put(m, dest, s), Put(n, dest, s)) && Content(n, src) == Content(m, src)
  {
  }

  /**
   One torn word is for good: in any number of boots, with every driver call working or cut and no further word torn,
   the exchange stays where it is. Only an erase of the log - a new request, or recovery - gets rid of it.
   */
  lemma {:induction false} TornWordIsForGood(m: Machine, c: nat, scripts: seq<seq<Event>>)
    requires Swapping(m.record) && TornAt(m.log, c) && scripts != []
    requires forall s :: s in scripts ==> CleanScript(s)
    ensures
      var r := Resume(m, scripts);
      r.result == Error && r.m.log == m.log && r.m.record == m.record && TornAt(r.m.log, c)
    decreases |scripts|
  {
    hide SwapProcess, Swapping, Progress, LegDest, LegSource;
    var on := PowerOn(m, scripts[0]);
    assert CleanScript(scripts[0]);
    CleanIsHonest(on);
    EngineStopsAtTornWord(on, c);
    if |scripts| > 1 {
      TornWordIsForGood(SwapProcess(on).m, c, scripts[1..]);
    }
  }

  ghost predicate CleanScript(script: seq<Event>) {
    forall e :: e in script ==> (e.outcome == Good || e.outcome == Cut) && e.fate != Torn
  }

  // ----- A boot at a torn word -----

  /** The primary slot once leg `c` of an exchange of `p` is done: new sectors in front, old ones behind. */
  function PrimaryAfter(p: Pair, c: nat): (s: Slot)
    requires c < STEP_COUNT
  {
    p.secondary[..(c + 1) / 3] + p.primary[(c + 1) / 3..]
  }

  lemma SlotsAfterLeg(m: Machine, c: nat, p: Pair)
    requires c < STEP_COUNT && Before(m.scratch, Slots(m), c) == p
    ensures
      var n := LegDone(m, c);
      && n.primary == PrimaryAfter(p, c) && Before(n.scratch, Slots(n), c) == p
      && (c == 0 ==> Slots(n) == p)
      && (c == 1 ==> n.secondary[0] == p.primary[0])
  {
    hide Origin;
    var n := LegDone(m, c);
    var x := Sectors(n.scratch, Slots(n));
    CompletedLegAdvances(m, c);
    RepeatedLegIsHarmless(m, c, Content(m, LegSource(c)));
    PrimaryFront(x, c + 1);
    PrimaryFront(x, c);
    SecondaryFront(x, c + 1);
    OriginAtStart(x);
    var k := (c + 1) / 3;
    assert n.primary == n.primary[..k] + n.primary[k..];
    if c == 1 {
      SecondSectorAfterLeg(m, p);
    }
  }

  lemma SecondSectorAfterLeg(m: Machine, p: Pair)
    requires Before(m.scratch, Slots(m), 1) == p
    ensures LegDone(m, 1).secondary[0] == p.primary[0]
  {
  }

  /** Whether the board comes up at the torn word of leg `c`, and goes through recovery to do so. */
  ghost predicate Recovered(p: Pair, c: nat) {
    c == 0 && !ImageOk(p.primary)
  }

  ghost predicate ComesUp(p: Pair, c: nat) {
    c != 1 || ImageOk(p.primary)
  }

  /** Which of the slots can run once the leg is done again. */
  lemma RunnableAfterLeg(n: Machine, c: nat, p: Pair)
    requires c < STEP_COUNT && ImageOk(p.secondary) && n.primary == PrimaryAfter(p, c)
    requires c == 0 ==> Slots(n) == p
    requires c == 1 ==> n.secondary[0] == p.primary[0]
    ensures ImageOk(n.primary) <==> c >= 2 || ImageOk(p.primary)
    ensures I.NeedsRecovery(Slots(n)) <==> Recovered(p, c)
  {
    hide ImageOk;
    if c >= 2 {
      FirstSectorDecides(n.primary, p.secondary);
    } else {
      FirstSectorDecides(n.primary, p.primary);
      if c == 1 {
        FirstSectorDecides(n.secondary, p.primary);
      }
    }
  }

  /** What a boot that keeps its power makes of an exchange of `p` held up at leg `c`. */
  ghost predicate ComesToTornWord(m: Machine, p: Pair, c: nat, b: Booted)
    requires c < STEP_COUNT
  {
    && (b.jumped <==> ComesUp(p, c))
    && (if Recovered(p, c) then
          Slots(b.m) == Mirror(p) && !Swapping(b.m.record) && b.status == Mailbox.STATUS_SWAPPED
        else
          && b.m.primary == PrimaryAfter(p, c) && b.m.log == m.log && b.m.record == m.record
          && Before(b.m.scratch, Slots(b.m), c) == p
          && b.status == if b.jumped then Mailbox.STATUS_ERR_SWAP else Mailbox.STATUS_ERR_IMAGE)
  }

  lemma MayArmAtTornWord(m: Machine, p: Pair)
    requires OnCourse(m, p) && TornAt(m.log, 0)
    ensures MayArm(m) && PairOf(m) == p
  {
    hide SlotCrc, Before, StagedCrc, Swapping;
  }

  lemma StaysOnCourse(m: Machine, n: Machine, p: Pair)
    requires OnCourse(m, p) && n.log == m.log && n.record == m.record
    requires Before(n.scratch, Slots(n), Progress(m.log, 0)) == p
    ensures OnCourse(n, p)
  {
    hide SlotCrc, Before, StagedCrc, Swapping, LogOk, Progress;
  }

  /**
   A boot at a torn word, decided before it begins. The board comes up unless the word is the one of the second leg and
   the old image cannot run: that leg has put the old vector table into the secondary slot as well. It comes up in the
   new image if recovery was entered, and otherwise in as many sectors of the new image as the legs up to the torn word
   have brought, followed by the old one.
   */
  lemma TornWordDecides(m: Machine, p: Pair, c: nat)
    requires m.alive && Fair(m) && OnCourse(m, p) && TornAt(m.log, c) && !Mailbox.Pending(m.mail)
    requires ImageOk(p.secondary)
    ensures Boot(m).m.alive ==> ComesToTornWord(m, p, c, Boot(m))
    ensures Calm(m) ==> Boot(m).m.alive
  {
    hide ProcessMailbox, SwapProcess, RecoverIfNeeded, HandOver, ImageOk, Progress, Mailbox.Pending, Later, LogOk,
      LogWhole, LogFair, Swapping, StagedCrc, SlotCrc, Before, LegDest, LegSource, Fair, Clean, MayArm, PairOf, LegDone,
      PrimaryAfter;
    BootIsLater(m);
    LaterIsAlive(m, Boot(m).m);
    NoRequest(m);
    EngineStopsAtTornWord(m, c);
    var s := ProcessSwap(ProcessMailbox(m));
    var t := RecoverIfNeeded(s);
    RecoveryIsLater(s);
    LaterIsAlive(s.m, t.m);
    HandOverIsLater(t);
    LaterIsAlive(t.m, HandOver(t).m);
    if Boot(m).m.alive {
      SlotsAfterLeg(m, c, p);
      RunnableAfterLeg(s.m, c, p);
      HandOverRefines(t);
      if Recovered(p, c) {
        StaysOnCourse(m, s.m, p);
        MayArmAtTornWord(s.m, p);
        LaterIsFair(m, s.m);
        EnteredRecoveryRefines(s);
        RecoveredView(s, t);
      } else {
        NothingToRecover(s);
      }
    }
  }

  lemma LaterIsAlive(m: Machine, n: Machine)
    requires Later(m, n)
    ensures (n.alive ==> m.alive) && (Calm(m) ==> n.alive)
  {
  }

  lemma LaterIsFair(m: Machine, n: Machine)
    requires Later(m, n) && Fair(m)
    ensures Fair(n)
  {
  }

  lemma RecoveredView(s: Report, t: Report)
    requires
      I.Turn(View(t.m), t.status, t.reqCmd) == I.AfterRecovery(I.Turn(View(s.m), s.status, s.reqCmd))
    requires I.NeedsRecovery(PairOf(s.m))
    ensures Slots(t.m) == Mirror(PairOf(s.m)) && !Swapping(t.m.record) && t.status == Mailbox.STATUS_SWAPPED
  {
    hide ImageOk, Before, Progress, RevertPending, Mailbox.Pending, Swapping;
    ViewSlots(s.m);
    ViewSlots(t.m);
    NoSwapPlanned(t.m);
  }

  /** Torn between the third leg and the last but one: the board comes up in neither of the two images. */
  lemma TornWordMixesImages(m: Machine, p: Pair, c: nat)
    requires m.alive && Fair(m) && OnCourse(m, p) && TornAt(m.log, c) && !Mailbox.Pending(m.mail)
    requires ImageOk(p.secondary)
    requires 2 <= c < STEP_COUNT - 1 && Unlike(p)
    ensures
      var b := Boot(m);
      b.m.alive ==>
        b.jumped && b.status == Mailbox.STATUS_ERR_SWAP && b.m.primary !in {p.primary, p.secondary}
  {
    hide Boot, OnCourse, ImageOk, Mailbox.Pending, TornLog, Fair, Before, PrimaryAfter, Progress;
    TornWordDecides(m, p, c);
    BothEndsDiffer(p, c);
  }

  lemma BothEndsDiffer(p: Pair, c: nat)
    requires 2 <= c < STEP_COUNT - 1 && Unlike(p)
    ensures PrimaryAfter(p, c)[0] != p.primary[0]
    ensures PrimaryAfter(p, c)[SECTOR_COUNT - 1] != p.secondary[SECTOR_COUNT - 1]
  {
  }

  // ----- Whole runs -----

  /** Driver calls work or are cut, and a cut may tear a log word. */
  ghost predicate FairCycle(c: Cycle) {
    forall e :: e in c.script ==> e.outcome == Good || e.outcome == Cut
  }

  ghost predicate FairRun(cs: seq<Cycle>) {
    forall c :: c in cs ==> FairCycle(c)
  }

  /** What holds at every reset: a swap under way may be held up by a torn word, and then no request is pending. */
  ghost predicate ResetInv(m: Machine) {
    Shaken(m) && I.Sound(View(m)) && (Stuck(m) ==> RequestOf(m.mail) == None)
  }

  /** The same, with one image that can run. */
  ghost predicate Kept(m: Machine) {
    ResetInv(m) && I.Bootable(View(m))
  }

  /** Without torn words these are the notions of clean runs. */
  lemma KeptIsHealthy(m: Machine)
    ensures Inv(m) <==> ResetInv(m) && !Stuck(m)
    ensures Healthy(m) <==> Kept(m) && !Stuck(m)
  {
    hide Steady, Shaken, Stuck, View, I.Sound, I.Bootable;
    SteadyOrStuck(m);
  }

  /**
   An application that is reached while an exchange is held up - it was acknowledged ERR_SWAP - stages nothing and asks
   for nothing. Otherwise applications are free.
   */
  ghost predicate Considerate(m: Machine, cs: seq<Cycle>)
    decreases |cs|
  {
    cs == [] || (ConsiderateAt(m, cs[0]) && Considerate(Step(m, cs[0]), cs[1..]))
  }

  ghost predicate ConsiderateAt(m: Machine, c: Cycle) {
    BootOf(m, c).jumped && Stuck(BootOf(m, c).m) ==>
      c.app.secondary.None? && (c.app.mail.Some? ==> !Mailbox.Pending(c.app.mail.value))
  }

  /** The second leg's word is torn and the image in the primary slot cannot run. */
  ghost predicate Trapped(m: Machine) {
    Stuck(m) && Progress(m.log, 0) == 1 && !ImageOk(m.primary)
  }

  // ----- One boot of such a run -----

  lemma FairPowerOn(m: Machine, c: Cycle)
    requires FairCycle(c)
    ensures
      var on := PowerOn(m, c.script);
      && on.alive && Fair(on) && View(on) == View(m) && (Steady(on) <==> Steady(m)) && (ResetInv(on) <==> ResetInv(m))
      && (Stuck(on) <==> Stuck(m)) && PairOf(on) == PairOf(m)
  {
    hide SlotCrc, Progress, Before, RevertPending, Swapping, LogWhole, LogFair, TornLog, Mailbox.Pending, SwapType,
      StagedCrc, I.Sound;
  }

  lemma StuckIsOnCourse(m: Machine)
    requires ResetInv(m) && Stuck(m)
    ensures OnCourse(m, PairOf(m)) && TornAt(m.log, Progress(m.log, 0)) && !Mailbox.Pending(m.mail)
    ensures View(m).plan.Swap? && View(m).request == None && View(m).slots == PairOf(m) && ImageOk(PairOf(m).secondary)
  {
    hide SlotCrc, Before, StagedCrc, Swapping, Progress, ImageOk, Mailbox.Pending;
    LogFairIsOk(m.log);
  }

  lemma OnCourseView(m: Machine, n: Machine, p: Pair)
    requires OnCourse(m, p) && OnCourse(n, p) && LogFair(n.log) && n.record == m.record && n.mail == m.mail
    requires View(m).request == None && ImageOk(p.secondary)
    ensures
      && ResetInv(n) && I.Bootable(View(n)) && View(n).request == None && View(n).slots == p
      && (n.log == m.log ==> View(n) == View(m))
  {
    hide SlotCrc, Before, StagedCrc, Swapping, Progress, ImageOk, Mailbox.Pending, SwapType, LogOk, LogWhole;
  }

  /** The engine leaves the exchange where it was, or a cut has taken it on by the leg before the torn word. */
  lemma EngineStaysOnCourse(m: Machine, p: Pair)
    requires m.alive && Fair(m) && OnCourse(m, p) && TornLog(m.log)
    ensures
      var n := SwapProcess(m).m;
      && OnCourse(n, p) && LogFair(n.log) && n.record == m.record && n.mail == m.mail
      && (n.alive ==> n.log == m.log && SameFlash(LegDone(m, Progress(m.log, 0)), n) && Fair(n))
  {
    hide SwapProcess, Progress, LogOk, LogWhole, StagedCrc, SlotCrc, Before, LegDone, Fair, Clean, ConcludedRecord,
      SwapType, Honest;
    CleanIsHonest(m);
    EngineStopsAtTornWord(m, Progress(m.log, 0));
    ProcessAdvances(m, p);
    LaterIsFair(m, SwapProcess(m).m);
  }

  /** The work of a boot at a torn word, cut or not. */
  lemma StuckStages(m: Machine)
    requires m.alive && Fair(m) && ResetInv(m) && Stuck(m)
    ensures
      var t := RecoverIfNeeded(ProcessSwap(ProcessMailbox(m)));
      ResetInv(t.m) && View(t.m).request == None && I.Bootable(View(t.m))
  {
    hide ProcessMailbox, SwapProcess, RecoverIfNeeded, ImageOk, Progress, Mailbox.Pending, LogOk, LogFair, Swapping,
      StagedCrc, SlotCrc, Before, Fair, Clean, MayArm, PairOf, LegDone, PrimaryAfter, View, Steady, Shaken, Stuck,
      OnCourse, I.Sound, I.Bootable, RequestOf;
    var p, c := PairOf(m), Progress(m.log, 0);
    StuckIsOnCourse(m);
    NoRequest(m);
    EngineStaysOnCourse(m, p);
    var s := ProcessSwap(ProcessMailbox(m));
    var t := RecoverIfNeeded(s);
    OnCourseView(m, s.m, p);
    ViewRequest(t.m);
    if !s.m.alive {
      DeadStages(s);
    } else if I.NeedsRecovery(Slots(s.m)) {
      OnlyFirstWordRecovers(m, s.m, p);
      MayArmAtTornWord(s.m, p);
      EnteredRecoveryRefines(s);
      if t.m.alive {
        SteadyOrStuck(t.m);
        I.RecoveryIsSound(I.Turn(View(s.m), s.status, s.reqCmd));
      } else {
        I.ArmingStopIsSound(View(s.m), I.Permanent, View(t.m), t.m.record == None);
      }
    } else {
      NothingToRecover(s);
    }
  }

  lemma OnlyFirstWordRecovers(m: Machine, n: Machine, p: Pair)
    requires OnCourse(m, p) && TornLog(m.log) && SameFlash(LegDone(m, Progress(m.log, 0)), n) && ImageOk(p.secondary)
    requires I.NeedsRecovery(Slots(n))
    ensures Progress(m.log, 0) == 0
  {
    hide ImageOk, Progress, LogOk, Swapping, StagedCrc, SlotCrc, Before, LegDone, PrimaryAfter;
    SlotsAfterLeg(m, Progress(m.log, 0), p);
    RunnableAfterLeg(n, Progress(m.log, 0), p);
  }

  /** A boot, cut or not, from a reset at a torn word. */
  lemma BootFromStuck(m: Machine, c: Cycle)
    requires ResetInv(m) && Stuck(m) && FairCycle(c)
    ensures
      var b := BootOf(m, c);
      && Kept(b.m)
      && (b.m.alive ==> ComesToTornWord(m, PairOf(m), Progress(m.log, 0), b) && (b.jumped <==> ImageOk(b.m.primary)))
      && (b.m.alive ==> View(b.m).request == None)
  {
    hide ProcessMailbox, ProcessSwap, RecoverIfNeeded, HandOver, ImageOk, Progress, Mailbox.Pending, OnCourse, View,
      Steady, Shaken, Stuck, I.Sound, I.Bootable, RequestOf, PairOf, Mailbox.AckCheck, Before, Swapping, Fair,
      PrimaryAfter;
    FairPowerOn(m, c);
    var on := PowerOn(m, c.script);
    StuckIsOnCourse(on);
    TornWordDecides(on, PairOf(on), Progress(on.log, 0));
    StuckStages(on);
    var t := RecoverIfNeeded(ProcessSwap(ProcessMailbox(on)));
    HandOverRefines(t);
    ViewRequest(HandOver(t).m);
  }

  /** A boot, cut or not, from any reset. */
  lemma BootFromFairReset(m: Machine, c: Cycle)
    requires Inv(m) && FairCycle(c)
    ensures
      var b := BootOf(m, c);
      && ResetInv(b.m)
      && (b.m.alive ==>
            && I.Turn(View(b.m), b.status, b.reqCmd) == I.IdealBoot(View(m))
            && !Swapping(b.m.record) && (b.jumped <==> ImageOk(b.m.primary)))
      && (!b.m.alive ==> I.MayStop(View(m), View(b.m), b.m.record == None))
  {
    hide Boot, View, Steady, Shaken, Stuck, Fair, Swapping, ImageOk, I.IdealBoot, I.MayStop, I.Sound, Mailbox.AckCheck,
      RequestOf;
    FairPowerOn(m, c);
    BootRefines(PowerOn(m, c.script));
  }

  /** A boot keeps what holds at every reset, whatever it finds and however it is cut. */
  lemma BootKeeps(m: Machine, c: Cycle)
    requires ResetInv(m) && FairCycle(c)
    ensures
      var b := BootOf(m, c);
      && ResetInv(b.m) && (I.Bootable(View(m)) ==> I.Bootable(View(b.m)))
      && (b.m.alive && !Stuck(b.m) ==> !Swapping(b.m.record))
      && (b.m.alive ==> View(b.m).request == None && (b.jumped <==> ImageOk(b.m.primary)))
  {
    hide BootOf, View, Steady, Shaken, Swapping, ImageOk, I.IdealBoot, I.MayStop, I.Sound, I.Bootable, FairCycle,
      RequestOf, Progress, Before, PrimaryAfter, PairOf, TornLog;
    KeptIsHealthy(m);
    var b := BootOf(m, c);
    if Stuck(m) {
      BootFromStuck(m, c);
    } else {
      BootFromFairReset(m, c);
      I.BootKeepsSound(View(m));
      if b.m.alive {
        NoSwapPlanned(b.m);
      } else {
        I.StopKeepsSound(View(m), View(b.m), b.m.record == None);
      }
      BootableWhenPrimaryRuns(View(b.m));
    }
  }

  lemma BootableWhenPrimaryRuns(b: I.Board)
    ensures ImageOk(b.slots.primary) ==> I.Bootable(b)
  {
    hide ImageOk;
  }

  /** What an application leaves, if it does not interfere with an exchange that is held up. */
  lemma ApplicationKeeps(m: Machine, a: App)
    requires ResetInv(m) && ImageOk(m.primary) && View(m).request == None
    requires !Stuck(m) ==> !Swapping(m.record)
    requires Stuck(m) ==> a.secondary.None? && (a.mail.Some? ==> !Mailbox.Pending(a.mail.value))
    requires Stuck(m) ==> I.Bootable(View(m))
    ensures Kept(AppRuns(m, a))
  {
    hide SlotCrc, Progress, Before, RevertPending, Swapping, LogWhole, LogFair, TornLog, Mailbox.Pending, SwapType,
      StagedCrc, ImageOk;
    var n := AppRuns(m, a);
    if !Stuck(m) {
      AppView(m, a);
      NoSwapIsSound(View(n));
      SteadyOrStuck(n);
    }
  }

  lemma ResetKeeps(m: Machine, cold: Option<Mailbox.Mail>)
    requires ResetInv(m)
    ensures
      var n := Reset(m, cold);
      ResetInv(n) && (I.Bootable(View(m)) ==> I.Bootable(View(n)))
  {
    hide SlotCrc, View, Shaken, Mailbox.Check, I.Sound, I.Bootable, Reset, TornLog, Swapping, RequestOf;
    ResetView(m, cold);
    ViewRequest(m);
    ViewRequest(Reset(m, cold));
    LosingARequestIsSound(View(m));
  }

  lemma {:induction false} RunIsKept(m: Machine, cs: seq<Cycle>)
    requires Kept(m) && FairRun(cs) && Considerate(m, cs)
    ensures Kept(Run(m, cs))
    decreases |cs|
  {
    hide Step, Kept, BootOf, Stuck, FairCycle;
    if cs != [] {
      assert FairCycle(cs[0]);
      StepIsKept(m, cs[0]);
      RunIsKept(Step(m, cs[0]), cs[1..]);
    }
  }

  lemma StepIsKept(m: Machine, c: Cycle)
    requires Kept(m) && FairCycle(c)
    ensures ConsiderateAt(m, c) ==> Kept(Step(m, c))
  {
    hide BootOf, AppRuns, Reset, View, Shaken, Stuck, Swapping, ImageOk, I.Sound, I.Bootable, FairCycle,
      Mailbox.Pending, RequestOf;
    BootKeeps(m, c);
    var b := BootOf(m, c);
    if !ConsiderateAt(m, c) {
      return;
    }
    if b.m.alive && b.jumped {
      ApplicationKeeps(b.m, c.app);
      ResetKeeps(AppRuns(b.m, c.app), c.cold);
    } else {
      ResetKeeps(b.m, c.cold);
    }
  }

  /** What a boot comes up in: one of the images in full, unless a torn word holds the exchange up. */
  ghost predicate ComesUpIn(atReset: Machine, b: Booted) {
    var p := PairOf(atReset);
    if !Stuck(atReset) then Slots(b.m) in {p, Mirror(p)} && !Swapping(b.m.record)
    else
      var c := Progress(atReset.log, 0);
      b.m.primary == if Recovered(p, c) then p.secondary else PrimaryAfter(p, c)
  }

  /**
   No brick, exactly, with cuts of every kind. Cuts may tear log words, boots may be cut anywhere, resets may
   lose the mailbox, applications may do what they like except interfere with an exchange that is held up. A boot
   that then runs to its end jumps, and into an image that can run, if and only if the reset before it does not find
   the board trapped: the word of the second leg torn, and no image that can run in the primary slot. It comes up in
   one of the two images in full, or, at a torn word, in the mix that the legs up to it have made.
   */
  lemma NoBrickUnlessTrapped(m: Machine, cs: seq<Cycle>, c: Cycle)
    requires Kept(m) && FairRun(cs) && Considerate(m, cs) && FairCycle(c)
    ensures
      var atReset := Run(m, cs);
      var b := BootOf(atReset, c);
      b.m.alive ==>
        && (b.jumped <==> !Trapped(atReset))
        && (b.jumped ==> ImageOk(b.m.primary))
        && ComesUpIn(atReset, b)
  {
    hide Run, BootOf, View, Shaken, ImageOk, I.Sound, I.Bootable, FairCycle, RequestOf, Progress, Before, PrimaryAfter,
      Swapping, TornLog, I.IdealBoot, I.MayStop, PairOf;
    RunIsKept(m, cs);
    var atReset := Run(m, cs);
    var b := BootOf(atReset, c);
    KeptIsHealthy(atReset);
    if b.m.alive {
      BootKeeps(atReset, c);
      if Stuck(atReset) {
        BootFromStuck(atReset, c);
        OldPrimaryAtSecondLeg(atReset);
      } else {
        BootFromFairReset(atReset, c);
        I.BootKeepsSound(View(atReset));
        ViewSlots(atReset);
        NoSwapPlanned(b.m);
      }
    }
  }

  lemma OldPrimaryAtSecondLeg(m: Machine)
    ensures Swapping(m.record) && Progress(m.log, 0) == 1 ==> PairOf(m).primary == m.primary
  {
    hide Swapping, Progress;
  }
}
