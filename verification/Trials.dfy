/** Trials: rollback of an unconfirmed image, exactly when it happens, and the whole trip there and back. */
module Trials {
  import opened Layout
  import opened BootRecord
  import opened FlashModel
  import opened SwapModel
  import opened DriverFacts
  import opened Exchange
  import opened EngineRuns
  import opened Refinement
  import opened Runs
  import Mailbox
  import I = Ideal

  lemma {:induction false} RollbackCourseHolds(m: Machine, q: Pair, cs: seq<Cycle>)
    requires Inv(m) && I.RollbackCourse(q, View(m))
    requires CleanRun(cs) && Interrupted(m, cs) && RecordKept(m, cs)
    ensures Inv(Run(m, cs)) && I.RollbackCourse(q, View(Run(m, cs)))
    decreases |cs|
  {
    hide View, Inv, Step, BootOf, CleanCycle, I.MayStop, I.Sound, ImageOk;
    if cs != [] {
      var c := cs[0];
      assert CleanCycle(c);
      CutStep(m, c);
      InvIsSound(m);
      I.RollbackCourseStops(q, View(m), View(BootOf(m, c).m));
      RollbackCourseHolds(Step(m, c), q, cs[1..]);
    }
  }

  /**
   Exact rollback. With an unconfirmed trial in place, and no request, the next boot that runs to its end - however
   often the rollback is cut before, with or without the mailbox surviving - leaves both slots exactly as they were
   before the trial, provided no cut made the boot record unreadable.
   */
  lemma ExactRollback(m: Machine, cs: seq<Cycle>, c: Cycle)
    requires Inv(m) && RevertPending(m.record) && !Mailbox.Pending(m.mail) && ImageOk(m.secondary)
    requires CleanRun(cs) && Interrupted(m, cs) && RecordKept(m, cs) && CleanCycle(c)
    ensures
      var b := BootOf(Run(m, cs), c);
      b.m.alive ==>
        && Slots(b.m) == Mirror(Slots(m))
        && !Swapping(b.m.record) && !RevertPending(b.m.record)
        && b.status in {Mailbox.STATUS_REVERTED, Mailbox.STATUS_OK}
  {
    hide Steady, ImageOk, BootOf, CleanCycle, I.IdealBoot, I.MayStop, I.Sound, Run, Mailbox.AckCheck, Mailbox.Pending,
      Before, Progress;
    RollbackCourseHolds(m, Slots(m), cs);
    var before := Run(m, cs);
    BootFromReset(before, c);
    I.RollbackCourseEnds(Slots(m), View(before));
    ViewSlots(BootOf(before, c).m);
  }

  /** Without that proviso the result is still one of the two whole pairs. */
  lemma {:induction false} RollbackKeepsPair(m: Machine, cs: seq<Cycle>)
    requires Inv(m) && CleanRun(cs) && Interrupted(m, cs)
    ensures Inv(Run(m, cs)) && PairOf(Run(m, cs)) in {PairOf(m), Mirror(PairOf(m))}
    decreases |cs|
  {
    hide View, Inv, Step, BootOf, CleanCycle, I.MayStop, I.Sound, ImageOk, PairOf;
    if cs != [] {
      var c := cs[0];
      assert CleanCycle(c);
      CutStep(m, c);
      InvIsSound(m);
      I.StopKeepsSound(View(m), View(BootOf(m, c).m), Step(m, c).record == None);
      ViewSlots(m);
      ViewSlots(Step(m, c));
      RollbackKeepsPair(Step(m, c), cs[1..]);
    }
  }

  /** So does the boot that then runs to its end, whatever was asked for at the start. */
  lemma FinishedBootKeepsPair(m: Machine, cs: seq<Cycle>, c: Cycle)
    requires Inv(m) && CleanRun(cs) && Interrupted(m, cs) && CleanCycle(c)
    ensures
      var b := BootOf(Run(m, cs), c);
      b.m.alive ==> Slots(b.m) in {PairOf(m), Mirror(PairOf(m))}
  {
    hide Steady, Swapping, ImageOk, BootOf, Run, CleanCycle, I.IdealBoot, I.MayStop, I.Sound, I.Bootable,
      Mailbox.AckCheck, PairOf;
    RollbackKeepsPair(m, cs);
    var atReset := Run(m, cs);
    BootFromReset(atReset, c);
    I.BootKeepsSound(View(atReset));
    ViewSlots(atReset);
    ViewSlots(BootOf(atReset, c).m);
  }

  // ----- Exactly when an unconfirmed trial is rolled back -----

  /** A board at rest, with a primary image that can run, keeps its record whether the boot is cut or not. */
  lemma RestKeepsRecord(m: Machine, c: Cycle)
    requires PlanOf(m) == I.Idle && !Mailbox.Pending(m.mail) && ImageOk(m.primary)
    ensures BootOf(m, c).m.record == m.record && Step(m, c).record == m.record
  {
    hide Scan, SwapModel.Exchange, RequestSwap, SetImageOk, ImageOk, AsByte, Mailbox.AckCheck, Mailbox.Check, Progress;
    var on := PowerOn(m, c.script);
    ScanIsExact(on, 0);
  }

  /** The rollback is still on its way, or it was forgotten: the record is unreadable and nothing has moved. */
  ghost predicate OnItsWayOrForgotten(q: Pair, m: Machine) {
    || I.RollbackCourse(q, View(m))
    || Forgotten(q, m)
  }

  /** boot_record_read fails, and the slots are the ones the trial runs from. */
  ghost predicate Forgotten(q: Pair, m: Machine) {
    m.record == None && Slots(m) == q && !Mailbox.Pending(m.mail)
  }

  lemma ForgottenView(q: Pair, m: Machine)
    requires Forgotten(q, m)
    ensures View(m) == I.Board(I.Idle, q, None)
  {
    NoRecordIsIdle();
  }

  lemma OneCutOfARollback(q: Pair, m: Machine, c: Cycle)
    requires Inv(m) && OnItsWayOrForgotten(q, m) && ImageOk(q.primary) && ImageOk(q.secondary)
    requires CleanCycle(c)
    ensures !BootOf(m, c).m.alive ==> OnItsWayOrForgotten(q, Step(m, c))
  {
    hide View, Inv, Step, BootOf, CleanCycle, I.MayStop, I.Sound, ImageOk, Mailbox.Check;
    if BootOf(m, c).m.alive {
      return;
    }
    CutStep(m, c);
    InvIsSound(m);
    var n := Step(m, c);
    var s := View(BootOf(m, c).m);
    ViewSlots(n);
    NoSwapPlanned(n);
    if Forgotten(q, m) {
      ForgottenView(q, m);
      NoSwapPlanned(m);
      RestKeepsRecord(m, c);
      IdleStaysPut(View(m), s, n.record == None);
      NoRecordIsIdle();
    } else if n.record == None {
      LossInRollback(q, View(m), s);
      NoRecordIsIdle();
    } else {
      I.RollbackCourseStops(q, View(m), s);
    }
  }

  lemma IdleStaysPut(b: I.Board, n: I.Board, lost: bool)
    requires b.plan == I.Idle && b.request == None && ImageOk(b.slots.primary) && I.MayStop(b, n, lost)
    ensures n == b
  {
    hide ImageOk;
  }

  lemma LossInRollback(q: Pair, b: I.Board, n: I.Board)
    requires I.RollbackCourse(q, b) && I.MayStop(b, n, true)
    ensures I.RollbackCourse(q, n) || n == I.Board(I.Idle, q, None)
  {
    hide ImageOk;
  }

  lemma {:induction false} CutsOfARollback(q: Pair, m: Machine, cs: seq<Cycle>)
    requires Inv(m) && OnItsWayOrForgotten(q, m) && ImageOk(q.primary) && ImageOk(q.secondary)
    requires CleanRun(cs) && Interrupted(m, cs)
    ensures Inv(Run(m, cs)) && OnItsWayOrForgotten(q, Run(m, cs))
    decreases |cs|
  {
    hide View, Inv, Step, BootOf, CleanCycle, I.MayStop, I.Sound, ImageOk, OnItsWayOrForgotten;
    if cs != [] {
      assert CleanCycle(cs[0]);
      OneCutOfARollback(q, m, cs[0]);
      CutStep(m, cs[0]);
      CutsOfARollback(q, Step(m, cs[0]), cs[1..]);
    }
  }

  lemma {:induction false} OneSidedCourseHolds(q: Pair, m: Machine, cs: seq<Cycle>)
    requires Inv(m) && I.OneSidedCourse(q, View(m)) && CleanRun(cs) && Interrupted(m, cs)
    ensures Inv(Run(m, cs)) && I.OneSidedCourse(q, View(Run(m, cs)))
    decreases |cs|
  {
    hide View, Inv, Step, BootOf, CleanCycle, I.MayStop, I.Sound, ImageOk;
    if cs != [] {
      assert CleanCycle(cs[0]);
      CutStep(m, cs[0]);
      InvIsSound(m);
      I.OneSidedCourseStops(q, View(m), View(BootOf(m, cs[0]).m), Step(m, cs[0]).record == None);
      OneSidedCourseHolds(q, Step(m, cs[0]), cs[1..]);
    }
  }

  /** Whether an unconfirmed trial at `q` will be rolled back, from what the last reset before it finds. */
  ghost predicate GoesBack(q: Pair, atReset: Machine) {
    ImageOk(q.secondary) && (ImageOk(q.primary) ==> !Forgotten(q, atReset))
  }

  /**
   The rollback of an unconfirmed trial, exactly. The next boot that runs to its end, however many are cut before it,
   puts the previous image back if and only if that image can run and the last reset does not find the record unreadable
   with a trial image in place that can run too. Otherwise both slots are as they were.
   */
  lemma RollbackUnlessForgotten(m: Machine, cs: seq<Cycle>, c: Cycle)
    requires Inv(m) && RevertPending(m.record) && !Mailbox.Pending(m.mail)
    requires CleanRun(cs) && Interrupted(m, cs) && CleanCycle(c)
    ensures
      var q, b := Slots(m), BootOf(Run(m, cs), c);
      b.m.alive ==> Slots(b.m) == if GoesBack(q, Run(m, cs)) then Mirror(q) else q
  {
    hide Steady, ImageOk, BootOf, CleanCycle, I.MayStop, I.Sound, Run, Mailbox.AckCheck, Mailbox.Check, Before,
      Progress, Forgotten;
    var q := Slots(m);
    if ImageOk(q.primary) && ImageOk(q.secondary) {
      TwoSidedRollback(m, cs, c);
    } else {
      OneSidedCourseHolds(q, m, cs);
      var atReset := Run(m, cs);
      BootFromReset(atReset, c);
      I.OneSidedCourseEnds(q, View(atReset));
      ViewSlots(BootOf(atReset, c).m);
    }
  }

  lemma TwoSidedRollback(m: Machine, cs: seq<Cycle>, c: Cycle)
    requires Inv(m) && RevertPending(m.record) && !Mailbox.Pending(m.mail)
    requires ImageOk(m.primary) && ImageOk(m.secondary)
    requires CleanRun(cs) && Interrupted(m, cs) && CleanCycle(c)
    ensures
      var q, b := Slots(m), BootOf(Run(m, cs), c);
      b.m.alive ==> Slots(b.m) == if Forgotten(q, Run(m, cs)) then q else Mirror(q)
  {
    hide Steady, ImageOk, BootOf, CleanCycle, I.MayStop, I.Sound, Run, Mailbox.AckCheck, Mailbox.Check, Before,
      Progress;
    var q := Slots(m);
    CutsOfARollback(q, m, cs);
    var atReset := Run(m, cs);
    BootFromReset(atReset, c);
    ViewSlots(BootOf(atReset, c).m);
    if Forgotten(q, atReset) {
      ForgottenView(q, atReset);
    } else {
      I.RollbackCourseEnds(q, View(atReset));
    }
  }

  lemma ErasedBlockIsNoRecord(candidates: set<Option<Record>>)
    ensures HalfWritten(CUT, candidates) == None
  {
    var b: Block := NoiseBytes(CUT, RECORD_SIZE);
    assert b[0] == 0xFF && b[1] == 0xFF && b[2] == 0xFF && b[3] == 0xFF;
    assert LoadWord(b, 0) != MAGIC;
  }

  /** Arming under the script that cuts the erase of the record. */
  lemma CutInArming(m: Machine, swapType: byte, crcStaged: word)
    requires m.alive && m.script == [WORKS, WORKS, CUT] && PERM <= swapType <= REVERT
    ensures
      var d := RequestSwap(m, swapType, crcStaged);
      d.err != Success && !d.m.alive && d.m.record == None && Slots(d.m) == Slots(m) && d.m.mail == m.mail
  {
    hide Parse, HalfWritten, ArmedRecord;
    var e := EraseLog(m);
    assert e.m.script == [WORKS, CUT];
    var b := BlankCheck(e.m, 0, LOG_WORDS);
    assert b.blank && b.m.script == [CUT];
    ErasedBlockIsNoRecord({b.m.record});
    var r := EraseRecord(b.m);
    assert r.m.record == None && !r.m.alive;
  }

  /** And it can be forgotten: a cut in the erase of the record that arms the rollback is enough. */
  lemma RollbackCanBeForgotten(m: Machine, c: Cycle)
    requires RevertPending(m.record) && !Mailbox.Pending(m.mail) && ImageOk(m.secondary)
    requires c.script == [WORKS, WORKS, CUT]
    ensures CleanCycle(c) && !BootOf(m, c).m.alive && Forgotten(Slots(m), BootOf(m, c).m)
  {
    hide RequestSwap, SwapModel.Exchange, Mailbox.Check, ImageOk, SlotCrc, HandOver, RecoverIfNeeded;
    var on := PowerOn(m, c.script);
    CutInArming(on, REVERT, SlotCrc(m.secondary));
    var r := ProcessSwap(ProcessMailbox(on));
    DeadStages(r);
    DeadHandOver(RecoverIfNeeded(r));
  }

  lemma DeadHandOver(r: Report)
    requires !r.m.alive
    ensures HandOver(r).m == r.m
  {
    hide ImageOk, AsByte, Mailbox.AckCheck;
    DeadScan(r.m);
  }

  // ----- A trial, from request to rollback -----

  lemma {:induction false} TrialCourseHolds(m: Machine, p: Pair, cs: seq<Cycle>)
    requires Inv(m) && I.TrialCourse(p, View(m))
    requires CleanRun(cs) && Warm(cs) && Interrupted(m, cs) && RecordKept(m, cs)
    ensures Inv(Run(m, cs)) && I.TrialCourse(p, View(Run(m, cs)))
    decreases |cs|
  {
    hide View, Inv, Step, BootOf, CleanCycle, I.MayStop, I.TrialCourse, I.Sound;
    if cs != [] {
      var c := cs[0];
      assert CleanCycle(c) && c.cold == None;
      CutStep(m, c);
      InvIsSound(m);
      I.TrialCourseStops(p, View(m), View(BootOf(m, c).m));
      TrialCourseHolds(Step(m, c), p, cs[1..]);
    }
  }

  /** An application that neither confirms, nor requests anything, nor writes the secondary slot. */
  ghost predicate Silent(c: Cycle) {
    c.app == App(None, None)
  }

  /**
   A trial that is never confirmed costs nothing. From a pending trial request on, through any cuts before and after
   the trial image got to run, the second boot that runs to its end has both images back where they were.
   */
  lemma TrialRoundTrip(m: Machine, before: seq<Cycle>, c1: Cycle, after: seq<Cycle>, c2: Cycle)
    requires Inv(m) && I.AsksForSwap(View(m)) && m.mail.arg == TEST
    requires ImageOk(PairOf(m).primary) && ImageOk(PairOf(m).secondary)
    requires CleanRun(before) && Warm(before) && Interrupted(m, before) && RecordKept(m, before)
    requires CleanCycle(c1) && Silent(c1) && CleanRun(after) && CleanCycle(c2)
    ensures
      var b1 := BootOf(Run(m, before), c1);
      var n := Step(Run(m, before), c1);
      var b2 := BootOf(Run(n, after), c2);
      b1.m.alive && Interrupted(n, after) && RecordKept(n, after) && b2.m.alive ==>
        && (b1.status == Mailbox.STATUS_SWAPPED ==> Slots(b1.m) == Mirror(PairOf(m)) && RevertPending(b1.m.record))
        && Slots(b2.m) == PairOf(m) && !Swapping(b2.m.record) && !RevertPending(b2.m.record)
  {
    hide Steady, Swapping, RevertPending, ImageOk, BootOf, Step, CleanCycle, I.IdealBoot, I.MayStop, I.Sound, Run,
      PairOf, Mailbox.AckCheck, Mailbox.Pending;
    var p := PairOf(m);
    TrialCourseHolds(m, p, before);
    var m1 := Run(m, before);
    var b1, n := BootOf(m1, c1), Step(m1, c1);
    var m2 := Run(n, after);
    if b1.m.alive && Interrupted(n, after) && RecordKept(n, after) && BootOf(m2, c2).m.alive {
      BootFromReset(m1, c1);
      InvIsSound(m1);
      I.TrialCourseEnds(p, View(m1));
      ViewSlots(b1.m);
      SilentStep(m1, c1);
      StepKeepsHealth(m1, c1);
      RollbackCourseHolds(n, Mirror(p), after);
      BootFromReset(m2, c2);
      InvIsSound(m2);
      I.RollbackCourseEnds(Mirror(p), View(m2));
      ViewSlots(BootOf(m2, c2).m);
    }
  }

  lemma SilentStep(m: Machine, c: Cycle)
    requires Silent(c)
    ensures View(BootOf(m, c).m).request == None ==> View(Step(m, c)) == View(BootOf(m, c).m)
  {
    hide View, BootOf, Reset;
    ResetView(BootOf(m, c).m, c.cold);
  }
}
