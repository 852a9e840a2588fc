/**
 A boot of the bootloader is an ideal boot.

 `View` reads the ideal board out of the flash, the record, the log and the mailbox. Under scripts in which driver
 calls either work or are cut, `Boot` refines `IdealBoot` when it runs to its end and `MayStop` when it is cut.
 */
module Refinement {
  import opened Layout
  import opened BootRecord
  import opened FlashModel
  import opened SwapModel
  import opened DriverFacts
  import opened Exchange
  import opened EngineRuns
  import Mailbox
  import I = Ideal

  function KindOf(swapType: byte): I.Kind {
    if swapType == TEST then I.Trial else if swapType == REVERT then I.Rollback else I.Permanent
  }

  ghost function PlanOf(m: Machine): I.Plan {
    if Swapping(m.record) then I.Swap(KindOf(SwapType(m.record)), Progress(m.log, 0))
    else if RevertPending(m.record) then I.OnTrial
    else I.Idle
  }

  ghost function PairOf(m: Machine): Pair {
    if Swapping(m.record) then Before(m.scratch, Slots(m), Progress(m.log, 0)) else Slots(m)
  }

  function RequestOf(mail: Mailbox.Mail): Option<I.Request> {
    if Mailbox.Pending(mail) then Some(I.Request(mail.command, mail.arg)) else None
  }

  ghost function View(m: Machine): I.Board {
    I.Board(PlanOf(m), PairOf(m), RequestOf(m.mail))
  }

  /** A swap under way has an orderly log and carries the checksum of the image it installs. */
  ghost predicate Steady(m: Machine) {
    Swapping(m.record) ==> LogWhole(m.log) && StagedCrc(m.record) == SlotCrc(PairOf(m).secondary)
  }

  /** The same but for a log word that a cut may have torn. */
  ghost predicate Shaken(m: Machine) {
    Swapping(m.record) ==> LogFair(m.log) && StagedCrc(m.record) == SlotCrc(PairOf(m).secondary)
  }

  /** A swap under way that a torn log word holds up. */
  ghost predicate Stuck(m: Machine) {
    Swapping(m.record) && TornLog(m.log)
  }

  lemma SteadyOrStuck(m: Machine)
    ensures Steady(m) <==> Shaken(m) && !Stuck(m)
  {
    hide SlotCrc, Before, Progress;
    LogFairIsOk(m.log);
  }

  /** What a stage makes of a steady machine `m`: a log word is torn only where the power goes. */
  ghost predicate Settled(m: Machine, n: Machine) {
    && Shaken(n) && Fair(n)
    && (Clean(m) ==> Clean(n))
    && (n.alive || Clean(m) ==> Steady(n))
  }

  /** What every reset finds, torn log words apart. */
  ghost predicate Inv(m: Machine) {
    Steady(m) && I.Sound(View(m))
  }

  // ----- A dead machine stays as it is -----

  lemma DeadProcess(m: Machine)
    requires !m.alive
    ensures SwapProcess(m).m == m
  {
    hide Scan, Legs, EraseLog, Parse;
    DeadScan(m);
    CommitFacts(m, Load(m.record).(swapType := NONE, imageOk := 1));
    RequestSwapFacts(m, REVERT, SlotCrc(m.secondary));
  }

  lemma DeadScan(m: Machine)
    requires !m.alive
    ensures Scan(m, 0).m == m && Scan(m, 0).err != Success
  {
  }

  lemma DeadRecovery(r: Report)
    requires !r.m.alive
    ensures RecoverPrimary(r).m == r.m
  {
    hide RequestSwap, SwapProcess, ImageOk, SlotCrc;
    RequestSwapFacts(r.m, PERM, SlotCrc(r.m.secondary));
  }

  // ----- Arming -----

  /** A request or a rollback may arm: nothing is under way, or no leg of it is done yet. */
  ghost predicate MayArm(m: Machine) {
    Shaken(m) && (Swapping(m.record) ==> Progress(m.log, 0) == 0)
  }

  /** Arming plans the swap; cut, it leaves the old plan, the new one, or a lost record. */
  ghost predicate Arms(m: Machine, swapType: byte, d: Done) {
    var armed := View(m).(plan := I.Swap(KindOf(swapType), 0));
    && Shaken(d.m) && Fair(d.m) && (Clean(m) ==> Clean(d.m)) && (Steady(m) || d.m.alive ==> Steady(d.m))
    && d.m.mail == m.mail && d.m.scratch == m.scratch && Slots(d.m) == Slots(m)
    && (d.m.alive ==>
          && d.err == Success && View(d.m) == armed
          && Swapping(d.m.record) && SwapType(d.m.record) == swapType)
    && (!d.m.alive ==>
          || View(d.m) == View(m)
          || View(d.m) == armed
          || (d.m.record == None && View(d.m) == View(m).(plan := I.Idle)))
  }

  lemma ArmedView(m: Machine, n: Machine, swapType: byte)
    requires PERM <= swapType <= REVERT
    requires Slots(n) == Slots(m) && n.scratch == m.scratch && n.mail == m.mail
    requires n.record == Some(ArmedRecord(m.record, swapType, SlotCrc(m.secondary)))
    requires LogWhole(n.log) && Progress(n.log, 0) == 0
    requires Swapping(m.record) ==> Progress(m.log, 0) == 0
    ensures Steady(n) && View(n) == View(m).(plan := I.Swap(KindOf(swapType), 0))
    ensures Swapping(n.record) && SwapType(n.record) == swapType
  {
    hide ArmedRecord, Swapping, SwapType, StagedCrc, SlotCrc, LogWhole, Progress, Before;
    ArmedIsSwapping(m.record, swapType, SlotCrc(m.secondary));
    BeforeAtStart(m.scratch, Slots(m));
  }

  lemma ArmRefines(m: Machine, swapType: byte)
    requires m.alive && Fair(m) && MayArm(m) && PERM <= swapType <= REVERT
    ensures Arms(m, swapType, RequestSwap(m, swapType, SlotCrc(m.secondary)))
    ensures PairOf(m) == Slots(m)
  {
    hide RequestSwap, SlotCrc, Honest, Fair, Clean, Progress, Before, ArmedRecord, Swapping, RevertPending,
      Mailbox.Pending;
    var crc := SlotCrc(m.secondary);
    CleanIsHonest(m);
    RequestSwapFacts(m, swapType, crc);
    BeforeAtStart(m.scratch, Slots(m));
    var d := RequestSwap(m, swapType, crc);
    if d.m.record == Some(ArmedRecord(m.record, swapType, crc)) && (d.m.record != m.record || d.err == Success) {
      ArmedView(m, d.m, swapType);
    } else if d.m.record == m.record {
      SameRecordSameView(m, d.m);
    } else {
      NoRecordIsIdle();
    }
  }

  lemma NoRecordIsIdle()
    ensures !Swapping(None) && !RevertPending(None)
  {
  }

  /** An interrupted log erase does not disturb a swap without legs, and concerns nothing else. */
  lemma SameRecordSameView(m: Machine, n: Machine)
    requires MayArm(m)
    requires Slots(n) == Slots(m) && n.scratch == m.scratch && n.mail == m.mail && n.record == m.record
    requires forall i :: 0 <= i < LOG_WORDS ==> n.log[i] == m.log[i] || n.log[i].Blank?
    ensures Shaken(n) && View(n) == View(m) && (Steady(m) ==> Steady(n))
  {
    hide Swapping, SlotCrc, Before, RevertPending, StagedCrc;
    if Swapping(m.record) {
      LogFairIsOk(m.log);
      ProgressIs(n.log, 0, 0);
    }
  }

  // ----- Exchanging -----

  ghost predicate Exchanges(m: Machine, r: Ran)
    requires Swapping(m.record)
  {
    var kind := KindOf(SwapType(m.record));
    && Settled(m, r.m)
    && (r.m.alive ==>
          && View(r.m) == I.Exchanged(View(m), kind)
          && r.result == if kind == I.Rollback then Reverted else Finished)
    && (!r.m.alive ==> I.StopsInExchange(View(m), View(r.m), r.m.record == None))
  }

  lemma ConcludedPlan(r: Option<Record>, swapType: byte, primary: Slot)
    requires Swapping(r) && SwapType(r) == swapType
    ensures
      var c := Some(ConcludedRecord(r, swapType, primary));
      !Swapping(c) && (RevertPending(c) <==> swapType == TEST)
  {
    hide SlotCrc;
  }

  lemma ExchangeRefines(m: Machine)
    requires m.alive && Fair(m) && Steady(m) && Swapping(m.record)
    ensures Exchanges(m, SwapModel.Exchange(m, SwapType(m.record)))
  {
    hide SwapModel.Exchange, SlotCrc, Honest, Fair, Clean, Progress, Before, ConcludedRecord, RevertPending, StagedCrc,
      Mailbox.Pending;
    var p := PairOf(m);
    var swapType := SwapType(m.record);
    LogWholeIsOk(m.log);
    CleanIsHonest(m);
    ExchangeAdvances(m, swapType, p);
    ConcludedPlan(m.record, swapType, p.secondary);
    NoRecordIsIdle();
  }

  // ----- The stages of a boot -----

  /** The mailbox is handled: as the ideal board says, or cut short. */
  ghost predicate TakesRequest(m: Machine, r: Report) {
    && Steady(r.m) && Settled(m, r.m)
    && (r.m.alive ==> I.Turn(View(r.m), r.status, r.reqCmd) == I.AfterRequest(View(m)))
    && (!r.m.alive ==> I.StopsInRequest(View(m), View(r.m), r.m.record == None))
  }

  lemma ClearedView(m: Machine)
    requires m.alive && Mailbox.Pending(m.mail)
    ensures
      var n := SetMail(m, Mailbox.Cleared(m.mail));
      && View(n) == View(m).(request := None)
      && (Steady(m) ==> Steady(n))
      && (Fair(m) ==> Fair(n)) && (Clean(m) ==> Clean(n))
  {
    hide SlotCrc, Progress, Before, RevertPending, Swapping, LogWhole, Mailbox.Check;
    Mailbox.ClearIsImmediate(m.mail, 1);
  }

  lemma SwapRequestRefines(m: Machine)
    requires m.alive && Fair(m) && Inv(m) && Mailbox.Pending(m.mail) && m.mail.command == Mailbox.CMD_SWAP
    ensures TakesRequest(m, ProcessMailbox(m))
  {
    hide RequestSwap, SlotCrc, Fair, Clean, Progress, Before, ArmedRecord, RevertPending, Mailbox.Check, ImageOk,
      LogWhole, Mailbox.Cleared, SwapType, StagedCrc;
    var swapType := if m.mail.arg == TEST then TEST else PERM;
    assert MayArm(m);
    ArmRefines(m, swapType);
    RequestErrors(m, swapType, SlotCrc(m.secondary));
    var d := SwapStart(m, swapType);
    if d.m.alive {
      ClearedView(d.m);
    }
  }

  /** Clearing the trial flag: the plan is dropped, or the commit is cut and the plan is the old one or lost. */
  lemma SettleRefines(m: Machine)
    requires m.alive && Fair(m) && RevertPending(m.record)
    ensures
      var d := SetImageOk(m);
      && Steady(d.m) && Settled(m, d.m) && d.m.mail == m.mail
      && View(m).plan == I.OnTrial
      && (d.m.alive ==> d.err == Success && View(d.m) == View(m).(plan := I.Idle))
      && (!d.m.alive ==> View(d.m) in {View(m), View(m).(plan := I.Idle)})
  {
    hide SlotCrc, Honest, Fair, Clean, Progress, Before, Commit, Mailbox.Pending;
    var r := Load(m.record);
    CommitFacts(m, r.(swapType := NONE, imageOk := 1));
  }

  lemma ConfirmRefines(m: Machine)
    requires m.alive && Fair(m) && Inv(m) && Mailbox.Pending(m.mail) && m.mail.command == Mailbox.CMD_CONFIRM
    ensures TakesRequest(m, ProcessMailbox(m))
  {
    hide SetImageOk, SlotCrc, Fair, Clean, Progress, Before, RevertPending, Mailbox.Check, ImageOk, LogWhole,
      Mailbox.Cleared, SwapType, StagedCrc;
    if RevertPending(m.record) {
      SettleRefines(m);
      var d := SetImageOk(m);
      if d.m.alive {
        ClearedView(d.m);
      }
    } else {
      ClearedView(m);
    }
  }

  lemma RequestRefines(m: Machine)
    requires m.alive && Fair(m) && Inv(m)
    ensures TakesRequest(m, ProcessMailbox(m))
  {
    if !Mailbox.Pending(m.mail) {
    } else if m.mail.command == Mailbox.CMD_SWAP {
      SwapRequestRefines(m);
    } else if m.mail.command == Mailbox.CMD_CONFIRM {
      ConfirmRefines(m);
    } else {
      ClearedView(m);
    }
  }

  /** The engine runs: as the ideal board says, or cut short. */
  ghost predicate RunsSwap(r: Report, t: Report) {
    && Settled(r.m, t.m)
    && (t.m.alive ==>
          I.Turn(View(t.m), t.status, t.reqCmd) == I.AfterSwap(I.Turn(View(r.m), r.status, r.reqCmd)))
    && (!t.m.alive ==> I.StopsInSwap(View(r.m), View(t.m), t.m.record == None))
  }

  lemma RollbackRefines(r: Report)
    requires r.m.alive && Fair(r.m) && Steady(r.m) && RevertPending(r.m.record) && ImageOk(r.m.secondary)
    ensures RunsSwap(r, ProcessSwap(r))
  {
    hide RequestSwap, SlotCrc, Fair, Clean, Progress, Before, ArmedRecord, Mailbox.Pending, ImageOk, LogWhole,
      StagedCrc, SwapModel.Exchange;
    var m := r.m;
    ArmRefines(m, REVERT);
    var d := RequestSwap(m, REVERT, SlotCrc(m.secondary));
    if d.m.alive {
      ExchangeRefines(d.m);
    } else if d.err == Success {
      RequestSwapFacts(m, REVERT, SlotCrc(m.secondary));
    }
  }

  lemma SwapRefines(r: Report)
    requires r.m.alive && Fair(r.m) && Steady(r.m)
    ensures RunsSwap(r, ProcessSwap(r))
  {
    hide RequestSwap, SetImageOk, SlotCrc, Fair, Clean, Progress, Before, Mailbox.Pending, ImageOk, LogWhole, StagedCrc,
      SwapModel.Exchange;
    var m := r.m;
    if Swapping(m.record) {
      ExchangeRefines(m);
    } else if RevertPending(m.record) {
      if ImageOk(m.secondary) {
        RollbackRefines(r);
      } else {
        SettleRefines(m);
      }
    }
  }

  /** The last line of defence: as the ideal board says, or cut short. */
  ghost predicate Recovers(r: Report, t: Report) {
    && Settled(r.m, t.m)
    && (t.m.alive ==>
          I.Turn(View(t.m), t.status, t.reqCmd) == I.AfterRecovery(I.Turn(View(r.m), r.status, r.reqCmd)))
    && (!t.m.alive ==> I.StopsInRecovery(View(r.m), View(t.m), t.m.record == None))
  }

  /** Recovery that is entered, with no leg of a swap done: the slots change places, or it is cut while arming. */
  lemma EnteredRecoveryRefines(r: Report)
    requires r.m.alive && Fair(r.m) && MayArm(r.m) && !ImageOk(r.m.primary) && ImageOk(r.m.secondary)
    ensures
      var t := RecoverIfNeeded(r);
      && Shaken(t.m) && Fair(t.m) && (Clean(r.m) ==> Clean(t.m))
      && (t.m.alive || (Clean(r.m) && Steady(r.m)) ==> Steady(t.m))
      && (t.m.alive ==>
            I.Turn(View(t.m), t.status, t.reqCmd) == I.AfterRecovery(I.Turn(View(r.m), r.status, r.reqCmd)))
      && (!t.m.alive ==> I.StopsInArming(View(r.m), I.Permanent, View(t.m), t.m.record == None))
    ensures PairOf(r.m) == Slots(r.m)
  {
    hide RequestSwap, SlotCrc, Fair, Clean, Progress, Before, ArmedRecord, Mailbox.Pending, ImageOk, LogWhole,
      StagedCrc, SwapModel.Exchange, RevertPending, LogFair;
    var m := r.m;
    ArmRefines(m, PERM);
    var d := RequestSwap(m, PERM, SlotCrc(m.secondary));
    if d.m.alive {
      ExchangeRefines(d.m);
    } else if d.err == Success {
      RequestSwapFacts(m, PERM, SlotCrc(m.secondary));
    }
  }

  lemma RecoveryRefines(r: Report)
    requires r.m.alive && Fair(r.m) && Steady(r.m) && !Swapping(r.m.record)
    ensures Recovers(r, RecoverIfNeeded(r))
  {
    hide SwapStart, SwapProcess, SlotCrc, Fair, Clean, Progress, Before, ImageOk, LogWhole, StagedCrc, RevertPending,
      LogFair, Mailbox.Pending;
    if !ImageOk(r.m.primary) && ImageOk(r.m.secondary) {
      EnteredRecoveryRefines(r);
    }
  }

  /** What `Boot` does to a machine that every reset may find. */
  ghost predicate Boots(m: Machine, b: Booted) {
    && Shaken(b.m) && I.Sound(View(b.m))
    && (b.m.alive || Clean(m) ==> Steady(b.m))
    && (Stuck(b.m) ==> RequestOf(b.m.mail) == None)
    && (b.m.alive ==>
          && I.Turn(View(b.m), b.status, b.reqCmd) == I.IdealBoot(View(m))
          && !Swapping(b.m.record)
          && (b.jumped <==> ImageOk(b.m.primary))
          && Mailbox.AckValid(b.m.mail) && b.m.mail.status == b.status && b.m.mail.reqCmd == b.reqCmd)
    && (!b.m.alive ==> I.MayStop(View(m), View(b.m), b.m.record == None))
  }

  lemma AckedView(m: Machine, mail: Mailbox.Mail)
    requires Mailbox.Pending(mail) <==> Mailbox.Pending(m.mail)
    requires mail.command == m.mail.command && mail.arg == m.mail.arg
    ensures
      var n := SetMail(m, mail);
      View(n) == View(m) && (Steady(m) ==> Steady(n)) && (Shaken(m) ==> Shaken(n))
  {
    hide SlotCrc, Progress, Before, RevertPending, Swapping, LogWhole, LogFair, Mailbox.Pending, SwapType, StagedCrc;
  }

  lemma ScannedView(m: Machine, n: Machine)
    requires SameFlash(m, n)
    ensures View(n) == View(m) && (Steady(m) ==> Steady(n)) && (Shaken(m) ==> Shaken(n))
  {
    hide SlotCrc, Progress, Before, RevertPending, Swapping, LogWhole, LogFair, Mailbox.Pending, SwapType, StagedCrc;
  }

  lemma HandOverRefines(r: Report)
    ensures
      var b := HandOver(r);
      && View(b.m) == View(r.m) && (Steady(r.m) ==> Steady(b.m)) && (Shaken(r.m) ==> Shaken(b.m))
      && b.m.record == r.m.record && b.m.log == r.m.log && b.m.scratch == r.m.scratch && Slots(b.m) == Slots(r.m)
      && (!r.m.alive ==> !b.m.alive)
      && b.reqCmd == r.reqCmd
      && b.status == (if ImageOk(b.m.primary) then r.status else Mailbox.STATUS_ERR_IMAGE)
      && (b.jumped <==> b.m.alive && ImageOk(b.m.primary))
      && (b.m.alive ==>
            Mailbox.AckValid(b.m.mail) && b.m.mail.status == b.status && b.m.mail.reqCmd == b.reqCmd)
  {
    hide SlotCrc, Progress, Before, View, Steady, Shaken, ImageOk, AsByte, Scan, Mailbox.AckCheck, Mailbox.Pending;
    ScanIsExact(r.m, 0);
    var legs := Scan(r.m, 0);
    ScannedView(r.m, legs.m);
    var ok := ImageOk(legs.m.primary);
    var status := if ok then r.status else Mailbox.STATUS_ERR_IMAGE;
    var detail := if ok then AsByte(legs.count) else 0;
    Mailbox.AckIsAllOrNothing(legs.m.mail, status, r.reqCmd, detail, 5);
    AckedView(legs.m, Mailbox.Acked(legs.m.mail, status, r.reqCmd, detail));
  }

  /** The detail of the acknowledgement is the number of logged legs, or 0 when there is no jump. */
  lemma AckCountsLegs(r: Report)
    requires r.m.alive && Fair(r.m)
    ensures
      var b := HandOver(r);
      b.m.alive ==> b.m.mail.detail as int == if b.jumped then Progress(b.m.log, 0) else 0
  {
    hide ImageOk, AsByte, Scan, Mailbox.AckCheck, Progress, Fair, Clean;
    ScanIsExact(r.m, 0);
    LegsFitAByte(Progress(r.m.log, 0));
  }

  lemma LegsFitAByte(n: nat)
    requires n <= STEP_COUNT
    ensures AsByte(n) as int == n
  {
    assert n % 0x100 == n;
  }

  /** Once the power is gone the later stages change nothing. */
  lemma DeadStages(r: Report)
    requires !r.m.alive
    ensures ProcessSwap(r).m == r.m && RecoverIfNeeded(r).m == r.m
  {
    hide SwapProcess, RecoverPrimary, ImageOk;
    DeadProcess(r.m);
    DeadRecovery(r);
  }

  lemma NoSwapPlanned(m: Machine)
    ensures (View(m).plan.Swap? <==> Swapping(m.record)) && (!Swapping(m.record) ==> View(m).slots == Slots(m))
  {
    hide Swapping, RevertPending, Progress, Before;
  }

  lemma SettledTrans(m: Machine, r: Machine, s: Machine)
    requires Settled(m, r) && Settled(r, s)
    ensures Settled(m, s)
  {
    hide Shaken, Steady, Fair, Clean;
  }

  /** The work of a boot, before the hand-over. A log word is torn only once the request is consumed. */
  lemma WorkRefines(m: Machine)
    requires m.alive && Fair(m) && Inv(m)
    ensures
      var t := RecoverIfNeeded(ProcessSwap(ProcessMailbox(m)));
      && Settled(m, t.m) && (Stuck(t.m) ==> View(t.m).request == None)
      && (t.m.alive ==>
            I.Turn(View(t.m), t.status, t.reqCmd) == I.AfterRecovery(I.AfterSwap(I.AfterRequest(View(m)))))
      && (!t.m.alive ==> I.MayStop(View(m), View(t.m), t.m.record == None))
  {
    hide ProcessMailbox, ProcessSwap, RecoverIfNeeded, View, Steady, Shaken, Stuck, ImageOk, Fair, Clean, Swapping,
      I.AfterRequest, I.AfterSwap, I.AfterRecovery, I.StopsInRequest, I.StopsInSwap, I.StopsInRecovery, I.Sound;
    RequestRefines(m);
    I.RequestKeepsSound(View(m));
    I.SwapKeepsSound(I.AfterRequest(View(m)));
    var r := ProcessMailbox(m);
    SteadyOrStuck(r.m);
    if r.m.alive {
      SwapRefines(r);
      var s := ProcessSwap(r);
      SettledTrans(m, r.m, s.m);
      if s.m.alive {
        NoSwapPlanned(s.m);
        RecoveryRefines(s);
        var t := RecoverIfNeeded(s);
        SettledTrans(m, s.m, t.m);
        SteadyOrStuck(t.m);
        if !t.m.alive {
          I.StopsKeepRequest(View(s.m), View(t.m), t.m.record == None);
        }
      } else {
        I.StopsKeepRequest(View(r.m), View(s.m), s.m.record == None);
        DeadStages(s);
      }
    } else {
      DeadStages(r);
      DeadStages(ProcessSwap(r));
    }
  }

  /** A boot whose work is done but whose hand-over is cut counts as one that stopped. */
  lemma DoneIsAStop(b: I.Board, lost: bool)
    ensures I.MayStop(b, I.AfterRecovery(I.AfterSwap(I.AfterRequest(b))).board, lost)
  {
    hide ImageOk, I.AfterRequest, I.AfterSwap, I.StopsInRequest, I.StopsInSwap;
  }

  /** A boot, cut or not, refines an ideal boot, cut or not. */
  lemma BootRefines(m: Machine)
    requires m.alive && Fair(m) && Inv(m)
    ensures Boots(m, Boot(m))
  {
    hide ProcessMailbox, ProcessSwap, RecoverIfNeeded, HandOver, View, Steady, Shaken, ImageOk, Fair, Clean, Swapping,
      I.AfterRequest, I.AfterSwap, I.AfterRecovery, I.MayStop, I.Sound, Mailbox.AckCheck, RequestOf, TornLog;
    WorkRefines(m);
    var t := RecoverIfNeeded(ProcessSwap(ProcessMailbox(m)));
    HandOverRefines(t);
    var b := HandOver(t);
    SteadyOrStuck(b.m);
    ViewRequest(t.m);
    ViewRequest(b.m);
    I.BootKeepsSound(View(m));
    if b.m.alive {
      NoSwapPlanned(b.m);
      IdealBootPlan(View(m));
    } else {
      DoneIsAStop(View(m), t.m.record == None);
      I.StopKeepsSound(View(m), View(b.m), b.m.record == None);
    }
  }

  /** The final check of the primary slot only changes the report. */
  lemma IdealBootPlan(b: I.Board)
    ensures
      var t := I.AfterRecovery(I.AfterSwap(I.AfterRequest(b)));
      && I.IdealBoot(b).board == t.board && I.IdealBoot(b).reqCmd == t.reqCmd
      && I.IdealBoot(b).status == (if ImageOk(t.board.slots.primary) then t.status else Mailbox.STATUS_ERR_IMAGE)
  {
    hide ImageOk, I.AfterRequest, I.AfterSwap, I.AfterRecovery;
  }

  lemma ViewRequest(m: Machine)
    ensures View(m).request == RequestOf(m.mail)
  {
    hide RequestOf, Swapping, Before, Progress;
  }
}
