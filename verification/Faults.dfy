/**
 Boots under any script at all: what even failing and lying driver calls cannot break, and what a single failing call
 does break.
 */
module Faults {
  import opened Layout
  import opened BootRecord
  import opened FlashModel
  import opened SwapModel
  import opened DriverFacts
  import opened Exchange
  import opened EngineRuns
  import opened Runs
  import Crc32
  import Mailbox
  import I = Ideal

  // ----- What every boot keeps -----

  lemma ExchangeIsLater(m: Machine, swapType: byte)
    ensures Later(m, SwapModel.Exchange(m, swapType).m)
  {
    hide Scan, Legs, Later, SlotCrc, CompletedRecord, Commit;
    ScanIsExact(m, 0);
    var s := Scan(m, 0);
    if s.err == Success {
      LegsKeepIntent(s.m, s.count);
      var l := Legs(s.m, s.count).m;
      CommitFacts(l, CompletedRecord(l.record, if swapType == TEST then REVERT else NONE,
                                     if swapType == TEST then 0 else 1, SlotCrc(l.primary)));
      LaterTrans(m, s.m, l);
      LaterTrans(m, l, Conclude(l, swapType, StagedCrc(m.record)).m);
    }
  }

  lemma ProcessIsLater(m: Machine)
    ensures Later(m, SwapProcess(m).m)
  {
    hide SwapModel.Exchange, RequestSwap, Commit, Later, ImageOk, SlotCrc;
    LaterRefl(m);
    CommitFacts(m, Load(m.record).(swapType := NONE, imageOk := 1));
    RequestSwapFacts(m, REVERT, SlotCrc(m.secondary));
    ExchangeIsLater(m, SwapType(m.record));
    var d := RequestSwap(m, REVERT, SlotCrc(m.secondary));
    ExchangeIsLater(d.m, REVERT);
    LaterTrans(m, d.m, SwapModel.Exchange(d.m, REVERT).m) by {
      assert Later(m, d.m);
    }
  }

  lemma StartIsLater(m: Machine, swapType: byte)
    requires PERM <= swapType <= REVERT
    ensures Later(m, SwapStart(m, swapType).m)
  {
    hide RequestSwap, Later, ImageOk, SlotCrc;
    LaterRefl(m);
    RequestSwapFacts(m, swapType, SlotCrc(m.secondary));
  }

  lemma MailIsLater(m: Machine, n: Machine, mail: Mailbox.Mail)
    requires Later(m, n)
    ensures Later(m, SetMail(n, mail))
  {
  }

  lemma RequestIsLater(m: Machine)
    ensures Later(m, ProcessMailbox(m).m)
  {
    hide SwapStart, Commit, Later, Mailbox.Check, RevertPending, SetMail;
    LaterRefl(m);
    MailIsLater(m, m, Mailbox.Cleared(m.mail));
    var d := SwapStart(m, if m.mail.arg == TEST then TEST else PERM);
    StartIsLater(m, if m.mail.arg == TEST then TEST else PERM);
    MailIsLater(m, d.m, Mailbox.Cleared(d.m.mail));
    var s := SetImageOk(m);
    CommitFacts(m, Load(m.record).(swapType := NONE, imageOk := 1));
    MailIsLater(m, s.m, Mailbox.Cleared(s.m.mail));
  }

  lemma RecoveryIsLater(r: Report)
    ensures Later(r.m, RecoverIfNeeded(r).m)
  {
    hide SwapStart, SwapProcess, Later, ImageOk;
    LaterRefl(r.m);
    StartIsLater(r.m, PERM);
    var d := SwapStart(r.m, PERM);
    ProcessIsLater(d.m);
    LaterTrans(r.m, d.m, SwapProcess(d.m).m);
  }

  lemma HandOverIsLater(r: Report)
    ensures Later(r.m, HandOver(r).m)
  {
    hide Scan, Later, ImageOk, SetMail, Mailbox.Acked, AsByte;
    ScanIsExact(r.m, 0);
    var legs := Scan(r.m, 0);
    MailIsLater(r.m, legs.m, Mailbox.Acked(legs.m.mail, Mailbox.STATUS_ERR_IMAGE, r.reqCmd, 0));
    MailIsLater(r.m, legs.m, Mailbox.Acked(legs.m.mail, r.status, r.reqCmd, AsByte(legs.count)));
  }

  lemma BootIsLater(m: Machine)
    ensures Later(m, Boot(m).m)
  {
    hide ProcessMailbox, SwapProcess, RecoverIfNeeded, HandOver, Later;
    RequestIsLater(m);
    var r := ProcessMailbox(m);
    ProcessIsLater(r.m);
    var s := ProcessSwap(r);
    LaterTrans(m, r.m, s.m);
    RecoveryIsLater(s);
    var t := RecoverIfNeeded(s);
    LaterTrans(m, s.m, t.m);
    HandOverIsLater(t);
    LaterTrans(m, t.m, HandOver(t).m);
  }

  /** No run, under any script, ever changes the code flash below the scratch area: the bootloader itself. */
  lemma {:induction false} BootloaderUntouched(m: Machine, cs: seq<Cycle>)
    ensures Run(m, cs).low == m.low
    decreases |cs|
  {
    hide Boot, Mailbox.Check;
    if cs != [] {
      BootIsLater(PowerOn(m, cs[0].script));
      BootloaderUntouched(Step(m, cs[0]), cs[1..]);
    }
  }

  /** A boot whose driver calls all work runs to its end. */
  lemma UncutBootFinishes(m: Machine, c: Cycle)
    requires forall e :: e in c.script ==> e.outcome == Good
    ensures BootOf(m, c).m.alive
  {
    hide Boot;
    BootIsLater(PowerOn(m, c.script));
  }

  // ----- What is reported when calls fail or lie -----

  /** The kind of swap a request asks for. */
  function AskedType(m: Machine): byte {
    if m.mail.arg == TEST then TEST else PERM
  }

  /**
   A swap request under any script: it moves nothing, is rejected as ERR_IMAGE exactly when the staged image cannot run
   and then leaves no trace but a cleared mailbox. No error means an empty log and its exchange armed, unless the driver
   lied and the record that was there is still in place.
   */
  lemma RequestReport(m: Machine)
    requires Mailbox.Pending(m.mail) && m.mail.command == Mailbox.CMD_SWAP
    ensures
      var r := ProcessMailbox(m);
      && Slots(r.m) == Slots(m) && r.m.scratch == m.scratch && r.reqCmd == Mailbox.CMD_SWAP
      && (r.m.alive ==> !Mailbox.Pending(r.m.mail))
      && r.status in {Mailbox.STATUS_OK, Mailbox.STATUS_ERR_IMAGE, Mailbox.STATUS_ERR_WRITE}
      && (r.status == Mailbox.STATUS_ERR_IMAGE <==> !ImageOk(m.secondary))
      && (r.status == Mailbox.STATUS_ERR_IMAGE ==> r.m == SetMail(m, Mailbox.Cleared(m.mail)))
      && (r.status == Mailbox.STATUS_OK ==>
            && LogWhole(r.m.log) && Progress(r.m.log, 0) == 0
            && (r.m.record == m.record || (OnCourse(r.m, Slots(m)) && SwapType(r.m.record) == AskedType(m)))
            && (Sure(m) ==> OnCourse(r.m, Slots(m)) && SwapType(r.m.record) == AskedType(m)))
  {
    hide SwapStart, ImageOk, Mailbox.Check, Before, Progress, SlotCrc, LogOk, LogWhole, Scan, Swapping, SwapType,
      StagedCrc, Sure;
    StartSetsCourse(m, AskedType(m));
    Mailbox.ClearIsImmediate(SwapStart(m, AskedType(m)).m.mail, 1);
  }

  /** A request can get lost without an error: the mailbox is cleared, the log erased, and the record is what it was. */
  lemma RequestCanBeLost(m: Machine)
    requires m.alive && Mailbox.Pending(m.mail) && m.mail.command == Mailbox.CMD_SWAP && ImageOk(m.secondary)
    requires m.record.Some? && m.script == CommitLies(m.record.value)
    ensures
      var r := ProcessMailbox(m);
      && r.status == Mailbox.STATUS_OK && r.m.record == m.record && !Mailbox.Pending(r.m.mail)
      && Slots(r.m) == Slots(m) && LogWhole(r.m.log)
  {
    hide RequestSwap, ImageOk, Mailbox.Check, SlotCrc, LogWhole, Progress;
    ArmingCanBeLost(m, AskedType(m), SlotCrc(m.secondary));
    Mailbox.ClearIsImmediate(SwapStart(m, AskedType(m)).m.mail, 1);
  }

  /** The record already asks for what the request asks for, of the image that is staged. */
  predicate AlreadyAsked(m: Machine) {
    Swapping(m.record) && SwapType(m.record) == AskedType(m) && StagedCrc(m.record) == SlotCrc(m.secondary)
  }

  /** Exactly when a request for a runnable image, having met no error, has its exchange armed for every driver. */
  lemma RequestIsSureExactly(m: Machine)
    requires Mailbox.Pending(m.mail) && m.mail.command == Mailbox.CMD_SWAP && ImageOk(m.secondary)
    ensures
      (forall script: seq<Event> ::
         var r := ProcessMailbox(PowerOn(m, script));
         r.status == Mailbox.STATUS_OK ==> OnCourse(r.m, Slots(m)) && SwapType(r.m.record) == AskedType(m))
      <==> m.record == None || AlreadyAsked(m)
  {
    hide ProcessMailbox, ImageOk, Mailbox.Check, Before, Progress, SlotCrc, LogWhole, Swapping, SwapType, StagedCrc,
      Honest;
    if m.record == None || AlreadyAsked(m) {
      forall script: seq<Event>
        ensures
          var r := ProcessMailbox(PowerOn(m, script));
          r.status == Mailbox.STATUS_OK ==> OnCourse(r.m, Slots(m)) && SwapType(r.m.record) == AskedType(m)
      {
        var on := PowerOn(m, script);
        RequestReport(on);
        var r := ProcessMailbox(on);
        if r.status == Mailbox.STATUS_OK {
          LogWholeIsOk(r.m.log);
          BeforeAtStart(r.m.scratch, Slots(m));
        }
      }
    } else {
      var on := PowerOn(m, CommitLies(m.record.value));
      RequestCanBeLost(on);
      var r := ProcessMailbox(on);
      assert r.status == Mailbox.STATUS_OK && !(OnCourse(r.m, Slots(m)) && SwapType(r.m.record) == AskedType(m));
    }
  }

  /**
   The report of a boot that resumes an exchange of `p`, with any errors and cuts in the engine. A primary slot that can
   run: no error means complete and recorded, under way means ERR_SWAP, and REVERTED means it was a rollback. One that
   cannot: SWAPPED if recovery exchanged what the slots held, ERR_IMAGE and no jump if there was nothing to recover.
   */
  lemma ExchangeReport(m: Machine, p: Pair)
    requires OnCourse(m, p) && Honest(m) && !Mailbox.Pending(m.mail)
    requires I.NeedsRecovery(Slots(SwapProcess(m).m)) ==> Works(SwapProcess(m).m)
    ensures
      var now, b := Slots(SwapProcess(m).m), Boot(m);
      if ImageOk(now.primary) then
        && (b.jumped <==> b.m.alive)
        && b.status in {Mailbox.STATUS_SWAPPED, Mailbox.STATUS_REVERTED, Mailbox.STATUS_ERR_SWAP}
        && Slots(b.m) == now
        && (b.status != Mailbox.STATUS_ERR_SWAP ==>
              && Arrived(b.m, p)
              && b.m.record == Some(ConcludedRecord(m.record, SwapType(m.record), p.secondary)))
        && (OnCourse(b.m, p) ==> b.status == Mailbox.STATUS_ERR_SWAP && b.m.record == m.record)
        && (b.status == Mailbox.STATUS_REVERTED ==> SwapType(m.record) == REVERT)
        && (b.status == Mailbox.STATUS_SWAPPED ==> SwapType(m.record) != REVERT)
      else if ImageOk(now.secondary) then
        b.jumped && b.status == Mailbox.STATUS_SWAPPED && Slots(b.m) == Mirror(now) && !Swapping(b.m.record)
      else
        !b.jumped && b.status == Mailbox.STATUS_ERR_IMAGE && Slots(b.m) == now
  {
    hide SwapProcess, HandOver, ImageOk, Swapping, LogOk, Before, Progress, StagedCrc, SlotCrc, LogWhole, Honest, Fair,
      Clean, ConcludedRecord, SwapType, Mailbox.Pending, RecoverPrimary;
    ProcessAdvances(m, p);
    var s := ProcessSwap(ProcessMailbox(m));
    if I.NeedsRecovery(Slots(s.m)) {
      RecoveryExchanges(s);
      HandOverIsLater(RecoverIfNeeded(s));
      StaysWorking(RecoverIfNeeded(s).m, HandOver(RecoverIfNeeded(s)).m);
    } else {
      NothingToRecover(s);
    }
    HandOverKeepsSlots(RecoverIfNeeded(s));
  }

  lemma NothingToRecover(r: Report)
    requires !I.NeedsRecovery(Slots(r.m))
    ensures RecoverIfNeeded(r) == r
  {
    hide ImageOk, SwapStart, SwapProcess;
  }

  /**
   The report of such a boot when the driver may lie as well. SWAPPED and REVERTED stand for a primary slot with the
   checksum taken when its exchange was armed: the one that was resumed or, after that failed, the one recovery armed
   - and if a lying commit kept the old record in its place, the checksum that one holds. ERR_CRC stands for a
   primary slot with another checksum, unless recovery changed the slots since.
   */
  lemma ReportIsVerified(m: Machine)
    requires Swapping(m.record) && !Mailbox.Pending(m.mail)
    ensures
      var e, b := SwapProcess(m), Boot(m);
      var now := Slots(e.m);
      && (!I.NeedsRecovery(now) && b.status in {Mailbox.STATUS_SWAPPED, Mailbox.STATUS_REVERTED} ==>
            Verified(StagedCrc(m.record), b.m.primary))
      && (!I.NeedsRecovery(now) && b.status == Mailbox.STATUS_ERR_CRC ==>
            !Verified(StagedCrc(m.record), b.m.primary))
      && (I.NeedsRecovery(now) && e.result in {Error, CrcFail} && b.status == Mailbox.STATUS_SWAPPED ==>
            RecoveryVerified(e.m, b.m.primary))
      && (I.NeedsRecovery(now) && e.result in {Error, CrcFail} ==> b.status != Mailbox.STATUS_REVERTED)
  {
    hide SwapProcess, HandOver, ImageOk, Swapping, StagedCrc, Verified, Mailbox.Pending, RecoverPrimary, SlotCrc, Sure;
    ProcessVerifies(m);
    var s := ProcessSwap(ProcessMailbox(m));
    if I.NeedsRecovery(Slots(s.m)) {
      RecoveryIsVerified(s);
    } else {
      NothingToRecover(s);
    }
    HandOverKeepsSlots(RecoverIfNeeded(s));
  }

  /** What an exchange armed on `m` by recovery is verified against. */
  ghost predicate RecoveryVerified(m: Machine, primary: Slot) {
    || Verified(Crc32.Checksum(Flatten(m.secondary)), primary)
    || (!Sure(m) && Verified(StagedCrc(m.record), primary))
  }

  /** Only an exchange that was asked for when the engine was called is ever reported as done. */
  lemma FinishedMeansSwapping(m: Machine)
    ensures SwapProcess(m).result == Finished ==> Swapping(m.record)
  {
    hide RequestSwap, Scan, Legs, SwapComplete, ImageOk, SlotCrc;
  }

  /** Recovery changes the report only to SWAPPED, and only for an exchange that was verified. */
  lemma RecoveryIsVerified(r: Report)
    requires I.NeedsRecovery(Slots(r.m))
    ensures
      var t := RecoverIfNeeded(r);
      t.status == r.status || (t.status == Mailbox.STATUS_SWAPPED && RecoveryVerified(r.m, t.m.primary))
  {
    hide SwapProcess, SwapStart, ImageOk, Swapping, StagedCrc, Verified, Crc32.Checksum, Flatten, LogOk, LogWhole,
      Before, Progress, Sure;
    StartSetsCourse(r.m, PERM);
    var d := SwapStart(r.m, PERM);
    FinishedMeansSwapping(d.m);
    if d.err == Success && Swapping(d.m.record) {
      ProcessVerifies(d.m);
    }
  }

  // ----- A driver call that reports an error -----

  /**
   Errors in the engine keep the exchange: when one of `p` is under way and its engine call ends in any way - cut,
   failed, complete - and hal_entry does not go into recovery, the boot leaves the exchange under way or complete.
   What the boot jumps into meanwhile is the subject of `MixedImages`.
   */
  lemma EngineErrorsKeepCourse(m: Machine, p: Pair)
    requires OnCourse(m, p) && Honest(m) && !Mailbox.Pending(m.mail)
    requires !I.NeedsRecovery(Slots(SwapProcess(m).m))
    ensures
      var b := Boot(m);
      OnCourse(b.m, p) || Arrived(b.m, p)
  {
    hide SwapProcess, RequestSwap, Scan, Swapping, LogOk, Before, Progress, ImageOk, StagedCrc, SlotCrc, LogWhole,
      Honest, Fair, Clean, Calm, AsByte, Mailbox.Acked, ConcludedRecord, SwapType;
    ProcessAdvances(m, p);
    var s := ProcessSwap(ProcessMailbox(m));
    ScanIsExact(s.m, 0);
  }

  /** From here on every driver call works. */
  ghost predicate Works(m: Machine) {
    Calm(m) && Clean(m) && Fair(m) && Honest(m)
  }

  lemma StaysWorking(m: Machine, n: Machine)
    requires Later(m, n) && Works(m)
    ensures Works(n)
  {
    hide Fair, Clean, Honest, Calm;
  }

  /** Recovery with a driver that works: the slots change places, whatever they hold. */
  lemma RecoveryExchanges(r: Report)
    requires Works(r.m) && !ImageOk(r.m.primary) && ImageOk(r.m.secondary)
    ensures
      var t := RecoverIfNeeded(r);
      && Works(t.m) && Slots(t.m) == Mirror(Slots(r.m)) && !Swapping(t.m.record)
      && t.status == Mailbox.STATUS_SWAPPED
  {
    hide RequestSwap, SwapProcess, Later, ImageOk, SlotCrc, OnCourse, Progress, Swapping, LogWhole, ConcludedRecord,
      Fair, Clean, Honest, SwapType;
    var d := SwapStart(r.m, PERM);
    RequestSwapFacts(r.m, PERM, SlotCrc(r.m.secondary));
    StartIsLater(r.m, PERM);
    StaysWorking(r.m, d.m);
    StartSetsCourse(r.m, PERM);
    ProcessAdvances(d.m, Slots(r.m));
    ProcessIsLater(d.m);
    StaysWorking(d.m, SwapProcess(d.m).m);
  }

  lemma HandOverKeepsSlots(r: Report)
    ensures
      var b := HandOver(r);
      && Slots(b.m) == Slots(r.m) && b.m.record == r.m.record
      && (b.jumped <==> b.m.alive && ImageOk(r.m.primary))
      && b.status == if ImageOk(r.m.primary) then r.status else Mailbox.STATUS_ERR_IMAGE
  {
    hide Scan, ImageOk, AsByte, Mailbox.Acked;
    ScanIsExact(r.m, 0);
  }

  /**
   Exactly when a boot keeps an exchange of `p` under way or completes it, whatever errors the engine met, once the
   driver works again: when hal_entry does not enter its recovery branch, or enters it with nothing moved.
   */
  lemma OnlyRecoveryEndsCourse(m: Machine, p: Pair)
    requires OnCourse(m, p) && Honest(m) && !Mailbox.Pending(m.mail) && Works(SwapProcess(m).m)
    ensures
      var now := Slots(SwapProcess(m).m);
      var b := Boot(m);
      (OnCourse(b.m, p) || Arrived(b.m, p)) <==> (!I.NeedsRecovery(now) || now == p)
  {
    hide SwapProcess, RecoverIfNeeded, HandOver, ImageOk, LogOk, Before, Progress, StagedCrc, Swapping, SlotCrc, Works,
      Mailbox.Pending, Honest;
    var s := ProcessSwap(ProcessMailbox(m));
    if I.NeedsRecovery(Slots(s.m)) {
      RecoveryExchanges(s);
      HandOverKeepsSlots(RecoverIfNeeded(s));
    } else {
      EngineErrorsKeepCourse(m, p);
    }
  }
}
