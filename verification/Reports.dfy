/** What a boot reports, under any script: every status from what became of record, log and slots. */
module Reports {
  import opened Layout
  import opened BootRecord
  import opened FlashModel
  import opened SwapModel
  import opened DriverFacts
  import opened Exchange
  import opened EngineRuns
  import opened Faults
  import opened MixedImages
  import Crc32
  import Mailbox
  import I = Ideal

  // ----- Where a boot enters -----

  /**
   A boot that jumps, whatever led to it, enters an odd address inside the primary slot with a stack pointer that is a
   multiple of 8 inside RAM, both taken from the first eight bytes of the slot.
   */
  lemma JumpEntersSlot(m: Machine)
    ensures
      var b := Boot(m);
      var sp, pc := Number(b.m.primary[0], 0), Number(b.m.primary[0], 4);
      b.jumped ==>
        && 0x2000_0000 <= sp <= 0x2000_A000 && sp % 8 == 0
        && pc % 2 == 1 && PRIMARY_BASE < pc < PRIMARY_BASE + PRIMARY_SIZE
  {
    hide ProcessMailbox, ProcessSwap, RecoverIfNeeded, HandOver, ImageOk, Number;
    HandOverKeepsSlots(RecoverIfNeeded(ProcessSwap(ProcessMailbox(m))));
    ImageOkExactly(Boot(m).m.primary);
  }

  // ----- What the engine acts on -----

  /**
   Which records make the engine act, field by field: an unreadable one, one of no known type, and a completed one that
   is not an unconfirmed trial leave everything alone.
   */
  lemma EngineDecides(m: Machine)
    ensures m.record == None ==> SwapProcess(m) == Ran(m, Nothing)
    ensures
      m.record.Some? ==>
        var r := m.record.value;
        && (r.swapType !in {1, 2, 3} ==> SwapProcess(m) == Ran(m, Nothing))
        && (r.swapType in {1, 2, 3} && r.copyDone != 1 ==> SwapProcess(m).result != Nothing)
        && (r.copyDone == 1 && !(r.swapType == 3 && r.imageOk != 1) ==> SwapProcess(m) == Ran(m, Nothing))
  {
    hide Scan, Legs, SwapComplete, RequestSwap, ImageOk, SlotCrc;
  }

  /** The engine's last word tells the kinds of swap apart, and it is never Nothing once an exchange was tried. */
  lemma ConclusionNames(m: Machine, swapType: byte)
    ensures
      var r := SwapModel.Exchange(m, swapType).result;
      r in {Error, CrcFail, if swapType == 3 then Reverted else Finished}
  {
    hide Scan, Legs, SwapComplete, SlotCrc;
  }

  /**
   An unconfirmed trial. With a previous image that can run the engine answers Nothing in no case, REVERTED means that
   an image with its checksum is in place, CRC_FAIL that one with another is, and an honest REVERTED that the slots have
   changed places. Without one nothing moves, and an honest Nothing means that the trial is
   over, while one that could not be ended is reported as an error.
   */
  lemma RollbackReport(m: Machine)
    requires m.record.Some?
    requires var r := m.record.value; r.swapType == 3 && r.copyDone == 1 && r.imageOk != 1
    ensures
      var e := SwapProcess(m);
      if ImageOk(m.secondary) then
        && e.result in {Reverted, CrcFail, Error}
        && (Honest(m) ==> e.result in {Reverted, Error})
        && (Honest(m) && e.result == Reverted ==> Slots(e.m) == Mirror(Slots(m)))
        && (Sure(m) && e.result != Error ==>
              (e.result == Reverted <==> Verified(Crc32.Checksum(Flatten(m.secondary)), e.m.primary)))
      else
        && e.result in {Nothing, Error} && Slots(e.m) == Slots(m)
        && (Honest(m) && e.result == Nothing ==> !RevertPending(e.m.record) && !Swapping(e.m.record))
        && (m.alive && Fair(m) && e.m.alive ==> e.result == Nothing)
  {
    hide SwapModel.Exchange, RequestSwap, Commit, ImageOk, Crc32.Checksum, Flatten, Before, Progress, LogOk, LogWhole,
      Honest, Fair, ConcludedRecord, ArmedRecord, Verified;
    CommitFacts(m, Load(m.record).(swapType := NONE, imageOk := 1));
    if ImageOk(m.secondary) {
      var crc := SlotCrc(m.secondary);
      var d := RequestSwap(m, REVERT, crc);
      RequestSwapFacts(m, REVERT, crc);
      ConclusionNames(d.m, REVERT);
      if d.err == Success && Sure(m) {
        ArmedIsSwapping(m.record, REVERT, crc);
        ProcessVerifies(d.m);
        assert SwapProcess(m) == SwapProcess(d.m);
      }
      if d.err == Success && Honest(m) {
        ArmedIsSwapping(m.record, REVERT, crc);
        LogWholeIsOk(d.m.log);
        BeforeAtStart(d.m.scratch, Slots(m));
        ExchangeAdvances(d.m, REVERT, Slots(m));
      }
    }
  }

  // ----- What a boot reports of an exchange -----

  /**
   Done, field by field: a permanent swap or a rollback leaves nothing to do, a test swap a trial, and the checksum is
   of all the bytes that arrived.
   */
  predicate RecordsConclusion(r: Record, was: Record, arrived: Slot) {
    && r.swapType == (if was.swapType == 2 then 3 else 0) && r.copyDone == 1
    && r.imageOk == (if was.swapType == 2 then 0 else 1)
    && r.crcStaged == was.crcStaged && r.crcPrimary == Crc32.Checksum(Flatten(arrived))
    && r.sequence == was.sequence + 1 && r.reserved == was.reserved
  }

  lemma ConcludeRecords(m: Machine)
    requires Swapping(m.record)
    ensures
      var r := Conclude(m, SwapType(m.record), StagedCrc(m.record));
      r.result != Error ==>
        && r.m.record.Some? && r.m.alive == m.alive && r.m.primary == m.primary
        && (Honest(m) || r.m.record != m.record ==>
              RecordsConclusion(r.m.record.value, m.record.value, r.m.primary))
  {
    hide Commit, Crc32.Checksum, Flatten, Honest, Later;
    CommitFacts(m, ConcludedRecord(m.record, SwapType(m.record), m.primary));
  }

  /**
   An engine call that concludes has recorded it first, with the checksum of what is in the primary slot, whether that
   is the right one or not. Only a lying commit can leave the armed record in its place.
   */
  lemma ConclusionIsRecorded(m: Machine)
    requires Swapping(m.record)
    ensures
      var e := SwapProcess(m);
      e.result != Error ==>
        && e.m.record.Some? && e.m.alive == m.alive
        && (Honest(m) || e.m.record != m.record ==>
              RecordsConclusion(e.m.record.value, m.record.value, e.m.primary))
  {
    hide Scan, Legs, Conclude, RecordsConclusion, Honest, Progress, ImageOk, RequestSwap, Later;
    ScanIsExact(m, 0);
    var s := Scan(m, 0);
    if s.err == Success {
      LegsKeepIntent(s.m, s.count);
      var l := Legs(s.m, s.count);
      LegsKeepPower(s.m, s.count);
      KeepsHonest(m, s.m);
      KeepsHonest(s.m, l.m);
      ConcludeRecords(l.m);
    }
  }

  lemma KeepsHonest(m: Machine, n: Machine)
    requires Later(m, n)
    ensures Honest(m) ==> Honest(n)
  {
  }

  /** Legs that succeed are not cut. */
  lemma {:induction false} LegsKeepPower(m: Machine, c: nat)
    requires c <= STEP_COUNT
    ensures Legs(m, c).err == Success ==> Legs(m, c).m.alive == m.alive
    decreases STEP_COUNT - c
  {
    hide Copy, WriteLog, Honest, Fair, Clean, Calm, LogEntry;
    if c < STEP_COUNT {
      var d := Copy(m, LegDest(c), LegSource(c));
      CopyFacts(m, LegDest(c), LegSource(c));
      if d.err == Success {
        WriteLogFacts(d.m, c, LogEntry(c));
        LegsKeepPower(WriteLog(d.m, c, LogEntry(c)).m, c + 1);
      }
    }
  }

  /** What the mailbox alone makes of a request. */
  lemma RequestStatuses(m: Machine)
    ensures
      var s := ProcessMailbox(m).status;
      && s in {Mailbox.STATUS_OK, Mailbox.STATUS_CONFIRMED} + Rejections()
      && (!Mailbox.Pending(m.mail) ==> ProcessMailbox(m) == Report(m, Mailbox.STATUS_OK, Mailbox.CMD_NOT_REQUESTED))
  {
    hide SwapStart, SetImageOk, Mailbox.Pending;
  }

  function Rejections(): set<byte> {
    {Mailbox.STATUS_ERR_IMAGE, Mailbox.STATUS_ERR_WRITE, Mailbox.STATUS_ERR_REQUEST}
  }

  /**
   A boot that resumes an exchange, or has just armed one, and is not in need of recovery, whatever its driver calls do,
   lies included. It leaves slots and record as the engine did, and its acknowledgement is valid. Unless it reports
   ERR_SWAP, which it does exactly when the engine met an error, it reports ERR_CRC exactly when the primary slot has
   another checksum than the armed one. A rejected request is not covered up by an exchange that completes.
   */
  lemma ReportOfConclusion(m: Machine)
    ensures
      var r, b := ProcessMailbox(m), Boot(m);
      var e := SwapProcess(r.m);
      Swapping(r.m.record) && ImageOk(e.m.primary) ==>
      && Slots(b.m) == Slots(e.m) && b.m.record == e.m.record && (b.jumped <==> b.m.alive)
      && (b.m.alive ==> b.m.mail.status == b.status && b.m.mail.reqCmd == r.reqCmd && Mailbox.AckValid(b.m.mail))
      && (b.status == Mailbox.STATUS_ERR_SWAP <==> e.result == Error)
      && (e.result != Error ==>
            b.status ==
              if !Verified(StagedCrc(r.m.record), b.m.primary) then Mailbox.STATUS_ERR_CRC
              else if SwapType(r.m.record) == REVERT then Mailbox.STATUS_REVERTED
              else if r.status in Rejections() then r.status
              else Mailbox.STATUS_SWAPPED)
  {
    hide ProcessMailbox, SwapModel.Exchange, ImageOk, Crc32.Checksum, Flatten, StagedCrc, Mailbox.Pending, Scan;
    RequestStatuses(m);
    var r := ProcessMailbox(m);
    if Swapping(r.m.record) && ImageOk(SwapProcess(r.m).m.primary) {
      ProcessVerifies(r.m);
      ConclusionNames(r.m, SwapType(r.m.record));
      var s := ProcessSwap(r);
      HandOverAcknowledges(s);
      HandOverKeepsSlots(s);
    }
  }

  lemma HandOverAcknowledges(r: Report)
    ensures
      var b := HandOver(r);
      b.m.alive ==> b.m.mail.status == b.status && b.m.mail.reqCmd == r.reqCmd && Mailbox.AckValid(b.m.mail)
  {
    hide Scan, ImageOk, AsByte, Mailbox.AckCheck;
  }

  /** A request that arms nothing: there is none, or it is a confirm, or it is rejected. */
  predicate ArmsNothing(m: Machine) {
    Mailbox.Pending(m.mail) && m.mail.command == Mailbox.CMD_SWAP ==> !ImageOk(m.secondary)
  }

  /** What is reported of an exchange that completes beside a request of this kind. */
  function DoneBeside(m: Machine): byte {
    if !Mailbox.Pending(m.mail) || m.mail.command == Mailbox.CMD_CONFIRM then Mailbox.STATUS_SWAPPED
    else if m.mail.command == Mailbox.CMD_SWAP then Mailbox.STATUS_ERR_IMAGE
    else Mailbox.STATUS_ERR_REQUEST
  }

  /**
   A boot whose driver calls all work, from what flash and mailbox hold when it begins: some legs of an exchange of `p`
   are logged, and the slots are as far. The boot completes it, and jumps into the new primary image. Whether that is
   reported as done or as ERR_CRC depends on the armed reference alone, and a request that was rejected in the same boot
   is still reported as rejected.
   */
  lemma UninterruptedReport(m: Machine, p: Pair)
    requires Swapping(m.record) && ArmsNothing(m) && Works(m)
    requires LogWhole(m.log) && Before(m.scratch, Slots(m), Progress(m.log, 0)) == p && ImageOk(p.secondary)
    ensures
      var b := Boot(m);
      && b.jumped && Slots(b.m) == Mirror(p)
      && b.m.record.Some? && RecordsConclusion(b.m.record.value, m.record.value, p.secondary)
      && b.m.mail.status ==
           if !Verified(StagedCrc(m.record), p.secondary) then Mailbox.STATUS_ERR_CRC
           else if SwapType(m.record) == REVERT then Mailbox.STATUS_REVERTED
           else DoneBeside(m)
  {
    hide ProcessMailbox, SwapModel.Exchange, ImageOk, Crc32.Checksum, Flatten, StagedCrc, Mailbox.Pending, SwapProcess,
      Before, Progress, LogWhole, Swapping, SwapType, Boot, Works;
    RequestBeside(m);
    var r := ProcessMailbox(m);
    ExchangeArrives(r.m, p);
    BootFinishes(m);
    ReportOfConclusion(m);
  }

  lemma BootFinishes(m: Machine)
    requires Works(m)
    ensures Boot(m).m.alive
  {
    hide Boot;
    BootIsLater(m);
  }

  /** The mailbox stage of such a boot. */
  lemma RequestBeside(m: Machine)
    requires Swapping(m.record) && ArmsNothing(m) && Works(m)
    ensures
      var r := ProcessMailbox(m);
      && r.m == m.(mail := r.m.mail) && Works(r.m)
      && DoneBeside(m) == (if r.status in Rejections() then r.status else Mailbox.STATUS_SWAPPED)
  {
    hide RequestSwap, ImageOk, SetImageOk, Mailbox.Check;
  }

  /** The engine call of such a boot. */
  lemma ExchangeArrives(m: Machine, p: Pair)
    requires Swapping(m.record) && Works(m)
    requires LogWhole(m.log) && Before(m.scratch, Slots(m), Progress(m.log, 0)) == p
    ensures
      var e := SwapProcess(m);
      && Slots(e.m) == Mirror(p) && e.result != Error
      && e.m.record.Some? && RecordsConclusion(e.m.record.value, m.record.value, p.secondary)
  {
    hide SwapProcess, RecordsConclusion, Progress, LogWhole, LogOk, Before, SlotCrc, Later, ConcludedRecord, SwapType;
    ConclusionIsRecorded(m);
    EngineArrives(m, p);
  }

  lemma EngineArrives(m: Machine, p: Pair)
    requires Swapping(m.record) && Works(m)
    requires LogWhole(m.log) && Before(m.scratch, Slots(m), Progress(m.log, 0)) == p
    ensures SwapProcess(m).result != Error && Slots(SwapProcess(m).m) == Mirror(p)
  {
    hide Scan, Legs, Commit, Progress, LogWhole, LogOk, Before, SlotCrc, Later, CompletedRecord;
    LogWholeIsOk(m.log);
    ScanIsExact(m, 0);
    var s := Scan(m, 0);
    StaysWorking(m, s.m);
    LegsKeepCourse(s.m, s.count, p);
    var l := Legs(s.m, s.count);
    StaysWorking(s.m, l.m);
    BeforeAtEnd(l.m.scratch, Slots(l.m));
    var c := ConcludedRecord(l.m.record, SwapType(m.record), l.m.primary);
    CommitFacts(l.m, c);
    StaysWorking(l.m, Commit(l.m, c).m);
  }

  /**
   And of a boot that is asked for a swap, whatever swap was under way: the slots as they are change places at once, and
   the boot reports SWAPPED.
   */
  lemma RequestAtOnceReport(m: Machine)
    requires Mailbox.Pending(m.mail) && m.mail.command == Mailbox.CMD_SWAP && ImageOk(m.secondary) && Works(m)
    ensures
      var b := Boot(m);
      && b.jumped && Slots(b.m) == Mirror(Slots(m))
      && b.m.mail.status == Mailbox.STATUS_SWAPPED && b.m.mail.reqCmd == Mailbox.CMD_SWAP
      && b.m.record.Some? && b.m.record.value.swapType == (if m.mail.arg == 2 then 3 else 0)
  {
    hide ProcessMailbox, ImageOk, Crc32.Checksum, Flatten, Mailbox.Pending, SwapProcess, Progress, LogWhole, LogOk,
      Boot, Works, StagedCrc, Swapping;
    RequestArms(m);
    var r := ProcessMailbox(m);
    BeforeAtStart(r.m.scratch, Slots(m));
    ExchangeArrives(r.m, Slots(m));
    BootFinishes(m);
    ReportOfConclusion(m);
  }

  lemma RequestArms(m: Machine)
    requires Mailbox.Pending(m.mail) && m.mail.command == Mailbox.CMD_SWAP && ImageOk(m.secondary) && Works(m)
    ensures
      var r := ProcessMailbox(m);
      && r.status == Mailbox.STATUS_OK && r.reqCmd == Mailbox.CMD_SWAP && Works(r.m)
      && OnCourse(r.m, Slots(m)) && SwapType(r.m.record) == AskedType(m)
      && LogWhole(r.m.log) && Progress(r.m.log, 0) == 0
  {
    hide ProcessMailbox, ImageOk, SlotCrc, Mailbox.Pending, Progress, LogWhole, OnCourse, Later, Mailbox.Check;
    RequestReport(m);
    RequestIsLater(m);
    StaysWorking(m, ProcessMailbox(m).m);
    RequestWorks(m);
  }

  lemma RequestWorks(m: Machine)
    requires Mailbox.Pending(m.mail) && m.mail.command == Mailbox.CMD_SWAP && ImageOk(m.secondary) && Works(m)
    ensures ProcessMailbox(m).status == Mailbox.STATUS_OK
  {
    hide RequestSwap, ImageOk, SlotCrc, Progress, LogWhole, Mailbox.Check, ArmedRecord;
    RequestSwapFacts(m, AskedType(m), SlotCrc(m.secondary));
  }

  // ----- The other requests -----

  /**
   A confirm request, whatever its driver calls do. Without a trial to confirm it only clears the mailbox. With one it
   is CONFIRMED if the update succeeded, for an honest driver so that no rollback is pending any more, and ERR_WRITE if
   not. It moves nothing and keeps the log.
   */
  lemma ConfirmReport(m: Machine)
    requires Mailbox.Pending(m.mail) && m.mail.command == Mailbox.CMD_CONFIRM
    ensures
      var r := ProcessMailbox(m);
      && r.status in {Mailbox.STATUS_CONFIRMED, Mailbox.STATUS_ERR_WRITE} && r.reqCmd == Mailbox.CMD_CONFIRM
      && Slots(r.m) == Slots(m) && r.m.scratch == m.scratch && r.m.log == m.log
      && (r.m.alive ==> !Mailbox.Pending(r.m.mail))
      && (!RevertPending(m.record) ==>
            r.status == Mailbox.STATUS_CONFIRMED && r.m == SetMail(m, Mailbox.Cleared(m.mail)))
      && (r.status == Mailbox.STATUS_CONFIRMED && Honest(m) ==> !RevertPending(r.m.record))
      && (r.status == Mailbox.STATUS_CONFIRMED && RevertPending(m.record) ==> r.m.record.Some?)
      && (r.status == Mailbox.STATUS_CONFIRMED ==> r.m.alive == m.alive)
      && (m.alive && Fair(m) && r.m.alive ==> r.status == Mailbox.STATUS_CONFIRMED)
      && (r.status == Mailbox.STATUS_ERR_WRITE ==> RevertPending(m.record))
  {
    hide Commit, Mailbox.Check, Honest, Fair;
    CommitFacts(m, Load(m.record).(swapType := NONE, imageOk := 1));
    Mailbox.ClearIsImmediate(SetImageOk(m).m.mail, 1);
    Mailbox.ClearIsImmediate(m.mail, 1);
  }

  /** Any other request is answered ERR_REQUEST, without its command, and has no effect but to be cleared. */
  lemma UnknownRequestReport(m: Machine)
    requires Mailbox.Pending(m.mail) && m.mail.command != 1 && m.mail.command != 2
    ensures ProcessMailbox(m) == Report(SetMail(m, Mailbox.Cleared(m.mail)), 7, 0xFF)
  {
    hide Mailbox.Check;
  }
}
