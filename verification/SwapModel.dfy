/**
 What the record updates (src/boot_record_write.c), the swap engine (src/boot_swap.c) and the boot sequence
 (src/hal_entry.c) do to the machine, as functions. The methods of `RecordWriter`, `SwapEngine` and `BootEntry` are
 proved to compute exactly these.
 */
module SwapModel {
  import opened Layout
  import opened BootRecord
  import opened FlashModel
  import Mailbox
  import Crc32

  /** boot_swap_result_t */
  datatype SwapResult = Nothing | Finished | Reverted | Error | CrcFail

  datatype Counted = Counted(m: Machine, err: Err, count: nat)

  datatype Ran = Ran(m: Machine, result: SwapResult)

  /** The checksum of a whole slot. */
  function SlotCrc(slot: Slot): word {
    Crc32.Checksum(Flatten(slot))
  }

  // ----- Record updates -----

  /** boot_record_commit: erase, program, read back. */
  function Commit(m: Machine, r: Record): Done {
    var e := EraseRecord(m);
    if e.err != Success then e
    else
      var w := WriteRecord(e.m, r);
      if w.err != Success then w
      else Done(w.m, if w.m.record.Some? then Success else WriteFailed)
  }

  /** The log erase at the head of boot_record_request_swap: proven by the blank check, with one retry. */
  function ClearLog(m: Machine): Done {
    var e := EraseLog(m);
    if e.err != Success then e
    else
      var b := BlankCheck(e.m, 0, LOG_WORDS);
      if b.err != Success then Done(b.m, b.err)
      else if b.blank then Done(b.m, Success)
      else
        var e2 := EraseLog(b.m);
        if e2.err != Success then e2
        else
          var b2 := BlankCheck(e2.m, 0, LOG_WORDS);
          if b2.err != Success then Done(b2.m, b2.err)
          else if b2.blank then Done(b2.m, Success)
          else Done(b2.m, EraseFailed)
  }

  /** The record that arms a swap. */
  function ArmedRecord(stored: Option<Record>, swapType: byte, crcStaged: word): Record {
    var r := Load(stored);
    r.(
      swapType := swapType, copyDone := 0, imageOk := if swapType == TEST then 0 else 1,
      crcStaged := crcStaged, crcPrimary := CRC32_UNSET)
  }

  function RequestSwap(m: Machine, swapType: byte, crcStaged: word): Done {
    if swapType < PERM || swapType > REVERT then Done(m, InvalidArgument)
    else
      var c := ClearLog(m);
      if c.err != Success then c else Commit(c.m, ArmedRecord(c.m.record, swapType, crcStaged))
  }

  function CompletedRecord(stored: Option<Record>, swapType: byte, imageOk: byte, crcPrimary: word): Record {
    var r := Load(stored);
    r.(swapType := swapType, copyDone := 1, imageOk := imageOk, crcPrimary := crcPrimary)
  }

  function SwapComplete(m: Machine, swapType: byte, imageOk: byte, crcPrimary: word): Done {
    Commit(m, CompletedRecord(m.record, swapType, imageOk, crcPrimary))
  }

  function SetImageOk(m: Machine): Done {
    var r := Load(m.record);
    Commit(m, r.(swapType := NONE, imageOk := 1))
  }

  // ----- The swap engine -----

  /** The loop of boot_swap_log_scan from entry `count` on. */
  function Scan(m: Machine, count: nat): (s: Counted)
    requires count <= STEP_COUNT
    ensures s.count <= STEP_COUNT
    decreases STEP_COUNT - count, |m.script|
  {
    if count == STEP_COUNT then Counted(m, Success, count)
    else
      var b := BlankCheck(m, count, 1);
      if b.err != Success then Counted(b.m, b.err, 0)
      else if b.blank || LogEntry(count) != Reads(m.log[count]) then Counted(b.m, Success, count)
      else Scan(b.m, count + 1)
  }

  /** Where leg `step % 3` of sector `step / 3` writes. */
  function LegDest(step: nat): (r: Region)
    requires step < STEP_COUNT
    ensures InFlash(r)
  {
    var sector := step / LEGS_PER_SECTOR;
    if step % LEGS_PER_SECTOR == 0 then Scratch
    else if step % LEGS_PER_SECTOR == 1 then Secondary(sector)
    else Primary(sector)
  }

  /** Where it reads. */
  function LegSource(step: nat): (r: Region)
    requires step < STEP_COUNT
    ensures InFlash(r)
  {
    var sector := step / LEGS_PER_SECTOR;
    if step % LEGS_PER_SECTOR == 0 then Secondary(sector)
    else if step % LEGS_PER_SECTOR == 1 then Primary(sector)
    else Scratch
  }

  /** The legs from `step` on, each logged once it is complete. */
  function Legs(m: Machine, step: nat): Done
    requires step <= STEP_COUNT
    decreases STEP_COUNT - step
  {
    if step == STEP_COUNT then Done(m, Success)
    else
      var c := Copy(m, LegDest(step), LegSource(step));
      if c.err != Success then c
      else
        var w := WriteLog(c.m, step, LogEntry(step));
        if w.err != Success then w else Legs(w.m, step + 1)
  }

  /** boot_swap_start */
  function SwapStart(m: Machine, swapType: byte): Done {
    if !ImageOk(m.secondary) then Done(m, InvalidData)
    else RequestSwap(m, swapType, SlotCrc(m.secondary))
  }

  /** The end of boot_swap_process: verify against the reference, record completion, report. */
  function Conclude(m: Machine, swapType: byte, crcStaged: word): Ran {
    var crcPrimary := SlotCrc(m.primary);
    var crcOk := crcStaged == CRC32_UNSET || crcPrimary == crcStaged;
    var nextType := if swapType == TEST then REVERT else NONE;
    var imageOk := if swapType == TEST then 0 else 1;
    var d := SwapComplete(m, nextType, imageOk, crcPrimary);
    if d.err != Success then Ran(d.m, Error)
    else if !crcOk then Ran(d.m, CrcFail)
    else Ran(d.m, if swapType == REVERT then Reverted else Finished)
  }

  /** The part of boot_swap_process that performs or resumes the exchange. */
  function Exchange(m: Machine, swapType: byte): Ran {
    var crcStaged := StagedCrc(m.record);
    var s := Scan(m, 0);
    if s.err != Success then Ran(s.m, Error)
    else
      var l := Legs(s.m, s.count);
      if l.err != Success then Ran(l.m, Error) else Conclude(l.m, swapType, crcStaged)
  }

  /** boot_swap_process */
  function SwapProcess(m: Machine): Ran {
    var swapType := SwapType(m.record);
    if swapType == NONE then Ran(m, Nothing)
    else if SwapInProgress(m.record) then Exchange(m, swapType)
    else if !RevertPending(m.record) then Ran(m, Nothing)
    else if !ImageOk(m.secondary) then
      var d := SetImageOk(m);
      Ran(d.m, if d.err == Success then Nothing else Error)
    else
      var d := RequestSwap(m, REVERT, SlotCrc(m.secondary));
      if d.err != Success then Ran(d.m, Error) else Exchange(d.m, REVERT)
  }

  // ----- The boot sequence -----

  /** The machine, and the two static variables the acknowledgement is made from. */
  datatype Report = Report(m: Machine, status: byte, reqCmd: byte)

  /** A boot: where it left the machine, and whether it jumped to the application, which takes power to the end. */
  datatype Booted = Booted(m: Machine, status: byte, reqCmd: byte, jumped: bool)

  /** RAM is written only while there is power. */
  function SetMail(m: Machine, mail: Mailbox.Mail): Machine {
    if m.alive then m.(mail := mail) else m
  }

  /** boot_process_mailbox */
  function ProcessMailbox(m: Machine): Report {
    if !Mailbox.Pending(m.mail) then Report(m, Mailbox.STATUS_OK, Mailbox.CMD_NOT_REQUESTED)
    else
      var command := m.mail.command;
      if command == Mailbox.CMD_SWAP then
        var d := SwapStart(m, if m.mail.arg == TEST then TEST else PERM);
        var status :=
          if d.err == InvalidData then Mailbox.STATUS_ERR_IMAGE
          else if d.err != Success then Mailbox.STATUS_ERR_WRITE
          else Mailbox.STATUS_OK;
        Report(SetMail(d.m, Mailbox.Cleared(d.m.mail)), status, command)
      else if command == Mailbox.CMD_CONFIRM then
        if !RevertPending(m.record) then
          Report(SetMail(m, Mailbox.Cleared(m.mail)), Mailbox.STATUS_CONFIRMED, command)
        else
          var d := SetImageOk(m);
          var status := if d.err == Success then Mailbox.STATUS_CONFIRMED else Mailbox.STATUS_ERR_WRITE;
          Report(SetMail(d.m, Mailbox.Cleared(d.m.mail)), status, command)
      else
        Report(SetMail(m, Mailbox.Cleared(m.mail)), Mailbox.STATUS_ERR_REQUEST, Mailbox.CMD_NOT_REQUESTED)
  }

  /** How boot_process_swap turns the engine's result into a status. */
  function StatusAfter(result: SwapResult, status: byte): byte {
    match result
    case Finished =>
      if status == Mailbox.STATUS_OK || status == Mailbox.STATUS_CONFIRMED then Mailbox.STATUS_SWAPPED else status
    case Reverted => Mailbox.STATUS_REVERTED
    case Error => Mailbox.STATUS_ERR_SWAP
    case CrcFail => Mailbox.STATUS_ERR_CRC
    case Nothing => status
  }

  /** boot_process_swap */
  function ProcessSwap(r: Report): Report {
    var p := SwapProcess(r.m);
    Report(p.m, StatusAfter(p.result, r.status), r.reqCmd)
  }

  /** boot_recover_primary */
  function RecoverPrimary(r: Report): Report {
    if !ImageOk(r.m.secondary) then r
    else
      var d := SwapStart(r.m, PERM);
      if d.err != Success then r.(m := d.m)
      else
        var p := SwapProcess(d.m);
        Report(p.m, if p.result == Finished then Mailbox.STATUS_SWAPPED else r.status, r.reqCmd)
  }

  /** What hal_entry does between the engine and the hand-over. */
  function RecoverIfNeeded(r: Report): Report {
    if ImageOk(r.m.primary) then r else RecoverPrimary(r)
  }

  /** The acknowledgement, once the boot has done its work. */
  function HandOver(r: Report): Booted {
    var legs := Scan(r.m, 0);
    if !ImageOk(legs.m.primary) then
      var mail := Mailbox.Acked(legs.m.mail, Mailbox.STATUS_ERR_IMAGE, r.reqCmd, 0);
      Booted(SetMail(legs.m, mail), Mailbox.STATUS_ERR_IMAGE, r.reqCmd, false)
    else
      var mail := Mailbox.Acked(legs.m.mail, r.status, r.reqCmd, AsByte(legs.count));
      Booted(SetMail(legs.m, mail), r.status, r.reqCmd, legs.m.alive)
  }

  /** hal_entry, up to the jump or the trap. */
  function Boot(m: Machine): Booted {
    HandOver(RecoverIfNeeded(ProcessSwap(ProcessMailbox(m))))
  }

  /** The cast of the leg count in the acknowledgement. */
  function AsByte(n: nat): byte {
    (n % 0x100) as byte
  }
}
