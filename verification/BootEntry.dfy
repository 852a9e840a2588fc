/** The boot sequence (src/hal_entry.c). */
module BootEntry {
  import opened Layout
  import opened BootRecord
  import opened FlashModel
  import opened BootFlash
  import opened RecordWriter
  import opened SwapModel
  import Mailbox
  import SwapEngine

  class Bootloader {
    const writer: Writer
    var status: byte                 // g_boot_status
    var reqCmd: byte                 // g_boot_req

    ghost predicate Valid() {
      writer.Valid()
    }

    ghost function Footprint(): set<object> {
      {this} + writer.Footprint()
    }

    ghost function Model(): (m: Machine)
      reads writer.board, writer.board.code, writer.board.block, writer.board.log, writer.board.ram
      requires Valid()
    {
      writer.board.Model()
    }

    ghost function State(): (r: Report)
      reads this, writer.board, writer.board.code, writer.board.block, writer.board.log, writer.board.ram
      requires Valid()
    {
      Report(Model(), status, reqCmd)
    }

    constructor (writer: Writer)
      requires writer.Valid()
      ensures Valid() && this.writer == writer && status == Mailbox.STATUS_OK && reqCmd == Mailbox.CMD_NOT_REQUESTED
    {
      this.writer, status, reqCmd := writer, Mailbox.STATUS_OK, Mailbox.CMD_NOT_REQUESTED;
    }

    /** boot_mailbox_clear, as long as there is power. */
    method ClearMail()
      requires Valid()
      modifies writer.board.ram
      ensures Model() == SetMail(old(Model()), Mailbox.Cleared(old(Model()).mail))
    {
      hide Parse, Bytes, SlotAt;
      if writer.board.alive {
        writer.board.ram.Clear();
      }
    }

    /** boot_mailbox_set_ack, as long as there is power. */
    method Acknowledge(report: byte, legs: byte)
      requires Valid()
      modifies writer.board.ram
      ensures Model() == SetMail(old(Model()), Mailbox.Acked(old(Model()).mail, report, reqCmd, legs))
    {
      hide Parse, Bytes, SlotAt;
      if writer.board.alive {
        writer.board.ram.SetAck(report, reqCmd, legs);
      }
    }

    /** boot_process_mailbox */
    method ProcessRequest()
      requires Valid() && status == Mailbox.STATUS_OK && reqCmd == Mailbox.CMD_NOT_REQUESTED
      modifies Footprint()
      ensures State() == ProcessMailbox(old(Model()))
    {
      hide Parse, MachineOf, Mailbox.Pending, Mailbox.Cleared, SwapStart, SetImageOk, SetMail, RevertPending;
      var mail := writer.board.ReadMail();
      if !Mailbox.Pending(mail) {
        return;
      }
      var command, arg := mail.command, mail.arg;
      reqCmd := command;
      if command == Mailbox.CMD_SWAP {
        var err := SwapEngine.Start(writer, if arg == TEST then TEST else PERM);
        if err == InvalidData {
          status := Mailbox.STATUS_ERR_IMAGE;
        } else if err != Success {
          status := Mailbox.STATUS_ERR_WRITE;
        }
      } else if command == Mailbox.CMD_CONFIRM {
        var stored := writer.board.ReadRecord();
        if !RevertPending(stored) {
          status := Mailbox.STATUS_CONFIRMED;
        } else {
          var err := writer.SetImageOk();
          status := if err == Success then Mailbox.STATUS_CONFIRMED else Mailbox.STATUS_ERR_WRITE;
        }
      } else {
        status := Mailbox.STATUS_ERR_REQUEST;
        reqCmd := Mailbox.CMD_NOT_REQUESTED;
      }
      ClearMail();
    }

    /** boot_process_swap */
    method RunSwap()
      requires Valid()
      modifies Footprint()
      ensures State() == ProcessSwap(old(State()))
    {
      hide Parse, MachineOf, SwapProcess;
      var result := SwapEngine.Process(writer);
      if result == Finished {
        if status == Mailbox.STATUS_OK || status == Mailbox.STATUS_CONFIRMED {
          status := Mailbox.STATUS_SWAPPED;
        }
      } else if result == Reverted {
        status := Mailbox.STATUS_REVERTED;
      } else if result == Error {
        status := Mailbox.STATUS_ERR_SWAP;
      } else if result == CrcFail {
        status := Mailbox.STATUS_ERR_CRC;
      }
    }

    /** boot_recover_primary */
    method Recover()
      requires Valid()
      modifies Footprint()
      ensures State() == RecoverPrimary(old(State()))
    {
      hide Parse, MachineOf, SwapProcess, SwapStart, ImageOk;
      var ok := writer.board.SecondaryImageOk();
      if !ok {
        return;
      }
      var err := SwapEngine.Start(writer, PERM);
      if err != Success {
        return;
      }
      var result := SwapEngine.Process(writer);
      if result == Finished {
        status := Mailbox.STATUS_SWAPPED;
      }
    }

    /** hal_entry, up to the jump (true) or the trap (false). */
    method HalEntry() returns (jumped: bool)
      requires Valid() && status == Mailbox.STATUS_OK && reqCmd == Mailbox.CMD_NOT_REQUESTED
      modifies Footprint()
      ensures Model() == Boot(old(Model())).m && jumped == Boot(old(Model())).jumped
    {
      hide Parse, MachineOf, ProcessMailbox, ProcessSwap, RecoverPrimary, ImageOk, Scan, Mailbox.Acked;
      ProcessRequest();
      RunSwap();
      var ok := writer.board.PrimaryImageOk();
      if !ok {
        Recover();
      }
      var err, legs := SwapEngine.LogScan(writer.board);
      ok := writer.board.PrimaryImageOk();
      if !ok {
        Acknowledge(Mailbox.STATUS_ERR_IMAGE, 0);
        return false;
      }
      Acknowledge(status, AsByte(legs));
      return writer.board.alive;
    }
  }
}
