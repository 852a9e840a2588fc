/** The updates of the boot record (src/boot_record_write.c) on the memories of a board. */
module RecordWriter {
  import opened Layout
  import opened BootRecord
  import opened FlashModel
  import opened BootFlash
  import SwapModel

  class Writer {
    const board: Board
    var staged: Record               // g_staged_record

    ghost predicate Valid() {
      board.Valid()
    }

    ghost function Footprint(): set<object> {
      {this} + board.Footprint()
    }

    constructor (board: Board)
      requires board.Valid()
      ensures Valid() && this.board == board
    {
      this.board, staged := board, Defaults();
    }

    /** boot_record_load */
    method LoadRecord()
      requires Valid()
      modifies `staged
      ensures staged == Load(board.Model().record)
    {
      hide Parse, MachineOf, Defaults;
      var stored := board.ReadRecord();
      if stored.Some? {
        staged := stored.value;
        staged := staged.(sequence := staged.sequence + 1);
      } else {
        staged := Defaults();
      }
    }

    /** boot_record_commit: the CRC is computed, the block erased, programmed and read back. */
    method Commit() returns (err: Err)
      requires Valid()
      modifies board.Footprint()
      ensures
        var d := SwapModel.Commit(old(board.Model()), old(staged));
        board.Model() == d.m && err == d.err
    {
      hide Parse, Encode, MachineOf, EraseRecord, WriteRecord;
      EncodeThenParse(staged);
      var image := Encode(staged);
      err := board.Erase(RECORD_ADDRESS, RECORD_SIZE);
      if err == Success {
        err := board.DriverWriteRecord(image, staged);
      }
      if err != Success {
        return;
      }
      var check := board.ReadRecord();
      return if check.Some? then Success else WriteFailed;
    }

    /** The log erase of boot_record_request_swap, proven by the blank check and retried once. */
    method ClearLog() returns (err: Err)
      requires Valid()
      modifies board.Footprint()
      ensures
        var d := SwapModel.ClearLog(old(board.Model()));
        board.Model() == d.m && err == d.err
    {
      hide Parse, MachineOf, EraseLog, BlankCheck;
      err := board.Erase(LOG_ADDRESS, LOG_SIZE);
      if err != Success {
        return;
      }
      var blank;
      err, blank := board.DataBlank(0, LOG_WORDS);
      if err == Success && !blank {
        err := board.Erase(LOG_ADDRESS, LOG_SIZE);
        if err == Success {
          err, blank := board.DataBlank(0, LOG_WORDS);
        }
      }
      if err != Success {
        return;
      }
      if !blank {
        return EraseFailed;
      }
    }

    /** boot_record_request_swap */
    method RequestSwap(swapType: byte, crcStaged: word) returns (err: Err)
      requires Valid()
      modifies Footprint()
      ensures
        var d := SwapModel.RequestSwap(old(board.Model()), swapType, crcStaged);
        board.Model() == d.m && err == d.err
    {
      hide Parse, MachineOf, SwapModel.ClearLog, SwapModel.Commit, Load;
      if swapType < PERM || swapType > REVERT {
        return InvalidArgument;
      }
      err := ClearLog();
      if err != Success {
        return;
      }
      LoadRecord();
      staged := staged.(swapType := swapType, copyDone := 0, imageOk := if swapType == TEST then 0 else 1);
      staged := staged.(crcStaged := crcStaged, crcPrimary := CRC32_UNSET);
      err := Commit();
    }

    /** boot_record_swap_complete */
    method SwapComplete(swapType: byte, imageOk: byte, crcPrimary: word) returns (err: Err)
      requires Valid()
      modifies Footprint()
      ensures
        var d := SwapModel.SwapComplete(old(board.Model()), swapType, imageOk, crcPrimary);
        board.Model() == d.m && err == d.err
    {
      hide Parse, MachineOf, SwapModel.Commit, Load;
      LoadRecord();
      staged := staged.(swapType := swapType, copyDone := 1, imageOk := imageOk, crcPrimary := crcPrimary);
      err := Commit();
    }

    /** boot_record_set_image_ok */
    method SetImageOk() returns (err: Err)
      requires Valid()
      modifies Footprint()
      ensures
        var d := SwapModel.SetImageOk(old(board.Model()));
        board.Model() == d.m && err == d.err
    {
      hide Parse, MachineOf, SwapModel.Commit, Load;
      LoadRecord();
      staged := staged.(swapType := NONE, imageOk := 1);
      err := Commit();
    }
  }
}
