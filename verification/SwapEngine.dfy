/** The slot exchange (src/boot_swap.c) on the memories of a board. */
module SwapEngine {
  import opened Layout
  import opened BootRecord
  import opened FlashModel
  import opened BootFlash
  import opened RecordWriter
  import opened SwapModel

  /** boot_swap_log_scan */
  method LogScan(board: Board) returns (err: Err, count: nat)
    requires board.Valid()
    modifies board
    ensures
      var s := Scan(old(board.Model()), 0);
      board.Model() == s.m && err == s.err && count == s.count
  {
    hide Parse, Bytes, SlotAt, BlankCheck, LogEntry;
    ghost var start := board.Model();
    count := 0;
    while count < STEP_COUNT
      invariant 0 <= count <= STEP_COUNT
      invariant Scan(start, 0) == Scan(board.Model(), count)
    {
      CheckKeepsLog(board.Model(), count, 1);
      var blank;
      err, blank := board.DataBlank(count, 1);
      if err != Success {
        return err, 0;
      }
      if blank || LogEntry(count) != Reads(board.log[count]) {
        break;
      }
      count := count + 1;
    }
    err := Success;
  }

  lemma CheckKeepsLog(m: Machine, first: nat, count: nat)
    requires first + count <= LOG_WORDS
    ensures BlankCheck(m, first, count).m.log == m.log
  {
  }

  /** boot_swap_leg */
  method SwapLeg(board: Board, sector: nat, leg: nat) returns (err: Err)
    requires board.Valid() && sector < SECTOR_COUNT
    modifies board, board.code, board.log, board.block, board.chunk
    ensures leg >= LEGS_PER_SECTOR ==> err == InvalidArgument && board.Model() == old(board.Model())
    ensures leg < LEGS_PER_SECTOR ==>
      var step := sector * LEGS_PER_SECTOR + leg;
      var d := Copy(old(board.Model()), LegDest(step), LegSource(step));
      board.Model() == d.m && err == d.err
  {
    hide Parse, MachineOf, Copy;
    if leg == 0 {
      err := board.CopyRegion(Scratch, Secondary(sector));
    } else if leg == 1 {
      err := board.CopyRegion(Secondary(sector), Primary(sector));
    } else if leg == 2 {
      err := board.CopyRegion(Primary(sector), Scratch);
    } else {
      err := InvalidArgument;
    }
  }

  /** The step loop of boot_swap_process. */
  method RunLegs(board: Board, first: nat) returns (err: Err)
    requires board.Valid() && first <= STEP_COUNT
    modifies board, board.code, board.log, board.block, board.chunk
    ensures
      var l := Legs(old(board.Model()), first);
      board.Model() == l.m && err == l.err
  {
    hide Parse, MachineOf, Copy, WriteLog, LegDest, LegSource, LogEntry;
    ghost var start := board.Model();
    var step := first;
    while step < STEP_COUNT
      invariant first <= step <= STEP_COUNT
      invariant Legs(start, first) == Legs(board.Model(), step)
    {
      var sector := step / LEGS_PER_SECTOR;
      var leg := step % LEGS_PER_SECTOR;
      err := SwapLeg(board, sector, leg);
      if err != Success {
        return;
      }
      err := board.DriverWriteLog(step, LogEntry(step));
      if err != Success {
        return;
      }
      step := step + 1;
    }
    err := Success;
  }

  /** boot_swap_start */
  method Start(writer: Writer, swapType: byte) returns (err: Err)
    requires writer.Valid()
    modifies writer.Footprint()
    ensures
      var d := SwapStart(old(writer.board.Model()), swapType);
      writer.board.Model() == d.m && err == d.err
  {
    hide Parse, MachineOf, Flatten, Crc32.Checksum, ImageOk, RequestSwap;
    var ok := writer.board.SecondaryImageOk();
    if !ok {
      return InvalidData;
    }
    var crc := writer.board.SlotChecksum(SECONDARY_BASE);
    err := writer.RequestSwap(swapType, crc);
  }

  /** The end of boot_swap_process: verification, completion, report. */
  method Finish(writer: Writer, swapType: byte, crcStaged: word) returns (result: SwapResult)
    requires writer.Valid()
    modifies writer.Footprint()
    ensures
      var r := Conclude(old(writer.board.Model()), swapType, crcStaged);
      writer.board.Model() == r.m && result == r.result
  {
    hide Parse, MachineOf, Flatten, Crc32.Checksum, SwapComplete;
    var crcPrimary := writer.board.SlotChecksum(PRIMARY_BASE);
    var crcOk := crcStaged == CRC32_UNSET || crcPrimary == crcStaged;
    var nextType := if swapType == TEST then REVERT else NONE;
    var imageOk := if swapType == TEST then 0 else 1;
    var err := writer.SwapComplete(nextType, imageOk, crcPrimary);
    if err != Success {
      return Error;
    }
    if !crcOk {
      return CrcFail;
    }
    return if swapType == REVERT then Reverted else Finished;
  }

  /** boot_swap_process */
  method Process(writer: Writer) returns (result: SwapResult)
    requires writer.Valid()
    modifies writer.Footprint()
    ensures
      var r := SwapProcess(old(writer.board.Model()));
      writer.board.Model() == r.m && result == r.result
  {
    hide Parse, MachineOf, Flatten, Crc32.Checksum, ImageOk, RequestSwap, SetImageOk, Scan, Legs, Conclude;
    var board := writer.board;
    var stored := board.ReadRecord();
    var swapType := SwapType(stored);
    if swapType == NONE {
      return Nothing;
    }
    if !SwapInProgress(stored) {
      if !RevertPending(stored) {
        return Nothing;
      }
      var ok := board.SecondaryImageOk();
      if !ok {
        var err := writer.SetImageOk();
        return if err == Success then Nothing else Error;
      }
      var crc := board.SlotChecksum(SECONDARY_BASE);
      var err := writer.RequestSwap(REVERT, crc);
      if err != Success {
        return Error;
      }
      swapType := REVERT;
    }
    stored := board.ReadRecord();
    var crcStaged := StagedCrc(stored);
    var err, firstStep := LogScan(board);
    if err != Success {
      return Error;
    }
    err := RunLegs(board, firstStep);
    if err != Success {
      return Error;
    }
    result := Finish(writer, swapType, crcStaged);
  }
}
