/** Whole runs of the swap engine: any number of boots, each cut or failing anywhere. */
module EngineRuns {
  import opened Layout
  import opened BootRecord
  import opened FlashModel
  import opened SwapModel
  import opened DriverFacts
  import opened Exchange
  import Crc32

  /** The next boot: power is back, and its driver calls will meet `script`. */
  function PowerOn(m: Machine, script: seq<Event>): Machine {
    m.(alive := true, script := script)
  }

  /** One engine call per script, for as long as an exchange is asked for. */
  function Resume(m: Machine, scripts: seq<seq<Event>>): Ran
    requires scripts != []
    decreases |scripts|
  {
    var r := SwapProcess(PowerOn(m, scripts[0]));
    if |scripts| == 1 || !Swapping(r.m.record) then r else Resume(r.m, scripts[1..])
  }

  ghost predicate HonestScript(script: seq<Event>) {
    forall e :: e in script ==> e.outcome != Lie
  }

  // ----- Arming -----

  lemma ClearLogFacts(m: Machine)
    ensures
      var d := ClearLog(m);
      && Later(m, d.m) && SameFlash(m.(log := d.m.log), d.m)
      && (forall i :: 0 <= i < LOG_WORDS ==> d.m.log[i] == m.log[i] || d.m.log[i].Blank?)
      && (d.err == Success ==> d.m.alive == m.alive && forall i :: 0 <= i < LOG_WORDS ==> d.m.log[i].Blank?)
      && (m.alive && Fair(m) && d.m.alive ==> d.err == Success)
      && (!m.alive ==> d.m == m && d.err != Success)
  {
    hide EraseLog, BlankCheck, Honest, Fair, Clean;
    CleanIsHonest(m);
    EraseLogFacts(m);
    var e := EraseLog(m);
    if e.err == Success {
      BlankCheckFacts(e.m, 0, LOG_WORDS);
      var b := BlankCheck(e.m, 0, LOG_WORDS);
      if b.err == Success && !b.blank {
        EraseLogFacts(b.m);
        var e2 := EraseLog(b.m);
        if e2.err == Success {
          BlankCheckFacts(e2.m, 0, LOG_WORDS);
        }
      }
    }
  }

  /**
   Arming, under any script at all. Success means the log is empty - so the scan will find no leg - and a record is in
   place: the one that asks for the exchange, unless the driver lied and there was another. Nothing has moved, with
   success or without.
   */
  lemma RequestSwapFacts(m: Machine, swapType: byte, crcStaged: word)
    requires PERM <= swapType <= REVERT
    ensures
      var d := RequestSwap(m, swapType, crcStaged);
      && Later(m, d.m) && SameFlash(m.(log := d.m.log, record := d.m.record), d.m)
      && (forall i :: 0 <= i < LOG_WORDS ==> d.m.log[i] == m.log[i] || d.m.log[i].Blank?)
      && d.m.record in {m.record, None, Some(ArmedRecord(m.record, swapType, crcStaged))}
      && (d.m.record != m.record ==> Progress(d.m.log, 0) == 0 && LogWhole(d.m.log))
      && (d.err == Success ==>
            d.m.alive == m.alive && Progress(d.m.log, 0) == 0 && LogWhole(d.m.log) && d.m.record.Some?)
      && (d.err == Success && Sure(m) ==> d.m.record == Some(ArmedRecord(m.record, swapType, crcStaged)))
      && (m.alive && Fair(m) && d.m.alive ==> d.err == Success)
      && (!m.alive ==> d.m == m && d.err != Success)
  {
    hide ClearLog, Commit, Honest, Fair, Clean, LogEntry, ArmedRecord;
    ClearLogFacts(m);
    var c := ClearLog(m);
    if c.err == Success {
      CommitFacts(c.m, ArmedRecord(m.record, swapType, crcStaged));
      ProgressIs(c.m.log, 0, 0);
    }
  }

  lemma ArmedIsSwapping(stored: Option<Record>, swapType: byte, crcStaged: word)
    requires PERM <= swapType <= REVERT
    ensures
      var r := Some(ArmedRecord(stored, swapType, crcStaged));
      && Swapping(r) && SwapType(r) == swapType && StagedCrc(r) == crcStaged
  {
  }

  /**
   A successful boot_swap_start leaves an empty log, and puts the exchange of the present slots on course unless the
   record that was there has survived, which takes a lying driver.
   */
  lemma StartSetsCourse(m: Machine, swapType: byte)
    requires PERM <= swapType <= REVERT
    ensures
      var d := SwapStart(m, swapType);
      && Slots(d.m) == Slots(m) && d.m.scratch == m.scratch && d.m.mail == m.mail
      && (d.err == InvalidData <==> !ImageOk(m.secondary))
      && (d.err == InvalidData ==> d.m == m)
      && (d.err == Success ==>
            && LogWhole(d.m.log) && Progress(d.m.log, 0) == 0 && Scan(d.m, 0).count == 0
            && d.m.record.Some?
            && (d.m.record == m.record || (OnCourse(d.m, Slots(m)) && SwapType(d.m.record) == swapType)))
      && (d.err == Success && Sure(m) ==> OnCourse(d.m, Slots(m)) && SwapType(d.m.record) == swapType)
  {
    hide RequestSwap, ImageOk, SlotCrc, Honest, Fair, Clean, Before, Progress, ArmedRecord, Swapping, Sure;
    if ImageOk(m.secondary) {
      var crc := SlotCrc(m.secondary);
      RequestSwapFacts(m, swapType, crc);
      ArmedIsSwapping(m.record, swapType, crc);
      var d := RequestSwap(m, swapType, crc);
      RequestErrors(m, swapType, crc);
      BeforeAtStart(m.scratch, Slots(m));
      ScanIsExact(d.m, 0);
      if d.err == Success {
        LogWholeIsOk(d.m.log);
        FailedScanCountsZero(d.m, 0);
      }
    }
  }

  lemma RequestErrors(m: Machine, swapType: byte, crcStaged: word)
    ensures RequestSwap(m, swapType, crcStaged).err != InvalidData
  {
  }

  lemma LogWholeIsOk(log: Log)
    requires LogWhole(log)
    ensures LogOk(log)
  {
  }

  lemma {:induction false} FailedScanCountsZero(m: Machine, i: nat)
    requires i <= STEP_COUNT
    ensures Scan(m, i).err != Success ==> Scan(m, i).count == 0
    decreases STEP_COUNT - i
  {
    if i < STEP_COUNT {
      FailedScanCountsZero(BlankCheck(m, i, 1).m, i + 1);
    }
  }

  // ----- What an update writes -----

  /** A readable record's number plus one, modulo 2^32; otherwise 1. */
  function NextSequence(r: Option<Record>): word {
    if r.Some? then r.value.sequence + 1 else 1
  }

  /** The reserved bytes are kept, or written as erased flash where there is no record. */
  ghost predicate KeptReserved(stored: Option<Record>, r: Record) {
    forall i :: 0 <= i < 42 ==> r.reserved[i] == if stored.Some? then stored.value.reserved[i] else 0xFF
  }

  /** Only the three kinds of swap can be armed; anything else is refused and touches nothing. */
  lemma OtherTypesAreRefused(m: Machine, swapType: byte, crc: word)
    requires swapType == 0 || swapType > 3
    ensures RequestSwap(m, swapType, crc) == Done(m, InvalidArgument)
  {
  }

  // ----- The retry of the log erase -----

  /**
   One erase that reports success and blanks nothing is forgiven: the blank check finds it out, and the second erase is
   as good as the first.
   */
  lemma OneFailedBlankingIsForgiven(m: Machine, e: Event)
    requires m.alive && KeepsLog(e, m.log) && m.script == [e, WORKS, WORKS, WORKS]
    ensures
      var d := ClearLog(m);
      && d.err == Success && d.m == m.(script := [], log := d.m.log)
      && forall i :: 0 <= i < LOG_WORDS ==> d.m.log[i].Blank?
  {
    hide PartlyBlank, BlankLog;
    var x := EraseLog(m);
    assert x.m.script == [WORKS, WORKS, WORKS] && x.m.log == m.log;
    var b := BlankCheck(x.m, 0, LOG_WORDS);
    assert b.m.script == [WORKS, WORKS] && !b.blank;
    var y := EraseLog(b.m);
    assert y.m.script == [WORKS];
  }

  /** Two are not: the request is refused, before the record is touched. */
  lemma TwoFailedBlankingsAreRefused(m: Machine, e: Event, swapType: byte, crc: word)
    requires m.alive && KeepsLog(e, m.log) && m.script == [e, WORKS, e, WORKS] && PERM <= swapType <= REVERT
    ensures RequestSwap(m, swapType, crc) == Done(m.(script := []), EraseFailed)
  {
    hide PartlyBlank;
    var x := EraseLog(m);
    assert x.m == m.(script := [WORKS, e, WORKS]);
    var b := BlankCheck(x.m, 0, LOG_WORDS);
    assert b.m == m.(script := [e, WORKS]) && !b.blank;
    var y := EraseLog(b.m);
    assert y.m == m.(script := [WORKS]);
  }

  /** Reports success, and leaves a log that was not blank as it was. */
  ghost predicate KeepsLog(e: Event, log: Log) {
    e.outcome == Lie && PartlyBlank(log, e) == log && exists i :: 0 <= i < LOG_WORDS && !log[i].Blank?
  }

  /**
   Every successful update leaves a readable record. Unless the driver lied and it is still the one before, it
   carries the next number and what was asked for, and keeps the reference checksum if the update does not set it.
   */
  lemma UpdatesAreNumbered(m: Machine, swapType: byte, imageOk: byte, crc: word)
    ensures
      var d := SwapComplete(m, swapType, imageOk, crc);
      d.err == Success ==>
        && d.m.record.Some?
        && var r := d.m.record.value;
        Sure(m) || d.m.record != m.record ==>
        && r.sequence == NextSequence(m.record) && r.crcStaged == StagedCrc(m.record) && r.crcPrimary == crc
        && r.swapType == swapType && r.copyDone == 1 && r.imageOk == imageOk && KeptReserved(m.record, r)
    ensures
      var d := SetImageOk(m);
      d.err == Success ==>
        && d.m.record.Some?
        && var r := d.m.record.value;
        Sure(m) || d.m.record != m.record ==>
        && r.sequence == NextSequence(m.record) && r.crcStaged == StagedCrc(m.record)
        && r.swapType == 0 && r.imageOk == 1 && KeptReserved(m.record, r)
        && r.copyDone == (if m.record.Some? then m.record.value.copyDone else 1)
        && r.crcPrimary == (if m.record.Some? then m.record.value.crcPrimary else 0xFFFFFFFF)
    ensures
      var d := RequestSwap(m, swapType, crc);
      d.err == Success ==>
        && d.m.record.Some?
        && var r := d.m.record.value;
        Sure(m) || d.m.record != m.record ==>
        && r.sequence == NextSequence(m.record) && r.crcStaged == crc && r.crcPrimary == 0xFFFFFFFF
        && r.swapType == swapType && r.copyDone == 0 && r.imageOk == (if swapType == 2 then 0 else 1)
        && KeptReserved(m.record, r)
  {
    hide Commit, ClearLog, Honest, Fair, Clean, Calm, Progress, LogWhole, LogEntry;
    var r := Load(m.record);
    CommitFacts(m, CompletedRecord(m.record, swapType, imageOk, crc));
    CommitFacts(m, r.(swapType := NONE, imageOk := 1));
    if PERM <= swapType <= REVERT {
      RequestSwapFacts(m, swapType, crc);
    }
  }

  // ----- Crash safety -----

  /**
   Crash-safe exchange. Once the exchange of `p` is on course, any number of boots follow, each of them cut or failing
   at any driver call, tearing log words, losing or keeping a record that is being rewritten. As long as an exchange is
   asked for it is still the exchange of `p`; as soon as none is asked for, both slots hold the mirrored pair in full.
   A call that reports completion has completed it, and the checksum never disagrees.
   */
  lemma {:induction false} CrashSafeExchange(m: Machine, p: Pair, scripts: seq<seq<Event>>)
    requires OnCourse(m, p) && scripts != []
    requires forall s :: s in scripts ==> HonestScript(s)
    ensures
      var r := Resume(m, scripts);
      && (if Swapping(r.m.record) then OnCourse(r.m, p) else Slots(r.m) == Mirror(p))
      && (r.result in {Finished, Reverted} ==> Slots(r.m) == Mirror(p))
      && r.result in {Finished, Reverted, Error}
    decreases |scripts|
  {
    hide SwapProcess, Swapping, LogOk, Before, Progress;
    var on := PowerOn(m, scripts[0]);
    assert HonestScript(scripts[0]);
    assert Honest(on);
    ProcessAdvances(on, p);
    var r := SwapProcess(on);
    if |scripts| > 1 && Swapping(r.m.record) {
      CrashSafeExchange(r.m, p, scripts[1..]);
    }
  }

  // ----- Verification -----

  /** The legs never touch the record or the mailbox, even when the driver lies. */
  lemma {:induction false} LegsKeepIntent(m: Machine, c: nat)
    requires c <= STEP_COUNT
    ensures SameIntent(m, Legs(m, c).m)
    decreases STEP_COUNT - c
  {
    hide Copy, WriteLog, Honest, Fair, Clean, Calm, LogEntry;
    if c < STEP_COUNT {
      var d := Copy(m, LegDest(c), LegSource(c));
      CopyFacts(m, LegDest(c), LegSource(c));
      if d.err == Success {
        WriteLogFacts(d.m, c, LogEntry(c));
        LegsKeepIntent(WriteLog(d.m, c, LogEntry(c)).m, c + 1);
      }
    }
  }

  /** The reference of an armed exchange is the CRC32 of all the bytes of a slot, or was never measured. */
  predicate Verified(crcStaged: word, primary: Slot) {
    crcStaged == 0xFFFFFFFF || Crc32.Checksum(Flatten(primary)) == crcStaged
  }

  lemma ConcludeVerifies(m: Machine, swapType: byte)
    requires Swapping(m.record)
    ensures
      var r := Conclude(m, swapType, StagedCrc(m.record));
      && (r.result in {Finished, Reverted} ==> Verified(StagedCrc(m.record), r.m.primary))
      && (r.result == CrcFail ==> !Verified(StagedCrc(m.record), r.m.primary))
      && r.result != Nothing && (Swapping(r.m.record) ==> StagedCrc(r.m.record) == StagedCrc(m.record))
  {
    hide Commit, Honest, Fair, Clean, Crc32.Checksum, Flatten;
    CommitFacts(m, ConcludedRecord(m.record, swapType, m.primary));
  }

  lemma ProcessVerifies(m: Machine)
    requires Swapping(m.record)
    ensures
      var r := SwapProcess(m);
      && (r.result in {Finished, Reverted} ==> Verified(StagedCrc(m.record), r.m.primary))
      && (r.result == CrcFail ==> !Verified(StagedCrc(m.record), r.m.primary))
      && r.result != Nothing && (Swapping(r.m.record) ==> StagedCrc(r.m.record) == StagedCrc(m.record))
  {
    hide Legs, Scan, Conclude, Later, Verified, RequestSwap, SetImageOk, ImageOk, SlotCrc;
    ScanIsExact(m, 0);
    var s := Scan(m, 0);
    if s.err == Success {
      LegsKeepIntent(s.m, s.count);
      ConcludeVerifies(Legs(s.m, s.count).m, SwapType(m.record));
    }
  }

  /**
   Verification survives interruption. Even when the driver reports success for copies that put wrong bytes in place,
   and however many boots the exchange takes, completion is reported only for a primary slot whose CRC32 is the one
   the staged image had when the exchange was armed (or when that reference was never measured).
   */
  lemma {:induction false} VerificationSurvives(m: Machine, scripts: seq<seq<Event>>)
    requires Swapping(m.record) && scripts != []
    ensures
      var r := Resume(m, scripts);
      && (r.result in {Finished, Reverted} ==> Verified(StagedCrc(m.record), r.m.primary))
      && (r.result == CrcFail ==> !Verified(StagedCrc(m.record), r.m.primary))
      && r.result != Nothing
    decreases |scripts|
  {
    hide SwapProcess, Swapping, Verified;
    var on := PowerOn(m, scripts[0]);
    ProcessVerifies(on);
    var r := SwapProcess(on);
    if |scripts| > 1 && Swapping(r.m.record) {
      VerificationSurvives(r.m, scripts[1..]);
    }
  }

  /**
   From the request to the report. Once boot_swap_start has succeeded with an honest driver, or on a board without a
   record, and whatever the driver calls of any number of boots do from then on - fail, be cut, or lie about what they
   wrote - completion is reported only for a primary slot whose bytes, all of them, have the CRC32 of all the bytes of
   the image that was staged, and CRC_FAIL only for one whose bytes have another. (A staged image with the unset value
   for its CRC32 is not checked.)
   */
  lemma StagedImageIsVerified(m: Machine, swapType: byte, scripts: seq<seq<Event>>)
    requires PERM <= swapType <= REVERT && scripts != []
    ensures
      var d := SwapStart(m, swapType);
      var r := Resume(d.m, scripts);
      var staged, arrived := Crc32.Checksum(Flatten(m.secondary)), Crc32.Checksum(Flatten(r.m.primary));
      d.err == Success && (Sure(m) || d.m.record != m.record) ==>
        && (r.result in {Finished, Reverted} ==> staged == 0xFFFFFFFF || arrived == staged)
        && (r.result == CrcFail ==> staged != 0xFFFFFFFF && arrived != staged)
  {
    hide SwapStart, Resume, Crc32.Checksum, Flatten, Swapping, StagedCrc, Before, Progress, LogOk, LogWhole, Scan, Sure;
    StartSetsCourse(m, swapType);
    var d := SwapStart(m, swapType);
    if d.err == Success && (Sure(m) || d.m.record != m.record) {
      VerificationSurvives(d.m, scripts);
    }
  }

  /** The two slots differ, and only inside four consecutive bytes of their address range. */
  ghost predicate BurstApart(a: Slot, b: Slot, at: nat) {
    a != b && forall i :: 0 <= i < PRIMARY_SIZE && !(at <= i < at + 4) ==> Flatten(a)[i] == Flatten(b)[i]
  }

  /**
   What verification is sure to catch. However many boots the exchange takes and whatever they write, if what arrives
   differs from the image the reference was taken of inside one window of four bytes, anywhere in the slot, the exchange
   is never reported as complete, and ends in CRC_FAIL once it concludes.
   */
  lemma BurstIsCaught(m: Machine, staged: Slot, at: nat, scripts: seq<seq<Event>>)
    requires Swapping(m.record) && scripts != []
    requires StagedCrc(m.record) == Crc32.Checksum(Flatten(staged)) != 0xFFFFFFFF
    ensures
      var r := Resume(m, scripts);
      BurstApart(r.m.primary, staged, at) ==> r.result in {Error, CrcFail}
  {
    hide Resume, Crc32.Checksum, Flatten, Swapping, StagedCrc;
    VerificationSurvives(m, scripts);
    var r := Resume(m, scripts);
    if BurstApart(r.m.primary, staged, at) {
      if Flatten(r.m.primary) == Flatten(staged) {
        FlattenInjective(r.m.primary, staged);
      }
      Crc32.BurstDetected(Flatten(r.m.primary), Flatten(staged), at);
      assert !Verified(StagedCrc(m.record), r.m.primary);
      assert r.result !in {Nothing, Finished, Reverted};
    }
  }

  // ----- A request that a lying commit loses -----

  /** The calls of an arming that works up to its commit, which reports success and has no effect. */
  function CommitLies(was: Record): seq<Event> {
    [WORKS, WORKS, LieOf(Encode(was)), LieOf(Encode(was))]
  }

  /** The log is erased, the record is the old one, and success is reported. */
  lemma ArmingCanBeLost(m: Machine, swapType: byte, crcStaged: word)
    requires PERM <= swapType <= REVERT && m.alive && m.record.Some? && m.script == CommitLies(m.record.value)
    ensures
      var d := RequestSwap(m, swapType, crcStaged);
      d.err == Success && d.m == m.(script := [], log := d.m.log) && LogWhole(d.m.log) && Progress(d.m.log, 0) == 0
  {
    hide Encode, Commit, ArmedRecord, Progress, LogEntry;
    var lie := LieOf(Encode(m.record.value));
    var e := EraseLog(m);
    assert e.m.script == [WORKS, lie, lie] && e.err == Success;
    var b := BlankCheck(e.m, 0, LOG_WORDS);
    assert b.blank && b.m.script == [lie, lie] && b.err == Success;
    assert ClearLog(m) == Done(b.m, Success);
    LyingCommitKeepsRecord(b.m, ArmedRecord(b.m.record, swapType, crcStaged));
    RequestSwapFacts(m, swapType, crcStaged);
  }

  /** From an empty log on, with every driver call working, the exchange completes whatever the reference says. */
  lemma ExchangeCompletes(m: Machine, swapType: byte)
    requires m.alive && m.script == [] && LogWhole(m.log) && Progress(m.log, 0) == 0
    ensures
      var r := SwapModel.Exchange(m, swapType);
      && Slots(r.m) == Mirror(Slots(m))
      && (!Verified(StagedCrc(m.record), m.secondary) ==> r.result == CrcFail)
  {
    hide Scan, Legs, Commit, Progress, LogWhole, LogOk, Before, Crc32.Checksum, Flatten, Later, CompletedRecord;
    LogWholeIsOk(m.log);
    BeforeAtStart(m.scratch, Slots(m));
    ScanIsExact(m, 0);
    var s := Scan(m, 0);
    EverythingWorks(m, s.m);
    LegsKeepCourse(s.m, 0, Slots(m));
    var l := Legs(s.m, 0);
    EverythingWorks(s.m, l.m);
    BeforeAtEnd(l.m.scratch, Slots(l.m));
    CommitFacts(l.m, ConcludedRecord(l.m.record, swapType, l.m.primary));
    EverythingWorks(l.m, Commit(l.m, ConcludedRecord(l.m.record, swapType, l.m.primary)).m);
  }

  /** Where every driver call works, it does so to the end, and with power. */
  lemma EverythingWorks(m: Machine, n: Machine)
    requires Later(m, n) && Calm(m) && Fair(m)
    ensures Calm(n) && Fair(n) && Honest(n) && n.alive && m.alive
  {
    CleanIsHonest(n);
  }

  /**
   The consequence. An exchange is armed over another one that is still armed, and the commit has no effect: the request
   succeeds, the image that was staged then arrives in full, and CRC_FAIL is reported for it.
   */
  lemma LostArmingBlamesImage(m: Machine, swapType: byte)
    requires PERM <= swapType <= REVERT && m.alive && Swapping(m.record) && ImageOk(m.secondary)
    requires m.script == CommitLies(m.record.value) && !Verified(StagedCrc(m.record), m.secondary)
    ensures
      var d := SwapStart(m, swapType);
      var r := Resume(d.m, [[]]);
      && d.err == Success && d.m.record == m.record
      && r.result == CrcFail && r.m.primary == m.secondary && r.m.secondary == m.primary
  {
    hide RequestSwap, SwapModel.Exchange, ImageOk, SlotCrc, LogWhole, Progress, StagedCrc;
    ArmingCanBeLost(m, swapType, SlotCrc(m.secondary));
    var d := SwapStart(m, swapType);
    ExchangeCompletes(PowerOn(d.m, []), SwapType(d.m.record));
  }
}
