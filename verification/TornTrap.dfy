/**
 The trap: a board that a torn log word keeps from ever coming up again, and the single power cut that leads there.

 The second leg copies the primary sector 0 over the secondary one. If the image in the primary slot cannot run and the
 log word of that leg is torn, every boot does this leg again, fails at the word, and finds no image in either slot.
 */
module TornTrap {
  import opened Layout
  import opened BootRecord
  import opened FlashModel
  import opened SwapModel
  import opened DriverFacts
  import opened ScratchExchange
  import opened Exchange
  import opened EngineRuns
  import opened Refinement
  import opened Runs
  import opened Faults
  import opened MixedImages
  import opened TornWords
  import Mailbox
  import I = Ideal

  // ----- The trap -----

  /** A clean cycle leaves a trapped board trapped: its boot copies the old vector table again, and finds no image. */
  lemma TrapHolds(m: Machine, c: Cycle)
    requires ResetInv(m) && Trapped(m) && CleanCycle(c)
    ensures
      var b := BootOf(m, c);
      && ResetInv(Step(m, c)) && Trapped(Step(m, c))
      && (b.m.alive ==> !b.jumped && b.status == Mailbox.STATUS_ERR_IMAGE)
  {
    hide Boot, ImageOk, Progress, Mailbox.Pending, View, Shaken, I.Sound, I.Bootable, RequestOf, PairOf, Swapping,
      PrimaryAfter, Before, TornLog, Reset, OnCourse;
    var b := BootOf(m, c);
    CleanIsFair(c);
    BootFromStuck(m, c);
    OldPrimaryAtSecondLeg(m);
    CutKeepsTornWord(m, c);
    ResetKeeps(b.m, c.cold);
    ResetView(b.m, c.cold);
  }

  lemma CleanIsFair(c: Cycle)
    requires CleanCycle(c)
    ensures FairCycle(c)
  {
  }

  /** Without further tearing a boot from a trapped board leaves record, log and primary slot alone. */
  lemma CutKeepsTornWord(m: Machine, c: Cycle)
    requires ResetInv(m) && Trapped(m) && CleanCycle(c)
    ensures
      var b := BootOf(m, c);
      b.m.record == m.record && b.m.log == m.log && b.m.primary == m.primary
  {
    hide ProcessMailbox, SwapProcess, RecoverIfNeeded, HandOver, ImageOk, Progress, Mailbox.Pending, Later, View,
      Shaken, I.Sound, RequestOf, PairOf, Swapping, TornLog, Before, LogOk, StagedCrc, SlotCrc, LegDone, PrimaryAfter;
    CleanIsFair(c);
    FairPowerOn(m, c);
    var on := PowerOn(m, c.script);
    assert Clean(on);
    StuckIsOnCourse(on);
    NoRequest(on);
    EngineStopsAtTornWord(on, 1);
    EngineStaysOnCourse(on, PairOf(on));
    var s := ProcessSwap(ProcessMailbox(on));
    SecondLegKeepsPrimary(on, s.m);
    var t := RecoverIfNeeded(s);
    if !s.m.alive {
      DeadStages(s);
    } else {
      if I.NeedsRecovery(Slots(s.m)) {
        OnlyFirstWordRecovers(on, s.m, PairOf(on));
      }
      NothingToRecover(s);
    }
    HandOverRefines(t);
  }

  lemma SecondLegKeepsPrimary(m: Machine, n: Machine)
    requires OnlyRegion(m, n, LegDest(1))
    ensures n.primary == m.primary
  {
  }

  /** The trap is for good: whatever cuts follow, no boot ever jumps again, and nothing is left to erase the log. */
  lemma {:induction false} TrapIsForGood(m: Machine, cs: seq<Cycle>, c: Cycle)
    requires ResetInv(m) && Trapped(m) && CleanRun(cs) && CleanCycle(c)
    ensures ResetInv(Run(m, cs)) && Trapped(Run(m, cs))
    ensures
      var b := BootOf(Run(m, cs), c);
      b.m.alive ==> !b.jumped && b.status == Mailbox.STATUS_ERR_IMAGE
    decreases |cs|
  {
    hide Step, ResetInv, BootOf, CleanCycle, Trapped;
    if cs == [] {
      TrapHolds(m, c);
    } else {
      assert CleanCycle(cs[0]);
      TrapHolds(m, cs[0]);
      TrapIsForGood(Step(m, cs[0]), cs[1..], c);
    }
  }

  // ----- One cut is enough -----

  /** A cut that tears the word it hits. */
  const TEARS: Event := Event(Cut, Torn, [])

  /** The next `n` driver calls work. */
  ghost predicate Ahead(m: Machine, n: nat) {
    m.alive && n <= |m.script| && forall k :: 0 <= k < n ==> m.script[k] == WORKS
  }

  /** `n` driver calls on. */
  ghost predicate WorkedOn(m: Machine, n: nat, r: Machine) {
    r.alive && n <= |m.script| && r.script == m.script[n..]
  }

  lemma AheadOf(m: Machine, n: nat, r: Machine, k: nat)
    requires Ahead(m, n + k) && WorkedOn(m, n, r)
    ensures Ahead(r, k)
    ensures forall t: Machine :: WorkedOn(r, k, t) ==> WorkedOn(m, n + k, t)
  {
    assert forall j :: 0 <= j < k ==> r.script[j] == m.script[n + j];
    assert r.script[k..] == m.script[n + k..];
  }

  lemma CallWorks(m: Machine)
    requires Ahead(m, 1)
    ensures Meet(m) == WORKS && WorkedOn(m, 1, After(m)) && SameFlash(m, After(m))
  {
  }

  lemma {:induction false} ChunksWork(m: Machine, data: seq<byte>, now: seq<byte>, offset: nat, n: nat)
    requires |now| == |data| && offset + CHUNK * n == |data| && Ahead(m, n)
    ensures
      var r := ProgramChunks(m, data, now, offset);
      r.err == Success && WorkedOn(m, n, r.m)
    decreases n
  {
    hide Ahead, WorkedOn, Splice;
    if n == 0 {
      NoCalls(m);
    } else {
      var w := WriteRange(m, now[offset..offset + CHUNK], data[offset..offset + CHUNK]);
      SomeAhead(m, n);
      CallWorks(m);
      AheadOf(m, 1, w.m, n - 1);
      ChunksWork(w.m, data, Splice(now, offset, w.now), offset + CHUNK, n - 1);
    }
  }

  lemma NoCalls(m: Machine)
    requires Ahead(m, 0)
    ensures WorkedOn(m, 0, m)
  {
  }

  lemma SomeAhead(m: Machine, n: nat)
    requires Ahead(m, n) && n > 0
    ensures Ahead(m, 1)
  {
  }

  const CHUNKS: nat := SECTOR_SIZE / CHUNK

  /** Driver calls of one leg: an erase, the chunks, the log entry. */
  const LEG_CALLS: nat := CHUNKS + 2

  lemma CopyWorks(m: Machine, dest: Region, src: Region)
    requires InFlash(dest) && InFlash(src) && Ahead(m, CHUNKS + 1)
    ensures
      var d := Copy(m, dest, src);
      d.err == Success && WorkedOn(m, CHUNKS + 1, d.m)
  {
    hide Ahead, WorkedOn, ProgramChunks;
    var data, now := Content(m, src), Content(m, dest);
    SomeAhead(m, CHUNKS + 1);
    CallWorks(m);
    var e := EraseRange(m, now);
    AheadOf(m, 1, e.m, CHUNKS);
    ChunksWork(e.m, data, e.now, 0, CHUNKS);
    PutKeepsCalls(ProgramChunks(e.m, data, e.now, 0).m, dest, Copy(m, dest, src), m);
  }

  lemma PutKeepsCalls(t: Machine, dest: Region, d: Done, m: Machine)
    requires InFlash(dest) && WorkedOn(m, CHUNKS + 1, t) && exists s: Sector :: d.m == Put(t, dest, s)
    ensures WorkedOn(m, CHUNKS + 1, d.m)
  {
  }

  lemma LegWorks(m: Machine, c: nat)
    requires c < STEP_COUNT && Ahead(m, LEG_CALLS) && m.log[c].Blank?
    ensures
      var d := LegThenLog(m, c);
      d.err == Success && WorkedOn(m, LEG_CALLS, d.m)
  {
    hide Ahead, WorkedOn, Copy, LogEntry, LegDest, LegSource;
    var d := Copy(m, LegDest(c), LegSource(c));
    FewerAhead(m, LEG_CALLS, CHUNKS + 1);
    CopyWorks(m, LegDest(c), LegSource(c));
    CopyFacts(m, LegDest(c), LegSource(c));
    PutKeepsLog(m, LegDest(c), Content(d.m, LegDest(c)));
    AheadOf(m, CHUNKS + 1, d.m, 1);
    CallWorks(d.m);
    WordWritten(d.m, c);
  }

  lemma FewerAhead(m: Machine, n: nat, k: nat)
    requires Ahead(m, n) && k <= n
    ensures Ahead(m, k)
  {
  }

  lemma WordWritten(m: Machine, c: nat)
    requires c < STEP_COUNT && Ahead(m, 1) && m.log[c].Blank?
    ensures
      var w := WriteLog(m, c, LogEntry(c));
      w.err == Success && WorkedOn(m, 1, w.m)
  {
    hide LogEntry;
  }

  lemma ArmingWorks(m: Machine, swapType: byte, crc: word)
    requires PERM <= swapType <= REVERT && Ahead(m, 4)
    ensures
      var d := RequestSwap(m, swapType, crc);
      d.err == Success && WorkedOn(m, 4, d.m)
  {
    hide HalfWritten, ArmedRecord;
    var e := EraseLog(m);
    assert e.m.script == m.script[1..];
    var b := BlankCheck(e.m, 0, LOG_WORDS);
    assert b.blank && b.m.script == m.script[2..];
    assert ClearLog(m) == Done(b.m, Success);
    var r := ArmedRecord(b.m.record, swapType, crc);
    var x := EraseRecord(b.m);
    assert x.err == Success && x.m.script == m.script[3..];
    var w := WriteRecord(x.m, r);
    assert w.err == Success && w.m.script == m.script[4..];
  }

  lemma TearingIsNoEntry()
    ensures NoiseWord(TEARS, 0) != LogEntry(1)
  {
    assert NoiseWord(TEARS, 0) == 0xFFFFFFFF;
  }

  lemma FirstLegsKeepPrimary(m: Machine, c: nat)
    requires c < 2
    ensures LegThenLog(m, c).m.primary == m.primary
  {
    hide Copy, WriteLog, LogEntry;
    var d := Copy(m, LegDest(c), LegSource(c));
    CopyFacts(m, LegDest(c), LegSource(c));
    WriteLogFacts(d.m, c, LogEntry(c));
  }

  lemma ScanOnce(m: Machine, n: nat)
    requires Ahead(m, n) && n > 0 && Progress(m.log, 0) == 0
    ensures
      var s := Scan(m, 0);
      s.err == Success && s.count == 0 && WorkedOn(m, 1, s.m) && SameFlash(m, s.m)
  {
    hide Scan, Progress;
    ScanWorks(m, 0, 1);
  }

  lemma TearsAtTheEnd(m: Machine, n: nat, r: Machine, v: word)
    requires WorkedOn(m, n, r) && |m.script| == n + 1 && m.script[n] == TEARS && NoiseWord(TEARS, 0) != v
    ensures TearsNext(r, v)
  {
    hide NoiseWord;
    assert r.script[0] == m.script[n];
  }

  /** An exchange whose first leg works and whose second leg's word is torn. */
  lemma SecondWordTears(m: Machine, p: Pair)
    requires OnCourse(m, p) && LogWhole(m.log) && Progress(m.log, 0) == 0 && Fair(m)
    requires Ahead(m, 2 * LEG_CALLS) && |m.script| == 2 * LEG_CALLS + 1 && m.script[2 * LEG_CALLS] == TEARS
    ensures
      var e := SwapProcess(m);
      && e.result == Error && !e.m.alive && e.m.primary == m.primary
      && e.m.record == m.record && e.m.mail == m.mail && TornAt(e.m.log, 1)
  {
    hide Scan, Copy, WriteLog, Progress, Before, LogOk, LogFair, LogWhole, StagedCrc, SlotCrc, LegDest, LegSource,
      LogEntry, NoiseWord, Ahead, WorkedOn, TearsNext, Fair, Honest, Clean, SwapType, TornLog;
    CleanIsHonest(m);
    ScanOnce(m, 2 * LEG_CALLS);
    var s := Scan(m, 0).m;
    ScanIsExact(m, 0);
    AheadOf(m, 1, s, 2 * LEG_CALLS - 1);
    FewerAhead(s, 2 * LEG_CALLS - 1, LEG_CALLS);
    FirstWordBlank(s.log);
    LegWorks(s, 0);
    LegKeepsCourse(s, 0, p);
    var d := LegThenLog(s, 0).m;
    AheadOf(s, LEG_CALLS, d, CHUNKS + 1);
    var c := Copy(d, LegDest(1), LegSource(1));
    CopyWorks(d, LegDest(1), LegSource(1));
    TearingIsNoEntry();
    TearsAtTheEnd(m, 2 * LEG_CALLS, c.m, LogEntry(1));
    CutTearsWord(d, p);
    LegKeepsCourse(d, 1, p);
    FirstLegsKeepPrimary(s, 0);
    FirstLegsKeepPrimary(d, 1);
    TwoLegs(s);
  }

  lemma FirstWordBlank(log: Log)
    requires LogWhole(log) && Progress(log, 0) == 0
    ensures log[0].Blank?
  {
  }

  lemma TwoLegs(m: Machine)
    requires LegThenLog(m, 0).err == Success && LegThenLog(LegThenLog(m, 0).m, 1).err != Success
    ensures Legs(m, 0) == LegThenLog(LegThenLog(m, 0).m, 1)
  {
    hide Copy, WriteLog, LegDest, LegSource, LogEntry;
    assert Legs(m, 0) == Legs(LegThenLog(m, 0).m, 1);
  }

  /** The script of a boot that arms a swap, does its first leg, and is cut in the log entry of the second. */
  ghost predicate TearsSecondWord(script: seq<Event>) {
    && |script| == 4 + 2 * LEG_CALLS + 1 && script[4 + 2 * LEG_CALLS] == TEARS
    && forall k :: 0 <= k < 4 + 2 * LEG_CALLS ==> script[k] == WORKS
  }

  lemma TearsSecondWordIsFair(c: Cycle)
    requires TearsSecondWord(c.script)
    ensures FairCycle(c)
  {
  }

  /** Nothing is asked for, and the secondary slot alone can run: recovery is the whole of the boot. */
  ghost predicate OnlySecondaryRuns(m: Machine) {
    && !Swapping(m.record) && !RevertPending(m.record) && !Mailbox.Pending(m.mail)
    && !ImageOk(m.primary) && ImageOk(m.secondary)
  }

  lemma IdleEngine(m: Machine)
    requires !Swapping(m.record) && !RevertPending(m.record)
    ensures SwapProcess(m) == Ran(m, Nothing)
  {
  }

  lemma ArmedIsOnCourse(m: Machine, n: nat, d: Done)
    requires Ahead(m, 4 + n) && Fair(m) && ImageOk(m.secondary) && d == SwapStart(m, PERM)
    ensures
      && d.err == Success && WorkedOn(m, 4, d.m) && Ahead(d.m, n) && Fair(d.m)
      && OnCourse(d.m, Slots(m)) && LogWhole(d.m.log) && Progress(d.m.log, 0) == 0 && d.m.primary == m.primary
  {
    hide RequestSwap, ImageOk, SlotCrc, Progress, LogWhole, LogOk, Before, Swapping, StagedCrc, Ahead, WorkedOn, Fair,
      Honest, Clean, SwapType;
    CleanIsHonest(m);
    FewerAhead(m, 4 + n, 4);
    ArmingWorks(m, PERM, SlotCrc(m.secondary));
    AheadOf(m, 4, d.m, n);
    StartSetsCourse(m, PERM);
    StartIsLater(m, PERM);
    LaterIsFair(m, d.m);
  }

  /**
   The trap is within reach of one power cut. On a healthy board where only the secondary slot can run, recovery arms
   its swap, the first leg is done and logged, the second is done, and the cut tears its log word.
   */
  lemma OneCutTraps(m: Machine, c: Cycle)
    requires Healthy(m) && OnlySecondaryRuns(m) && TearsSecondWord(c.script) && c.cold == None
    ensures FairCycle(c) && !BootOf(m, c).m.alive && Kept(Step(m, c)) && Trapped(Step(m, c))
  {
    hide ProcessMailbox, SwapProcess, SwapStart, HandOver, ImageOk, Progress, Mailbox.Pending, View, Shaken, I.Sound,
      I.Bootable, RequestOf, PairOf, Swapping, TornLog, Before, LogOk, LogWhole, LogFair, StagedCrc, SlotCrc, Ahead,
      WorkedOn, Fair, RevertPending, I.IdealBoot, I.MayStop;
    TearsSecondWordIsFair(c);
    FairPowerOn(m, c);
    var on := PowerOn(m, c.script);
    var n := 2 * LEG_CALLS;
    assert Ahead(on, 4 + n) by {
      AllAhead(on, 4 + n);
    }
    NoRequest(on);
    IdleEngine(on);
    var s := ProcessSwap(ProcessMailbox(on));
    var d := SwapStart(on, PERM);
    ArmedIsOnCourse(on, n, d);
    LastIsTears(on, 4, d.m, n);
    SecondWordTears(d.m, Slots(on));
    var t := RecoverIfNeeded(s);
    HandOverRefines(t);
    KeptIsHealthy(m);
    BootKeeps(m, c);
    ResetKeeps(BootOf(m, c).m, c.cold);
    ResetView(BootOf(m, c).m, c.cold);
  }

  lemma AllAhead(m: Machine, n: nat)
    requires m.alive && n <= |m.script| && forall k :: 0 <= k < n ==> m.script[k] == WORKS
    ensures Ahead(m, n)
  {
  }

  lemma LastIsTears(m: Machine, k: nat, d: Machine, n: nat)
    requires WorkedOn(m, k, d) && |m.script| == k + n + 1 && m.script[k + n] == TEARS
    ensures |d.script| == n + 1 && d.script[n] == TEARS
  {
  }

  /** So one cut can be the end: whatever clean cycles follow it, no boot jumps again. */
  lemma OneCutIsEnough(m: Machine, c: Cycle, cs: seq<Cycle>, d: Cycle)
    requires Healthy(m) && OnlySecondaryRuns(m) && TearsSecondWord(c.script) && c.cold == None
    requires CleanRun(cs) && CleanCycle(d)
    ensures
      var b := BootOf(Run(Step(m, c), cs), d);
      b.m.alive ==> !b.jumped && b.status == Mailbox.STATUS_ERR_IMAGE
  {
    hide Step, BootOf, ResetInv, Trapped, Healthy, OnlySecondaryRuns, CleanCycle, I.Bootable;
    OneCutTraps(m, c);
    TrapIsForGood(Step(m, c), cs, d);
  }
}
