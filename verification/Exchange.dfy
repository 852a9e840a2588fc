/**
 The exchange of the two slots through scratch survives any interruption.

 The slots and the scratch sector, read together with the number of logged legs, always determine the pair of images
 the exchange started from (`Before`). A leg that is cut or fails leaves that pair where it is, a leg that completes
 and is logged leaves it where it is, and after the last leg it sits exchanged in the slots.
 */
module Exchange {
  import opened Layout
  import opened BootRecord
  import opened FlashModel
  import opened SwapModel
  import opened DriverFacts
  import opened ScratchExchange

  datatype Pair = Pair(primary: Slot, secondary: Slot)

  function Slots(m: Machine): Pair {
    Pair(m.primary, m.secondary)
  }

  function Mirror(p: Pair): Pair {
    Pair(p.secondary, p.primary)
  }

  /** The sectors the exchange works on. */
  function Sectors(scratch: Sector, now: Pair): Area<Sector> {
    Area(scratch, now.primary, now.secondary)
  }

  /** The pair an exchange started from, once `c` legs are logged. */
  function Before(scratch: Sector, now: Pair, c: nat): Pair {
    var o := Origin(Sectors(scratch, now), c);
    Pair(o.primary, o.secondary)
  }

  /** Nothing has moved yet, whatever scratch holds. */
  lemma BeforeAtStart(scratch: Sector, now: Pair)
    ensures Before(scratch, now, 0) == now
  {
    OriginAtStart(Sectors(scratch, now));
  }

  /** Everything has moved. */
  lemma BeforeAtEnd(scratch: Sector, now: Pair)
    ensures Before(scratch, now, STEP_COUNT) == Mirror(now)
  {
    OriginAtEnd(Sectors(scratch, now));
  }

  /** A leg that was cut, or failed, or is repeated, loses nothing: its destination holds nothing that counts. */
  lemma RepeatedLegIsHarmless(m: Machine, c: nat, s: Sector)
    requires c < STEP_COUNT
    ensures
      var n := Put(m, LegDest(c), s);
      Before(n.scratch, Slots(n), c) == Before(m.scratch, Slots(m), c)
  {
    hide Origin;
    HitKeepsOrigin(Sectors(m.scratch, Slots(m)), c, s);
  }

  /** A leg that completed may be logged: the pair is then found one step further on. */
  lemma CompletedLegAdvances(m: Machine, c: nat)
    requires c < STEP_COUNT
    ensures
      var n := Put(m, LegDest(c), Content(m, LegSource(c)));
      Before(n.scratch, Slots(n), c + 1) == Before(m.scratch, Slots(m), c)
  {
    hide Origin;
    LegKeepsOrigin(Sectors(m.scratch, Slots(m)), c);
  }

  // ----- The log -----

  ghost predicate Logged(log: Log, i: nat)
    requires i < LOG_WORDS
  {
    log[i] == Programmed(LogEntry(i))
  }

  /** Number of legs the log holds, counted from leg `i`. */
  ghost function Progress(log: Log, i: nat): (c: nat)
    requires i <= STEP_COUNT
    ensures i <= c <= STEP_COUNT
    ensures forall k :: i <= k < c ==> Logged(log, k)
    ensures c < STEP_COUNT ==> !Logged(log, c)
    decreases STEP_COUNT - i, |log|
  {
    if i < STEP_COUNT && Logged(log, i) then Progress(log, i + 1) else i
  }

  /** The log describes one swap: some legs, perhaps a torn entry, then nothing. */
  ghost predicate LogOk(log: Log) {
    forall k :: Progress(log, 0) < k < LOG_WORDS ==> log[k].Blank?
  }

  /** The same without a torn entry. */
  ghost predicate LogWhole(log: Log) {
    forall k :: Progress(log, 0) <= k < LOG_WORDS ==> log[k].Blank?
  }

  /** The first unlogged word holds something else: a cut tore it. */
  ghost predicate TornLog(log: Log) {
    Progress(log, 0) < STEP_COUNT && log[Progress(log, 0)].Programmed?
  }

  /** What cuts can make of the log of one swap. */
  ghost predicate LogFair(log: Log) {
    LogWhole(log) || (LogOk(log) && TornLog(log))
  }

  lemma LogFairIsOk(log: Log)
    ensures LogFair(log) ==> LogOk(log)
    ensures LogWhole(log) ==> !TornLog(log)
    ensures LogFair(log) && !TornLog(log) ==> LogWhole(log)
  {
  }

  lemma {:induction false} ProgressIs(log: Log, i: nat, c: nat)
    requires i <= c <= STEP_COUNT
    requires forall k :: i <= k < c ==> Logged(log, k)
    requires c < STEP_COUNT ==> !Logged(log, c)
    ensures Progress(log, i) == c
    decreases c - i
  {
    if i < c {
      ProgressIs(log, i + 1, c);
    }
  }

  /** The scan finds exactly the legs the log holds, whatever erased words read as, and changes nothing. */
  lemma {:induction false} ScanIsExact(m: Machine, i: nat)
    requires i <= STEP_COUNT
    ensures
      var s := Scan(m, i);
      && Later(m, s.m) && SameFlash(m, s.m)
      && (s.err == Success ==> s.count == Progress(m.log, i))
      && (s.err == Success ==> s.m.alive == m.alive)
      && (m.alive && Fair(m) && s.m.alive ==> s.err == Success)
      && (!m.alive ==> s.m == m)
    decreases STEP_COUNT - i
  {
    if i < STEP_COUNT {
      hide BlankCheck, Later, Honest, Fair, Clean;
      BlankCheckFacts(m, i, 1);
      var b := BlankCheck(m, i, 1);
      if b.err == Success && !b.blank && LogEntry(i) == Reads(m.log[i]) {
        ScanIsExact(b.m, i + 1);
        LaterTrans(m, b.m, Scan(b.m, i + 1).m);
      }
    }
  }

  lemma LogStep(log: Log, c: nat, w: Word)
    requires c < STEP_COUNT && Progress(log, 0) == c && LogOk(log)
    requires w == log[c] || w.Programmed?
    ensures
      var next: Log := log[c := w];
      && LogOk(next)
      && Progress(next, 0) == (if w == Programmed(LogEntry(c)) then c + 1 else c)
      && LogFair(next)
      && (LogWhole(log) && (w == log[c] || w == Programmed(LogEntry(c))) ==> LogWhole(next))
  {
    hide LogEntry;
    var next: Log := log[c := w];
    forall k | 0 <= k < c ensures Logged(next, k) {
      assert Logged(log, k);
    }
    if Logged(next, c) {
      assert c + 1 < STEP_COUNT ==> next[c + 1].Blank?;
      ProgressIs(next, 0, c + 1);
    } else {
      ProgressIs(next, 0, c);
    }
  }

  /** Logging a leg, successfully or not, keeps the log in order; it advances by one leg or not at all. */
  lemma LoggingKeepsOrder(m: Machine, c: nat)
    requires c < STEP_COUNT && Progress(m.log, 0) == c && LogOk(m.log)
    ensures
      var d := WriteLog(m, c, LogEntry(c));
      && LogOk(d.m.log)
      && Progress(d.m.log, 0) in {c, c + 1}
      && (d.err == Success ==> Progress(d.m.log, 0) == c + 1)
      && LogFair(d.m.log)
      && (m.alive && Fair(m) && LogWhole(m.log) && d.m.alive ==> LogWhole(d.m.log) && d.err == Success)
      && (m.alive && Clean(m) && LogWhole(m.log) ==> LogWhole(d.m.log))
      && (!m.alive ==> d.m == m)
  {
    hide WriteLog, Honest, Fair, Clean, LogEntry, Progress, LogOk, LogFair;
    CleanIsHonest(m);
    WriteLogFacts(m, c, LogEntry(c));
    LogStep(m.log, c, WriteLog(m, c, LogEntry(c)).m.log[c]);
  }

  // ----- The legs -----

  /** Some legs of an exchange of `p` are done, as logged; the destination of the next one holds anything. */
  ghost predicate Midway(m: Machine, p: Pair) {
    LogOk(m.log) && Before(m.scratch, Slots(m), Progress(m.log, 0)) == p
  }

  /** `n` differs from `m` only in the slots, scratch, the log, and what driver calls use up. */
  ghost predicate SameIntent(m: Machine, n: Machine) {
    Later(m, n) && n.record == m.record && n.mail == m.mail
  }

  /** One leg and its log entry. */
  function LegThenLog(m: Machine, c: nat): Done
    requires c < STEP_COUNT
  {
    var d := Copy(m, LegDest(c), LegSource(c));
    if d.err != Success then d else WriteLog(d.m, c, LogEntry(c))
  }

  /** A leg, cut or failing anywhere, keeps the exchange on its way. */
  lemma LegKeepsCourse(m: Machine, c: nat, p: Pair)
    requires c < STEP_COUNT && c == Progress(m.log, 0) && Midway(m, p) && Honest(m)
    ensures
      var d := LegThenLog(m, c);
      && SameIntent(m, d.m) && Midway(d.m, p)
      && Progress(d.m.log, 0) in {c, c + 1}
      && (d.err == Success ==> d.m.alive == m.alive && Progress(d.m.log, 0) == c + 1)
      && (LogFair(m.log) ==> LogFair(d.m.log))
      && (m.alive && Fair(m) && LogWhole(m.log) && d.m.alive ==> LogWhole(d.m.log) && d.err == Success)
      && (m.alive && Clean(m) && LogWhole(m.log) ==> LogWhole(d.m.log))
      && (!m.alive ==> d.m == m && d.err != Success)
  {
    hide Copy, WriteLog, LogOk, LogWhole, LogFair, Progress, Before, Honest, Fair, Clean, LogEntry;
    CleanIsHonest(m);
    var dest, src := LegDest(c), LegSource(c);
    var d := Copy(m, dest, src);
    CopyFacts(m, dest, src);
    RepeatedLegIsHarmless(m, c, Content(d.m, dest));
    if d.err == Success {
      CompletedLegAdvances(m, c);
      WriteLogFacts(d.m, c, LogEntry(c));
      LoggingKeepsOrder(d.m, c);
    }
  }

  /** The legs from the first unlogged one on: however they end, the exchange is still on its way to the same end. */
  lemma {:induction false} LegsKeepCourse(m: Machine, c: nat, p: Pair)
    requires c == Progress(m.log, 0) && Midway(m, p) && Honest(m)
    ensures
      var d := Legs(m, c);
      && SameIntent(m, d.m) && Midway(d.m, p)
      && c <= Progress(d.m.log, 0)
      && (d.err == Success ==> d.m.alive == m.alive && Progress(d.m.log, 0) == STEP_COUNT)
      && (LogFair(m.log) ==> LogFair(d.m.log))
      && (m.alive && Fair(m) && LogWhole(m.log) && d.m.alive ==> LogWhole(d.m.log) && d.err == Success)
      && (m.alive && Clean(m) && LogWhole(m.log) ==> LogWhole(d.m.log))
      && (!m.alive ==> d.m == m)
    decreases STEP_COUNT - c
  {
    hide Copy, WriteLog, Midway, LogWhole, LogFair, Progress, Honest, Fair, Clean, LogEntry;
    if c < STEP_COUNT {
      LegKeepsCourse(m, c, p);
      var d := LegThenLog(m, c);
      if d.err == Success {
        LegsKeepCourse(d.m, c + 1, p);
      }
    }
  }

  // ----- One call of the engine -----

  /** The record asks for an exchange that is not complete. */
  predicate Swapping(r: Option<Record>) {
    SwapInProgress(r) && SwapType(r) != NONE
  }

  /** An exchange of `p` is armed and under way. */
  ghost predicate OnCourse(m: Machine, p: Pair) {
    && Swapping(m.record)
    && Midway(m, p)
    && StagedCrc(m.record) == SlotCrc(p.secondary)
  }

  /** The exchange of `p` is over: the slots hold the mirrored pair in full, and no exchange is asked for. */
  ghost predicate Arrived(m: Machine, p: Pair) {
    !Swapping(m.record) && Slots(m) == Mirror(p)
  }

  /** What a completed exchange leaves in the record. */
  function ConcludedRecord(r: Option<Record>, swapType: byte, primary: Slot): Record {
    CompletedRecord(r, if swapType == TEST then REVERT else NONE, if swapType == TEST then 0 else 1, SlotCrc(primary))
  }

  /** What one call of the engine does to an exchange of `p` under way. */
  ghost predicate Advances(m: Machine, swapType: byte, p: Pair, r: Ran) {
    && Later(m, r.m) && r.m.mail == m.mail
    && (OnCourse(r.m, p) || Arrived(r.m, p))
    && (OnCourse(r.m, p) ==> r.m.record == m.record && Progress(m.log, 0) <= Progress(r.m.log, 0))
    && (Arrived(r.m, p) ==> r.m.record in {None, Some(ConcludedRecord(m.record, swapType, p.secondary))})
    && (Arrived(r.m, p) ==> Progress(r.m.log, 0) == STEP_COUNT)
    && r.result in {Finished, Reverted, Error}
    && (r.result == Finished ==> swapType != REVERT)
    && (r.result == Reverted ==> swapType == REVERT)
    && (r.result != Error ==>
          && Arrived(r.m, p) && r.m.alive == m.alive
          && r.m.record == Some(ConcludedRecord(m.record, swapType, p.secondary)))
    && (LogFair(m.log) ==> LogFair(r.m.log))
    && (m.alive && Fair(m) && LogWhole(m.log) && r.m.alive ==> LogWhole(r.m.log) && r.result != Error)
    && (m.alive && Clean(m) && LogWhole(m.log) ==> LogWhole(r.m.log))
    && (!m.alive ==> r.m == m)
  }

  /** Verification and the completion record, once the last leg is logged. */
  lemma ConcludeAdvances(m: Machine, swapType: byte, p: Pair)
    requires OnCourse(m, p) && Progress(m.log, 0) == STEP_COUNT && Honest(m)
    ensures Advances(m, swapType, p, Conclude(m, swapType, StagedCrc(m.record)))
  {
    hide Commit, LogOk, LogWhole, LogFair, Progress, Before, Honest, Fair, Clean, SlotCrc;
    BeforeAtEnd(m.scratch, Slots(m));
    CommitFacts(m, ConcludedRecord(m.record, swapType, m.primary));
  }

  /** Resuming or starting the legs, and concluding: power may go, calls may fail, the pair stays recoverable. */
  lemma ExchangeAdvances(m: Machine, swapType: byte, p: Pair)
    requires OnCourse(m, p) && Honest(m)
    ensures Advances(m, swapType, p, SwapModel.Exchange(m, swapType))
  {
    hide Legs, Scan, Conclude, LogOk, LogWhole, LogFair, Progress, Before, Honest, Fair, Clean, SlotCrc,
      ConcludedRecord, Swapping;
    ScanIsExact(m, 0);
    var s := Scan(m, 0);
    if s.err == Success {
      LegsKeepCourse(s.m, s.count, p);
      var l := Legs(s.m, s.count);
      if l.err == Success {
        ConcludeAdvances(l.m, swapType, p);
      }
    }
  }

  /** boot_swap_process on an exchange under way. */
  lemma ProcessAdvances(m: Machine, p: Pair)
    requires OnCourse(m, p) && Honest(m)
    ensures Advances(m, SwapType(m.record), p, SwapProcess(m))
  {
    hide SwapModel.Exchange, Advances;
    ExchangeAdvances(m, SwapType(m.record), p);
  }
}
