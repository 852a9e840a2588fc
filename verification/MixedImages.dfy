/**
 Which image a boot jumps into when an exchange under way could not be completed.

 Recovery apart, hal_entry looks at the vector table of the primary slot only, and an unfinished exchange is no obstacle
 to the jump. Here is exactly when such a jump goes into one of the two images in full, and two calls whose failure
 makes it go into a mix. `TornWords` has the case of power cuts alone.
 */
module MixedImages {
  import opened Layout
  import opened BootRecord
  import opened FlashModel
  import opened SwapModel
  import opened DriverFacts
  import opened ScratchExchange
  import opened Exchange
  import opened EngineRuns
  import opened Runs
  import opened Faults
  import Mailbox
  import I = Ideal

  /** Bootability is decided by the first sector alone. */
  lemma FirstSectorDecides(a: Slot, b: Slot)
    requires a[0] == b[0]
    ensures ImageOk(a) <==> ImageOk(b)
  {
  }

  /** However an engine call ends, slots, scratch and log still tell the pair the exchange started from. */
  lemma OriginAfterEngine(m: Machine, p: Pair)
    requires OnCourse(m, p) && Honest(m)
    ensures
      var s := SwapProcess(m).m;
      Before(s.scratch, Slots(s), Progress(s.log, 0)) == p
  {
    hide SwapProcess, Swapping, LogOk, LogWhole, StagedCrc, SlotCrc, ConcludedRecord, Later, Before, SwapType;
    ProcessAdvances(m, p);
    var s := SwapProcess(m).m;
    BeforeAtEnd(s.scratch, Slots(s));
  }

  /** The primary slot after `c` legs is one of the two images exactly when its sectors join up. */
  lemma PrimaryJoins(scratch: Sector, now: Pair, c: nat, p: Pair)
    requires c <= STEP_COUNT && Before(scratch, now, c) == p
    ensures now.primary in {p.primary, p.secondary} <==> Joined(p.secondary, p.primary, now.primary, c / 3, (c + 1) / 3)
  {
    hide Origin, Joined;
    PrimaryFront(Sectors(scratch, now), c);
    WholeWhenJoined(p.secondary, p.primary, now.primary, c / 3, (c + 1) / 3);
  }

  /** The same for the secondary slot, which is what recovery puts in its place. */
  lemma SecondaryJoins(scratch: Sector, now: Pair, c: nat, p: Pair)
    requires c <= STEP_COUNT && Before(scratch, now, c) == p
    ensures
      now.secondary in {p.primary, p.secondary}
      <==> Joined(p.primary, p.secondary, now.secondary, (c + 1) / 3, (c + 2) / 3)
  {
    hide Origin, Joined;
    SecondaryFront(Sectors(scratch, now), c);
    WholeWhenJoined(p.primary, p.secondary, now.secondary, (c + 1) / 3, (c + 2) / 3);
  }

  /** What hal_entry can see after the engine: the slots, the log, and so the branch it will take. */
  ghost predicate EntersWhole(p: Pair, s: Machine) {
    var c := Progress(s.log, 0);
    if ImageOk(s.primary) then Joined(p.secondary, p.primary, s.primary, c / 3, (c + 1) / 3)
    else ImageOk(s.secondary) && Joined(p.primary, p.secondary, s.secondary, (c + 1) / 3, (c + 2) / 3)
  }

  /**
   The exact condition, for all images and every way the engine call may end - complete, failed at any call, stopped by
   a torn log word. A boot that keeps its power jumps if and only if one of the slots can run, and into one of the two
   images of the exchange if and only if moreover the sectors where they meet join up: in the primary slot if that can
   run, and in the secondary slot, which recovery then puts in its place, if not.
   */
  lemma JumpIsWholeExactly(m: Machine, p: Pair)
    requires OnCourse(m, p) && Honest(m) && !Mailbox.Pending(m.mail)
    requires I.NeedsRecovery(Slots(SwapProcess(m).m)) ==> Works(SwapProcess(m).m)
    ensures
      var s, b := SwapProcess(m).m, Boot(m);
      b.m.alive ==>
        && (b.jumped <==> ImageOk(s.primary) || ImageOk(s.secondary))
        && (b.jumped && b.m.primary in {p.primary, p.secondary} <==> EntersWhole(p, s))
  {
    hide Boot, SwapProcess, ImageOk, OnCourse, Arrived, Honest, Works, Joined, Before, Progress, ConcludedRecord,
      Swapping, Mailbox.Pending, SwapType;
    var s := SwapProcess(m).m;
    var c := Progress(s.log, 0);
    OriginAfterEngine(m, p);
    ExchangeReport(m, p);
    PrimaryJoins(s.scratch, Slots(s), c, p);
    SecondaryJoins(s.scratch, Slots(s), c, p);
  }

  /** A driver that works after the engine works to the end of the boot. */
  lemma WorksToTheEnd(m: Machine)
    requires !Mailbox.Pending(m.mail) && Works(SwapProcess(m).m)
    ensures Boot(m).m.alive
  {
    hide ProcessMailbox, SwapProcess, RecoverIfNeeded, HandOver, Mailbox.Pending, Later;
    NoRequest(m);
    var s := ProcessSwap(ProcessMailbox(m));
    RecoveryIsLater(s);
    StaysWorking(s.m, RecoverIfNeeded(s).m);
    HandOverIsLater(RecoverIfNeeded(s));
    StaysWorking(RecoverIfNeeded(s).m, HandOver(RecoverIfNeeded(s)).m);
  }

  /** The two images differ in every sector. */
  ghost predicate Unlike(p: Pair) {
    forall j :: 0 <= j < SECTOR_COUNT ==> p.primary[j] != p.secondary[j]
  }

  /**
   The same by log count, for two images that can run and differ in every sector: the boot jumps, and into a whole image
   if and only if no more than one leg or every leg is logged, or the destination of the third leg is as it was, or the
   destination of the last leg already as it will be. In between it jumps into a mix of the two.
   */
  lemma WholeByLogCount(m: Machine, p: Pair)
    requires OnCourse(m, p) && Honest(m) && !Mailbox.Pending(m.mail) && Works(SwapProcess(m).m)
    requires ImageOk(p.primary) && ImageOk(p.secondary) && Unlike(p)
    ensures
      var s, b := SwapProcess(m).m, Boot(m);
      var c := Progress(s.log, 0);
      && b.jumped
      && (b.m.primary in {p.primary, p.secondary} <==>
            || c <= 1 || c == STEP_COUNT
            || (c == 2 && s.primary[0] == p.primary[0])
            || (c == STEP_COUNT - 1 && s.primary[SECTOR_COUNT - 1] == p.secondary[SECTOR_COUNT - 1]))
  {
    hide Boot, SwapProcess, ImageOk, OnCourse, Arrived, Honest, Works, Joined, Before, Progress, ConcludedRecord,
      Swapping, Mailbox.Pending, SwapType;
    var s := SwapProcess(m).m;
    var c := Progress(s.log, 0);
    OriginAfterEngine(m, p);
    WorksToTheEnd(m);
    JumpIsWholeExactly(m, p);
    FrontsRun(s.scratch, Slots(s), c, p);
    UnlikeFronts(s.scratch, Slots(s), c, p);
  }

  /** One of the two slots can always run, and from the third leg on the primary slot. */
  lemma FrontsRun(scratch: Sector, now: Pair, c: nat, p: Pair)
    requires c <= STEP_COUNT && Before(scratch, now, c) == p && ImageOk(p.primary) && ImageOk(p.secondary)
    ensures c != 2 ==> ImageOk(now.primary)
    ensures c == 2 ==> ImageOk(now.secondary) && (now.primary[0] == p.primary[0] ==> ImageOk(now.primary))
  {
    hide ImageOk;
    if c >= 3 {
      FirstSectorDecides(now.primary, p.secondary);
    } else if c == 2 {
      FirstSectorDecides(now.secondary, p.primary);
      if now.primary[0] == p.primary[0] {
        FirstSectorDecides(now.primary, p.primary);
      }
    } else {
      FirstSectorDecides(now.primary, p.primary);
    }
  }

  /** Two slots that differ everywhere join up only at one of the ends. */
  lemma JoinedAtAnEnd(a: Slot, b: Slot, x: Slot, k: nat, l: nat)
    requires k <= l <= k + 1 && l <= SECTOR_COUNT
    requires forall j :: 0 <= j < SECTOR_COUNT ==> a[j] != b[j]
    ensures
      Joined(a, b, x, k, l) <==>
        || (k == 0 && (l == 0 || x[0] == b[0]))
        || (l == SECTOR_COUNT && (k == l || x[k] == a[k]))
  {
    if k > 0 {
      assert a[..k][0] == a[0] && b[..k][0] == b[0];
    }
    if l < SECTOR_COUNT {
      assert a[l..][0] == a[l] && b[l..][0] == b[l];
    }
    if k < l {
      assert x[k..l] == [x[k]] && a[k..l] == [a[k]] && b[k..l] == [b[k]];
    }
  }

  lemma UnlikeFronts(scratch: Sector, now: Pair, c: nat, p: Pair)
    requires c <= STEP_COUNT && Before(scratch, now, c) == p && Unlike(p)
    ensures
      Joined(p.secondary, p.primary, now.primary, c / 3, (c + 1) / 3) <==>
        || c <= 1 || c == STEP_COUNT
        || (c == 2 && now.primary[0] == p.primary[0])
        || (c == STEP_COUNT - 1 && now.primary[SECTOR_COUNT - 1] == p.secondary[SECTOR_COUNT - 1])
    ensures c == 2 ==> !Joined(p.primary, p.secondary, now.secondary, 1, 1)
  {
    hide Before, Joined;
    JoinedAtAnEnd(p.secondary, p.primary, now.primary, c / 3, (c + 1) / 3);
    JoinedAtAnEnd(p.primary, p.secondary, now.secondary, 1, 1);
  }

  /**
   The application that is reached mid-exchange may stage another image: the exchange survives if and only if that
   leaves alone every sector of the secondary slot but the one the next leg overwrites.
   */
  lemma RewriteKeepsCourse(m: Machine, p: Pair, a: App)
    requires OnCourse(m, p) && a.secondary.Some?
    ensures
      var c, y := Progress(m.log, 0), a.secondary.value;
      OnCourse(AppRuns(m, a), p)
      <==> y[..(c + 1) / 3] == m.secondary[..(c + 1) / 3] && y[(c + 2) / 3..] == m.secondary[(c + 2) / 3..]
  {
    hide Origin, Progress, LogOk, Swapping, SlotCrc, StagedCrc;
    RewriteKeepsOrigin(Sectors(m.scratch, Slots(m)), Progress(m.log, 0), a.secondary.value);
  }

  // ----- Two failing calls -----

  const FAILS: Event := Event(Fail, Untouched, [])

  lemma ErasedSlotIsNotBootable(slot: Slot)
    requires slot[0] == NoiseBytes(FAILS, SECTOR_SIZE)
    ensures !ImageOk(slot)
  {
    assert slot[0][0] == 0xFF && slot[0][1] == 0xFF && slot[0][2] == 0xFF && slot[0][3] == 0xFF;
    assert LoadWord(slot[0], 0) == 0xFFFFFFFF;
  }

  lemma CheckWorks(m: Machine, i: nat)
    requires i < LOG_WORDS && m.alive && m.script != [] && m.script[0] == WORKS
    ensures BlankCheck(m, i, 1) == Checked(m.(script := m.script[1..]), Success, m.log[i].Blank?)
  {
    assert m.log[i].Blank? <==> forall k :: i <= k < i + 1 ==> m.log[k].Blank?;
  }

  /** A scan whose checks all work uses up one event for every word it looks at. */
  lemma {:induction false} ScanWorks(m: Machine, i: nat, n: nat)
    requires i <= STEP_COUNT && m.alive
    requires n == Progress(m.log, i) - i + if Progress(m.log, i) < STEP_COUNT then 1 else 0
    requires n <= |m.script| && forall k :: 0 <= k < n ==> m.script[k] == WORKS
    ensures Scan(m, i) == Counted(m.(script := m.script[n..]), Success, Progress(m.log, i))
    decreases STEP_COUNT - i
  {
    hide LogEntry, BlankCheck;
    if i < STEP_COUNT {
      CheckWorks(m, i);
      var b := BlankCheck(m, i, 1);
      if Logged(m.log, i) {
        assert Progress(m.log, i) == Progress(m.log, i + 1);
        ScanWorks(b.m, i + 1, n - 1);
        assert m.script[1..][n - 1..] == m.script[n..];
      }
    }
  }

  /** A leg whose erase fails: the destination is gone, and nothing else. */
  lemma LegFails(m: Machine, c: nat)
    requires m.alive && m.script == [FAILS] && c < STEP_COUNT
    ensures Legs(m, c) == Done(Put(m, LegDest(c), NoiseBytes(FAILS, SECTOR_SIZE)).(script := []), DriverError)
  {
    hide LegDest, LegSource, NoiseBytes;
    var data, now := Content(m, LegSource(c)), Content(m, LegDest(c));
    assert EraseRange(m, now) == Moved(m.(script := []), NoiseBytes(FAILS, SECTOR_SIZE), DriverError);
  }

  /** The engine call whose next leg fails in its erase. */
  lemma EngineFails(m: Machine, p: Pair, c: nat)
    requires m.alive && OnCourse(m, p) && Progress(m.log, 0) == c < STEP_COUNT
    requires |m.script| == c + 2 && m.script[c + 1] == FAILS && forall k :: 0 <= k <= c ==> m.script[k] == WORKS
    ensures
      SwapProcess(m) == Ran(Put(m, LegDest(c), NoiseBytes(FAILS, SECTOR_SIZE)).(script := []), Error)
  {
    hide Legs, Scan, SlotCrc, Progress, Before, LogOk, LegDest, NoiseBytes;
    ScanWorks(m, 0, c + 1);
    assert m.script[c + 1..] == [FAILS];
    LegFails(m.(script := [FAILS]), c);
  }

  /**
   One failing call, and recovery. Two legs into a permanent swap the third one fails, the unbootable primary sends
   hal_entry into recovery, and recovery arms a new exchange over the half-done one: the boot reports SWAPPED and jumps
   into sector 0 of the old image followed by the other sectors of the new one.
   */
  lemma FailedCallMixesImages(m: Machine, p: Pair)
    requires m.alive && OnCourse(m, p) && Progress(m.log, 0) == 2 && !Mailbox.Pending(m.mail)
    requires m.script == [WORKS, WORKS, WORKS, FAILS] && ImageOk(p.primary)
    ensures
      var b := Boot(m);
      && b.m.alive && b.jumped && b.status == Mailbox.STATUS_SWAPPED
      && b.m.primary == [p.primary[0], p.secondary[1], p.secondary[2]]
  {
    hide ProcessMailbox, SwapProcess, RecoverIfNeeded, HandOver, ImageOk, Progress, Mailbox.Pending, Later, LogOk,
      Swapping, StagedCrc, SlotCrc;
    EngineFails(m, p, 2);
    var s := ProcessSwap(ProcessMailbox(m));
    NoRequest(m);
    ErasedSlotIsNotBootable(s.m.primary);
    FirstSectorDecides(s.m.secondary, p.primary);
    assert Works(s.m);
    RecoveryExchanges(s);
    var t := RecoverIfNeeded(s);
    HandOverKeepsSlots(t);
    HandOverIsLater(t);
    StaysWorking(t.m, HandOver(t).m);
  }

  lemma NoRequest(m: Machine)
    requires !Mailbox.Pending(m.mail)
    ensures ProcessMailbox(m).m == m
  {
  }

  /** Three legs done and no more: the first sector of the new image, then the old one. */
  lemma MixAfterThreeLegs(m: Machine, n: Machine, p: Pair)
    requires OnCourse(m, p) && Progress(m.log, 0) == 3 && n.primary == m.primary
    ensures n.primary == [p.secondary[0], p.primary[1], p.primary[2]]
    ensures ImageOk(n.primary) <==> ImageOk(p.secondary)
  {
    hide Progress, LogOk, Swapping, StagedCrc, SlotCrc, ImageOk;
    FirstSectorDecides(n.primary, p.secondary);
  }

  /**
   One failing call, and no recovery. Three legs into a swap the fourth one fails: the primary slot begins with the new
   vector table and can run, so the boot reports ERR_SWAP and jumps into the new first sector followed by the old image.
   */
  lemma FailedLegIsNoObstacle(m: Machine, p: Pair)
    requires m.alive && OnCourse(m, p) && Progress(m.log, 0) == 3 && !Mailbox.Pending(m.mail) && ImageOk(p.secondary)
    requires m.script == [WORKS, WORKS, WORKS, WORKS, FAILS]
    ensures
      var b := Boot(m);
      && b.m.alive && b.jumped && b.status == Mailbox.STATUS_ERR_SWAP
      && !I.NeedsRecovery(Slots(SwapProcess(m).m))
      && b.m.primary == [p.secondary[0], p.primary[1], p.primary[2]]
  {
    hide ProcessMailbox, SwapProcess, RecoverIfNeeded, HandOver, ImageOk, Progress, Mailbox.Pending, Later, LogOk,
      Swapping, StagedCrc, SlotCrc;
    EngineFails(m, p, 3);
    NoRequest(m);
    var s := ProcessSwap(ProcessMailbox(m));
    MixAfterThreeLegs(m, s.m, p);
    NothingToRecover(s);
    HandOverKeepsSlots(s);
    HandOverIsLater(s);
    assert Works(s.m);
    StaysWorking(s.m, HandOver(s).m);
  }
}
