/** Whole runs of the board: boots, power cuts, application runs and resets, in any order. */
module Runs {
  import opened Layout
  import opened BootRecord
  import opened FlashModel
  import opened SwapModel
  import opened DriverFacts
  import opened Exchange
  import opened EngineRuns
  import opened Refinement
  import Mailbox
  import I = Ideal

  /** What the application does while it runs: it may rewrite the secondary slot and the mailbox, and nothing else. */
  datatype App = App(secondary: Option<Slot>, mail: Option<Mailbox.Mail>)

  /**
   One power-up or reset: what the boot's driver calls meet, what the application does if it is reached, and whether
   the mailbox survives to the next reset. A mailbox that does not survive holds random bytes; the one assumption made
   of them is that they do not pass for a request.
   */
  datatype Cycle = Cycle(script: seq<Event>, app: App, cold: Option<Mailbox.Mail>)

  function BootOf(m: Machine, c: Cycle): Booted {
    Boot(PowerOn(m, c.script))
  }

  function AppRuns(m: Machine, a: App): Machine {
    var m1 := if a.secondary.Some? then m.(secondary := a.secondary.value) else m;
    if a.mail.Some? then m1.(mail := a.mail.value) else m1
  }

  function Reset(m: Machine, cold: Option<Mailbox.Mail>): Machine {
    if cold.None? then m
    else m.(mail := if Mailbox.Pending(cold.value) then Mailbox.Cleared(cold.value) else cold.value)
  }

  /** The board at the next reset. */
  function Step(m: Machine, c: Cycle): Machine {
    var b := BootOf(m, c);
    Reset(if b.m.alive && b.jumped then AppRuns(b.m, c.app) else b.m, c.cold)
  }

  function Run(m: Machine, cs: seq<Cycle>): Machine
    decreases |cs|
  {
    if cs == [] then m else Run(Step(m, cs[0]), cs[1..])
  }

  /** Driver calls work or are cut, and no cut tears a log word. `TornWords` is about runs in which cuts do. */
  ghost predicate CleanCycle(c: Cycle) {
    forall e :: e in c.script ==> (e.outcome == Good || e.outcome == Cut) && e.fate != Torn
  }

  ghost predicate CleanRun(cs: seq<Cycle>) {
    forall c :: c in cs ==> CleanCycle(c)
  }

  // ----- What holds at every reset -----

  /** The state every property starts from: `Inv`, and one image that can run. */
  ghost predicate Healthy(m: Machine) {
    Inv(m) && I.Bootable(View(m))
  }

  /** A board without a swap under way and with one image that can run is healthy: the factory state, for one. */
  lemma FreshBoardIsHealthy(m: Machine)
    requires !Swapping(m.record)
    requires ImageOk(m.primary) || ImageOk(m.secondary)
    ensures Healthy(m)
  {
    hide Swapping, RevertPending, ImageOk, Mailbox.Pending, Progress, Before, SlotCrc;
  }

  lemma PowerOnView(m: Machine, c: Cycle)
    requires CleanCycle(c)
    ensures
      var on := PowerOn(m, c.script);
      on.alive && Clean(on) && View(on) == View(m) && (Steady(on) <==> Steady(m))
  {
    hide SlotCrc, Progress, Before, RevertPending, Swapping, LogWhole, Mailbox.Pending, SwapType, StagedCrc;
  }

  lemma BootFromReset(m: Machine, c: Cycle)
    requires Inv(m) && CleanCycle(c)
    ensures
      var b := BootOf(m, c);
      && Inv(b.m)
      && (b.m.alive ==>
            && I.Turn(View(b.m), b.status, b.reqCmd) == I.IdealBoot(View(m))
            && !Swapping(b.m.record)
            && (b.jumped <==> ImageOk(b.m.primary))
            && Mailbox.AckValid(b.m.mail) && b.m.mail.status == b.status && b.m.mail.reqCmd == b.reqCmd)
      && (!b.m.alive ==> I.MayStop(View(m), View(b.m), b.m.record == None))
  {
    hide Boot, View, Steady, Clean, Swapping, ImageOk, I.IdealBoot, I.MayStop, I.Sound, Mailbox.AckCheck;
    PowerOnView(m, c);
    BootRefines(PowerOn(m, c.script));
  }

  lemma ResetView(m: Machine, cold: Option<Mailbox.Mail>)
    ensures
      var n := Reset(m, cold);
      && View(n) == View(m).(request := if cold.None? then View(m).request else None)
      && (Steady(n) <==> Steady(m)) && (Shaken(n) <==> Shaken(m))
      && n.record == m.record && n.log == m.log && Slots(n) == Slots(m)
  {
    hide SlotCrc, Progress, Before, RevertPending, Swapping, LogWhole, LogFair, Mailbox.Check, SwapType, StagedCrc;
    if cold.Some? {
      Mailbox.ClearIsImmediate(cold.value, 1);
    }
  }

  lemma AppView(m: Machine, a: App)
    requires !Swapping(m.record)
    ensures
      var n := AppRuns(m, a);
      && Steady(n) && n.record == m.record && n.primary == m.primary
      && View(n) == I.Board(View(m).plan,
                      Pair(m.primary, if a.secondary.Some? then a.secondary.value else m.secondary),
                      if a.mail.Some? then RequestOf(a.mail.value) else View(m).request)
  {
    hide RevertPending, Swapping, Mailbox.Pending, SwapType, StagedCrc;
  }

  lemma LosingARequestIsSound(b: I.Board)
    requires I.Sound(b)
    ensures I.Sound(b.(request := None)) && (I.Bootable(b) ==> I.Bootable(b.(request := None)))
  {
    hide ImageOk;
  }

  /** One cycle: cut, or run to its end with the application in between. */
  lemma StepKeepsHealth(m: Machine, c: Cycle)
    requires Inv(m) && CleanCycle(c)
    ensures Inv(Step(m, c)) && (I.Bootable(View(m)) ==> I.Bootable(View(Step(m, c))))
  {
    hide View, Steady, Swapping, ImageOk, AppRuns, Reset, BootOf, CleanCycle, I.IdealBoot, I.MayStop, I.Sound,
      Mailbox.AckCheck;
    BootFromReset(m, c);
    var b := BootOf(m, c);
    I.BootKeepsSound(View(m));
    if b.m.alive {
      NoSwapPlanned(b.m);
    } else {
      I.StopKeepsSound(View(m), View(b.m), b.m.record == None);
    }
    var atReset := if b.m.alive && b.jumped then AppRuns(b.m, c.app) else b.m;
    if b.m.alive && b.jumped {
      AppView(b.m, c.app);
      NoSwapIsSound(View(atReset));
    }
    ResetView(atReset, c.cold);
    LosingARequestIsSound(View(atReset));
  }

  lemma NoSwapIsSound(b: I.Board)
    requires !b.plan.Swap?
    ensures I.Sound(b) && (ImageOk(b.slots.primary) ==> I.Bootable(b))
  {
    hide ImageOk;
  }

  lemma {:induction false} RunKeepsHealth(m: Machine, cs: seq<Cycle>)
    requires Inv(m) && CleanRun(cs)
    ensures Inv(Run(m, cs)) && (I.Bootable(View(m)) ==> I.Bootable(View(Run(m, cs))))
    decreases |cs|
  {
    hide Step, Inv, I.Bootable;
    if cs != [] {
      assert CleanCycle(cs[0]);
      StepKeepsHealth(m, cs[0]);
      RunKeepsHealth(Step(m, cs[0]), cs[1..]);
    }
  }

  // ----- No brick -----

  /**
   No brick. From a healthy board, after any run of boots, cuts, resets, application writes to the secondary slot and
   mailbox contents, a boot that runs to its end jumps, and jumps into an image that can run. That image is whole: it
   is the old primary or the old secondary, never part of both.
   */
  lemma NoBrick(m: Machine, cs: seq<Cycle>, c: Cycle)
    requires Healthy(m) && CleanRun(cs) && CleanCycle(c)
    ensures
      var before := Run(m, cs);
      var b := BootOf(before, c);
      b.m.alive ==>
        && b.jumped && ImageOk(b.m.primary) && !Swapping(b.m.record)
        && Slots(b.m) in {PairOf(before), Mirror(PairOf(before))}
  {
    hide View, Steady, Swapping, ImageOk, BootOf, Run, CleanCycle, I.IdealBoot, I.MayStop, I.Sound, I.Bootable,
      Mailbox.AckCheck, PairOf;
    RunKeepsHealth(m, cs);
    var before := Run(m, cs);
    BootFromReset(before, c);
    var b := BootOf(before, c);
    I.BootKeepsSound(View(before));
    if b.m.alive {
      NoSwapPlanned(b.m);
      ViewSlots(before);
    }
  }

  lemma ViewSlots(m: Machine)
    ensures View(m).slots == PairOf(m) && View(m).request == RequestOf(m.mail)
    ensures !Swapping(m.record) ==> PairOf(m) == Slots(m)
  {
    hide Swapping, Before, RequestOf;
  }

  // ----- Images stay whole -----

  function Images(p: Pair): set<Slot> {
    {p.primary, p.secondary}
  }

  /** The images the application writes in the course of a run. */
  function Written(cs: seq<Cycle>): set<Slot>
    decreases |cs|
  {
    if cs == [] then {}
    else (if cs[0].app.secondary.Some? then {cs[0].app.secondary.value} else {}) + Written(cs[1..])
  }

  lemma StepKeepsImages(m: Machine, c: Cycle)
    requires Inv(m) && CleanCycle(c)
    ensures Images(PairOf(Step(m, c))) <= Images(PairOf(m)) + Written([c])
  {
    hide View, Steady, Swapping, ImageOk, AppRuns, Reset, BootOf, CleanCycle, I.IdealBoot, I.MayStop, I.Sound,
      Mailbox.AckCheck, PairOf;
    BootFromReset(m, c);
    var b := BootOf(m, c);
    I.BootKeepsSound(View(m));
    ViewSlots(m);
    ViewSlots(b.m);
    if !b.m.alive {
      I.StopKeepsSound(View(m), View(b.m), b.m.record == None);
    }
    var atReset := if b.m.alive && b.jumped then AppRuns(b.m, c.app) else b.m;
    if b.m.alive && b.jumped {
      AppView(b.m, c.app);
      ViewSlots(atReset);
    }
    ResetView(atReset, c.cold);
    ViewSlots(Step(m, c));
    assert Written([c]) == if c.app.secondary.Some? then {c.app.secondary.value} else {} by {
      assert [c][1..] == [];
    }
  }

  /**
   Whatever a run does, the two images the board holds - in the slots, or split between slots and scratch while an
   exchange is under way - are images it started with or images the application wrote, each in full.
   */
  lemma {:induction false} ImagesStayWhole(m: Machine, cs: seq<Cycle>)
    requires Inv(m) && CleanRun(cs)
    ensures Images(PairOf(Run(m, cs))) <= Images(PairOf(m)) + Written(cs)
    decreases |cs|
  {
    hide Step, Inv, PairOf, Images;
    if cs != [] {
      assert CleanCycle(cs[0]);
      StepKeepsHealth(m, cs[0]);
      StepKeepsImages(m, cs[0]);
      ImagesStayWhole(Step(m, cs[0]), cs[1..]);
      assert [cs[0]][1..] == [];
    }
  }

  // ----- The acknowledgement -----

  /**
   Truthful acknowledgement. A boot that runs to its end acknowledges SWAPPED or REVERTED exactly when the two images
   changed places in it, or in the boots before it that were cut on the way; otherwise they are where they were.
   */
  lemma AckIsTruthful(m: Machine, c: Cycle)
    requires Inv(m) && CleanCycle(c)
    ensures
      var b := BootOf(m, c);
      b.m.alive ==>
        && Mailbox.AckValid(b.m.mail)
        && Slots(b.m) == (if I.ReportsExchange(b.m.mail.status) then Mirror(PairOf(m)) else PairOf(m))
  {
    hide View, Steady, Swapping, ImageOk, BootOf, CleanCycle, I.IdealBoot, I.MayStop, I.Sound, Mailbox.AckCheck, PairOf;
    BootFromReset(m, c);
    I.BootIsTruthful(View(m));
    ViewSlots(m);
    ViewSlots(BootOf(m, c).m);
  }

  // ----- Runs of cuts -----

  const CUT: Event := Event(Cut, Untouched, [])

  /** Every boot of the run is cut. */
  ghost predicate Interrupted(m: Machine, cs: seq<Cycle>)
    decreases |cs|
  {
    cs == [] || (!BootOf(m, cs[0]).m.alive && Interrupted(Step(m, cs[0]), cs[1..]))
  }

  /** No reset finds the boot record unreadable. */
  ghost predicate RecordKept(m: Machine, cs: seq<Cycle>)
    decreases |cs|
  {
    cs == [] || (Step(m, cs[0]).record.Some? && RecordKept(Step(m, cs[0]), cs[1..]))
  }

  /** Every reset keeps the mailbox. */
  ghost predicate Warm(cs: seq<Cycle>) {
    forall c :: c in cs ==> c.cold == None
  }

  /** What a reset finds after a boot that was cut. */
  lemma CutStep(m: Machine, c: Cycle)
    requires Inv(m) && CleanCycle(c)
    ensures
      var n := Step(m, c);
      var s := View(BootOf(m, c).m);
      !BootOf(m, c).m.alive ==>
        && Inv(n)
        && I.MayStop(View(m), s, n.record == None)
        && View(n) == s.(request := if c.cold.None? then s.request else None)
  {
    hide View, Steady, Swapping, ImageOk, Reset, BootOf, CleanCycle, I.IdealBoot, I.MayStop, I.Sound, Mailbox.AckCheck;
    BootFromReset(m, c);
    ResetView(BootOf(m, c).m, c.cold);
    StepKeepsHealth(m, c);
  }

  lemma {:induction false} PermanentCourseHolds(m: Machine, p: Pair, cs: seq<Cycle>)
    requires Inv(m) && I.PermanentCourse(p, View(m))
    requires CleanRun(cs) && Warm(cs) && Interrupted(m, cs)
    ensures Inv(Run(m, cs)) && I.PermanentCourse(p, View(Run(m, cs)))
    decreases |cs|
  {
    hide View, Inv, Step, BootOf, CleanCycle, I.MayStop, I.PermanentCourse, I.Sound;
    if cs != [] {
      var c := cs[0];
      assert CleanCycle(c) && c.cold == None;
      CutStep(m, c);
      InvIsSound(m);
      I.PermanentCourseStops(p, View(m), View(BootOf(m, c).m), Step(m, c).record == None);
      PermanentCourseHolds(Step(m, c), p, cs[1..]);
    }
  }

  lemma InvIsSound(m: Machine)
    requires Inv(m)
    ensures I.Sound(View(m))
  {
    hide View, I.Sound, Steady;
  }

  /**
   A request is carried out exactly once. However many boots are cut - before the request is taken, between arming and
   clearing the mailbox, during the legs, during the completion - the boot that finally runs to its end leaves the two
   images exchanged once, nothing planned, and reports it unless an earlier boot was cut after completing.
   */
  lemma RequestRunsOnce(m: Machine, cs: seq<Cycle>, c: Cycle)
    requires Inv(m) && I.AsksForSwap(View(m)) && m.mail.arg != TEST && ImageOk(PairOf(m).secondary)
    requires CleanRun(cs) && Warm(cs) && Interrupted(m, cs) && CleanCycle(c)
    ensures
      var b := BootOf(Run(m, cs), c);
      b.m.alive ==>
        && Slots(b.m) == Mirror(PairOf(m))
        && !Swapping(b.m.record) && !RevertPending(b.m.record)
        && b.status in {Mailbox.STATUS_SWAPPED, Mailbox.STATUS_OK}
  {
    hide Steady, Swapping, RevertPending, ImageOk, BootOf, CleanCycle, I.IdealBoot, I.MayStop, I.Sound, Run, PairOf,
      Mailbox.AckCheck, Mailbox.Pending;
    var p := PairOf(m);
    PermanentCourseHolds(m, p, cs);
    var before := Run(m, cs);
    BootFromReset(before, c);
    I.PermanentCourseEnds(p, View(before));
    ViewSlots(BootOf(before, c).m);
  }
}
