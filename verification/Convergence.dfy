/** Every run comes to rest, and stays there until it is asked for a swap. */
module Convergence {
  import opened Layout
  import opened BootRecord
  import opened FlashModel
  import opened Exchange
  import opened Refinement
  import opened Runs
  import Mailbox
  import I = Ideal

  /** The application does not ask for a swap; it may confirm, send nonsense, or rewrite the secondary slot. */
  ghost predicate NoSwapAsked(c: Cycle) {
    c.app.mail.Some? && Mailbox.Pending(c.app.mail.value) ==> c.app.mail.value.command != Mailbox.CMD_SWAP
  }

  ghost predicate QuietRun(cs: seq<Cycle>) {
    forall c :: c in cs ==> CleanCycle(c) && NoSwapAsked(c)
  }

  lemma LosingARequestDescends(b: I.Board)
    ensures I.NoFurther(b, b.(request := None))
  {
    hide ImageOk;
  }

  /** A cut never leaves the board further from rest than it was, whether or not the mailbox survives. */
  lemma CutDescends(m: Machine, c: Cycle)
    requires Inv(m) && CleanCycle(c)
    ensures !BootOf(m, c).m.alive ==> I.NoFurther(View(m), View(Step(m, c)))
  {
    hide View, Inv, Step, BootOf, CleanCycle, I.MayStop, I.Sound, ImageOk, I.Phase, I.LegsLeft;
    if !BootOf(m, c).m.alive {
      CutStep(m, c);
      InvIsSound(m);
      var s := View(BootOf(m, c).m);
      I.StopDescends(View(m), s, Step(m, c).record == None);
      LosingARequestDescends(s);
    }
  }

  /** What the application may do to a board that has just booted, short of asking for a swap. */
  lemma RunningChangesNoPlan(b: I.Board, secondary: Slot, request: Option<I.Request>)
    requires !b.plan.Swap? && ImageOk(b.slots.primary) && !I.AsksForSwap(b)
    requires request.Some? ==> request.value.command != Mailbox.CMD_SWAP
    ensures I.Phase(I.Board(b.plan, Pair(b.slots.primary, secondary), request)) == I.Phase(b)
  {
    hide ImageOk;
  }

  /**
   A boot that runs to its end leaves the board strictly closer to rest, and within two such boots at rest; the
   application cannot undo that without asking for a swap. At rest the primary slot stays what it is.
   */
  lemma FinishedBootDescends(m: Machine, c: Cycle)
    requires Inv(m) && CleanCycle(c) && NoSwapAsked(c)
    ensures
      var n := Step(m, c);
      BootOf(m, c).m.alive ==>
        && (I.Phase(View(m)) > 0 ==> I.Phase(View(n)) < I.Phase(View(m)))
        && I.Phase(View(n)) <= 2
        && (I.Phase(View(m)) <= 2 ==> I.Phase(View(n)) == 0)
        && (I.Phase(View(m)) == 0 ==>
              && n.primary == m.primary && PlanOf(n) == PlanOf(m) == I.Idle
              && !I.ReportsExchange(BootOf(m, c).status))
  {
    hide Steady, Swapping, RevertPending, ImageOk, AppRuns, Reset, BootOf, CleanCycle, I.IdealBoot, I.MayStop, I.Sound,
      Mailbox.AckCheck, Mailbox.Pending, I.Phase, PairOf, Progress;
    var b := BootOf(m, c);
    if !b.m.alive {
      return;
    }
    BootFromReset(m, c);
    InvIsSound(m);
    I.BootKeepsSound(View(m));
    I.BootDescends(View(m));
    ViewSlots(m);
    ViewSlots(b.m);
    NoSwapPlanned(m);
    var atReset := if b.jumped then AppRuns(b.m, c.app) else b.m;
    if b.jumped {
      AppView(b.m, c.app);
      RunningChangesNoPlan(View(b.m), View(atReset).slots.secondary, View(atReset).request);
    }
    ResetView(atReset, c.cold);
    PhaseWithoutRequest(View(atReset));
  }

  lemma PhaseWithoutRequest(b: I.Board)
    requires !I.AsksForSwap(b)
    ensures I.Phase(b.(request := None)) == I.Phase(b)
  {
    hide ImageOk;
  }

  /** Number of boots of a run that run to their end. */
  ghost function FinishedBoots(m: Machine, cs: seq<Cycle>): nat
    decreases |cs|
  {
    if cs == [] then 0
    else (if BootOf(m, cs[0]).m.alive then 1 else 0) + FinishedBoots(Step(m, cs[0]), cs[1..])
  }

  /**
   Convergence. In a run without new swap requests - whatever was pending or under way at its start, with cuts anywhere
   in between - the board is at rest once two boots have run to their end.
   */
  lemma {:induction false} ComesToRest(m: Machine, cs: seq<Cycle>)
    requires Inv(m) && QuietRun(cs)
    ensures I.Phase(View(Run(m, cs))) <= I.Phase(View(m))
    ensures FinishedBoots(m, cs) >= 1 ==> I.Phase(View(Run(m, cs))) <= 2
    ensures FinishedBoots(m, cs) >= 2 ==> I.Phase(View(Run(m, cs))) == 0
    ensures FinishedBoots(m, cs) >= 1 && I.Phase(View(m)) <= 2 ==> I.Phase(View(Run(m, cs))) == 0
    decreases |cs|
  {
    hide View, Inv, Step, BootOf, CleanCycle, NoSwapAsked, I.Phase, I.LegsLeft;
    if cs != [] {
      var c := cs[0];
      assert CleanCycle(c) && NoSwapAsked(c);
      StepKeepsHealth(m, c);
      if BootOf(m, c).m.alive {
        FinishedBootDescends(m, c);
      } else {
        CutDescends(m, c);
      }
      ComesToRest(Step(m, c), cs[1..]);
    }
  }

  lemma RestStep(m: Machine, c: Cycle)
    requires Inv(m) && I.Phase(View(m)) == 0 && CleanCycle(c) && NoSwapAsked(c)
    ensures
      var n := Step(m, c);
      Inv(n) && I.Phase(View(n)) == 0 && n.primary == m.primary && PlanOf(n) == I.Idle
      && (BootOf(m, c).m.alive ==> !I.ReportsExchange(BootOf(m, c).status))
  {
    hide Steady, Swapping, RevertPending, ImageOk, AppRuns, BootOf, CleanCycle, I.MayStop, I.Sound, Inv, Step,
      NoSwapAsked, Mailbox.Pending, I.Phase, PairOf, Progress;
    StepKeepsHealth(m, c);
    if BootOf(m, c).m.alive {
      FinishedBootDescends(m, c);
    } else {
      CutDescends(m, c);
      CutStep(m, c);
      I.RestStops(View(m), View(BootOf(m, c).m), Step(m, c).record == None);
      ViewSlots(m);
      ViewSlots(Step(m, c));
      NoSwapPlanned(m);
      NoSwapPlanned(Step(m, c));
    }
  }

  /**
   No oscillation. At rest, a run of any length without a new swap request never exchanges anything again: the primary
   slot stays the very same image, nothing is planned, and no boot reports a swap or a rollback.
   */
  lemma {:induction false} RestIsFinal(m: Machine, cs: seq<Cycle>, c: Cycle)
    requires Inv(m) && I.Phase(View(m)) == 0 && QuietRun(cs) && CleanCycle(c) && NoSwapAsked(c)
    ensures Inv(Run(m, cs)) && PlanOf(Run(m, cs)) == I.Idle && Run(m, cs).primary == m.primary
    ensures BootOf(Run(m, cs), c).m.alive ==> !I.ReportsExchange(BootOf(Run(m, cs), c).status)
    decreases |cs|
  {
    hide View, Inv, Step, BootOf, CleanCycle, NoSwapAsked, I.Phase, I.ReportsExchange, PlanOf;
    if cs == [] {
      RestStep(m, c);
      RestPlan(m);
    } else {
      assert CleanCycle(cs[0]) && NoSwapAsked(cs[0]);
      RestStep(m, cs[0]);
      RestIsFinal(Step(m, cs[0]), cs[1..], c);
    }
  }

  lemma RestPlan(m: Machine)
    requires I.Phase(View(m)) == 0
    ensures PlanOf(m) == I.Idle
  {
    hide ImageOk, Progress, Before, Mailbox.Pending, Swapping, RevertPending;
  }

  /**
   Confirmation is final. Once a boot has acknowledged CONFIRMED, no sequence of resets and cuts brings the previous
   image back: the confirmed image stays in the primary slot until a new swap request.
   */
  lemma ConfirmIsFinal(m: Machine, c: Cycle, cs: seq<Cycle>)
    requires Inv(m) && CleanCycle(c) && NoSwapAsked(c) && QuietRun(cs)
    ensures
      var b := BootOf(m, c);
      var n := Run(Step(m, c), cs);
      b.m.alive && b.status == Mailbox.STATUS_CONFIRMED ==>
        n.primary == b.m.primary && PlanOf(n) == I.Idle && !RevertPending(n.record)
  {
    hide Steady, Swapping, RevertPending, ImageOk, AppRuns, Reset, BootOf, CleanCycle, I.IdealBoot, I.MayStop, I.Sound,
      Mailbox.AckCheck, Mailbox.Pending, I.Phase, PairOf, Progress, Run, NoSwapAsked;
    if !BootOf(m, c).m.alive || BootOf(m, c).status != Mailbox.STATUS_CONFIRMED {
      return;
    }
    BootFromReset(m, c);
    InvIsSound(m);
    I.ConfirmedIsAtRest(View(m));
    I.BootKeepsSound(View(m));
    AppAfterRest(m, c);
    StepKeepsHealth(m, c);
    RestIsFinal(Step(m, c), cs, c);
  }

  lemma AppAfterRest(m: Machine, c: Cycle)
    requires Inv(m) && CleanCycle(c) && NoSwapAsked(c)
    ensures
      BootOf(m, c).m.alive && I.Phase(View(BootOf(m, c).m)) == 0 ==>
        I.Phase(View(Step(m, c))) == 0 && Step(m, c).primary == BootOf(m, c).m.primary
  {
    hide Steady, Swapping, RevertPending, ImageOk, AppRuns, Reset, BootOf, CleanCycle, I.IdealBoot, I.MayStop, I.Sound,
      Mailbox.AckCheck, Mailbox.Pending, I.Phase, PairOf, Progress;
    if !BootOf(m, c).m.alive {
      return;
    }
    BootFromReset(m, c);
    InvIsSound(m);
    I.BootKeepsSound(View(m));
    var b := BootOf(m, c);
    ViewSlots(b.m);
    var atReset := if b.jumped then AppRuns(b.m, c.app) else b.m;
    if b.jumped {
      AppView(b.m, c.app);
      RunningChangesNoPlan(View(b.m), View(atReset).slots.secondary, View(atReset).request);
    }
    ResetView(atReset, c.cold);
    PhaseWithoutRequest(View(atReset));
  }

  // ----- How often the images change places -----

  /** Number of boots of a run, cut or not, that leave the two images in other places than they found them. */
  ghost function Exchanges(m: Machine, cs: seq<Cycle>): nat
    decreases |cs|
  {
    if cs == [] then 0
    else I.Spent(PairOf(m), PairOf(BootOf(m, cs[0]).m)) + Exchanges(Step(m, cs[0]), cs[1..])
  }

  lemma LosingARequestSpends(b: I.Board)
    requires I.Sound(b)
    ensures I.ExchangesLeft(b.(request := None)) <= I.ExchangesLeft(b)
  {
    hide ImageOk;
  }

  lemma RunningSpends(b: I.Board, secondary: Slot, request: Option<I.Request>)
    requires !b.plan.Swap? && ImageOk(b.slots.primary) && b.request == None
    requires request.Some? ==> request.value.command != Mailbox.CMD_SWAP
    ensures
      var n := I.Board(b.plan, Pair(b.slots.primary, secondary), request);
      I.ExchangesLeft(n) <= I.ExchangesLeft(b) && I.Sound(n)
  {
    hide ImageOk;
  }

  lemma StepSpends(m: Machine, c: Cycle)
    requires Inv(m) && CleanCycle(c) && NoSwapAsked(c)
    ensures
      I.ExchangesLeft(View(Step(m, c))) + I.Spent(PairOf(m), PairOf(BootOf(m, c).m)) <= I.ExchangesLeft(View(m))
  {
    hide Steady, Swapping, RevertPending, ImageOk, AppRuns, Reset, BootOf, CleanCycle, I.IdealBoot, I.MayStop, I.Sound,
      Mailbox.AckCheck, Mailbox.Pending, I.ExchangesLeft, PairOf, Progress;
    InvIsSound(m);
    BootFromReset(m, c);
    var b := BootOf(m, c);
    InvIsSound(b.m);
    ViewSlots(m);
    ViewSlots(b.m);
    var atReset := if b.m.alive && b.jumped then AppRuns(b.m, c.app) else b.m;
    if b.m.alive {
      I.BootSpends(View(m));
      I.BootKeepsSound(View(m));
      if b.jumped {
        AppView(b.m, c.app);
        RunningSpends(View(b.m), View(atReset).slots.secondary, View(atReset).request);
      }
    } else {
      I.StopSpends(View(m), View(b.m), b.m.record == None);
    }
    ResetView(atReset, c.cold);
    LosingARequestSpends(View(atReset));
  }

  /**
   In a run of any length without new swap requests - cut or finished boots, warm or cold resets, images staged by the
   application - the two images change places no more often than the board has exchanges left at its start.
   */
  lemma {:induction false} ExchangesAreBounded(m: Machine, cs: seq<Cycle>)
    requires Inv(m) && QuietRun(cs)
    ensures Exchanges(m, cs) + I.ExchangesLeft(View(Run(m, cs))) <= I.ExchangesLeft(View(m))
    decreases |cs|
  {
    hide View, Inv, Step, BootOf, CleanCycle, NoSwapAsked, I.ExchangesLeft, PairOf, I.Spent;
    if cs != [] {
      assert CleanCycle(cs[0]) && NoSwapAsked(cs[0]);
      StepKeepsHealth(m, cs[0]);
      StepSpends(m, cs[0]);
      ExchangesAreBounded(Step(m, cs[0]), cs[1..]);
    }
  }

  /**
   A pending request, whether or not the mailbox survives: over any such run the images change places at most once for a
   permanent request, and at most twice, there and back, for a trial.
   */
  lemma RequestRunsAtMostOnce(m: Machine, cs: seq<Cycle>)
    requires Inv(m) && I.AsksForSwap(View(m)) && QuietRun(cs)
    ensures Exchanges(m, cs) <= if m.mail.arg == TEST then 2 else 1
  {
    hide Inv, PairOf, PlanOf, Run, Exchanges, Mailbox.Pending, QuietRun;
    ExchangesAreBounded(m, cs);
  }

  /** A request that is still pending while its swap is armed is that very request, and no leg has run. */
  lemma PendingRequestIsUntouched(m: Machine, cs: seq<Cycle>)
    requires Inv(m) && CleanRun(cs)
    ensures
      var n := Run(m, cs);
      Mailbox.Pending(n.mail) && Swapping(n.record) ==>
        && Progress(n.log, 0) == 0
        && n.mail.command == Mailbox.CMD_SWAP
        && KindOf(SwapType(n.record)) == I.KindAsked(n.mail.arg)
        && PairOf(n) == Slots(n)
  {
    hide Steady, Swapping, ImageOk, Run, Before, SwapType, Mailbox.Pending, RevertPending;
    RunKeepsHealth(m, cs);
    var n := Run(m, cs);
    BeforeAtStart(n.scratch, Slots(n));
  }
}
