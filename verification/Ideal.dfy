/**
 What a boot is meant to do, without flash, logs or records: exchanges are single steps, and the intent is a plan.

 `IdealBoot` is one boot that runs to its end; `MayStop` says where one that is cut may leave the board.
 */
module Ideal {
  import opened Layout
  import opened Mailbox
  import opened Exchange
  import BootRecord

  datatype Kind = Permanent | Trial | Rollback

  datatype Plan = Idle | OnTrial | Swap(kind: Kind, legs: nat)

  datatype Request = Request(command: byte, arg: byte)

  /** While a swap is planned or under way, `slots` is the pair it started from. */
  datatype Board = Board(plan: Plan, slots: Pair, request: Option<Request>)

  /** The board, and the two values the acknowledgement is made from. */
  datatype Turn = Turn(board: Board, status: byte, reqCmd: byte)

  function KindAsked(arg: byte): Kind {
    if arg == BootRecord.TEST then Trial else Permanent
  }

  /** The slots trade places; a trial stays on trial. */
  function Exchanged(b: Board, kind: Kind): Board {
    b.(plan := if kind == Trial then OnTrial else Idle, slots := Mirror(b.slots))
  }

  /** A pending request is consumed. */
  function AfterRequest(b: Board): Turn {
    match b.request
    case None => Turn(b, STATUS_OK, CMD_NOT_REQUESTED)
    case Some(r) =>
      var taken := b.(request := None);
      if r.command == CMD_SWAP then
        if ImageOk(b.slots.secondary)
        then Turn(taken.(plan := Swap(KindAsked(r.arg), 0)), STATUS_OK, r.command)
        else Turn(taken, STATUS_ERR_IMAGE, r.command)
      else if r.command == CMD_CONFIRM then
        Turn(if b.plan == OnTrial then taken.(plan := Idle) else taken, STATUS_CONFIRMED, r.command)
      else Turn(taken, STATUS_ERR_REQUEST, CMD_NOT_REQUESTED)
  }

  /** A planned swap is carried out; an unconfirmed trial is rolled back if there is something to roll back to. */
  function AfterSwap(t: Turn): Turn {
    match t.board.plan
    case Idle => t
    case Swap(kind, _) =>
      var status :=
        if kind == Rollback then STATUS_REVERTED
        else if t.status == STATUS_OK || t.status == STATUS_CONFIRMED then STATUS_SWAPPED
        else t.status;
      Turn(Exchanged(t.board, kind), status, t.reqCmd)
    case OnTrial =>
      if ImageOk(t.board.slots.secondary)
      then Turn(Exchanged(t.board, Rollback), STATUS_REVERTED, t.reqCmd)
      else t.(board := t.board.(plan := Idle))
  }

  /** The primary slot cannot run but the secondary could. */
  predicate NeedsRecovery(p: Pair) {
    !ImageOk(p.primary) && ImageOk(p.secondary)
  }

  function AfterRecovery(t: Turn): Turn {
    if NeedsRecovery(t.board.slots) then Turn(Exchanged(t.board, Permanent), STATUS_SWAPPED, t.reqCmd) else t
  }

  /** A boot that is not cut. It jumps if the primary slot can run, and reports ERR_IMAGE otherwise. */
  function IdealBoot(b: Board): Turn {
    var t := AfterRecovery(AfterSwap(AfterRequest(b)));
    if ImageOk(t.board.slots.primary) then t else t.(status := STATUS_ERR_IMAGE)
  }

  // ----- Where a boot may be cut -----
  //
  // `lost` tells whether the cut left a boot record that no longer reads as one; the plan is gone with it.

  ghost predicate StopsInRequest(b: Board, n: Board, lost: bool) {
    || n == b
    || (b.request.Some? && b.request.value.command == CMD_SWAP && ImageOk(b.slots.secondary)
        && ((lost && n == b.(plan := Idle)) || n == b.(plan := Swap(KindAsked(b.request.value.arg), 0))))
    || (b.request.Some? && b.request.value.command == CMD_CONFIRM && b.plan == OnTrial && n == b.(plan := Idle))
  }

  /** Cut during an exchange: some more legs are done, or the exchange is complete and perhaps its record lost. */
  ghost predicate StopsInExchange(b: Board, n: Board, lost: bool)
    requires b.plan.Swap?
  {
    || (n.plan.Swap? && b.plan.legs <= n.plan.legs && n == b.(plan := Swap(b.plan.kind, n.plan.legs)))
    || n == Exchanged(b, b.plan.kind)
    || (lost && n == Exchanged(b, b.plan.kind).(plan := Idle))
  }

  /** Cut while a swap is armed and then carried out. */
  ghost predicate StopsInArming(b: Board, kind: Kind, n: Board, lost: bool) {
    n == b || (lost && n == b.(plan := Idle)) || StopsInExchange(b.(plan := Swap(kind, 0)), n, lost)
  }

  ghost predicate StopsInSwap(b: Board, n: Board, lost: bool) {
    match b.plan
    case Idle => n == b
    case Swap(_, _) => StopsInExchange(b, n, lost)
    case OnTrial =>
      if ImageOk(b.slots.secondary) then StopsInArming(b, Rollback, n, lost) else n in {b, b.(plan := Idle)}
  }

  ghost predicate StopsInRecovery(b: Board, n: Board, lost: bool) {
    n == b || (NeedsRecovery(b.slots) && StopsInArming(b, Permanent, n, lost))
  }

  /** `n` is what a boot that is cut somewhere may leave of `b`. */
  ghost predicate MayStop(b: Board, n: Board, lost: bool) {
    || StopsInRequest(b, n, lost)
    || StopsInSwap(AfterRequest(b).board, n, lost)
    || StopsInRecovery(AfterSwap(AfterRequest(b)).board, n, lost)
  }

  lemma StopsKeepRequest(b: Board, n: Board, lost: bool)
    ensures StopsInSwap(b, n, lost) || StopsInRecovery(b, n, lost) ==> n.request == b.request
  {
    hide ImageOk;
  }

  // ----- What every boot keeps -----

  /**
   A swap is only ever planned for an image that can run, and a request still pending while a swap is planned is the
   request for that very swap, before any leg of it.
   */
  ghost predicate Sound(b: Board) {
    && (b.plan.Swap? ==> ImageOk(b.slots.secondary))
    && (b.plan.Swap? && b.request.Some? ==>
          && b.plan.legs == 0
          && b.request.value.command == CMD_SWAP
          && b.plan.kind == KindAsked(b.request.value.arg))
  }

  /** One of the two images can run. */
  ghost predicate Bootable(b: Board) {
    ImageOk(b.slots.primary) || ImageOk(b.slots.secondary)
  }

  /** The same two images, in the same places or exchanged as a whole. */
  ghost predicate SamePair(b: Board, n: Board) {
    n.slots == b.slots || n.slots == Mirror(b.slots)
  }

  lemma RequestKeepsSound(b: Board)
    requires Sound(b)
    ensures
      var t := AfterRequest(b);
      Sound(t.board) && t.board.request == None && t.board.slots == b.slots
  {
    hide ImageOk;
  }

  lemma ExchangedFacts(b: Board, kind: Kind)
    ensures
      var n := Exchanged(b, kind);
      n.request == b.request && SamePair(b, n) && !n.plan.Swap?
  {
  }

  lemma SwapKeepsSound(t: Turn)
    requires Sound(t.board) && t.board.request == None
    ensures
      var u := AfterSwap(t);
      Sound(u.board) && u.board.request == None && SamePair(t.board, u.board) && !u.board.plan.Swap?
  {
    hide ImageOk, Exchanged;
    if !t.board.plan.Idle? {
      ExchangedFacts(t.board, if t.board.plan.Swap? then t.board.plan.kind else Rollback);
    }
  }

  /** Only an image that can run is ever moved into the primary slot. */
  lemma SwapInstallsBootable(t: Turn)
    requires Sound(t.board)
    ensures
      var u := AfterSwap(t);
      u.board.slots != t.board.slots ==> ImageOk(u.board.slots.primary)
  {
    hide ImageOk;
  }

  /**
   A boot that runs to its end leaves no swap under way and no request behind, and one of the two images whole in the
   primary slot - one that can run, if there is one.
   */
  lemma BootKeepsSound(b: Board)
    requires Sound(b)
    ensures
      var t := IdealBoot(b);
      && Sound(t.board) && !t.board.plan.Swap? && t.board.request == None
      && SamePair(b, t.board)
      && (Bootable(b) ==> ImageOk(t.board.slots.primary))
  {
    hide ImageOk, AfterRequest, AfterSwap;
    RequestKeepsSound(b);
    SwapKeepsSound(AfterRequest(b));
    SwapInstallsBootable(AfterRequest(b));
  }

  lemma StopKeepsSound(b: Board, n: Board, lost: bool)
    requires Sound(b) && MayStop(b, n, lost)
    ensures Sound(n) && SamePair(b, n) && (Bootable(b) ==> Bootable(n))
    ensures n.request in {b.request, None}
  {
    hide ImageOk, AfterRequest, AfterSwap;
    RequestKeepsSound(b);
    SwapKeepsSound(AfterRequest(b));
    SwapInstallsBootable(AfterRequest(b));
  }

  lemma ArmingStopIsSound(b: Board, kind: Kind, n: Board, lost: bool)
    requires Sound(b) && b.request == None && ImageOk(b.slots.secondary) && StopsInArming(b, kind, n, lost)
    ensures Sound(n) && n.request == None && Bootable(n)
  {
    hide ImageOk;
  }

  lemma RecoveryIsSound(t: Turn)
    requires t.board.request == None && NeedsRecovery(t.board.slots)
    ensures
      var n := AfterRecovery(t).board;
      Sound(n) && n.request == None && !n.plan.Swap? && Bootable(n)
  {
    hide ImageOk;
  }

  // ----- The report is truthful -----

  predicate ReportsExchange(status: byte) {
    status == STATUS_SWAPPED || status == STATUS_REVERTED
  }

  /** The images moved exactly when the report says so; nothing is exchanged twice. */
  ghost predicate Truthful(from: Pair, t: Turn) {
    t.board.slots == if ReportsExchange(t.status) then Mirror(from) else from
  }

  lemma SwapIsTruthful(b: Board)
    requires Sound(b)
    ensures
      var t := AfterSwap(AfterRequest(b));
      && Truthful(b.slots, t)
      && (ReportsExchange(t.status) ==> ImageOk(t.board.slots.primary))
  {
    hide ImageOk;
  }

  lemma BootIsTruthful(b: Board)
    requires Sound(b)
    ensures Truthful(b.slots, IdealBoot(b))
  {
    hide ImageOk, AfterRequest, AfterSwap;
    SwapIsTruthful(b);
  }

  // ----- Convergence -----

  predicate AsksForSwap(b: Board) {
    b.request.Some? && b.request.value.command == CMD_SWAP
  }

  /** How far the board is from rest. */
  function Phase(b: Board): nat {
    if AsksForSwap(b) then 5
    else match b.plan
      case Swap(kind, _) => if kind == Trial then 3 else 1
      case OnTrial => if NeedsRecovery(b.slots) then 4 else 2
      case Idle => if NeedsRecovery(b.slots) then 4 else 0
  }

  /** Legs still to go, once the request that asked for them is consumed. */
  function LegsLeft(b: Board): int {
    if b.plan.Swap? && !AsksForSwap(b) then STEP_COUNT - b.plan.legs else 0
  }

  ghost predicate NoFurther(b: Board, n: Board) {
    Phase(n) < Phase(b) || (Phase(n) == Phase(b) && LegsLeft(n) <= LegsLeft(b))
  }

  lemma SwapStopDescends(b: Board, n: Board, lost: bool)
    requires Sound(b) && b.request == None && StopsInSwap(b, n, lost)
    ensures NoFurther(b, n)
  {
    hide ImageOk;
  }

  lemma RecoveryStopDescends(b: Board, n: Board, lost: bool)
    requires b.request == None && !b.plan.Swap? && StopsInRecovery(b, n, lost)
    ensures NoFurther(b, n)
  {
    hide ImageOk;
  }

  /** A consumed request leaves less to do, and a swap carried out less again. */
  lemma StagesDescend(b: Board)
    requires Sound(b)
    ensures
      var t := AfterRequest(b);
      && (AsksForSwap(b) ==> Phase(t.board) < Phase(b))
      && (!AsksForSwap(b) ==> NoFurther(b, t.board))
      && NoFurther(t.board, AfterSwap(t).board)
  {
    hide ImageOk;
  }

  /** A cut never leaves the board further from rest. */
  lemma StopDescends(b: Board, n: Board, lost: bool)
    requires Sound(b) && MayStop(b, n, lost)
    ensures NoFurther(b, n)
  {
    hide ImageOk, AfterRequest, AfterSwap, StopsInSwap, StopsInRecovery;
    var r := AfterRequest(b);
    RequestKeepsSound(b);
    SwapKeepsSound(r);
    StagesDescend(b);
    if StopsInRequest(b, n, lost) {
      RequestStopDescends(b, n, lost);
    } else if StopsInSwap(r.board, n, lost) {
      SwapStopDescends(r.board, n, lost);
    } else {
      RecoveryStopDescends(AfterSwap(r).board, n, lost);
    }
  }

  lemma RequestStopDescends(b: Board, n: Board, lost: bool)
    requires Sound(b) && StopsInRequest(b, n, lost)
    ensures NoFurther(b, n)
  {
    hide ImageOk;
  }

  /** Every boot that runs to its end brings the board strictly closer to rest, until it is there. */
  lemma BootDescends(b: Board)
    requires Sound(b)
    ensures
      var t := IdealBoot(b);
      && (Phase(b) > 0 ==> Phase(t.board) < Phase(b))
      && Phase(t.board) in {0, 2}
      && (Phase(b) <= 2 ==> Phase(t.board) == 0)
      && (Phase(b) == 0 ==> t.board.slots == b.slots && t.board.plan == b.plan == Idle && !ReportsExchange(t.status))
  {
    hide ImageOk;
  }

  /** A boot that reports a confirmation leaves the board at rest. */
  lemma ConfirmedIsAtRest(b: Board)
    requires Sound(b) && IdealBoot(b).status == STATUS_CONFIRMED
    ensures Phase(IdealBoot(b).board) == 0
  {
    hide ImageOk;
  }

  // ----- How many exchanges are still to come -----

  /** At most so many exchanges follow, until another swap is asked for: a trial is two, there and back. */
  function ExchangesLeft(b: Board): nat {
    if AsksForSwap(b) then (if KindAsked(b.request.value.arg) == Trial then 2 else 1)
    else match b.plan
      case Swap(kind, _) => if kind == Trial then 2 else 1
      case OnTrial => 1
      case Idle => if NeedsRecovery(b.slots) then 1 else 0
  }

  /** What a change from one pair to the other counts for. */
  function Spent(p: Pair, q: Pair): nat {
    if p == q then 0 else 1
  }

  ghost predicate Spends(b: Board, n: Board) {
    ExchangesLeft(n) + Spent(b.slots, n.slots) <= ExchangesLeft(b)
  }

  lemma RequestStopSpends(b: Board, n: Board, lost: bool)
    requires Sound(b) && StopsInRequest(b, n, lost)
    ensures Spends(b, n)
  {
    hide ImageOk;
  }

  lemma SwapStopSpends(b: Board, n: Board, lost: bool)
    requires Sound(b) && b.request == None && StopsInSwap(b, n, lost)
    ensures Spends(b, n)
  {
    hide ImageOk;
  }

  lemma RecoveryStopSpends(b: Board, n: Board, lost: bool)
    requires b.request == None && !b.plan.Swap? && StopsInRecovery(b, n, lost)
    ensures Spends(b, n)
  {
    hide ImageOk;
  }

  /** A stage that moves the images leaves a primary slot that can run, so that none after it does. */
  lemma StagesSpend(b: Board)
    requires Sound(b)
    ensures
      var t := AfterRequest(b);
      var u := AfterSwap(t);
      && t.board.slots == b.slots && ExchangesLeft(t.board) <= ExchangesLeft(b)
      && Spends(t.board, u.board)
      && (u.board.slots != b.slots ==> !NeedsRecovery(u.board.slots))
      && Spends(u.board, AfterRecovery(u).board)
  {
    hide ImageOk;
  }

  /** A cut boot, and one that runs to its end, exchange the slots at most once and leave that much less to do. */
  lemma StopSpends(b: Board, n: Board, lost: bool)
    requires Sound(b) && MayStop(b, n, lost)
    ensures Spends(b, n)
  {
    hide ImageOk, AfterRequest, AfterSwap, AfterRecovery, StopsInRequest, StopsInSwap, StopsInRecovery, ExchangesLeft,
      NeedsRecovery;
    var r := AfterRequest(b);
    var u := AfterSwap(r);
    RequestKeepsSound(b);
    SwapKeepsSound(r);
    StagesSpend(b);
    if StopsInRequest(b, n, lost) {
      RequestStopSpends(b, n, lost);
    } else if StopsInSwap(r.board, n, lost) {
      SwapStopSpends(r.board, n, lost);
    } else {
      RecoveryStopSpends(u.board, n, lost);
      StopWithoutRecovery(u.board, n, lost);
    }
  }

  lemma StopWithoutRecovery(b: Board, n: Board, lost: bool)
    requires StopsInRecovery(b, n, lost)
    ensures !NeedsRecovery(b.slots) ==> n == b
  {
    hide ImageOk;
  }

  lemma BootSpends(b: Board)
    requires Sound(b)
    ensures Spends(b, IdealBoot(b).board)
  {
    hide ImageOk, AfterRequest, AfterSwap, ExchangesLeft;
    StagesSpend(b);
  }

  // ----- A permanent request is carried out once -----

  /** On the way from a pending permanent request for `p` to its completion. */
  ghost predicate PermanentCourse(p: Pair, b: Board) {
    && ImageOk(p.secondary)
    && (|| (AsksForSwap(b) && KindAsked(b.request.value.arg) == Permanent && b.slots == p)
        || (b.request == None && b.plan.Swap? && b.plan.kind == Permanent && b.slots == p)
        || (b.request == None && b.plan == Idle && b.slots == Mirror(p)))
  }

  lemma PermanentCourseStops(p: Pair, b: Board, n: Board, lost: bool)
    requires Sound(b) && PermanentCourse(p, b) && MayStop(b, n, lost)
    ensures PermanentCourse(p, n)
  {
    hide ImageOk;
  }

  lemma PermanentCourseEnds(p: Pair, b: Board)
    requires Sound(b) && PermanentCourse(p, b)
    ensures
      var t := IdealBoot(b);
      t.board.slots == Mirror(p) && t.board.plan == Idle && t.status in {STATUS_SWAPPED, STATUS_OK}
  {
    hide ImageOk;
  }

  // ----- A trial that is not confirmed is rolled back -----

  /** On the way from an unconfirmed trial with the slots at `q` back to the image before it. */
  ghost predicate RollbackCourse(q: Pair, b: Board) {
    && ImageOk(q.secondary) && b.request == None
    && (|| (b.plan == OnTrial && b.slots == q)
        || (b.plan.Swap? && b.plan.kind == Rollback && b.slots == q)
        || (b.plan == Idle && b.slots == Mirror(q)))
  }

  lemma RollbackCourseStops(q: Pair, b: Board, n: Board)
    requires Sound(b) && RollbackCourse(q, b) && MayStop(b, n, false)
    ensures RollbackCourse(q, n)
  {
    hide ImageOk;
  }

  lemma RollbackCourseEnds(q: Pair, b: Board)
    requires Sound(b) && RollbackCourse(q, b)
    ensures
      var t := IdealBoot(b);
      t.board.slots == Mirror(q) && t.board.plan == Idle && t.status in {STATUS_REVERTED, STATUS_OK}
  {
    hide ImageOk;
  }

  /**
   On the way from an unconfirmed trial at `q` when only one of the images can run, or none: back to the image before it
   if that is the one, and otherwise nowhere.
   */
  ghost predicate OneSidedCourse(q: Pair, b: Board) {
    && b.request == None
    && if !ImageOk(q.secondary) then b.slots == q && !b.plan.Swap?
       else
         && !ImageOk(q.primary)
         && (|| (b.slots == q && (b.plan.Swap? ==> b.plan.kind != Trial))
             || (b.slots == Mirror(q) && b.plan == Idle))
  }

  lemma OneSidedCourseStops(q: Pair, b: Board, n: Board, lost: bool)
    requires Sound(b) && OneSidedCourse(q, b) && MayStop(b, n, lost)
    ensures OneSidedCourse(q, n)
  {
    hide ImageOk;
  }

  lemma OneSidedCourseEnds(q: Pair, b: Board)
    requires Sound(b) && OneSidedCourse(q, b)
    ensures IdealBoot(b).board.slots == if ImageOk(q.secondary) then Mirror(q) else q
  {
    hide ImageOk;
  }

  /** On the way from a pending trial request for `p` to the trial, or already back from it. */
  ghost predicate TrialCourse(p: Pair, b: Board) {
    && ImageOk(p.primary) && ImageOk(p.secondary)
    && (|| (AsksForSwap(b) && KindAsked(b.request.value.arg) == Trial && b.slots == p)
        || (b.request == None && b.plan.Swap? && b.plan.kind == Trial && b.slots == p)
        || RollbackCourse(Mirror(p), b))
  }

  lemma TrialCourseStops(p: Pair, b: Board, n: Board)
    requires Sound(b) && TrialCourse(p, b) && MayStop(b, n, false)
    ensures TrialCourse(p, n)
  {
    hide ImageOk;
    if RollbackCourse(Mirror(p), b) {
      RollbackCourseStops(Mirror(p), b, n);
    }
  }

  /** The application is reached either on trial, or back on the old image without ever having been reached before. */
  lemma TrialCourseEnds(p: Pair, b: Board)
    requires Sound(b) && TrialCourse(p, b)
    ensures
      var t := IdealBoot(b);
      || (t.board.slots == Mirror(p) && t.board.plan == OnTrial && t.status == STATUS_SWAPPED)
      || (t.board.slots == p && t.board.plan == Idle && t.status in {STATUS_REVERTED, STATUS_OK})
    ensures IdealBoot(b).board.request == None
    ensures RollbackCourse(Mirror(p), IdealBoot(b).board)
  {
    hide ImageOk;
    if RollbackCourse(Mirror(p), b) {
      RollbackCourseEnds(Mirror(p), b);
    }
  }

  /** At rest a cut changes nothing but the pending request. */
  lemma RestStops(b: Board, n: Board, lost: bool)
    requires Phase(b) == 0 && MayStop(b, n, lost)
    ensures b.plan == n.plan == Idle && n.slots == b.slots && Phase(n) == 0
  {
    hide ImageOk;
  }
}
