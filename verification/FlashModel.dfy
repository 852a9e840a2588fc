/**
 The board as a value, and what one driver call does to it.

 Every call of the flash driver meets one event of the environment's script (`Meet`), so a property of all scripts is
 a property of all placements of power cuts and failures. A cut leaves the touched range in any state and switches
 the machine off: from then on nothing has an effect.
 */
module FlashModel {
  import opened Layout
  import opened BootRecord
  import opened Mailbox

  /** fsp_err_t, as far as the bootloader tells the codes apart. */
  datatype Err = Success | InvalidArgument | InvalidData | EraseFailed | WriteFailed | DriverError

  /**
   What a driver call meets:
   - Good: it does what was asked and says so;
   - Lie: it reports success, but the destination is not what was asked (programming code flash, erasing the log, and
     erasing or programming the record: there it may leave the block as it was);
   - Fail: it reports an error and leaves the range in some state;
   - Cut: as Fail, and the power is gone;
   - Refused: it reports an error and touches nothing.
   */
  datatype Outcome = Good | Lie | Fail | Cut | Refused

  /** What becomes of a log word whose programming fails or is cut. */
  datatype Fate = Untouched | Took | Torn

  /** One event: an outcome, and the bytes that stand for everything the hardware leaves open. */
  datatype Event = Event(outcome: Outcome, fate: Fate, noise: seq<byte>)

  /** A data flash write unit. What an erased unit reads as is undefined; only the blank check tells it apart. */
  datatype Word = Blank(shows: word) | Programmed(value: word)

  type Log = s: seq<Word> | |s| == LOG_WORDS witness BlankLog(Event(Good, Untouched, []))

  datatype Machine = Machine(
    low: seq<byte>,              // code flash below the scratch area: the bootloader
    scratch: Sector,
    primary: Slot,
    secondary: Slot,
    log: Log,
    record: Option<Record>,      // what boot_record_read makes of the record block
    mail: Mail,
    alive: bool,                 // false from a power cut on
    script: seq<Event>)          // what the driver calls still to come will meet

  /** A machine and the error code of the operation that led to it. */
  datatype Done = Done(m: Machine, err: Err)

  /** The machine, the contents of a destination range, and an error code. */
  datatype Moved = Moved(m: Machine, now: seq<byte>, err: Err)

  datatype Checked = Checked(m: Machine, err: Err, blank: bool)

  // ----- Events -----

  function Noise(e: Event, i: nat): byte {
    if i < |e.noise| then e.noise[i] else 0xFF
  }

  function NoiseBytes(e: Event, n: nat): (b: seq<byte>)
    ensures |b| == n
  {
    seq(n, i requires 0 <= i => Noise(e, i))
  }

  function NoiseWord(e: Event, i: nat): word {
    Join(Noise(e, 4 * i), Noise(e, 4 * i + 1), Noise(e, 4 * i + 2), Noise(e, 4 * i + 3))
  }

  /** The event the next driver call meets; once the script is used up everything works. */
  function Meet(m: Machine): Event {
    if !m.alive then Event(Refused, Untouched, [])
    else if m.script == [] then Event(Good, Untouched, [])
    else m.script[0]
  }

  /** The machine after the next driver call, its effect on the flash aside. */
  function After(m: Machine): Machine {
    if !m.alive then m
    else m.(script := if m.script == [] then [] else m.script[1..], alive := Meet(m).outcome != Cut)
  }

  predicate ReportsSuccess(e: Event) {
    e.outcome == Good || e.outcome == Lie
  }

  // ----- Code flash (boot_flash_erase, boot_flash_write, boot_flash_copy) -----

  const CHUNK: nat := 512

  function ErasedBytes(n: nat): (b: seq<byte>)
    ensures |b| == n
  {
    seq(n, _ => 0xFF as byte)
  }

  /** Erasing a range that holds `now`. */
  function EraseRange(m: Machine, now: seq<byte>): (r: Moved)
    ensures |r.now| == |now|
  {
    var e := Meet(m);
    if ReportsSuccess(e) then Moved(After(m), ErasedBytes(|now|), Success)
    else if e.outcome == Refused then Moved(After(m), now, DriverError)
    else Moved(After(m), NoiseBytes(e, |now|), DriverError)
  }

  /** Programming `chunk` over the erased range `now`. */
  function WriteRange(m: Machine, now: seq<byte>, chunk: seq<byte>): (r: Moved)
    requires |now| == |chunk|
    ensures |r.now| == |now|
  {
    var e := Meet(m);
    if e.outcome == Good then Moved(After(m), chunk, Success)
    else if e.outcome == Lie then Moved(After(m), NoiseBytes(e, |chunk|), Success)
    else if e.outcome == Refused then Moved(After(m), now, DriverError)
    else Moved(After(m), NoiseBytes(e, |chunk|), DriverError)
  }

  /** Length of the chunk that starts at `offset`: the last one may be short. */
  function ChunkAt(bytes: nat, offset: nat): (n: nat)
    requires offset < bytes
    ensures 0 < n <= CHUNK && offset + n <= bytes
  {
    if bytes - offset > CHUNK then CHUNK else bytes - offset
  }

  /** Replaces the bytes of `s` from `at` on by `part`. */
  function Splice<T>(s: seq<T>, at: nat, part: seq<T>): (r: seq<T>)
    requires at + |part| <= |s|
    ensures |r| == |s|
  {
    s[..at] + part + s[at + |part|..]
  }

  /** The loop of boot_flash_copy from `offset` on, over an erased destination that now holds `now`. */
  function ProgramChunks(m: Machine, data: seq<byte>, now: seq<byte>, offset: nat): (r: Moved)
    requires |now| == |data| && offset <= |data|
    ensures |r.now| == |data|
    decreases |data| - offset
  {
    if offset == |data| then Moved(m, now, Success)
    else
      var n := ChunkAt(|data|, offset);
      var w := WriteRange(m, now[offset..offset + n], data[offset..offset + n]);
      var next := Splice(now, offset, w.now);
      if w.err != Success then Moved(w.m, next, w.err)
      else ProgramChunks(w.m, data, next, offset + n)
  }

  /** boot_flash_copy as its destination range sees it: `data` arrives where `now` was. */
  function Transfer(m: Machine, data: seq<byte>, now: seq<byte>): (r: Moved)
    requires |now| == |data|
    ensures |r.now| == |data|
  {
    var e := EraseRange(m, now);
    if e.err != Success then e else ProgramChunks(e.m, data, e.now, 0)
  }

  /** The ranges the swap engine copies between. */
  datatype Region = Scratch | Primary(sector: nat) | Secondary(sector: nat)

  predicate InFlash(r: Region) {
    match r
    case Scratch => true
    case Primary(k) => k < SECTOR_COUNT
    case Secondary(k) => k < SECTOR_COUNT
  }

  function Content(m: Machine, r: Region): Sector
    requires InFlash(r)
  {
    match r
    case Scratch => m.scratch
    case Primary(k) => m.primary[k]
    case Secondary(k) => m.secondary[k]
  }

  function Put(m: Machine, r: Region, s: Sector): Machine
    requires InFlash(r)
  {
    match r
    case Scratch => m.(scratch := s)
    case Primary(k) => m.(primary := m.primary[k := s])
    case Secondary(k) => m.(secondary := m.secondary[k := s])
  }

  function Copy(m: Machine, dest: Region, src: Region): Done
    requires InFlash(dest) && InFlash(src)
  {
    var t := Transfer(m, Content(m, src), Content(m, dest));
    Done(Put(t.m, dest, t.now), t.err)
  }

  // ----- The swap log (data flash block 1) -----

  function Reads(w: Word): word {
    match w
    case Blank(r) => r
    case Programmed(v) => v
  }

  function BlankLog(e: Event): (log: seq<Word>)
    ensures |log| == LOG_WORDS
    ensures forall i :: 0 <= i < LOG_WORDS ==> log[i].Blank?
  {
    seq(LOG_WORDS, i requires 0 <= i => Blank(NoiseWord(e, i)))
  }

  /** An erase that did not run to its end has blanked some words and left the others. */
  function PartlyBlank(log: Log, e: Event): (r: Log)
    ensures forall i :: 0 <= i < LOG_WORDS ==> r[i] == log[i] || r[i].Blank?
  {
    seq(LOG_WORDS, i requires 0 <= i < LOG_WORDS =>
      if Noise(e, LOG_SIZE + i) == 0 then log[i] else Blank(NoiseWord(e, i)))
  }

  function EraseLog(m: Machine): Done {
    var e := Meet(m);
    match e.outcome
    case Good => Done(After(m).(log := BlankLog(e)), Success)
    case Lie => Done(After(m).(log := PartlyBlank(m.log, e)), Success)
    case Refused => Done(After(m), DriverError)
    case _ => Done(After(m).(log := PartlyBlank(m.log, e)), DriverError)
  }

  /** The FCU blank check of `count` log words from `first` on; it never lies. */
  function BlankCheck(m: Machine, first: nat, count: nat): Checked
    requires first + count <= LOG_WORDS
  {
    if ReportsSuccess(Meet(m)) then
      Checked(After(m), Success, forall i :: first <= i < first + count ==> m.log[i].Blank?)
    else
      Checked(After(m), DriverError, false)
  }

  /** Programming one log word. A word that is not blank cannot be programmed. */
  function WriteLog(m: Machine, i: nat, v: word): Done
    requires i < LOG_WORDS
  {
    var e := Meet(m);
    if ReportsSuccess(e) then
      if m.log[i].Blank? then Done(After(m).(log := m.log[i := Programmed(v)]), Success)
      else Done(After(m), DriverError)
    else if e.outcome == Refused || e.fate == Untouched then Done(After(m), DriverError)
    else if e.fate == Took && m.log[i].Blank? then Done(After(m).(log := m.log[i := Programmed(v)]), DriverError)
    else if e.fate == Torn then Done(After(m).(log := m.log[i := Programmed(NoiseWord(e, 0))]), DriverError)
    else Done(After(m), DriverError)
  }

  // ----- The boot record (data flash block 0) -----

  /**
   What a half-written record block reads as. It may read as a record only if that record was asked for: the block
   passing for a record nobody wrote is outside the fault model.
   */
  function HalfWritten(e: Event, candidates: set<Option<Record>>): (r: Option<Record>)
    ensures r == None || r in candidates
  {
    var got := Parse(NoiseBytes(e, RECORD_SIZE));
    if got in candidates then got else None
  }

  /** Erasing the record block: an erased block reads as anything, even as the record it used to hold. */
  function EraseRecord(m: Machine): Done {
    var e := Meet(m);
    if e.outcome == Refused then Done(After(m), DriverError)
    else Done(After(m).(record := HalfWritten(e, {m.record})), if ReportsSuccess(e) then Success else DriverError)
  }

  /** Programming the erased record block. */
  function WriteRecord(m: Machine, r: Record): Done {
    var e := Meet(m);
    match e.outcome
    case Good => Done(After(m).(record := Some(r)), Success)
    case Lie => Done(After(m).(record := HalfWritten(e, {Some(r), m.record})), Success)
    case Refused => Done(After(m), DriverError)
    case _ => Done(After(m).(record := HalfWritten(e, {Some(r), m.record})), DriverError)
  }
}
