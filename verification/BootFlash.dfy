/**
 The flash layer of the bootloader on byte-addressed memory (src/boot_flash.c): erase and program through the driver,
 the chunked flash-to-flash copy, the blank check and the bitwise CRC32.

 `Board.Model` reads the memories as the machine of `FlashModel`; every method is proved to move that machine exactly
 as the function of the same operation does.
 */
module BootFlash {
  import opened Layout
  import opened FlashModel
  import BootRecord
  import Crc32
  import DriverFacts
  import Mailbox

  /** A byte of code flash. Erased code flash reads as 0xFF. */
  datatype Cell = Erased | Held(value: byte)

  function Shown(c: Cell): byte {
    if c.Erased? then 0xFF else c.value
  }

  /** What a range of cells reads as. */
  function Bytes(cells: seq<Cell>): (b: seq<byte>)
    ensures |b| == |cells|
  {
    seq(|cells|, i requires 0 <= i < |cells| => Shown(cells[i]))
  }

  // ----- The memories as a machine -----

  /** A slot of the code flash. */
  function SlotAt(code: seq<Cell>, base: nat): Slot
    requires base + SECTOR_COUNT * SECTOR_SIZE <= |code|
  {
    seq(SECTOR_COUNT, k requires 0 <= k < SECTOR_COUNT =>
      Bytes(code[base + k * SECTOR_SIZE..base + k * SECTOR_SIZE + SECTOR_SIZE]))
  }

  function MachineOf(code: seq<Cell>, record: Option<BootRecord.Record>, log: Log, mail: Mailbox.Mail, alive: bool,
                     script: seq<Event>): (m: Machine)
    requires |code| == CODE_SIZE
    ensures m.record == record && m.log == log && m.mail == mail && m.alive == alive && m.script == script
  {
    Machine(
      Bytes(code[..SCRATCH_BASE]),
      Bytes(code[SCRATCH_BASE..SCRATCH_BASE + SECTOR_SIZE]),
      SlotAt(code, PRIMARY_BASE),
      SlotAt(code, SECONDARY_BASE),
      log, record, mail, alive, script)
  }

  /**
   The device. Code flash is erased in blocks of 8 KB below 0x10000 and of 32 KB from there on, data flash in blocks of
   64 bytes. The driver counts in these blocks, whatever the bootloader takes them for.
   */
  function DeviceBlock(address: nat): (size: nat)
    ensures size > 0
  {
    if address >= 0x0800_0000 then 64 else if address < 0x1_0000 then 0x2000 else 0x8000
  }

  /** boot_flash_block_size knows the device. */
  lemma BlockSizeFitsDevice(address: nat)
    ensures BlockSize(address) == DeviceBlock(address)
  {
  }

  function AddressOf(r: Region): (a: nat)
    requires InFlash(r)
    ensures SCRATCH_BASE <= a && a + SECTOR_SIZE <= CODE_SIZE
    ensures a % DeviceBlock(a) == 0 && SECTOR_SIZE % DeviceBlock(a) == 0
    ensures a + SECTOR_SIZE <= REGION0_SIZE || a >= REGION0_SIZE
  {
    match r
    case Scratch => SCRATCH_BASE
    case Primary(k) => PrimarySector(k)
    case Secondary(k) => SecondarySector(k)
  }

  /** Distinct regions do not overlap. */
  lemma RegionsAreDisjoint(r: Region, s: Region)
    requires InFlash(r) && InFlash(s) && r != s
    ensures AddressOf(r) + SECTOR_SIZE <= AddressOf(s) || AddressOf(s) + SECTOR_SIZE <= AddressOf(r)
  {
  }

  /** The two memories differ at most in `[from, to)`. */
  ghost predicate SameOutside(a: seq<Cell>, b: seq<Cell>, from: nat, to: nat) {
    && |a| == |b|
    && forall i :: 0 <= i < |a| && !(from <= i < to) ==> a[i] == b[i]
  }

  /** The cells of a range are erased. */
  ghost predicate AllErased(cells: seq<Cell>, from: nat, to: nat) {
    from <= to <= |cells| && forall i :: from <= i < to ==> cells[i].Erased?
  }

  lemma RangeUntouched(a: seq<Cell>, b: seq<Cell>, from: nat, to: nat, lo: nat, hi: nat)
    requires SameOutside(a, b, from, to) && lo <= hi <= |a| && (hi <= from || to <= lo)
    ensures a[lo..hi] == b[lo..hi]
  {
  }

  /** The bytes of a region, read from the memory, are the contents the machine gives it. */
  lemma RegionContent(m: Machine, code: seq<Cell>, r: Region)
    requires |code| == CODE_SIZE && InFlash(r)
    requires m == MachineOf(code, m.record, m.log, m.mail, m.alive, m.script)
    ensures Content(m, r) == Bytes(code[AddressOf(r)..AddressOf(r) + SECTOR_SIZE])
  {
    hide Bytes;
  }

  lemma SlotAfterWrite(a: seq<Cell>, b: seq<Cell>, base: nat, from: nat)
    requires |a| == |b| == CODE_SIZE && base in {PRIMARY_BASE, SECONDARY_BASE}
    requires SameOutside(a, b, from, from + SECTOR_SIZE)
    requires from + SECTOR_SIZE <= base || base + PRIMARY_SIZE <= from
    ensures SlotAt(b, base) == SlotAt(a, base)
  {
    hide Bytes;
    forall k | 0 <= k < SECTOR_COUNT ensures SlotAt(b, base)[k] == SlotAt(a, base)[k] {
      var lo := base + k * SECTOR_SIZE;
      RangeUntouched(a, b, from, from + SECTOR_SIZE, lo, lo + SECTOR_SIZE);
    }
  }

  lemma SectorAfterWrite(a: seq<Cell>, b: seq<Cell>, base: nat, sector: nat)
    requires |a| == |b| == CODE_SIZE && base in {PRIMARY_BASE, SECONDARY_BASE} && sector < SECTOR_COUNT
    requires
      var from := base + sector * SECTOR_SIZE;
      SameOutside(a, b, from, from + SECTOR_SIZE)
    ensures
      var from := base + sector * SECTOR_SIZE;
      SlotAt(b, base) == SlotAt(a, base)[sector := Bytes(b[from..from + SECTOR_SIZE])]
  {
    hide Bytes;
    var from := base + sector * SECTOR_SIZE;
    forall k | 0 <= k < SECTOR_COUNT && k != sector ensures SlotAt(b, base)[k] == SlotAt(a, base)[k] {
      var lo := base + k * SECTOR_SIZE;
      RangeUntouched(a, b, from, from + SECTOR_SIZE, lo, lo + SECTOR_SIZE);
    }
  }

  /** Writing one region of the memory is `Put` on the machine. */
  lemma WriteIsPut(a: seq<Cell>, b: seq<Cell>, m: Machine, r: Region)
    requires |a| == |b| == CODE_SIZE && InFlash(r)
    requires m == MachineOf(a, m.record, m.log, m.mail, m.alive, m.script)
    requires SameOutside(a, b, AddressOf(r), AddressOf(r) + SECTOR_SIZE)
    ensures
      MachineOf(b, m.record, m.log, m.mail, m.alive, m.script)
      == Put(m, r, Bytes(b[AddressOf(r)..AddressOf(r) + SECTOR_SIZE]))
  {
    hide Bytes, SlotAt;
    var from := AddressOf(r);
    RangeUntouched(a, b, from, from + SECTOR_SIZE, 0, SCRATCH_BASE);
    match r
    case Scratch =>
      SlotAfterWrite(a, b, PRIMARY_BASE, from);
      SlotAfterWrite(a, b, SECONDARY_BASE, from);
    case Primary(k) =>
      RangeUntouched(a, b, from, from + SECTOR_SIZE, SCRATCH_BASE, SCRATCH_BASE + SECTOR_SIZE);
      SectorAfterWrite(a, b, PRIMARY_BASE, k);
      SlotAfterWrite(a, b, SECONDARY_BASE, from);
    case Secondary(k) =>
      RangeUntouched(a, b, from, from + SECTOR_SIZE, SCRATCH_BASE, SCRATCH_BASE + SECTOR_SIZE);
      SlotAfterWrite(a, b, PRIMARY_BASE, from);
      SectorAfterWrite(a, b, SECONDARY_BASE, k);
  }

  /** The slots, flattened, are the memory ranges the checksums run over. */
  lemma FlattenSlot(code: seq<Cell>, base: nat)
    requires |code| == CODE_SIZE && base in {PRIMARY_BASE, SECONDARY_BASE}
    ensures Flatten(SlotAt(code, base)) == Bytes(code[base..base + PRIMARY_SIZE])
  {
    FlattenSectors(code, base, SECTOR_COUNT);
    assert SlotAt(code, base)[..SECTOR_COUNT] == SlotAt(code, base);
  }

  lemma {:induction false} FlattenSectors(code: seq<Cell>, base: nat, n: nat)
    requires |code| == CODE_SIZE && base in {PRIMARY_BASE, SECONDARY_BASE} && n <= SECTOR_COUNT
    ensures Flatten(SlotAt(code, base)[..n]) == Bytes(code[base..base + n * SECTOR_SIZE])
  {
    hide Bytes;
    if n > 0 {
      FlattenSectors(code, base, n - 1);
      var s := SlotAt(code, base)[..n];
      assert s[..n - 1] == SlotAt(code, base)[..n - 1];
      var mid := base + (n - 1) * SECTOR_SIZE;
      assert s[n - 1] == Bytes(code[mid..mid + SECTOR_SIZE]);
      InTwo(code, base, mid, mid + SECTOR_SIZE);
    }
  }

  lemma InTwo(a: seq<Cell>, from: nat, mid: nat, to: nat)
    requires from <= mid <= to <= |a|
    ensures Bytes(a[from..to]) == Bytes(a[from..mid]) + Bytes(a[mid..to])
  {
    hide Bytes;
    assert a[from..to] == a[from..mid] + a[mid..to];
    BytesConcat(a[from..mid], a[mid..to]);
  }

  lemma BytesConcat(a: seq<Cell>, b: seq<Cell>)
    ensures Bytes(a + b) == Bytes(a) + Bytes(b)
  {
  }

  // ----- Lemmas for the copy loop -----

  /** A machine that differs from `m` only in power and script, as after driver calls. */
  function Powered(m: Machine, alive: bool, script: seq<Event>): Machine {
    m.(alive := alive, script := script)
  }

  lemma CallsOnlyPower(m: Machine, now: seq<byte>, chunk: seq<byte>)
    ensures var e := EraseRange(m, now); e.m == Powered(m, e.m.alive, e.m.script)
    ensures |now| == |chunk| ==> var w := WriteRange(m, now, chunk); w.m == Powered(m, w.m.alive, w.m.script)
  {
  }

  /** What a write does depends on power and script alone. */
  lemma SamePowerSameWrite(m: Machine, n: Machine, now: seq<byte>, chunk: seq<byte>)
    requires m.alive == n.alive && m.script == n.script && |now| == |chunk|
    ensures
      var w, v := WriteRange(m, now, chunk), WriteRange(n, now, chunk);
      w.now == v.now && w.err == v.err && v.m == Powered(n, w.m.alive, w.m.script)
  {
  }

  lemma NextChunk(m: Machine, data: seq<byte>, now: seq<byte>, offset: nat)
    requires |now| == |data| && offset < |data|
    ensures
      var n := ChunkAt(|data|, offset);
      var w := WriteRange(m, now[offset..offset + n], data[offset..offset + n]);
      var next := Splice(now, offset, w.now);
      ProgramChunks(m, data, now, offset)
      == if w.err != Success then Moved(w.m, next, w.err) else ProgramChunks(w.m, data, next, offset + n)
  {
    hide WriteRange, Splice;
  }

  lemma InThree(a: seq<Cell>, from: nat, to: nat, lo: nat, hi: nat)
    requires from <= lo <= hi <= to <= |a|
    ensures Bytes(a[from..to]) == Bytes(a[from..lo]) + Bytes(a[lo..hi]) + Bytes(a[hi..to])
  {
    hide Bytes;
    InTwo(a, from, hi, to);
    InTwo(a, from, lo, hi);
  }

  /** A write inside a range, seen from the range. */
  lemma WriteInRange(a: seq<Cell>, b: seq<Cell>, from: nat, to: nat, lo: nat, hi: nat)
    requires from <= lo <= hi <= to <= |a| && SameOutside(a, b, lo, hi)
    ensures Bytes(b[from..to]) == Splice(Bytes(a[from..to]), lo - from, Bytes(b[lo..hi]))
    ensures Bytes(a[from..to])[lo - from..hi - from] == Bytes(a[lo..hi])
  {
    hide Bytes;
    InThree(a, from, to, lo, hi);
    InThree(b, from, to, lo, hi);
    RangeUntouched(a, b, lo, hi, from, lo);
    RangeUntouched(a, b, lo, hi, hi, to);
  }

  /** Block-aligned ranges are made of whole write units. */
  lemma WholeUnits(dest: nat, bytes: nat)
    requires dest < DATA_START && dest % DeviceBlock(dest) == 0 && bytes % DeviceBlock(dest) == 0
    ensures dest % CODE_WRITE_UNIT == 0 && bytes % CODE_WRITE_UNIT == 0
  {
    if dest < REGION0_SIZE {
      SmallBlocks(dest);
      SmallBlocks(bytes);
    } else {
      LargeBlocks(dest);
      LargeBlocks(bytes);
    }
  }

  lemma SmallBlocks(x: nat)
    requires x % 0x2000 == 0
    ensures x % CODE_WRITE_UNIT == 0
  {
    var n := x / 0x2000;
    assert x == CODE_WRITE_UNIT * (64 * n);
    UnitsAreWhole(64 * n);
  }

  lemma LargeBlocks(x: nat)
    requires x % 0x8000 == 0
    ensures x % CODE_WRITE_UNIT == 0
  {
    var n := x / 0x8000;
    assert x == CODE_WRITE_UNIT * (256 * n);
    UnitsAreWhole(256 * n);
  }

  lemma UnitsAreWhole(k: nat)
    ensures (CODE_WRITE_UNIT * k) % CODE_WRITE_UNIT == 0
  {
  }

  lemma UnitsOf(n: nat) returns (k: nat)
    requires n % CODE_WRITE_UNIT == 0
    ensures n == CODE_WRITE_UNIT * k
  {
    k := n / CODE_WRITE_UNIT;
  }

  /** Every chunk, the short last one included, is made of whole write units. */
  lemma NextIsWhole(dest: nat, bytes: nat, offset: nat)
    requires dest % CODE_WRITE_UNIT == 0 && bytes % CODE_WRITE_UNIT == 0
    requires offset % CODE_WRITE_UNIT == 0 && offset < bytes
    ensures
      var n := if bytes - offset > CHUNK then CHUNK else bytes - offset;
      && n == ChunkAt(bytes, offset)
      && (dest + offset) % CODE_WRITE_UNIT == 0 && n % CODE_WRITE_UNIT == 0 && (offset + n) % CODE_WRITE_UNIT == 0
  {
    var first := UnitsOf(dest);
    var all := UnitsOf(bytes);
    var k := UnitsOf(offset);
    var n := if bytes - offset > CHUNK then 4 else all - k;
    assert ChunkAt(bytes, offset) == CODE_WRITE_UNIT * n;
    UnitsAreWhole(first + k);
    UnitsAreWhole(n);
    UnitsAreWhole(k + n);
  }

  /** What one pass of the copy loop achieves: the rest of the loop, from the new state, gives the same result. */
  ghost predicate OnePass(m: Machine, data: seq<byte>, now: seq<byte>, offset: nat, n: Machine, next: seq<byte>,
                          err: Err)
  {
    && |now| == |data| == |next| && offset < |data|
    && ProgramChunks(m, data, now, offset)
       == if err != Success then Moved(n, next, err) else ProgramChunks(n, data, next, offset + ChunkAt(|data|, offset))
  }

  /** One pass, given what the driver did to the range of the chunk. */
  lemma PassDone(m: Machine, data: seq<byte>, now: seq<byte>, offset: nat, n: Machine, next: seq<byte>, err: Err,
                 w: Moved)
    requires |now| == |data| && offset < |data|
    requires
      var k := ChunkAt(|data|, offset);
      && w == WriteRange(m, now[offset..offset + k], data[offset..offset + k])
      && n == w.m && err == w.err && next == Splice(now, offset, w.now)
    ensures OnePass(m, data, now, offset, n, next, err)
  {
    NextChunk(m, data, now, offset);
  }

  /** A pass of the copy loop, from what it did to the memory. */
  lemma PassOnMemory(start: Machine, before: seq<Cell>, mem: seq<Cell>, after: seq<Cell>, dest: nat, src: nat,
                     bytes: nat, offset: nat, here: Machine, w: Moved)
    requires |before| == CODE_SIZE && dest + bytes <= CODE_SIZE && src + bytes <= CODE_SIZE
    requires src + bytes <= dest || dest + bytes <= src
    requires offset < bytes && SameOutside(before, mem, dest, dest + bytes)
    requires
      var lo, hi := offset, offset + ChunkAt(bytes, offset);
      && w == WriteRange(here, Bytes(mem[dest + lo..dest + hi]), Bytes(mem[src + lo..src + hi]))
      && SameOutside(mem, after, dest + lo, dest + hi)
      && Bytes(after[dest + lo..dest + hi]) == w.now
    ensures SameOutside(before, after, dest, dest + bytes)
    ensures
      OnePass(Powered(start, here.alive, here.script), Bytes(before[src..src + bytes]), Bytes(mem[dest..dest + bytes]),
              offset, Powered(start, w.m.alive, w.m.script), Bytes(after[dest..dest + bytes]), w.err)
  {
    hide Bytes, WriteRange, ProgramChunks, Splice, OnePass;
    var lo, hi := offset, offset + ChunkAt(bytes, offset);
    var m := Powered(start, here.alive, here.script);
    var data, now := Bytes(before[src..src + bytes]), Bytes(mem[dest..dest + bytes]);
    RangeUntouched(before, mem, dest, dest + bytes, src, src + bytes);
    WriteInRange(mem, mem, src, src + bytes, src + lo, src + hi);
    WriteInRange(mem, after, dest, dest + bytes, dest + lo, dest + hi);
    SamePowerSameWrite(here, m, now[lo..hi], data[lo..hi]);
    PassDone(m, data, now, offset, Powered(start, w.m.alive, w.m.script), Bytes(after[dest..dest + bytes]), w.err,
             WriteRange(m, now[lo..hi], data[lo..hi]));
  }

  /**
   The state of the copy loop at `offset`: only the destination has changed, the rest of it is erased, and what is left
   of the loop, from the present power and script, ends as the whole loop does.
   */
  ghost predicate Copying(start: Machine, before: seq<Cell>, mem: seq<Cell>, dest: nat, src: nat, bytes: nat,
                          offset: nat, alive: bool, script: seq<Event>) {
    && |before| == CODE_SIZE && dest + bytes <= CODE_SIZE && src + bytes <= CODE_SIZE && offset <= bytes
    && (src + bytes <= dest || dest + bytes <= src)
    && SameOutside(before, mem, dest, dest + bytes)
    && AllErased(mem, dest + offset, dest + bytes)
    && var data := Bytes(before[src..src + bytes]);
    && ProgramChunks(Powered(start, alive, script), data, Bytes(mem[dest..dest + bytes]), offset)
       == ProgramChunks(start, data, Bytes(before[dest..dest + bytes]), 0)
  }

  lemma CopyBegins(start: Machine, before: seq<Cell>, dest: nat, src: nat, bytes: nat)
    requires |before| == CODE_SIZE && dest + bytes <= CODE_SIZE && src + bytes <= CODE_SIZE
    requires src + bytes <= dest || dest + bytes <= src
    requires AllErased(before, dest, dest + bytes)
    ensures Copying(start, before, before, dest, src, bytes, 0, start.alive, start.script)
  {
    assert Powered(start, start.alive, start.script) == start;
  }

  /** `n` bytes of the memory were written over erased cells, by one call of the driver on machine `here`. */
  ghost predicate Wrote(here: Machine, mem: seq<Cell>, after: seq<Cell>, dest: nat, src: nat, n: nat, alive: bool,
                        script: seq<Event>, err: Err) {
    && dest + n <= |mem| && src + n <= |mem| && SameOutside(mem, after, dest, dest + n)
    && var w := WriteRange(here, Bytes(mem[dest..dest + n]), Bytes(mem[src..src + n]));
    && err == w.err && alive == w.m.alive && script == w.m.script && Bytes(after[dest..dest + n]) == w.now
  }

  /** The loop of boot_flash_copy was run on machine `start`. */
  ghost predicate ChunksCopied(start: Machine, before: seq<Cell>, after: seq<Cell>, dest: nat, src: nat, bytes: nat,
                               alive: bool, script: seq<Event>, err: Err) {
    && dest + bytes <= |before| && src + bytes <= |before| && SameOutside(before, after, dest, dest + bytes)
    && Moved(Powered(start, alive, script), Bytes(after[dest..dest + bytes]), err)
       == ProgramChunks(start, Bytes(before[src..src + bytes]), Bytes(before[dest..dest + bytes]), 0)
  }

  /** One pass of the copy loop. */
  lemma PassKeepsCopying(start: Machine, before: seq<Cell>, mem: seq<Cell>, after: seq<Cell>, dest: nat, src: nat,
                         bytes: nat, offset: nat, here: Machine, alive: bool, script: seq<Event>, err: Err)
    requires Copying(start, before, mem, dest, src, bytes, offset, here.alive, here.script) && offset < bytes
    requires Wrote(here, mem, after, dest + offset, src + offset, ChunkAt(bytes, offset), alive, script, err)
    ensures err != Success ==> ChunksCopied(start, before, after, dest, src, bytes, alive, script, err)
    ensures
      err == Success ==> Copying(start, before, after, dest, src, bytes, offset + ChunkAt(bytes, offset), alive, script)
  {
    hide Bytes, WriteRange, ProgramChunks, Splice;
    var lo, hi := offset, offset + ChunkAt(bytes, offset);
    PassOnMemory(start, before, mem, after, dest, src, bytes, offset, here,
                 WriteRange(here, Bytes(mem[dest + lo..dest + hi]), Bytes(mem[src + lo..src + hi])));
  }

  lemma RestIsErased(start: Machine, before: seq<Cell>, mem: seq<Cell>, dest: nat, src: nat, bytes: nat, offset: nat,
                     alive: bool, script: seq<Event>)
    requires Copying(start, before, mem, dest, src, bytes, offset, alive, script) && offset < bytes
    ensures AllErased(mem, dest + offset, dest + offset + ChunkAt(bytes, offset))
  {
    hide ProgramChunks, Bytes;
  }

  lemma CopyEnds(start: Machine, before: seq<Cell>, mem: seq<Cell>, dest: nat, src: nat, bytes: nat, alive: bool,
                 script: seq<Event>)
    requires Copying(start, before, mem, dest, src, bytes, bytes, alive, script)
    ensures ChunksCopied(start, before, mem, dest, src, bytes, alive, script, Success)
  {
  }

  /** `n` bytes of the memory were erased by one call of the driver on machine `here`. */
  ghost predicate WasErased(here: Machine, mem: seq<Cell>, after: seq<Cell>, address: nat, n: nat, alive: bool,
                            script: seq<Event>, err: Err) {
    && address + n <= |mem| && SameOutside(mem, after, address, address + n)
    && (err == Success ==> AllErased(after, address, address + n))
    && var r := EraseRange(here, Bytes(mem[address..address + n]));
    && err == r.err && alive == r.m.alive && script == r.m.script && Bytes(after[address..address + n]) == r.now
  }

  lemma EraseOutcome(here: Machine, mem: seq<Cell>, after: seq<Cell>, address: nat, n: nat)
    requires address + n <= |mem| && SameOutside(mem, after, address, address + n)
    requires
      var e, now := Meet(here), Bytes(after[address..address + n]);
      if ReportsSuccess(e) then now == ErasedBytes(n) && AllErased(after, address, address + n)
      else if e.outcome == Refused then now == Bytes(mem[address..address + n])
      else now == NoiseBytes(e, n)
    ensures
      WasErased(here, mem, after, address, n, After(here).alive, After(here).script,
                if ReportsSuccess(Meet(here)) then Success else DriverError)
  {
    hide Bytes, SameOutside, AllErased;
  }

  /** boot_flash_copy was run on machine `start`: nothing else changed, and the destination holds what it left. */
  ghost predicate WasCopied(start: Machine, before: seq<Cell>, after: seq<Cell>, dest: nat, src: nat, bytes: nat,
                            alive: bool, script: seq<Event>, err: Err) {
    && dest + bytes <= |before| && src + bytes <= |before| && SameOutside(before, after, dest, dest + bytes)
    && Moved(Powered(start, alive, script), Bytes(after[dest..dest + bytes]), err)
       == Transfer(start, Bytes(before[src..src + bytes]), Bytes(before[dest..dest + bytes]))
  }

  lemma EraseEndsCopy(start: Machine, before: seq<Cell>, after: seq<Cell>, dest: nat, src: nat, bytes: nat, alive: bool,
                      script: seq<Event>, err: Err)
    requires dest + bytes <= |before| && src + bytes <= |before|
    requires WasErased(start, before, after, dest, bytes, alive, script, err) && err != Success
    ensures WasCopied(start, before, after, dest, src, bytes, alive, script, err)
  {
    hide Bytes, EraseRange, ProgramChunks;
    CallsOnlyPower(start, Bytes(before[dest..dest + bytes]), []);
  }

  lemma DestinationErased(start: Machine, before: seq<Cell>, mid: seq<Cell>, dest: nat, bytes: nat, alive: bool,
                          script: seq<Event>)
    requires WasErased(start, before, mid, dest, bytes, alive, script, Success)
    ensures AllErased(mid, dest, dest + bytes)
  {
  }

  lemma EraseThenChunks(start: Machine, before: seq<Cell>, mid: seq<Cell>, after: seq<Cell>, dest: nat, src: nat,
                        bytes: nat, a0: bool, s0: seq<Event>, alive: bool, script: seq<Event>, err: Err)
    requires src + bytes <= dest || dest + bytes <= src
    requires WasErased(start, before, mid, dest, bytes, a0, s0, Success)
    requires ChunksCopied(Powered(start, a0, s0), mid, after, dest, src, bytes, alive, script, err)
    ensures WasCopied(start, before, after, dest, src, bytes, alive, script, err)
  {
    hide Bytes, EraseRange, ProgramChunks;
    CallsOnlyPower(start, Bytes(before[dest..dest + bytes]), []);
    RangeUntouched(before, mid, dest, dest + bytes, src, src + bytes);
  }

  /**
   A copy that reports success, from a driver that does not lie, is one assignment of the source range, as it was before
   the call, to the destination range.
   */
  lemma CopyIsOneAssignment(start: Machine, before: seq<Cell>, after: seq<Cell>, dest: nat, src: nat, bytes: nat,
                            alive: bool, script: seq<Event>)
    requires WasCopied(start, before, after, dest, src, bytes, alive, script, Success) && DriverFacts.Honest(start)
    ensures
      Bytes(after) == Bytes(before[..dest]) + Bytes(before[src..src + bytes]) + Bytes(before[dest + bytes..])
  {
    hide Bytes, Transfer;
    DriverFacts.TransferMoves(start, Bytes(before[src..src + bytes]), Bytes(before[dest..dest + bytes]));
    InThree(after, 0, |after|, dest, dest + bytes);
    RangeUntouched(before, after, dest, dest + bytes, 0, dest);
    RangeUntouched(before, after, dest, dest + bytes, dest + bytes, |after|);
    assert after[0..|after|] == after;
    assert before[0..dest] == before[..dest] && before[dest + bytes..|after|] == before[dest + bytes..];
  }

  /** A copy between two regions, from one memory to the next, is `Copy` on the machine. */
  lemma CopyOfRegions(m: Machine, before: seq<Cell>, after: seq<Cell>, dest: Region, src: Region, alive: bool,
                      script: seq<Event>, err: Err)
    requires InFlash(dest) && InFlash(src) && dest != src && |before| == CODE_SIZE
    requires m == MachineOf(before, m.record, m.log, m.mail, m.alive, m.script)
    requires WasCopied(m, before, after, AddressOf(dest), AddressOf(src), SECTOR_SIZE, alive, script, err)
    ensures MachineOf(after, m.record, m.log, m.mail, alive, script) == Copy(m, dest, src).m
    ensures err == Copy(m, dest, src).err
  {
    hide Bytes, SlotAt, Transfer;
    RegionContent(m, before, dest);
    RegionContent(m, before, src);
    WriteIsPut(before, after, m, dest);
  }

  /** The vector table of a slot is at its base. */
  lemma VectorsOfSlot(code: seq<Cell>, base: nat)
    requires |code| == CODE_SIZE && base in {PRIMARY_BASE, SECONDARY_BASE}
    ensures LoadWord(SlotAt(code, base)[0], 0) == LoadWord(Bytes(code[base..base + 4]), 0)
    ensures LoadWord(SlotAt(code, base)[0], 4) == LoadWord(Bytes(code[base + 4..base + 8]), 0)
  {
    hide Bytes, LoadWord;
    LoadFromRange(code, base, base + SECTOR_SIZE, 0);
    LoadFromRange(code, base, base + SECTOR_SIZE, 4);
  }

  lemma LoadFromRange(code: seq<Cell>, from: nat, to: nat, at: nat)
    requires from + at + 4 <= to <= |code|
    ensures LoadWord(Bytes(code[from..to]), at) == LoadWord(Bytes(code[from + at..from + at + 4]), 0)
  {
    hide Join;
    var word := code[from + at..from + at + 4];
    assert forall k :: 0 <= k < 4 ==> word[k] == code[from..to][at + k];
  }

  // ----- The board -----

  /** The memories, the mailbox RAM, the power and the environment of a board, and the copy buffer. */
  class Board {
    const code: array<Cell>
    const block: array<byte>         // the record block, as it reads
    const log: array<Word>
    const chunk: array<byte>         // g_chunk
    const ram: Mailbox.Ram
    var blockErased: bool            // the record block has not been programmed since its last erase
    var alive: bool
    var script: seq<Event>

    /** The memories are there, and no two of them are one. */
    ghost predicate Valid() {
      && code.Length == CODE_SIZE && block.Length == RECORD_SIZE && log.Length == LOG_WORDS && chunk.Length == CHUNK
      && block != chunk
    }

    /** Everything a method of the bootloader may change. */
    ghost function Footprint(): set<object> {
      {this, code, block, log, chunk, ram}
    }

    /** The board as a machine. */
    ghost function Model(): (m: Machine)
      reads this, code, block, log, ram
      requires Valid()
      ensures m.alive == alive && m.script == script
    {
      MachineOf(code[..], BootRecord.Parse(block[..]), log[..], ram.Contents(), alive, script)
    }

    constructor (code: array<Cell>, block: array<byte>, log: array<Word>, chunk: array<byte>, ram: Mailbox.Ram)
      requires code.Length == CODE_SIZE && block.Length == RECORD_SIZE && log.Length == LOG_WORDS
      requires chunk.Length == CHUNK && block != chunk
      ensures Valid() && alive && script == []
      ensures this.code == code && this.block == block && this.log == log && this.chunk == chunk && this.ram == ram
    {
      this.code, this.block, this.log, this.chunk, this.ram := code, block, log, chunk, ram;
      blockErased, alive, script := false, true, [];
    }

    // ----- The driver -----

    /** The event the next driver call meets. */
    method MeetEvent() returns (e: Event)
      requires Valid()
      modifies `alive, `script
      ensures e == Meet(old(Model())) && Model() == After(old(Model()))
    {
      hide SlotAt, Bytes, BootRecord.Parse;
      if !alive {
        e := Event(Refused, Untouched, []);
      } else if script == [] {
        e := Event(Good, Untouched, []);
      } else {
        e := script[0];
        script := script[1..];
        alive := e.outcome != Cut;
      }
    }

    /** The cells of a range come to hold given bytes. */
    method Hold(from: nat, values: seq<byte>)
      requires Valid() && from + |values| <= CODE_SIZE
      modifies code
      ensures Bytes(code[from..from + |values|]) == values
      ensures SameOutside(old(code[..]), code[..], from, from + |values|)
    {
      forall i | from <= i < from + |values| {
        code[i] := Held(values[i - from]);
      }
    }

    method MakeErased(from: nat, to: nat)
      requires Valid() && from <= to <= CODE_SIZE
      modifies code
      ensures Bytes(code[from..to]) == ErasedBytes(to - from)
      ensures AllErased(code[..], from, to)
      ensures SameOutside(old(code[..]), code[..], from, to)
    {
      forall i | from <= i < to {
        code[i] := Erased;
      }
    }

    /** The driver's erase of whole code flash blocks. It must not straddle the two regions. */
    method DriverErase(address: nat, blocks: nat) returns (err: Err)
      requires Valid()
      requires address % DeviceBlock(address) == 0 && address + blocks * DeviceBlock(address) <= CODE_SIZE
      requires address + blocks * DeviceBlock(address) <= REGION0_SIZE || address >= REGION0_SIZE
      modifies `alive, `script, code
      ensures
        WasErased(old(Model()), old(code[..]), code[..], address, blocks * DeviceBlock(address), alive, script, err)
    {
      hide Bytes, MachineOf, BootRecord.Parse, WasErased, EraseRange;
      var n := blocks * DeviceBlock(address);
      ghost var here, mem := Model(), code[..];
      var e := MeetEvent();
      if ReportsSuccess(e) {
        MakeErased(address, address + n);
        err := Success;
      } else {
        if e.outcome != Refused {
          Hold(address, NoiseBytes(e, n));
        }
        err := DriverError;
      }
      EraseOutcome(here, mem, code[..], address, n);
    }

    /** The driver's programming of code flash: whole write units, over erased cells only. */
    method DriverWrite(dest: nat, data: seq<byte>) returns (err: Err)
      requires Valid()
      requires dest + |data| <= CODE_SIZE && dest % CODE_WRITE_UNIT == 0 && |data| % CODE_WRITE_UNIT == 0
      requires forall i :: dest <= i < dest + |data| ==> code[i].Erased?
      modifies `alive, `script, code
      ensures
        var end := dest + |data|;
        var r := WriteRange(old(Model()), Bytes(old(code[dest..end])), data);
        && err == r.err && alive == r.m.alive && script == r.m.script
        && Bytes(code[dest..end]) == r.now
        && SameOutside(old(code[..]), code[..], dest, end)
    {
      hide Bytes, SlotAt;
      var e := MeetEvent();
      if e.outcome == Good {
        Hold(dest, data);
        return Success;
      }
      if e.outcome != Refused {
        Hold(dest, NoiseBytes(e, |data|));
      }
      return if e.outcome == Lie then Success else DriverError;
    }

    /** The driver's erase of the log block: one device block, and the whole of it. */
    method DriverEraseLog(blocks: nat) returns (err: Err)
      requires Valid() && blocks * DeviceBlock(LOG_ADDRESS) == LOG_SIZE
      modifies `alive, `script, log
      ensures Model() == EraseLog(old(Model())).m && err == EraseLog(old(Model())).err
    {
      hide Bytes, SlotAt, BootRecord.Parse;
      var e := MeetEvent();
      match e.outcome {
        case Good =>
          SetLog(BlankLog(e));
          err := Success;
        case Refused =>
          err := DriverError;
        case _ =>
          SetLog(PartlyBlank(log[..], e));
          err := if e.outcome == Lie then Success else DriverError;
      }
    }

    method SetLog(words: Log)
      requires Valid()
      modifies log
      ensures log[..] == words
    {
      forall i | 0 <= i < LOG_WORDS {
        log[i] := words[i];
      }
    }

    /** The driver's programming of one data flash unit of the log. */
    method DriverWriteLog(i: nat, v: word) returns (err: Err)
      requires Valid() && i < LOG_WORDS
      modifies `alive, `script, log
      ensures Model() == WriteLog(old(Model()), i, v).m && err == WriteLog(old(Model()), i, v).err
    {
      hide Bytes, SlotAt, BootRecord.Parse, NoiseWord;
      var e := MeetEvent();
      if ReportsSuccess(e) {
        if log[i].Blank? {
          log[i] := Programmed(v);
          return Success;
        }
      } else if e.outcome != Refused {
        if e.fate == Took && log[i].Blank? {
          log[i] := Programmed(v);
        } else if e.fate == Torn {
          log[i] := Programmed(NoiseWord(e, 0));
        }
      }
      return DriverError;
    }

    method SetBlock(bytes: BootRecord.Block)
      requires Valid()
      modifies block
      ensures block[..] == bytes
    {
      forall i | 0 <= i < RECORD_SIZE {
        block[i] := bytes[i];
      }
    }

    /** A block that may read as one of the given records only if it does so by having been written. */
    method LeaveHalfWritten(e: Event, candidates: set<Option<BootRecord.Record>>)
      requires Valid()
      modifies block
      ensures BootRecord.Parse(block[..]) == HalfWritten(e, candidates)
    {
      var got := BootRecord.Parse(NoiseBytes(e, RECORD_SIZE));
      if got in candidates {
        SetBlock(NoiseBytes(e, RECORD_SIZE));
      } else {
        SetBlock(seq(RECORD_SIZE, _ => 0 as byte));
        BootRecord.ZeroBlockIsNoRecord();
      }
    }

    /** The driver's erase of the record block: one device block, and the whole of it. */
    method DriverEraseRecord(blocks: nat) returns (err: Err)
      requires Valid() && blocks * DeviceBlock(RECORD_ADDRESS) == RECORD_SIZE
      modifies `alive, `script, `blockErased, block
      ensures Model() == EraseRecord(old(Model())).m && err == EraseRecord(old(Model())).err
      ensures err == Success ==> blockErased
    {
      hide Bytes, SlotAt, BootRecord.Parse, HalfWritten;
      var e := MeetEvent();
      if e.outcome == Refused {
        return DriverError;
      }
      LeaveHalfWritten(e, {BootRecord.Parse(block[..])});
      blockErased := ReportsSuccess(e);
      return if ReportsSuccess(e) then Success else DriverError;
    }

    /** The driver's programming of the erased record block. */
    method DriverWriteRecord(image: BootRecord.Block, ghost r: BootRecord.Record) returns (err: Err)
      requires Valid() && blockErased && BootRecord.Parse(image) == Some(r)
      modifies `alive, `script, `blockErased, block
      ensures Model() == WriteRecord(old(Model()), r).m && err == WriteRecord(old(Model()), r).err
    {
      hide Bytes, SlotAt, BootRecord.Parse, HalfWritten;
      var asked := BootRecord.Parse(image);
      var e := MeetEvent();
      match e.outcome {
        case Good =>
          SetBlock(image);
          err := Success;
        case Lie =>
          LeaveHalfWritten(e, {asked, BootRecord.Parse(block[..])});
          err := Success;
        case Refused =>
          return DriverError;
        case _ =>
          LeaveHalfWritten(e, {asked, BootRecord.Parse(block[..])});
          err := DriverError;
      }
      blockErased := false;
    }

    /** The driver's blank check of log words. */
    method DriverBlankCheck(first: nat, count: nat) returns (err: Err, blank: bool)
      requires Valid() && first + count <= LOG_WORDS
      modifies `alive, `script
      ensures
        var b := BlankCheck(old(Model()), first, count);
        Model() == b.m && err == b.err && (err == Success ==> blank == b.blank)
    {
      hide Bytes, SlotAt, BootRecord.Parse;
      var e := MeetEvent();
      if ReportsSuccess(e) {
        return Success, forall i :: first <= i < first + count ==> log[i].Blank?;
      }
      return DriverError, true;
    }

    // ----- boot_flash.c -----

    /** The ranges the bootloader may ask to erase: blocks of one code flash region, or one data flash block. */
    ghost predicate Erasable(address: nat, bytes: nat) {
      || (address < DATA_START && address % DeviceBlock(address) == 0 && address + bytes <= CODE_SIZE
          && (address + bytes <= REGION0_SIZE || address >= REGION0_SIZE))
      || (address == LOG_ADDRESS && bytes == LOG_SIZE)
      || (address == RECORD_ADDRESS && bytes == RECORD_SIZE)
    }

    /**
     boot_flash_erase. Sizes that are not whole device blocks are refused; otherwise the number of blocks the driver is
     asked for covers exactly the range.
     */
    method Erase(address: nat, bytes: nat) returns (err: Err)
      requires Valid()
      requires bytes % DeviceBlock(address) == 0 ==> Erasable(address, bytes)
      modifies `alive, `script, `blockErased, code, log, block
      ensures bytes % DeviceBlock(address) != 0 ==>
        err == InvalidArgument && unchanged(this, code, log, block)
      ensures bytes % DeviceBlock(address) == 0 && address < DATA_START ==>
        && WasErased(old(Model()), old(code[..]), code[..], address, bytes, alive, script, err)
        && log[..] == old(log[..]) && block[..] == old(block[..])
      ensures bytes % DeviceBlock(address) == 0 && address == LOG_ADDRESS ==>
        Model() == EraseLog(old(Model())).m && err == EraseLog(old(Model())).err
      ensures bytes % DeviceBlock(address) == 0 && address == RECORD_ADDRESS ==>
        && Model() == EraseRecord(old(Model())).m && err == EraseRecord(old(Model())).err
        && (err == Success ==> blockErased)
    {
      hide Bytes, SlotAt, BootRecord.Parse, WasErased, EraseLog, EraseRecord;
      BlockSizeFitsDevice(address);
      var size := BlockSize(address);
      if bytes % size != 0 {
        return InvalidArgument;
      }
      var blocks := bytes / size;
      assert blocks * size == bytes;
      if address == LOG_ADDRESS {
        err := DriverEraseLog(blocks);
      } else if address == RECORD_ADDRESS {
        err := DriverEraseRecord(blocks);
      } else {
        err := DriverErase(address, blocks);
      }
    }

    /** boot_flash_df_blank: the answer is true only when the check ran and found the range erased. */
    method DataBlank(first: nat, count: nat) returns (err: Err, blank: bool)
      requires Valid() && first + count <= LOG_WORDS
      modifies `alive, `script
      ensures
        var b := BlankCheck(old(Model()), first, count);
        Model() == b.m && err == b.err && blank == b.blank
    {
      hide Bytes, SlotAt, BootRecord.Parse;
      blank := false;
      var found;
      err, found := DriverBlankCheck(first, count);
      if err == Success {
        blank := found;
      }
    }

    /** The inner loop of boot_flash_copy: stages `n` bytes of code flash in the RAM buffer. */
    method Stage(src: nat, n: nat)
      requires Valid() && n <= CHUNK && src + n <= CODE_SIZE
      modifies chunk
      ensures chunk[..n] == Bytes(code[src..src + n])
    {
      var i := 0;
      while i < n
        invariant 0 <= i <= n
        invariant forall k :: 0 <= k < i ==> chunk[k] == Shown(code[src + k])
      {
        chunk[i] := Shown(code[src + i]);
        i := i + 1;
      }
    }

    /** One pass of the loop of boot_flash_copy: `n` bytes go through the RAM buffer. */
    method CopyChunk(dest: nat, src: nat, n: nat) returns (err: Err)
      requires Valid() && n <= CHUNK
      requires dest + n <= CODE_SIZE && src + n <= CODE_SIZE
      requires dest % CODE_WRITE_UNIT == 0 && n % CODE_WRITE_UNIT == 0
      requires AllErased(code[..], dest, dest + n)
      modifies `alive, `script, code, chunk
      ensures Wrote(old(Model()), old(code[..]), code[..], dest, src, n, alive, script, err)
    {
      hide Bytes, MachineOf, BootRecord.Parse, WriteRange;
      ghost var m := Model();
      Stage(src, n);
      ghost var staged := Model();
      SamePowerSameWrite(m, staged, Bytes(code[dest..dest + n]), chunk[..n]);
      err := DriverWrite(dest, chunk[..n]);
    }

    /** The loop of boot_flash_copy, over an erased destination. */
    method CopyChunks(ghost start: Machine, dest: nat, src: nat, bytes: nat) returns (err: Err)
      requires Valid() && start.alive == alive && start.script == script
      requires dest + bytes <= CODE_SIZE && src + bytes <= CODE_SIZE
      requires src + bytes <= dest || dest + bytes <= src
      requires dest % CODE_WRITE_UNIT == 0 && bytes % CODE_WRITE_UNIT == 0
      requires AllErased(code[..], dest, dest + bytes)
      modifies `alive, `script, code, chunk
      ensures ChunksCopied(start, old(code[..]), code[..], dest, src, bytes, alive, script, err)
    {
      hide Bytes, MachineOf, BootRecord.Parse, ChunkAt, AllErased, Copying, Wrote, ChunksCopied;
      ghost var before := code[..];
      CopyBegins(start, before, dest, src, bytes);
      err := Success;
      var offset := 0;
      while offset < bytes
        invariant 0 <= offset <= bytes && offset % CODE_WRITE_UNIT == 0 && err == Success
        invariant Copying(start, before, code[..], dest, src, bytes, offset, alive, script)
      {
        var n := bytes - offset;
        if n > CHUNK {
          n := CHUNK;
        }
        NextIsWhole(dest, bytes, offset);
        RestIsErased(start, before, code[..], dest, src, bytes, offset, alive, script);
        ghost var mem, here := code[..], Model();
        err := CopyChunk(dest + offset, src + offset, n);
        PassKeepsCopying(start, before, mem, code[..], dest, src, bytes, offset, here, alive, script, err);
        if err != Success {
          return;
        }
        offset := offset + n;
      }
      CopyEnds(start, before, code[..], dest, src, bytes, alive, script);
    }

    /**
     boot_flash_copy. On disjoint ranges of code flash the destination comes to hold what the source held, or what the
     interrupted transfer leaves of it, and every other byte of code flash stays what it was. The driver's demands -
     block-aligned erases inside one region, whole write units, erased cells - are met by every call.
     */
    method CopyRange(dest: nat, src: nat, bytes: nat) returns (err: Err)
      requires Valid()
      requires dest + bytes <= CODE_SIZE && src + bytes <= CODE_SIZE
      requires src + bytes <= dest || dest + bytes <= src
      requires dest % DeviceBlock(dest) == 0 && (dest + bytes <= REGION0_SIZE || dest >= REGION0_SIZE)
      modifies `alive, `script, `blockErased, code, log, block, chunk
      ensures log[..] == old(log[..]) && block[..] == old(block[..])
      ensures bytes % DeviceBlock(dest) != 0 ==>
        err == InvalidArgument && unchanged(this, code, log, block)
      ensures bytes % DeviceBlock(dest) == 0 ==>
        WasCopied(old(Model()), old(code[..]), code[..], dest, src, bytes, alive, script, err)
    {
      hide MachineOf, BootRecord.Parse, DeviceBlock, WasErased, ChunksCopied, WasCopied;
      ghost var start, before := Model(), code[..];
      err := Erase(dest, bytes);
      ghost var a0, s0, mid := alive, script, code[..];
      if err != Success {
        if bytes % DeviceBlock(dest) == 0 {
          EraseEndsCopy(start, before, mid, dest, src, bytes, alive, script, err);
        }
        return;
      }
      WholeUnits(dest, bytes);
      DestinationErased(start, before, mid, dest, bytes, alive, script);
      err := CopyChunks(Powered(start, alive, script), dest, src, bytes);
      EraseThenChunks(start, before, mid, code[..], dest, src, bytes, a0, s0, alive, script, err);
    }

    /** The loop of boot_crc32 over a range of code flash. */
    method Checksum(address: nat, length: nat) returns (crc: word)
      requires Valid() && address + length <= CODE_SIZE
      ensures crc == Crc32.Checksum(Bytes(code[address..address + length]))
    {
      hide Crc32.Absorb, Crc32.Register;
      crc := 0xFFFFFFFF;
      Crc32.NoBytes(0xFFFFFFFF);
      var i := 0;
      ghost var data := Bytes(code[address..address + length]);
      while i < length
        invariant 0 <= i <= length
        invariant crc == Crc32.Register(0xFFFFFFFF, data[..i])
      {
        assert data[..i + 1] == data[..i] + [Shown(code[address + i])];
        Crc32.OneMoreByte(0xFFFFFFFF, data[..i], Shown(code[address + i]));
        crc := Crc32.AbsorbByte(crc, Shown(code[address + i]));
        i := i + 1;
      }
      assert data[..length] == data;
      crc := crc ^ 0xFFFFFFFF;
    }

    /** The checksum of a whole slot is the one of the machine's sectors. */
    method SlotChecksum(base: nat) returns (crc: word)
      requires Valid() && base in {PRIMARY_BASE, SECONDARY_BASE}
      ensures crc == Crc32.Checksum(Flatten(if base == PRIMARY_BASE then Model().primary else Model().secondary))
    {
      hide Bytes, SlotAt, Crc32.Checksum, Flatten;
      crc := Checksum(base, PRIMARY_SIZE);
      FlattenSlot(code[..], base);
      assert code[..][base..base + PRIMARY_SIZE] == code[base..base + PRIMARY_SIZE];
    }

    /** A 32-bit load from code flash. */
    method Fetch(address: nat) returns (w: word)
      requires Valid() && address + 4 <= CODE_SIZE
      ensures w == LoadWord(Bytes(code[address..address + 4]), 0)
    {
      hide Join;
      w := Join(Shown(code[address]), Shown(code[address + 1]), Shown(code[address + 2]), Shown(code[address + 3]));
    }

    /** boot_image_ok_at */
    method ImageOkAt(base: nat, linkBase: word, size: word) returns (ok: bool)
      requires Valid() && base + 8 <= CODE_SIZE
      ensures ok == VectorsOk(LoadWord(Bytes(code[base..base + 4]), 0), LoadWord(Bytes(code[base + 4..base + 8]), 0),
                              linkBase, size)
    {
      hide Bytes, Join, LoadWord, ErasedVectors, StackOk, Thumb, Handler, InRegion;
      var sp := Fetch(base);
      var pc := Fetch(base + 4);
      if ErasedVectors(sp, pc) {
        return false;
      }
      if !StackOk(sp) {
        return false;
      }
      if !Thumb(pc) {
        return false;
      }
      var handler := Handler(pc);
      if !InRegion(handler, linkBase, size) {
        return false;
      }
      return true;
    }

    /** boot_primary_image_ok */
    method PrimaryImageOk() returns (ok: bool)
      requires Valid()
      ensures ok == ImageOk(Model().primary)
    {
      hide VectorsOk;
      ok := ImageOkAt(PRIMARY_BASE, 0x10000, 0x18000);
      VectorsOfSlot(code[..], PRIMARY_BASE);
      assert code[..][PRIMARY_BASE..PRIMARY_BASE + 4] == code[PRIMARY_BASE..PRIMARY_BASE + 4];
      assert code[..][PRIMARY_BASE + 4..PRIMARY_BASE + 8] == code[PRIMARY_BASE + 4..PRIMARY_BASE + 8];
    }

    /** boot_secondary_image_ok: a staged image is linked for the primary slot. */
    method SecondaryImageOk() returns (ok: bool)
      requires Valid()
      ensures ok == ImageOk(Model().secondary)
    {
      hide VectorsOk;
      ok := ImageOkAt(SECONDARY_BASE, 0x10000, 0x18000);
      VectorsOfSlot(code[..], SECONDARY_BASE);
      assert code[..][SECONDARY_BASE..SECONDARY_BASE + 4] == code[SECONDARY_BASE..SECONDARY_BASE + 4];
      assert code[..][SECONDARY_BASE + 4..SECONDARY_BASE + 8] == code[SECONDARY_BASE + 4..SECONDARY_BASE + 8];
    }

    /** boot_record_read, from the record block of this board. */
    method ReadRecord() returns (r: Option<BootRecord.Record>)
      requires Valid()
      ensures r == Model().record
    {
      hide BootRecord.Parse;
      r := BootRecord.Read(block);
    }

    /** What the mailbox RAM holds. */
    method ReadMail() returns (m: Mailbox.Mail)
      requires Valid()
      ensures m == Model().mail
    {
      hide BootRecord.Parse, Bytes, SlotAt;
      m := ram.Contents();
    }

    /** A copy between regions, seen as a step of the machine. */
    method CopyRegion(dest: Region, src: Region) returns (err: Err)
      requires Valid() && InFlash(dest) && InFlash(src) && dest != src
      modifies `alive, `script, `blockErased, code, log, block, chunk
      ensures
        var d := Copy(old(Model()), dest, src);
        Model() == d.m && err == d.err
    {
      hide BootRecord.Parse, MachineOf, WasCopied, Copy;
      ghost var m, before := Model(), code[..];
      RegionsAreDisjoint(dest, src);
      err := CopyRange(AddressOf(dest), AddressOf(src), SECTOR_SIZE);
      CopyOfRegions(m, before, code[..], dest, src, alive, script, err);
    }
  }
}
