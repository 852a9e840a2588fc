/** What every flash operation keeps, whatever its script. */
module DriverFacts {
  import opened Layout
  import opened BootRecord
  import opened FlashModel
  import opened SwapModel

  /** Driver calls that report success did what was asked. */
  ghost predicate Honest(m: Machine) {
    forall e :: e in m.script ==> e.outcome != Lie
  }

  /** Driver calls either work or are cut. */
  ghost predicate Fair(m: Machine) {
    forall e :: e in m.script ==> e.outcome == Good || e.outcome == Cut
  }

  /** The same, and a log word whose programming is cut is programmed or stays blank. */
  ghost predicate Clean(m: Machine) {
    forall e :: e in m.script ==> (e.outcome == Good || e.outcome == Cut) && e.fate != Torn
  }

  lemma CleanIsHonest(m: Machine)
    ensures Clean(m) ==> Fair(m)
    ensures Fair(m) ==> Honest(m)
  {
  }

  /** A commit that succeeds has written what was asked for: the driver is honest, or there is no record to survive. */
  ghost predicate Sure(m: Machine) {
    Honest(m) || m.record == None
  }

  const WORKS: Event := Event(Good, Untouched, [])

  /** There is power, and it stays: every driver call works. */
  ghost predicate Calm(m: Machine) {
    m.alive && forall e :: e in m.script ==> e.outcome == Good
  }

  /**
   `n` follows `m` after some driver calls: less script, power only ever goes away and only where the script says so,
   and the bootloader's own flash is untouched.
   */
  ghost predicate Later(m: Machine, n: Machine) {
    && (n.alive ==> m.alive)
    && (Calm(m) ==> Calm(n))
    && (Honest(m) ==> Honest(n))
    && (Fair(m) ==> Fair(n))
    && (Clean(m) ==> Clean(n))
    && n.low == m.low
  }

  /** Nothing but the script and the power differs. */
  ghost predicate SameFlash(m: Machine, n: Machine) {
    n == m.(script := n.script, alive := n.alive)
  }

  lemma AfterFacts(m: Machine)
    ensures Later(m, After(m)) && SameFlash(m, After(m))
    ensures m.alive ==> (After(m).alive <==> Meet(m).outcome != Cut)
    ensures m.alive && Fair(m) ==> Meet(m).outcome in {Good, Cut}
    ensures m.alive && Clean(m) ==> Meet(m).fate != Torn
    ensures Honest(m) ==> Meet(m).outcome != Lie
  {
  }

  /** What a copy onto one destination range promises. */
  ghost predicate Moves(m: Machine, data: seq<byte>, now: seq<byte>, r: Moved) {
    && Later(m, r.m) && SameFlash(m, r.m)
    && (r.err == Success ==> r.m.alive == m.alive)
    && (r.err == Success && Honest(m) ==> r.now == data)
    && (m.alive && Fair(m) && r.m.alive ==> r.err == Success)
    && (!m.alive ==> r.m == m && r.now == now)
  }

  lemma LaterTrans(m: Machine, n: Machine, o: Machine)
    requires Later(m, n) && Later(n, o)
    ensures Later(m, o)
    ensures SameFlash(m, n) && SameFlash(n, o) ==> SameFlash(m, o)
  {
  }

  lemma WriteMoves(m: Machine, now: seq<byte>, chunk: seq<byte>)
    requires |now| == |chunk|
    ensures Moves(m, chunk, now, WriteRange(m, now, chunk))
    ensures !m.alive ==> WriteRange(m, now, chunk).err != Success
  {
    hide Later, Honest, Fair, Clean, Calm;
    AfterFacts(m);
  }

  lemma SpliceFacts(now: seq<byte>, at: nat, part: seq<byte>)
    requires at + |part| <= |now|
    ensures
      var next := Splice(now, at, part);
      && next[..at + |part|] == now[..at] + part
      && (part == now[at..at + |part|] ==> next == now)
  {
  }

  /** The loop of the copy, once the bytes before `offset` are in place. */
  lemma {:induction false} ProgramChunksMoves(m: Machine, data: seq<byte>, now: seq<byte>, offset: nat)
    requires |now| == |data| && offset <= |data| && now[..offset] == data[..offset]
    ensures Moves(m, data, now, ProgramChunks(m, data, now, offset))
    decreases |data| - offset
  {
    hide WriteRange, Splice, Later, Honest, Fair, Clean, Calm, ChunkAt;
    LaterRefl(m);
    if offset < |data| {
      var n := ChunkAt(|data|, offset);
      var chunk := data[offset..offset + n];
      var w := WriteRange(m, now[offset..offset + n], chunk);
      var next := Splice(now, offset, w.now);
      WriteMoves(m, now[offset..offset + n], chunk);
      SpliceFacts(now, offset, w.now);
      if w.err == Success {
        if w.now == chunk {
          assert data[..offset + n] == data[..offset] + chunk;
          ProgramChunksMoves(w.m, data, next, offset + n);
        } else {
          ProgramChunksKeeps(w.m, data, next, offset + n);
        }
        LaterTrans(m, w.m, ProgramChunks(w.m, data, next, offset + n).m);
        LaterKeeps(m, w.m);
      }
    } else {
      assert now == now[..offset] && data == data[..offset];
    }
  }

  lemma LaterRefl(m: Machine)
    ensures Later(m, m)
  {
  }

  lemma LaterKeeps(m: Machine, n: Machine)
    requires Later(m, n)
    ensures (Honest(m) ==> Honest(n)) && (Fair(m) ==> Fair(n)) && (Clean(m) ==> Clean(n))
  {
  }

  /** Once a chunk went wrong the rest of the loop still keeps the rest of the machine. */
  lemma {:induction false} ProgramChunksKeeps(m: Machine, data: seq<byte>, now: seq<byte>, offset: nat)
    requires |now| == |data| && offset <= |data|
    ensures
      var r := ProgramChunks(m, data, now, offset);
      && Later(m, r.m) && SameFlash(m, r.m)
      && (r.err == Success ==> r.m.alive == m.alive)
      && (m.alive && Fair(m) && r.m.alive ==> r.err == Success)
    decreases |data| - offset
  {
    if offset < |data| {
      var n := ChunkAt(|data|, offset);
      var w := WriteRange(m, now[offset..offset + n], data[offset..offset + n]);
      AfterFacts(m);
      if w.err == Success {
        ProgramChunksKeeps(w.m, data, Splice(now, offset, w.now), offset + n);
      }
    }
  }

  lemma TransferMoves(m: Machine, data: seq<byte>, now: seq<byte>)
    requires |now| == |data|
    ensures Moves(m, data, now, Transfer(m, data, now))
  {
    var e := EraseRange(m, now);
    AfterFacts(m);
    if e.err == Success {
      ProgramChunksMoves(e.m, data, e.now, 0);
    }
  }

  /** `n` is `m` with the region `dest` holding something else. */
  ghost predicate OnlyRegion(m: Machine, n: Machine, dest: Region)
    requires InFlash(dest)
  {
    SameFlash(Put(m, dest, Content(n, dest)), n)
  }

  lemma CopyFacts(m: Machine, dest: Region, src: Region)
    requires InFlash(dest) && InFlash(src)
    ensures
      var c := Copy(m, dest, src);
      && Later(m, c.m) && OnlyRegion(m, c.m, dest)
      && (c.err == Success ==> c.m.alive == m.alive)
      && (c.err == Success && Honest(m) ==> Content(c.m, dest) == Content(m, src))
      && (m.alive && Fair(m) && c.m.alive ==> c.err == Success)
      && (!m.alive ==> c.m == m && c.err != Success)
  {
    var data, now := Content(m, src), Content(m, dest);
    TransferMoves(m, data, now);
    var t := Transfer(m, data, now);
    if !m.alive {
      assert Put(m, dest, now) == m;
    }
  }

  lemma EraseLogFacts(m: Machine)
    ensures
      var d := EraseLog(m);
      && Later(m, d.m) && SameFlash(m.(log := d.m.log), d.m)
      && (forall i :: 0 <= i < LOG_WORDS ==> d.m.log[i] == m.log[i] || d.m.log[i].Blank?)
      && (d.err == Success ==> d.m.alive == m.alive)
      && (d.err == Success && Honest(m) ==> forall i :: 0 <= i < LOG_WORDS ==> d.m.log[i].Blank?)
      && (m.alive && Fair(m) && d.m.alive ==> d.err == Success)
      && (!m.alive ==> d.m == m && d.err != Success)
  {
    AfterFacts(m);
  }

  lemma BlankCheckFacts(m: Machine, first: nat, count: nat)
    requires first + count <= LOG_WORDS
    ensures
      var b := BlankCheck(m, first, count);
      && Later(m, b.m) && SameFlash(m, b.m)
      && (b.err == Success ==> b.m.alive == m.alive)
      && (b.err == Success ==> (b.blank <==> forall i :: first <= i < first + count ==> m.log[i].Blank?))
      && (m.alive && Fair(m) && b.m.alive ==> b.err == Success)
      && (!m.alive ==> b.m == m && b.err != Success)
  {
    AfterFacts(m);
  }

  lemma WriteLogFacts(m: Machine, i: nat, v: word)
    requires i < LOG_WORDS
    ensures
      var d := WriteLog(m, i, v);
      && Later(m, d.m) && SameFlash(m.(log := m.log[i := d.m.log[i]]), d.m)
      && (d.err == Success ==> d.m.alive == m.alive && d.m.log[i] == Programmed(v))
      && (d.m.log[i] == m.log[i] || d.m.log[i].Programmed?)
      && (m.alive && Fair(m) && d.m.alive ==> d.m.log[i] == m.log[i] || d.m.log[i] == Programmed(v))
      && (m.alive && Clean(m) ==> d.m.log[i] == m.log[i] || d.m.log[i] == Programmed(v))
      && (m.alive && Fair(m) && d.m.alive && m.log[i].Blank? ==> d.err == Success)
      && (!m.alive ==> d.m == m && d.err != Success)
  {
    AfterFacts(m);
    assert m.log[i := m.log[i]] == m.log;
  }

  lemma EraseRecordFacts(m: Machine)
    ensures
      var d := EraseRecord(m);
      && Later(m, d.m) && SameFlash(m.(record := d.m.record), d.m)
      && d.m.record in {m.record, None}
      && (d.err == Success ==> d.m.alive == m.alive)
      && (m.alive && Fair(m) && d.m.alive ==> d.err == Success)
      && (!m.alive ==> d.m == m && d.err != Success)
  {
    hide HalfWritten;
    AfterFacts(m);
  }

  lemma WriteRecordFacts(m: Machine, r: Record)
    ensures
      var d := WriteRecord(m, r);
      && Later(m, d.m) && SameFlash(m.(record := d.m.record), d.m)
      && d.m.record in {m.record, None, Some(r)}
      && (d.err == Success ==> d.m.alive == m.alive)
      && (d.err == Success && Honest(m) ==> d.m.record == Some(r))
      && (m.alive && Fair(m) && d.m.alive ==> d.err == Success && d.m.record == Some(r))
      && (!m.alive ==> d.m == m && d.err != Success)
  {
    hide HalfWritten;
    AfterFacts(m);
  }

  /**
   A commit, complete or not: the record is the one before, none, or the one asked for. Success means there is a record,
   and the one asked for unless the driver lied and there was another to stay in place.
   */
  lemma CommitFacts(m: Machine, r: Record)
    ensures
      var d := Commit(m, r);
      && Later(m, d.m) && SameFlash(m.(record := d.m.record), d.m)
      && d.m.record in {m.record, None, Some(r)}
      && (d.err == Success ==> d.m.alive == m.alive && d.m.record.Some?)
      && (d.err == Success && Sure(m) ==> d.m.record == Some(r))
      && (m.alive && Fair(m) && d.m.alive ==> d.err == Success && d.m.record == Some(r))
      && (!m.alive ==> d.m == m && d.err != Success)
  {
    hide EraseRecord, WriteRecord, Honest, Fair, Clean, Calm;
    CleanIsHonest(m);
    EraseRecordFacts(m);
    WriteRecordFacts(EraseRecord(m).m, r);
  }

  // ----- A commit that lies -----

  /** A call that reports success and leaves a block that reads as `b` does. */
  function LieOf(b: Block): Event {
    Event(Lie, Untouched, b)
  }

  lemma LieReads(b: Block, candidates: set<Option<Record>>)
    requires Parse(b) in candidates
    ensures HalfWritten(LieOf(b), candidates) == Parse(b)
  {
    assert NoiseBytes(LieOf(b), RECORD_SIZE) == b;
  }

  /** Erase and program both report success and have no effect: the read-back finds a record, and it is the old one. */
  lemma LyingCommitKeepsRecord(m: Machine, r: Record)
    requires m.record.Some? && m.alive
    requires m.script == [LieOf(Encode(m.record.value)), LieOf(Encode(m.record.value))]
    ensures Commit(m, r) == Done(m.(script := []), Success)
  {
    hide Parse, Encode, HalfWritten;
    var b := Encode(m.record.value);
    EncodeThenParse(m.record.value);
    LieReads(b, {m.record});
    LieReads(b, {Some(r), m.record});
    assert EraseRecord(m) == Done(m.(script := [LieOf(b)]), Success);
    assert WriteRecord(EraseRecord(m).m, r) == Done(m.(script := []), Success);
  }

  /**
   The read-back of a commit is enough, whatever the driver does, if and only if there was no other record that could
   have stayed in place.
   */
  lemma ReadBackSufficesExactly(m: Machine, r: Record)
    ensures
      (forall script: seq<Event> ::
         var d := Commit(m.(alive := true, script := script), r);
         d.err == Success ==> d.m.record == Some(r))
      <==> m.record in {None, Some(r)}
  {
    hide Commit, Encode;
    if m.record in {None, Some(r)} {
      forall script: seq<Event>
        ensures
          var d := Commit(m.(alive := true, script := script), r);
          d.err == Success ==> d.m.record == Some(r)
      {
        CommitFacts(m.(alive := true, script := script), r);
      }
    } else {
      var lie := LieOf(Encode(m.record.value));
      var on := m.(alive := true, script := [lie, lie]);
      LyingCommitKeepsRecord(on, r);
      assert Commit(on, r).err == Success && Commit(on, r).m.record != Some(r);
    }
  }
}
