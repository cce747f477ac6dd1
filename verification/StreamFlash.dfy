/** The streaming flash of src/aboot.c: a producer that downloads chunks into two buffers, and a reader
    thread that passes them on to a pipe. Every schedule of their steps is a run; the pipe stays intact and
    downloads and writes complete. */
module StreamFlash {
  import opened Common
  import opened Bytes

  datatype Thread = Producer | Reader

  /** A piece of the stream and where it came from. */
  datatype Chunk = Chunk(start: nat, bytes: seq<byte>)

  /** struct buffer; `start` says where in the stream the data came from. */
  datatype Buffer = Buffer(start: nat, data: seq<byte>, len: nat, owner: Option<Thread>)

  /** Where the producer is: at the head of its loop, holding a lock, having downloaded, having set the
      length, having unlocked, past the loop, and at the end. */
  datatype ProducerAt = PTop | PHeld | PSet | PUnlock | PCount | PExit | PDone

  /** Where the reader is: at the head of its loop, holding a lock, having released an empty buffer, having
      written, having cleared the length, and at the end. */
  datatype ReaderAt = RTop | RHeld | RTest | RClear | RUnlock | RDone

  datatype State = State(
    bufs: seq<Buffer>, finished: nat, size: nat, pi: nat, p: ProducerAt,
    ri: nat, r: ReaderAt, empties: nat, writerFinished: bool,
    log: seq<Chunk>, made: seq<Chunk>)

  predicate Shaped(s: State) { |s.bufs| == 2 && s.pi < 2 && s.ri < 2 }

  function Min(a: nat, b: nat): nat { if a < b then a else b }

  /** The first chunk is downloaded before the reader starts. */
  function Start(stream: seq<byte>, max: nat): State {
    var size := Min(|stream|, max);
    var first := stream[..size];
    State([Buffer(0, first, size, None), Buffer(0, [], 0, None)], size, size, 1, PTop,
          0, RTop, 0, false, [], if size > 0 then [Chunk(0, first)] else [])
  }

  function Content(b: Buffer): Chunk
    requires b.len <= |b.data|
  {
    Chunk(b.start, b.data[..b.len])
  }

  // ----- Steps

  function Next(i: nat): (j: nat)
    requires i < 2
    ensures j == 1 - i
  {
    (i + 1) % 2
  }

  /** One step of the producer; a step that waits for a lock changes nothing. */
  function ProducerStep(s: State, stream: seq<byte>): (t: State)
    requires Shaped(s)
    ensures Shaped(t)
  {
    var b := s.bufs[s.pi];
    match s.p
    case PTop =>
      if s.finished >= |stream| then s.(p := PExit)
      else if b.owner.Some? then s
      else s.(bufs := s.bufs[s.pi := b.(owner := Some(Producer))], p := PHeld)
    case PHeld =>
      if b.len != 0 then s.(bufs := s.bufs[s.pi := b.(owner := None)], pi := Next(s.pi), p := PTop)
      else
        var size := if s.finished + s.size > |stream| && s.finished <= |stream| then |stream| - s.finished else s.size;
        var data := if s.finished + size <= |stream| then stream[s.finished..s.finished + size] else [];
        s.(bufs := s.bufs[s.pi := b.(start := s.finished, data := data)], size := size, p := PSet)
    case PSet =>
      s.(bufs := s.bufs[s.pi := b.(len := s.size)], made := s.made + [Chunk(b.start, b.data)], p := PUnlock)
    case PUnlock => s.(bufs := s.bufs[s.pi := b.(owner := None)], pi := Next(s.pi), p := PCount)
    case PCount => s.(finished := s.finished + s.size, p := PTop)
    case PExit => s.(writerFinished := true, p := PDone)
    case PDone => s
  }

  function ReaderStep(s: State): (t: State)
    requires Shaped(s)
    ensures Shaped(t)
  {
    var b := s.bufs[s.ri];
    match s.r
    case RTop =>
      if s.empties >= 2 then s.(r := RDone)
      else if b.owner.Some? then s
      else s.(bufs := s.bufs[s.ri := b.(owner := Some(Reader))], r := RHeld)
    case RHeld =>
      if b.len == 0 then s.(bufs := s.bufs[s.ri := b.(owner := None)], r := RTest)
      else s.(log := s.log + [if b.len <= |b.data| then Content(b) else Chunk(b.start, b.data)], r := RClear)
    case RTest =>
      s.(empties := if s.writerFinished then s.empties + 1 else s.empties, ri := Next(s.ri), r := RTop)
    case RClear => s.(bufs := s.bufs[s.ri := b.(len := 0)], r := RUnlock)
    case RUnlock => s.(bufs := s.bufs[s.ri := b.(owner := None)], ri := Next(s.ri), r := RTop)
    case RDone => s
  }

  function Step(s: State, stream: seq<byte>, who: Thread): (t: State)
    requires Shaped(s)
    ensures Shaped(t)
  {
    match who
    case Producer => ProducerStep(s, stream)
    case Reader => ReaderStep(s)
  }

  /** The state after a schedule. */
  function After(s: State, stream: seq<byte>, schedule: seq<Thread>): (t: State)
    requires Shaped(s)
    ensures Shaped(t)
    decreases |schedule|
  {
    if schedule == [] then s else After(Step(s, stream, schedule[0]), stream, schedule[1..])
  }

  // ----- What every step keeps

  predicate ProducerHolds(p: ProducerAt) { p.PHeld? || p.PSet? || p.PUnlock? }

  predicate ReaderHolds(r: ReaderAt) { r.RHeld? || r.RClear? || r.RUnlock? }

  /** Whoever is inside a lock owns it, and nobody else does. */
  predicate OwnerOk(s: State, k: nat)
    requires Shaped(s) && k < 2
  {
    s.bufs[k].owner ==
    if ProducerHolds(s.p) && s.pi == k then Some(Producer)
    else if ReaderHolds(s.r) && s.ri == k then Some(Reader)
    else None
  }

  /** The bytes whose buffer length has been set. */
  function Published(s: State): nat {
    if s.p.PUnlock? || s.p.PCount? then s.finished + s.size else s.finished
  }

  /** Buffer `k` holds a chunk that has not been written yet. */
  predicate Waiting(s: State, k: nat)
    requires Shaped(s) && k < 2
  {
    s.bufs[k].len > 0 && !(s.r.RClear? && s.ri == k)
  }

  /** What a buffer holds is a piece of the stream. */
  predicate BufferOk(b: Buffer, stream: seq<byte>) {
    b.len > 0 ==> |b.data| == b.len && b.start + b.len <= |stream| && b.data == stream[b.start..b.start + b.len]
  }

  function InBuffer(s: State, k: nat): seq<Chunk>
    requires Shaped(s) && k < 2
  {
    if Waiting(s, k) then [Chunk(s.bufs[k].start, s.bufs[k].data)] else []
  }

  function Written(log: seq<Chunk>): nat {
    if log == [] then 0 else Written(log[..|log| - 1]) + |log[|log| - 1].bytes|
  }

  function WaitingBytes(s: State, k: nat): nat
    requires Shaped(s) && k < 2
  {
    if Waiting(s, k) then s.bufs[k].len else 0
  }

  /** The chunks are consecutive, non-empty pieces of the stream, up to `n`. */
  ghost predicate Cuts(made: seq<Chunk>, stream: seq<byte>, n: nat) {
    && (made == [] ==> n == 0)
    && (forall i | 0 <= i < |made| :: |made[i].bytes| > 0 && IsPiece(made[i], stream))
    && (forall i | 0 < i < |made| :: made[i].start == End(made[i - 1]))
    && (made != [] ==> made[0].start == 0 && n == End(made[|made| - 1]))
  }

  function End(c: Chunk): nat { c.start + |c.bytes| }

  predicate IsPiece(c: Chunk, stream: seq<byte>) { End(c) <= |stream| && c.bytes == stream[c.start..End(c)] }

  /** Who holds what, and that what is in a buffer is a piece of the stream. */
  predicate Control(s: State, stream: seq<byte>) {
    && Shaped(s) && s.finished <= |stream| && (s.finished < |stream| ==> s.size > 0)
    && OwnerOk(s, 0) && OwnerOk(s, 1) && BufferOk(s.bufs[0], stream) && BufferOk(s.bufs[1], stream)
    && !(ProducerHolds(s.p) && ReaderHolds(s.r) && s.pi == s.ri)
    && ProducerOk(s, stream) && ReaderOk(s)
  }

  /** Every chunk that was made is either in a buffer or in the pipe, and the bytes add up. */
  ghost predicate Ledger(s: State, stream: seq<byte>)
    requires Shaped(s)
  {
    && Cuts(s.made, stream, Published(s))
    && multiset(s.log) + multiset(InBuffer(s, 0)) + multiset(InBuffer(s, 1)) == multiset(s.made)
    && Written(s.log) + WaitingBytes(s, 0) + WaitingBytes(s, 1) == Published(s)
  }

  ghost predicate Inv(s: State, stream: seq<byte>) { Control(s, stream) && Ledger(s, stream) }

  predicate ProducerOk(s: State, stream: seq<byte>)
    requires Shaped(s)
  {
    var b := s.bufs[s.pi];
    && (s.p.PHeld? ==> s.finished < |stream|)
    && (s.p.PSet? || s.p.PUnlock? || s.p.PCount? ==> s.size > 0 && s.finished + s.size <= |stream|)
    && (s.p.PSet? ==> b.len == 0 && b.start == s.finished && b.data == stream[s.finished..s.finished + s.size])
    && (s.p.PUnlock? ==> b.len == s.size)
    && (s.p.PExit? || s.p.PDone? ==> s.finished == |stream|)
    && (s.writerFinished <==> s.p.PDone?)
  }

  predicate ReaderOk(s: State)
    requires Shaped(s)
  {
    && (s.r.RClear? ==> s.bufs[s.ri].len > 0 && s.log != []
                        && s.log[|s.log| - 1] == Chunk(s.bufs[s.ri].start, s.bufs[s.ri].data))
    && (s.r.RUnlock? ==> s.bufs[s.ri].len == 0)
    && (!s.writerFinished ==> s.empties == 0)
    && (s.r.RDone? ==> s.empties >= 2)
  }

  lemma StartIsFine(stream: seq<byte>, max: nat)
    requires max > 0
    ensures Inv(Start(stream, max), stream)
  {
    var s := Start(stream, max);
    assert s.bufs[1].len == 0;
  }

  lemma CutsPlus(made: seq<Chunk>, stream: seq<byte>, n: nat, c: Chunk)
    requires Cuts(made, stream, n) && c.start == n && |c.bytes| > 0 && IsPiece(c, stream)
    ensures Cuts(made + [c], stream, n + |c.bytes|)
  {
  }

  lemma WrittenPlus(log: seq<Chunk>, c: Chunk)
    ensures Written(log + [c]) == Written(log) + |c.bytes|
  {
    assert (log + [c])[..|log|] == log;
  }

  lemma ProducerLocks(s: State, stream: seq<byte>)
    requires Control(s, stream) && s.p.PTop?
    ensures Control(ProducerStep(s, stream), stream)
  {
  }

  lemma ProducerSkips(s: State, stream: seq<byte>)
    requires Control(s, stream) && s.p.PHeld? && s.bufs[s.pi].len != 0
    ensures Control(ProducerStep(s, stream), stream)
  {
  }

  lemma ProducerDownloads(s: State, stream: seq<byte>)
    requires Control(s, stream) && s.p.PHeld? && s.bufs[s.pi].len == 0
    ensures Control(ProducerStep(s, stream), stream)
  {
  }

  lemma ProducerSets(s: State, stream: seq<byte>)
    requires Control(s, stream) && s.p.PSet?
    ensures Control(ProducerStep(s, stream), stream)
  {
  }

  lemma ProducerUnlocks(s: State, stream: seq<byte>)
    requires Control(s, stream) && s.p.PUnlock?
    ensures Control(ProducerStep(s, stream), stream)
  {
  }

  lemma ProducerGoesOn(s: State, stream: seq<byte>)
    requires Control(s, stream) && (s.p.PCount? || s.p.PExit? || s.p.PDone?)
    ensures Control(ProducerStep(s, stream), stream)
  {
  }

  lemma ReaderLocks(s: State, stream: seq<byte>)
    requires Control(s, stream) && s.r.RTop? && s.empties < 2 && s.bufs[s.ri].owner.None?
    ensures Control(ReaderStep(s), stream)
  {
  }

  lemma ReaderSkips(s: State, stream: seq<byte>)
    requires Control(s, stream) && s.r.RHeld? && s.bufs[s.ri].len == 0
    ensures Control(ReaderStep(s), stream)
  {
  }

  lemma ReaderWrites(s: State, stream: seq<byte>)
    requires Control(s, stream) && s.r.RHeld? && s.bufs[s.ri].len != 0
    ensures Control(ReaderStep(s), stream)
  {
  }

  lemma ReaderTests(s: State, stream: seq<byte>)
    requires Control(s, stream) && (s.r.RTest? || s.r.RDone? || (s.r.RTop? && (s.empties >= 2 || s.bufs[s.ri].owner.Some?)))
    ensures Control(ReaderStep(s), stream)
  {
  }

  lemma ReaderClears(s: State, stream: seq<byte>)
    requires Control(s, stream) && s.r.RClear?
    ensures Control(ReaderStep(s), stream)
  {
  }

  lemma ReaderUnlocks(s: State, stream: seq<byte>)
    requires Control(s, stream) && s.r.RUnlock?
    ensures Control(ReaderStep(s), stream)
  {
  }

  lemma ProducerControl(s: State, stream: seq<byte>)
    requires Control(s, stream)
    ensures Control(ProducerStep(s, stream), stream)
  {
    hide OwnerOk, BufferOk, ProducerOk, ReaderOk, ProducerStep;
    match s.p
    case PTop => ProducerLocks(s, stream);
    case PHeld =>
      if s.bufs[s.pi].len != 0 {
        ProducerSkips(s, stream);
      } else {
        ProducerDownloads(s, stream);
      }
    case PSet => ProducerSets(s, stream);
    case PUnlock => ProducerUnlocks(s, stream);
    case _ => ProducerGoesOn(s, stream);
  }

  lemma ReaderControl(s: State, stream: seq<byte>)
    requires Control(s, stream)
    ensures Control(ReaderStep(s), stream)
  {
    hide OwnerOk, BufferOk, ProducerOk, ReaderOk, ReaderStep;
    match s.r
    case RTop =>
      if s.empties < 2 && s.bufs[s.ri].owner.None? {
        ReaderLocks(s, stream);
      } else {
        ReaderTests(s, stream);
      }
    case RHeld =>
      if s.bufs[s.ri].len == 0 {
        ReaderSkips(s, stream);
      } else {
        ReaderWrites(s, stream);
      }
    case RClear => ReaderClears(s, stream);
    case RUnlock => ReaderUnlocks(s, stream);
    case _ => ReaderTests(s, stream);
  }

  // ----- The ledger

  /** Nothing that the ledger counts has changed. */
  predicate SameBooks(s: State, t: State)
    requires Shaped(s) && Shaped(t)
  {
    && s.log == t.log && s.made == t.made && Published(s) == Published(t)
    && InBuffer(s, 0) == InBuffer(t, 0) && InBuffer(s, 1) == InBuffer(t, 1)
    && WaitingBytes(s, 0) == WaitingBytes(t, 0) && WaitingBytes(s, 1) == WaitingBytes(t, 1)
  }

  lemma SameLedger(s: State, t: State, stream: seq<byte>)
    requires Shaped(s) && Shaped(t) && SameBooks(s, t) && Ledger(s, stream)
    ensures Ledger(t, stream)
  {
  }

  lemma ProducerBooks(s: State, stream: seq<byte>)
    requires Control(s, stream) && !s.p.PSet?
    ensures SameBooks(s, ProducerStep(s, stream))
  {
    hide OwnerOk, BufferOk, ReaderOk;
  }

  lemma ReaderBooks(s: State, stream: seq<byte>)
    requires Control(s, stream) && !(s.r.RHeld? && s.bufs[s.ri].len != 0)
    ensures SameBooks(s, ReaderStep(s))
  {
    hide OwnerOk, BufferOk, ProducerOk;
  }

  /** Buffer `k` is the only one whose books change. */
  predicate OtherSame(s: State, t: State, k: nat)
    requires Shaped(s) && Shaped(t) && k < 2
  {
    InBuffer(s, 1 - k) == InBuffer(t, 1 - k) && WaitingBytes(s, 1 - k) == WaitingBytes(t, 1 - k)
  }

  predicate HasJust(s: State, k: nat, c: Chunk)
    requires Shaped(s) && k < 2
  {
    InBuffer(s, k) == [c] && WaitingBytes(s, k) == |c.bytes|
  }

  predicate HasNothing(s: State, k: nat)
    requires Shaped(s) && k < 2
  {
    InBuffer(s, k) == [] && WaitingBytes(s, k) == 0
  }

  lemma Entered(s: State, t: State, k: nat, c: Chunk, stream: seq<byte>)
    requires Shaped(s) && Shaped(t) && k < 2 && Ledger(s, stream) && OtherSame(s, t, k)
    requires HasNothing(s, k) && HasJust(t, k, c) && t.log == s.log && t.made == s.made + [c]
    requires Cuts(t.made, stream, Published(t)) && Published(t) == Published(s) + |c.bytes|
    ensures Ledger(t, stream)
  {
    hide InBuffer, WaitingBytes, Published, Cuts, Written;
    assert multiset(t.made) == multiset(s.made) + multiset([c]);
  }

  lemma PassedOn(s: State, t: State, k: nat, c: Chunk, stream: seq<byte>)
    requires Shaped(s) && Shaped(t) && k < 2 && Ledger(s, stream) && OtherSame(s, t, k)
    requires HasJust(s, k, c) && HasNothing(t, k) && t.log == s.log + [c] && t.made == s.made && Published(t) == Published(s)
    ensures Ledger(t, stream)
  {
    hide InBuffer, WaitingBytes, Published, Cuts, Written;
    WrittenPlus(s.log, c);
    assert multiset(t.log) == multiset(s.log) + multiset([c]);
  }

  lemma ProducerPublishes(s: State, stream: seq<byte>)
    requires Control(s, stream) && Ledger(s, stream) && s.p.PSet?
    ensures Ledger(ProducerStep(s, stream), stream)
  {
    hide Cuts, Written, OwnerOk, BufferOk, ReaderOk;
    var t, c := ProducerStep(s, stream), Chunk(s.bufs[s.pi].start, s.bufs[s.pi].data);
    CutsPlus(s.made, stream, Published(s), c);
    Entered(s, t, s.pi, c, stream);
  }

  lemma ReaderPassesOn(s: State, stream: seq<byte>)
    requires Control(s, stream) && Ledger(s, stream) && s.r.RHeld? && s.bufs[s.ri].len != 0
    ensures Ledger(ReaderStep(s), stream)
  {
    hide Cuts, Written, OwnerOk, ProducerOk, ReaderOk, Ledger;
    var t, b := ReaderStep(s), s.bufs[s.ri];
    assert BufferOk(b, stream);
    assert b.data[..b.len] == b.data;
    PassedOn(s, t, s.ri, Chunk(b.start, b.data), stream);
  }

  lemma StepKeeps(s: State, stream: seq<byte>, who: Thread)
    requires Inv(s, stream)
    ensures Inv(Step(s, stream, who), stream)
  {
    hide OwnerOk, BufferOk, ProducerOk, ReaderOk, Ledger, ProducerStep, ReaderStep, SameBooks;
    match who
    case Producer =>
      ProducerControl(s, stream);
      if s.p.PSet? {
        ProducerPublishes(s, stream);
      } else {
        ProducerBooks(s, stream);
        SameLedger(s, ProducerStep(s, stream), stream);
      }
    case Reader =>
      ReaderControl(s, stream);
      if s.r.RHeld? && s.bufs[s.ri].len != 0 {
        ReaderPassesOn(s, stream);
      } else {
        ReaderBooks(s, stream);
        SameLedger(s, ReaderStep(s), stream);
      }
  }

  /** Every state of every schedule. */
  lemma {:induction false} EverySchedule(s: State, stream: seq<byte>, schedule: seq<Thread>)
    requires Inv(s, stream)
    ensures Inv(After(s, stream, schedule), stream)
    decreases |schedule|
  {
    hide Ledger, Step;
    if schedule != [] {
      StepKeeps(s, stream, schedule[0]);
      EverySchedule(Step(s, stream, schedule[0]), stream, schedule[1..]);
    }
  }
}
