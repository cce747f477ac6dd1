/** What holds in every run of the streaming flash, and exactly when the last chunk is delivered. */
module StreamRuns {
  import opened Common
  import opened Bytes
  import opened StreamFlash

  // ----- Each chunk once

  lemma CutsInit(made: seq<Chunk>, stream: seq<byte>, n: nat)
    requires Cuts(made, stream, n) && made != []
    ensures Cuts(made[..|made| - 1], stream, made[|made| - 1].start)
  {
  }

  lemma {:induction false} ChunksEnd(made: seq<Chunk>, stream: seq<byte>, n: nat, c: Chunk)
    requires Cuts(made, stream, n) && c in made
    ensures |c.bytes| > 0 && End(c) <= n
  {
    var last := made[|made| - 1];
    if c != last {
      CutsInit(made, stream, n);
      ChunksEnd(made[..|made| - 1], stream, last.start, c);
    }
  }

  lemma {:induction false} MadeOnce(made: seq<Chunk>, stream: seq<byte>, n: nat, c: Chunk)
    requires Cuts(made, stream, n) && c in made
    ensures multiset(made)[c] == 1
  {
    hide Cuts;
    var init, last := made[..|made| - 1], made[|made| - 1];
    CutsInit(made, stream, n);
    assert made == init + [last];
    if c in init {
      ChunksEnd(init, stream, last.start, c);
      ChunksEnd(made, stream, n, last);
      MadeOnce(init, stream, last.start, c);
    }
  }

  /** How often a chunk is waiting in the buffers. */
  ghost function WaitingCount(s: State, c: Chunk): nat
    requires Shaped(s)
  {
    multiset(InBuffer(s, 0))[c] + multiset(InBuffer(s, 1))[c]
  }

  /** In every state of every schedule, each chunk downloaded so far is in exactly one buffer and not yet
      written, or has been written exactly once and is in no buffer. */
  lemma EachChunkOnce(stream: seq<byte>, max: nat, schedule: seq<Thread>, c: Chunk)
    requires max > 0
    ensures var s := After(Start(stream, max), stream, schedule);
            && (c in s.made ==> multiset(s.log)[c] + WaitingCount(s, c) == 1)
            && (c !in s.made ==> c !in s.log && WaitingCount(s, c) == 0)
  {
    hide After, Cuts, Control;
    var s := After(Start(stream, max), stream, schedule);
    StartIsFine(stream, max);
    EverySchedule(Start(stream, max), stream, schedule);
    assert multiset(s.log)[c] + WaitingCount(s, c) == multiset(s.made)[c];
    if c in s.made {
      MadeOnce(s.made, stream, Published(s), c);
    } else {
      assert multiset(s.made)[c] == 0;
    }
  }

  /** A buffer that holds data is not written to; its length goes to 0 only after its chunk has been
      written. */
  lemma NeverOverwritten(s: State, stream: seq<byte>, who: Thread, k: nat)
    requires Inv(s, stream) && k < 2 && s.bufs[k].len > 0
    ensures var t := Step(s, stream, who);
            && t.bufs[k].start == s.bufs[k].start && t.bufs[k].data == s.bufs[k].data
            && (t.bufs[k].len == s.bufs[k].len
                || (t.bufs[k].len == 0 && Chunk(s.bufs[k].start, s.bufs[k].data) in s.log))
  {
    hide Ledger, BufferOk, OwnerOk;
    match who
    case Producer => ProducerLeavesData(s, stream, k);
    case Reader => ReaderLeavesData(s, stream, k);
  }

  lemma ProducerLeavesData(s: State, stream: seq<byte>, k: nat)
    requires Control(s, stream) && k < 2 && s.bufs[k].len > 0
    ensures var b, c := s.bufs[k], ProducerStep(s, stream).bufs[k]; c == b.(owner := c.owner)
  {
    hide BufferOk, OwnerOk, ReaderOk;
  }

  lemma ReaderLeavesData(s: State, stream: seq<byte>, k: nat)
    requires Control(s, stream) && k < 2 && s.bufs[k].len > 0
    ensures var b, c := s.bufs[k], ReaderStep(s).bufs[k];
            c == b.(owner := c.owner, len := c.len) && (c.len == b.len || (c.len == 0 && Chunk(b.start, b.data) in s.log))
  {
    hide BufferOk, OwnerOk, ProducerOk;
  }

  /** The bytes written never exceed the bytes published. They exceed `finished` if and only if the producer
      has let go of a buffer without having counted it, and less than that chunk is waiting: the reader
      has passed it on already. */
  lemma BytesInOrder(stream: seq<byte>, max: nat, schedule: seq<Thread>)
    requires max > 0
    ensures var s := After(Start(stream, max), stream, schedule);
            && Written(s.log) <= Published(s) <= |stream| && s.finished <= |stream|
            && (Written(s.log) > s.finished <==> s.p.PCount? && WaitingBytes(s, 0) + WaitingBytes(s, 1) < s.size)
  {
    hide After, Cuts, Written;
    StartIsFine(stream, max);
    EverySchedule(Start(stream, max), stream, schedule);
  }

  // ----- The end of the stream

  /** The reader has found the buffer empty, let go of it, and not yet looked whether the producer is done;
      meanwhile the last chunk went into this very buffer, and the other one is empty. */
  predicate Lossy(s: State)
    requires Shaped(s)
  {
    s.r.RTest? && s.bufs[s.ri].len > 0 && s.bufs[1 - s.ri].len == 0
  }

  predicate AllEmpty(s: State)
    requires Shaped(s)
  {
    s.bufs[0].len == 0 && s.bufs[1].len == 0
  }

  predicate Good(s: State)
    requires Shaped(s)
  {
    var mine, other := s.bufs[s.ri].len, s.bufs[1 - s.ri].len;
    match s.r
    case RTop => (s.empties >= 1 && mine == 0 ==> other == 0) && (s.empties >= 2 ==> AllEmpty(s))
    case RHeld => (s.empties >= 1 && mine == 0 ==> other == 0) && s.empties < 2
    case RTest => (other == 0 ==> mine == 0) && (s.empties >= 1 ==> AllEmpty(s)) && s.empties < 2
    case RClear => s.empties < 2
    case RUnlock => mine == 0 && s.empties < 2
    case RDone => AllEmpty(s)
  }

  predicate Bad(s: State)
    requires Shaped(s)
  {
    var mine, other := s.bufs[s.ri].len, s.bufs[1 - s.ri].len;
    match s.r
    case RTop => (s.empties == 1 && mine == 0 && other > 0) || (s.empties == 2 && mine > 0)
    case RHeld => s.empties == 1 && mine == 0 && other > 0
    case RTest => (s.empties == 0 && mine > 0 && other == 0) || (s.empties == 1 && mine == 0 && other > 0)
    case RClear => false
    case RUnlock => false
    case RDone => !AllEmpty(s)
  }

  lemma ReaderStaysGood(s: State, stream: seq<byte>)
    requires Control(s, stream) && s.p.PDone? && Good(s)
    ensures Good(ReaderStep(s))
  {
    hide BufferOk, OwnerOk;
  }

  lemma ReaderStaysBad(s: State, stream: seq<byte>)
    requires Control(s, stream) && s.p.PDone? && Bad(s)
    ensures Bad(ReaderStep(s))
  {
    hide BufferOk, OwnerOk;
  }

  lemma {:induction false} EndIsSettled(s: State, stream: seq<byte>, schedule: seq<Thread>)
    requires Inv(s, stream) && s.p.PDone?
    ensures After(s, stream, schedule).p.PDone?
    ensures Good(s) ==> Good(After(s, stream, schedule))
    ensures Bad(s) ==> Bad(After(s, stream, schedule))
    decreases |schedule|
  {
    hide Good, Bad, Ledger, BufferOk, OwnerOk, ReaderOk;
    if schedule != [] {
      StepKeeps(s, stream, schedule[0]);
      if schedule[0].Reader? && Good(s) {
        ReaderStaysGood(s, stream);
      }
      if schedule[0].Reader? && Bad(s) {
        ReaderStaysBad(s, stream);
      }
      EndIsSettled(Step(s, stream, schedule[0]), stream, schedule[1..]);
    }
  }

  /** When the reader ends, everything has been delivered if and only if the state in which the producer
      declared itself finished was not the lossy one, however the threads were scheduled. */
  lemma DeliveredIff(s: State, stream: seq<byte>, schedule: seq<Thread>)
    requires Inv(s, stream) && s.p.PDone? && s.empties == 0 && After(s, stream, schedule).r.RDone?
    ensures var t := After(s, stream, schedule);
            (multiset(t.log) == multiset(t.made) && Written(t.log) == |stream|) <==> !Lossy(s)
  {
    hide After, Cuts, BufferOk, OwnerOk;
    var t := After(s, stream, schedule);
    EverySchedule(s, stream, schedule);
    assert if Lossy(s) then Bad(s) else Good(s);
    EndIsSettled(s, stream, schedule);
    assert Published(t) == |stream|;
    if AllEmpty(t) {
      assert InBuffer(t, 0) == [] && InBuffer(t, 1) == [];
    } else {
      assert WaitingBytes(t, 0) + WaitingBytes(t, 1) > 0;
    }
  }

  // ----- Schedules that show both

  lemma {:induction false} AfterSplit(s: State, stream: seq<byte>, a: seq<Thread>, b: seq<Thread>)
    requires Shaped(s)
    ensures After(s, stream, a + b) == After(After(s, stream, a), stream, b)
    decreases |a|
  {
    hide Step;
    if a == [] {
      assert a + b == b;
    } else {
      assert (a + b)[0] == a[0] && (a + b)[1..] == a[1..] + b;
      AfterSplit(Step(s, stream, a[0]), stream, a[1..], b);
    }
  }

  function Times(who: Thread, n: nat): seq<Thread> { if n == 0 then [] else [who] + Times(who, n - 1) }

  lemma OneMore(s: State, stream: seq<byte>, who: Thread, n: nat)
    requires Shaped(s) && n > 0
    ensures After(s, stream, Times(who, n)) == After(Step(s, stream, who), stream, Times(who, n - 1))
  {
    assert Times(who, n)[1..] == Times(who, n - 1);
  }

  /** Two chunks of one byte: the reader may pass the second one on before the producer counts it. */
  lemma WrittenBeforeCounted(a: byte, b: byte)
    ensures var s := After(Start([a, b], 1), [a, b], Times(Reader, 4) + Times(Producer, 4) + Times(Reader, 2));
            s.finished == 1 && Written(s.log) == 2
  {
    hide ReaderStep, ProducerStep, Written, Times;
    var stream := [a, b];
    var s0 := Start(stream, 1);
    var s1 := ReaderEmptiesFirst(a, b);
    var s2 := ProducerFillsSecond(a, b, s1);
    AfterSplit(s0, stream, Times(Reader, 4) + Times(Producer, 4), Times(Reader, 2));
    AfterSplit(s0, stream, Times(Reader, 4), Times(Producer, 4));
    ReaderPassesSecond(a, b, s2);
  }

  lemma ReaderPassesSecond(a: byte, b: byte, s: State)
    requires s == State([Buffer(0, [a], 0, None), Buffer(1, [b], 1, None)], 1, 1, 0, PCount, 1, RTop, 0, false,
                        [Chunk(0, [a])], [Chunk(0, [a]), Chunk(1, [b])])
    ensures var t := After(s, [a, b], Times(Reader, 2)); t.finished == 1 && Written(t.log) == 2
  {
    var s1 := ReaderStep(s);
    var t := ReaderStep(s1);
    assert [b][..1] == [b];
    OneMore(s, [a, b], Reader, 2);
    OneMore(s1, [a, b], Reader, 1);
    var x, y := Chunk(0, [a]), Chunk(1, [b]);
    assert t.log == [x] + [y] && [] + [x] == [x];
    WrittenPlus([x], y);
    WrittenPlus([], x);
  }

  lemma ReaderEmptiesFirst(a: byte, b: byte) returns (t: State)
    ensures t == After(Start([a, b], 1), [a, b], Times(Reader, 4))
    ensures t == State([Buffer(0, [a], 0, None), Buffer(0, [], 0, None)], 1, 1, 1, PTop, 1, RTop, 0, false,
                       [Chunk(0, [a])], [Chunk(0, [a])])
  {
    var stream := [a, b];
    var s := Start(stream, 1);
    assert stream[..1] == [a] && [a][..1] == [a];
    var s1 := ReaderStep(s);
    var s2 := ReaderStep(s1);
    var s3 := ReaderStep(s2);
    t := ReaderStep(s3);
    OneMore(s, stream, Reader, 4);
    OneMore(s1, stream, Reader, 3);
    OneMore(s2, stream, Reader, 2);
    OneMore(s3, stream, Reader, 1);
  }

  lemma ProducerFillsSecond(a: byte, b: byte, s: State) returns (t: State)
    requires s == State([Buffer(0, [a], 0, None), Buffer(0, [], 0, None)], 1, 1, 1, PTop, 1, RTop, 0, false,
                        [Chunk(0, [a])], [Chunk(0, [a])])
    ensures t == After(s, [a, b], Times(Producer, 4))
    ensures t == State([Buffer(0, [a], 0, None), Buffer(1, [b], 1, None)], 1, 1, 0, PCount, 1, RTop, 0, false,
                       [Chunk(0, [a])], [Chunk(0, [a]), Chunk(1, [b])])
  {
    var stream := [a, b];
    assert stream[1..2] == [b];
    var s1 := ProducerStep(s, stream);
    var s2 := ProducerStep(s1, stream);
    var s3 := ProducerStep(s2, stream);
    t := ProducerStep(s3, stream);
    OneMore(s, stream, Producer, 4);
    OneMore(s1, stream, Producer, 3);
    OneMore(s2, stream, Producer, 2);
    OneMore(s3, stream, Producer, 1);
  }

  /** And the lossy state can come up: the reader lets go of the empty second buffer, and then the producer
      fills it and finishes. */
  lemma LossyIsReachable(a: byte, b: byte)
    ensures var s := After(Start([a, b], 1), [a, b], Times(Reader, 6) + Times(Producer, 7));
            s.p.PDone? && s.empties == 0 && Lossy(s)
  {
    var stream := [a, b];
    var s0 := Start(stream, 1);
    var s1 := ReaderEmptiesFirst(a, b);
    assert Times(Reader, 6) == Times(Reader, 4) + Times(Reader, 2);
    AfterSplit(s0, stream, Times(Reader, 4), Times(Reader, 2));
    OneMore(s1, stream, Reader, 2);
    OneMore(ReaderStep(s1), stream, Reader, 1);
    var s2 := ReaderStep(ReaderStep(s1));
    assert s2 == s1.(r := RTest);
    var t := ProducerFillsWhileTested(a, b, s2);
    AfterSplit(s0, stream, Times(Reader, 6), Times(Producer, 7));
  }

  lemma ProducerFillsWhileTested(a: byte, b: byte, s: State) returns (t: State)
    requires s == State([Buffer(0, [a], 0, None), Buffer(0, [], 0, None)], 1, 1, 1, PTop, 1, RTest, 0, false,
                        [Chunk(0, [a])], [Chunk(0, [a])])
    ensures t == After(s, [a, b], Times(Producer, 7))
    ensures t.p.PDone? && t.empties == 0 && Lossy(t)
  {
    var stream := [a, b];
    assert stream[1..2] == [b];
    var s1 := ProducerStep(s, stream);
    var s2 := ProducerStep(s1, stream);
    var s3 := ProducerStep(s2, stream);
    var s4 := ProducerStep(s3, stream);
    var s5 := ProducerStep(s4, stream);
    var s6 := ProducerStep(s5, stream);
    t := ProducerStep(s6, stream);
    assert s4.bufs == [Buffer(0, [a], 0, None), Buffer(1, [b], 1, None)];
    OneMore(s, stream, Producer, 7);
    OneMore(s1, stream, Producer, 6);
    OneMore(s2, stream, Producer, 5);
    OneMore(s3, stream, Producer, 4);
    OneMore(s4, stream, Producer, 3);
    OneMore(s5, stream, Producer, 2);
    OneMore(s6, stream, Producer, 1);
  }
}
