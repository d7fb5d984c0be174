/** The overlapping chunker shared by the desktop clients: incoming samples
    are buffered, cut into chunks of `chunkN` samples, each prefixed with an
    `overlapN`-sample "tail", stamped with its start and end time and put on
    a bounded queue that drops its oldest entry when full. */
module Chunker {
  import opened Common

  /** One queue entry `(s, e, audio)`. The times are kept as sample counts
      from the start of the stream; `Seconds` turns them into the floats the
      source stores. */
  datatype Chunk = Chunk(start: nat, end: nat, audio: seq<real>)

  /** `count / float(sr)`. */
  function Seconds(count: nat, sr: nat): real
    requires sr > 0
  {
    count as real / sr as real
  }

  /** The fixed parameters: sample rate, chunk and overlap lengths in
      samples, and the `maxsize` of the output queue. */
  datatype Config = Config(sr: nat, chunkN: nat, overlapN: nat, capacity: nat)

  /** The mutable part: `_buf`, `_emitted` (samples already cut into chunks)
      and the contents of `out_q`, oldest first. */
  datatype State = State(cfg: Config, buf: seq<real>, emitted: nat, queue: seq<Chunk>)

  /** An input block: one-dimensional, or frames of channels. */
  datatype Input = Mono(samples: seq<real>) | Frames(rows: seq<seq<real>>)

  const ChunkSeconds: real := 3.0
  const OverlapSeconds: real := 0.5

  /** `Chunker(sr, chunk_s, overlap_s)` with an output queue of `capacity`. */
  function Make(sr: nat, chunkS: real, overlapS: real, capacity: nat): (s: State)
    requires chunkS >= 0.0 && overlapS >= 0.0
    ensures s.buf == [] && s.emitted == 0 && s.queue == []
    ensures s.cfg.sr == sr && s.cfg.capacity == capacity
    ensures (s.cfg.chunkN as real) - 0.5 <= chunkS * sr as real <= (s.cfg.chunkN as real) + 0.5
    ensures (s.cfg.overlapN as real) - 0.5 <= overlapS * sr as real <= (s.cfg.overlapN as real) + 0.5
  {
    State(Config(sr, RoundHalfEven(chunkS * sr as real), RoundHalfEven(overlapS * sr as real),
                 capacity), [], 0, [])
  }

  /** The desktop live client's chunker: 16000 Hz, 3 s chunks, 0.5 s
      overlap, at most 3 queued chunks. */
  function DesktopChunker(): (s: State)
    ensures s.cfg == Config(16000, 48000, 8000, 3)
    ensures Valid(s)
  {
    Make(16000, ChunkSeconds, OverlapSeconds, 3)
  }

  /** The chunker of the two client-server front ends at the device's rate,
      with at most 8 queued chunks. */
  function ClientChunker(sr: nat): (s: State)
    requires sr > 0
    ensures s.cfg.sr == sr && s.cfg.capacity == 8
    ensures s.cfg.chunkN == 3 * sr
    ensures Valid(s)
  {
    Make(sr, ChunkSeconds, OverlapSeconds, 8)
  }

  /** What `feed` and `flush` keep true: a usable configuration, a queue
      within its bound and a buffer shorter than one chunk. */
  predicate Valid(s: State) {
    && s.cfg.sr > 0
    && s.cfg.chunkN > 0
    && s.cfg.capacity > 0
    && |s.queue| <= s.cfg.capacity
    && |s.buf| < s.cfg.chunkN
  }

  /** The samples an input block contributes: the block itself, or the first
      channel of every frame. A frame with no channel cannot be concatenated
      onto the buffer, which raises: None. */
  function Column(input: Input): (r: Option<seq<real>>)
    ensures input.Mono? ==> r == Some(input.samples)
    ensures input.Frames? ==>
              (r.Some? <==> forall i :: 0 <= i < |input.rows| ==> |input.rows[i]| > 0)
    ensures input.Frames? && r.Some? ==>
              |r.value| == |input.rows|
              && forall i :: 0 <= i < |input.rows| ==> r.value[i] == input.rows[i][0]
  {
    match input
    case Mono(samples) => Some(samples)
    case Frames(rows) =>
      if forall i :: 0 <= i < |rows| ==> |rows[i]| > 0
      then Some(seq(|rows|, i requires 0 <= i < |rows| => rows[i][0]))
      else None
  }

  function Min(a: nat, b: nat): nat {
    if a <= b then a else b
  }

  /** `_tail`: `overlapN` samples, zero except for the last `take` positions,
      which hold the first `take` samples still in the buffer. */
  function Tail(overlapN: nat, buf: seq<real>): (t: seq<real>)
    ensures |t| == overlapN
  {
    var take := Min(overlapN, |buf|);
    Silence(overlapN - take) + buf[..take]
  }

  /** `k` zero samples. */
  function Silence(k: nat): seq<real> {
    seq(k, _ => 0.0)
  }

  /** The shape of `_tail`, position by position. */
  lemma TailShape(overlapN: nat, buf: seq<real>)
    ensures var t := Tail(overlapN, buf);
            var take := Min(overlapN, |buf|);
            && (forall i :: 0 <= i < overlapN - take ==> t[i] == 0.0)
            && (forall i :: 0 <= i < take ==> t[overlapN - take + i] == buf[i])
  {
  }

  /** `queue.Queue.put` after the drop-oldest check of a queue bounded by
      `capacity`. */
  function Enqueue(q: seq<Chunk>, c: Chunk, capacity: nat): (r: seq<Chunk>)
    requires capacity > 0 && |q| <= capacity
    ensures |r| <= capacity
    ensures 1 <= |r| && r[|r| - 1] == c
    ensures |q| < capacity ==> r == q + [c]
    ensures |q| == capacity ==> r == q[1..] + [c]
  {
    if |q| >= capacity then q[1..] + [c] else q + [c]
  }

  /** The newest `capacity` entries of `q`. */
  function KeepLast(q: seq<Chunk>, capacity: nat): (r: seq<Chunk>)
    ensures |r| <= capacity && |r| <= |q|
    ensures r == q[|q| - |r|..]
    ensures |r| == if |q| <= capacity then |q| else capacity
  {
    if |q| <= capacity then q else q[|q| - capacity..]
  }

  /** Putting onto a drop-oldest queue keeps exactly the newest entries. */
  lemma EnqueueKeepsLast(q: seq<Chunk>, c: Chunk, capacity: nat)
    requires capacity > 0
    ensures Enqueue(KeepLast(q, capacity), c, capacity) == KeepLast(q + [c], capacity)
  {
    var k := KeepLast(q, capacity);
    if |q| >= capacity {
      assert k[1..] + [c] == (q + [c])[|q| + 1 - capacity..];
    }
  }


  // ------------------------------------------------- sequence bookkeeping

  lemma Reassemble<T>(s: seq<T>, n: nat, more: seq<T>, rest: seq<T>)
    requires n <= |s| && more + rest == s[n..]
    ensures (s[..n] + more) + rest == s
  {
    assert (s[..n] + more) + rest == s[..n] + (more + rest);
    assert s[..n] + s[n..] == s;
  }

  lemma AppendAssoc<T>(a: seq<T>, b: seq<T>, c: seq<T>)
    ensures (a + b) + c == a + (b + c)
  {
  }

  lemma ConsIndex<T>(x: T, xs: seq<T>, i: nat)
    requires 0 < i <= |xs|
    ensures ([x] + xs)[i] == xs[i - 1]
  {
  }

  lemma DropSlice<T>(s: seq<T>, n: nat, lo: nat, hi: nat)
    requires n + hi <= |s| && lo <= hi
    ensures s[n..][lo..hi] == s[n + lo..n + hi]
    ensures s[n..][hi..] == s[n + hi..]
  {
  }

  lemma DropAfterTake<T>(a: seq<T>, b: seq<T>, n: nat)
    requires n <= |b|
    ensures (a + b[..n])[n..] + b[n..] == (a + b)[n..]
  {
    assert (a + b)[n..] == (a + b[..n])[n..] + b[n..];
  }

  // ------------------------------------------------------------- feeding

  /** The chunk `feed` cuts from the front of `buf`: the tail of the samples
      after the first `chunkN`, then those `chunkN` samples. */
  function Head(cfg: Config, buf: seq<real>, base: nat): (c: Chunk)
    requires cfg.chunkN <= |buf|
    ensures c.start == base && c.end == base + cfg.chunkN
    ensures |c.audio| == cfg.overlapN + cfg.chunkN
  {
    Chunk(base, base + cfg.chunkN, Tail(cfg.overlapN, buf[cfg.chunkN..]) + buf[..cfg.chunkN])
  }

  /** After its prefix, the chunk cut from the front of `buf` holds the
      first `chunkN` samples of `buf`. */
  lemma HeadCore(cfg: Config, buf: seq<real>, base: nat)
    requires cfg.chunkN <= |buf|
    ensures Head(cfg, buf, base).audio[cfg.overlapN..] == buf[..cfg.chunkN]
  {
  }

  /** The samples after the prefix of each chunk, in order. */
  function Cores(chunks: seq<Chunk>, overlapN: nat): seq<real> {
    if |chunks| == 0 then []
    else
      var first := chunks[0].audio;
      (if overlapN <= |first| then first[overlapN..] else []) + Cores(chunks[1..], overlapN)
  }

  lemma CoresCons(c: Chunk, cs: seq<Chunk>, overlapN: nat)
    requires overlapN <= |c.audio|
    ensures Cores([c] + cs, overlapN) == c.audio[overlapN..] + Cores(cs, overlapN)
  {
    assert ([c] + cs)[1..] == cs;
  }

  /** What the loop of `feed` does to the samples `buf`, the first of which
      is sample number `base` of the stream: the chunks it cuts, in order,
      and what stays buffered. Their cores (the samples after each prefix)
      followed by the remainder give back exactly `buf`: nothing is lost,
      repeated or reordered, and less than one chunk remains. */
  function Cut(cfg: Config, buf: seq<real>, base: nat): (r: (seq<Chunk>, seq<real>))
    requires cfg.chunkN > 0
    ensures |r.1| < cfg.chunkN
    decreases |buf|
  {
    var n := cfg.chunkN;
    if |buf| < n then ([], buf)
    else
      var rest := Cut(cfg, buf[n..], base + n);
      ([Head(cfg, buf, base)] + rest.0, rest.1)
  }

  /** Nothing is lost, repeated or reordered: the cores of the chunks `feed`
      cuts (the samples after each prefix), followed by what stays
      buffered, give back exactly the buffered samples. */
  lemma {:induction false} CutCoversStream(cfg: Config, buf: seq<real>, base: nat)
    requires cfg.chunkN > 0
    ensures Cores(Cut(cfg, buf, base).0, cfg.overlapN) + Cut(cfg, buf, base).1 == buf
    decreases |buf|
  {
    var n := cfg.chunkN;
    if |buf| < n {
      CutShort(cfg, buf, base);
    } else {
      CutStep(cfg, buf, base);
      CutCoversStream(cfg, buf[n..], base + n);
      HeadCore(cfg, buf, base);
      CoverStep(cfg.overlapN, buf, n, Head(cfg, buf, base), Cut(cfg, buf[n..], base + n).0,
                Cut(cfg, buf[n..], base + n).1);
    }
  }

  /** A chunk whose core is the first `n` samples, in front of chunks and a
      remainder that cover the samples after them, covers all of them. */
  lemma CoverStep(ov: nat, buf: seq<real>, n: nat, h: Chunk, chunks: seq<Chunk>, left: seq<real>)
    requires n <= |buf| && ov <= |h.audio| && h.audio[ov..] == buf[..n]
    requires Cores(chunks, ov) + left == buf[n..]
    ensures Cores([h] + chunks, ov) + left == buf
  {
    CoresCons(h, chunks, ov);
    Reassemble(buf, n, Cores(chunks, ov), left);
  }

  lemma CutStep(cfg: Config, buf: seq<real>, base: nat)
    requires 0 < cfg.chunkN <= |buf|
    ensures Cut(cfg, buf, base).0 ==
              [Head(cfg, buf, base)] + Cut(cfg, buf[cfg.chunkN..], base + cfg.chunkN).0
    ensures Cut(cfg, buf, base).1 == Cut(cfg, buf[cfg.chunkN..], base + cfg.chunkN).1
  {
  }

  lemma CutShort(cfg: Config, buf: seq<real>, base: nat)
    requires 0 < cfg.chunkN && |buf| < cfg.chunkN
    ensures Cut(cfg, buf, base) == ([], buf)
  {
  }

  /** One turn of the loop of `feed` keeps its invariant. */
  lemma FeedTurn(s: State, all: seq<real>, produced: seq<Chunk>, buf: seq<real>, emitted: nat,
                 queue: seq<Chunk>)
    requires Valid(s) && |buf| >= s.cfg.chunkN
    requires produced + Cut(s.cfg, buf, emitted).0 == Cut(s.cfg, all, s.emitted).0
    requires Cut(s.cfg, buf, emitted).1 == Cut(s.cfg, all, s.emitted).1
    requires queue == KeepLast(s.queue + produced, s.cfg.capacity)
    ensures var n := s.cfg.chunkN;
            var c := Head(s.cfg, buf, emitted);
            && (produced + [c]) + Cut(s.cfg, buf[n..], emitted + n).0 == Cut(s.cfg, all, s.emitted).0
            && Cut(s.cfg, buf[n..], emitted + n).1 == Cut(s.cfg, all, s.emitted).1
            && |queue| <= s.cfg.capacity
            && Enqueue(queue, c, s.cfg.capacity) == KeepLast(s.queue + (produced + [c]), s.cfg.capacity)
  {
    var n := s.cfg.chunkN;
    var c := Head(s.cfg, buf, emitted);
    var rest := Cut(s.cfg, buf[n..], emitted + n);
    CutStep(s.cfg, buf, emitted);
    AppendAssoc(produced, [c], rest.0);
    EnqueueKeepsLast(s.queue + produced, c, s.cfg.capacity);
    AppendAssoc(s.queue, produced, [c]);
  }

  /** `Chunker.feed` on the samples of one block: every whole chunk in the
      buffer is cut off and enqueued, in order, until less than a chunk
      remains. `produced` lists the chunks put on the queue by this call,
      including any the queue dropped again. */
  method Feed(s: State, data: seq<real>) returns (r: State, produced: seq<Chunk>)
    requires Valid(s)
    ensures Valid(r) && r.cfg == s.cfg
    ensures (produced, r.buf) == Cut(s.cfg, s.buf + data, s.emitted)
    ensures r.emitted + |r.buf| == s.emitted + |s.buf| + |data|
    ensures r.queue == KeepLast(s.queue + produced, s.cfg.capacity)
  {
    var all := s.buf + data;
    var n := s.cfg.chunkN;
    var buf := all;
    var emitted: nat := s.emitted;
    var queue := s.queue;
    produced := [];
    while |buf| >= n
      invariant produced + Cut(s.cfg, buf, emitted).0 == Cut(s.cfg, all, s.emitted).0
      invariant Cut(s.cfg, buf, emitted).1 == Cut(s.cfg, all, s.emitted).1
      invariant emitted + |buf| == s.emitted + |all|
      invariant queue == KeepLast(s.queue + produced, s.cfg.capacity)
      decreases |buf|
    {
      var rest := buf[n..];
      var c := Head(s.cfg, buf, emitted);
      FeedTurn(s, all, produced, buf, emitted, queue);
      buf := rest;
      queue := Enqueue(queue, c, s.cfg.capacity);
      emitted := emitted + n;
      produced := produced + [c];
    }
    CutShort(s.cfg, buf, emitted);
    assert produced + [] == produced;
    r := State(s.cfg, buf, emitted, queue);
  }

  /** Each chunk `feed` cuts is `overlapN + chunkN` samples long, spans
      `chunkN` samples of the stream, and starts where the previous one
      ended; the first starts at `base`. */
  lemma {:induction false} CutIsContiguous(cfg: Config, buf: seq<real>, base: nat)
    requires cfg.chunkN > 0
    ensures var chunks := Cut(cfg, buf, base).0;
            && (forall i :: 0 <= i < |chunks| ==>
                  |chunks[i].audio| == cfg.overlapN + cfg.chunkN
                  && chunks[i].end == chunks[i].start + cfg.chunkN)
            && (|chunks| > 0 ==> chunks[0].start == base)
            && (forall i :: 0 < i < |chunks| ==> chunks[i].start == chunks[i - 1].end)
    decreases |buf|
  {
    var n := cfg.chunkN;
    if |buf| >= n {
      var rest := Cut(cfg, buf[n..], base + n).0;
      CutStep(cfg, buf, base);
      CutIsContiguous(cfg, buf[n..], base + n);
      var h := Head(cfg, buf, base);
      forall i | 0 < i < |rest| + 1
        ensures ([h] + rest)[i] == rest[i - 1]
      {
        ConsIndex(h, rest, i);
      }
    } else {
      CutShort(cfg, buf, base);
    }
  }

  /** Chunk `i` of those `feed` cuts starts `i` chunk lengths after `base`:
      the stamps count the samples of the stream that came before it. */
  lemma {:induction false} CutStarts(cfg: Config, buf: seq<real>, base: nat, i: nat)
    requires cfg.chunkN > 0 && i < |Cut(cfg, buf, base).0|
    ensures Cut(cfg, buf, base).0[i].start == base + i * cfg.chunkN
    decreases i
  {
    var chunks := Cut(cfg, buf, base).0;
    CutIsContiguous(cfg, buf, base);
    if i > 0 {
      CutStarts(cfg, buf, base, i - 1);
      assert chunks[i].start == chunks[i - 1].start + cfg.chunkN;
      assert (i - 1) * cfg.chunkN + cfg.chunkN == i * cfg.chunkN;
    }
  }

  // --------------------------------------------------- the corrected chunker

  /** The chunks a chunker cuts when each chunk is prefixed with the
      `overlapN` samples just before it: `hist` holds the last `overlapN`
      samples already cut (zeros at the start of the stream). Returns the
      chunks, the new history and the remainder. */
  function WindowCut(cfg: Config, hist: seq<real>, buf: seq<real>, base: nat)
    : (r: (seq<Chunk>, seq<real>, seq<real>))
    requires cfg.chunkN > 0 && |hist| == cfg.overlapN
    ensures |r.1| == cfg.overlapN && |r.2| < cfg.chunkN
    decreases |buf|
  {
    var n := cfg.chunkN;
    if |buf| < n then ([], hist, buf)
    else
      var window := hist + buf[..n];
      var rest := WindowCut(cfg, window[n..], buf[n..], base + n);
      ([Chunk(base, base + n, window)] + rest.0, rest.1, rest.2)
  }

  /** Chunk `i - 1` of the windows cut after the first `n` samples is
      chunk `i` of all windows, re-described as a window of `hist + buf`. */
  lemma WindowShift(hist: seq<real>, buf: seq<real>, n: nat, c: Chunk, rest: seq<Chunk>, i: nat,
                    lo: nat, len: nat)
    requires 0 < i <= |rest| && n <= |buf|
    requires lo + len <= |(hist + buf[..n])[n..] + buf[n..]|
    requires rest[i - 1].audio == ((hist + buf[..n])[n..] + buf[n..])[lo..lo + len]
    ensures lo + n + len <= |hist + buf|
    ensures ([c] + rest)[i].audio == (hist + buf)[lo + n..lo + n + len]
  {
    ConsIndex(c, rest, i);
    DropAfterTake(hist, buf, n);
    DropSlice(hist + buf, n, lo, lo + len);
  }

  /** Every chunk of the corrected chunker is a contiguous window of the
      stream `hist + buf`: chunk `i` is the `overlapN + chunkN` samples
      starting at `i * chunkN`, so its prefix is the audio that precedes
      it. */
  lemma {:induction false} WindowCutIsWindows(cfg: Config, hist: seq<real>, buf: seq<real>,
                                              base: nat, i: nat)
    requires cfg.chunkN > 0 && |hist| == cfg.overlapN
    requires i < |WindowCut(cfg, hist, buf, base).0|
    ensures var stream := hist + buf;
            var lo := i * cfg.chunkN;
            && lo + cfg.overlapN + cfg.chunkN <= |stream|
            && WindowCut(cfg, hist, buf, base).0[i].audio
               == stream[lo..lo + cfg.overlapN + cfg.chunkN]
            && WindowCut(cfg, hist, buf, base).0[i].start == base + lo
    decreases |buf|
  {
    var n := cfg.chunkN;
    var ov := cfg.overlapN;
    if |buf| >= n {
      var window := hist + buf[..n];
      var rest := WindowCut(cfg, window[n..], buf[n..], base + n).0;
      var c := Chunk(base, base + n, window);
      assert WindowCut(cfg, hist, buf, base).0 == [c] + rest;
      if i == 0 {
        assert window == (hist + buf)[0..ov + n];
      } else {
        WindowCutIsWindows(cfg, window[n..], buf[n..], base + n, i - 1);
        WindowShift(hist, buf, n, c, rest, i, (i - 1) * n, ov + n);
        assert (i - 1) * n + n == i * n;
      }
    }
  }

  /** The prefix `feed` puts before a chunk is taken from the samples that
      follow it: cutting `[1, 2, 3, 4]` into chunks of two samples with a
      one-sample prefix yields `[3, 1, 2]` first, which is no window of the
      zero-padded stream (3 is never followed by 1 there), while the
      corrected chunker yields `[0, 1, 2]`. */
  lemma LookaheadPrefix()
    ensures var cfg := Config(1, 2, 1, 1);
            var all := [1.0, 2.0, 3.0, 4.0];
            var stream := [0.0] + all;
            && |Cut(cfg, all, 0).0| > 0
            && Cut(cfg, all, 0).0[0].audio == [3.0, 1.0, 2.0]
            && (forall j :: 0 <= j < |stream| - 1 ==> !(stream[j] == 3.0 && stream[j + 1] == 1.0))
            && |WindowCut(cfg, [0.0], all, 0).0| > 0
            && WindowCut(cfg, [0.0], all, 0).0[0].audio == [0.0, 1.0, 2.0]
  {
    var cfg := Config(1, 2, 1, 1);
    var all := [1.0, 2.0, 3.0, 4.0];
    CutStep(cfg, all, 0);
    assert Tail(1, all[2..]) == [3.0];
    assert all[..2] == [1.0, 2.0];
    assert ([0.0] + all[..2])[2..] == [2.0];
  }

  /** `int(0.8 * sr)`: the number of samples `flush` must exceed. */
  function FlushThreshold(sr: nat): nat {
    (4 * sr) / 5
  }

  /** `Chunker.flush`: when more than the threshold remains, the whole buffer
      becomes one last chunk. The buffer is emptied before `_tail` is taken,
      so that chunk's prefix is silence. */
  function Flush(s: State): (r: (State, Option<Chunk>))
    requires Valid(s)
    ensures Valid(r.0) && r.0.cfg == s.cfg
    ensures r.1.Some? <==> |s.buf| > FlushThreshold(s.cfg.sr)
    ensures r.1.None? ==> r.0 == s
    ensures r.1.Some? ==>
              && r.0.buf == []
              && r.0.emitted == s.emitted + |s.buf|
              && r.0.queue == KeepLast(s.queue + [r.1.value], s.cfg.capacity)
              && r.1.value.start == s.emitted
              && r.1.value.end == s.emitted + |s.buf|
              && |r.1.value.audio| == s.cfg.overlapN + |s.buf|
              && (forall i :: 0 <= i < s.cfg.overlapN ==> r.1.value.audio[i] == 0.0)
              && r.1.value.audio[s.cfg.overlapN..] == s.buf
  {
    if |s.buf| > FlushThreshold(s.cfg.sr) then
      var prefix := Tail(s.cfg.overlapN, []);
      var c := Chunk(s.emitted, s.emitted + |s.buf|, prefix + s.buf);
      EnqueueKeepsLast(s.queue, c, s.cfg.capacity);
      TailShape(s.cfg.overlapN, []);
      (State(s.cfg, [], s.emitted + |s.buf|, Enqueue(s.queue, c, s.cfg.capacity)), Some(c))
    else
      (s, None)
  }

  /** `out_q.get_nowait()` by the consumer: the oldest entry, if any. */
  function Take(s: State): (r: (Option<Chunk>, State))
    requires Valid(s)
    ensures Valid(r.1)
    ensures r.0.Some? <==> |s.queue| > 0
    ensures r.0.Some? ==> r.0.value == s.queue[0] && r.1.queue == s.queue[1..]
    ensures r.0.None? ==> r.1 == s
    ensures r.1.buf == s.buf && r.1.emitted == s.emitted && r.1.cfg == s.cfg
  {
    if |s.queue| == 0 then (None, s) else (Some(s.queue[0]), s.(queue := s.queue[1..]))
  }
}
