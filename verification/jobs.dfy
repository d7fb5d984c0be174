/** The job queue between the chunker and the transcription worker of the
    two client-server front ends, and the text the worker shows for each
    job. The consumer takes chunks off the chunker's output queue, remembers
    the last one for the "send last" button and, when auto-send is on,
    queues some of them as jobs; the worker takes jobs from the front of the
    queue. Threads and blocking waits are replaced by explicit events. */
module Jobs {
  import opened Common
  import Text
  import Chunker

  /** What differs between the two front ends: the job kind, the queue
      length below which a chunk may be auto-sent, and the queue length
      from which a manual send is refused. */
  datatype Client = Client(kind: string, autoBelow: nat, refuseAt: nat)

  /** The front end that posts each chunk to a transcription server. */
  const Remote: Client := Client("transcribe_remote", 4, 6)

  /** The front end that transcribes each chunk in-process. */
  const Local: Client := Client("transcribe_local", 3, 5)

  /** A capture rate in samples per second; a device is never opened at 0. */
  type Rate = r: nat | r > 0 witness 16000

  /** A queued job: its kind, the chunk and the capture rate. */
  datatype Job = Job(kind: string, chunk: Chunker.Chunk, sr: nat)

  /** The consumer's fields: the last chunk taken off the chunker, the start
      in seconds of the last chunk auto-sent, and the queued jobs, oldest
      first. Chunk starts are sample counts, while the record holds their
      time stamp `start / sr`: the rate can change between two runs, and
      the record survives from one run to the next. */
  datatype Consumer = Consumer(lastChunk: Option<Chunker.Chunk>, lastAutoStart: Option<real>,
                               jobs: seq<Job>)

  /** The fields as the window's constructor sets them. */
  function Fresh(): (c: Consumer)
    ensures c.lastChunk.None? && c.lastAutoStart.None? && |c.jobs| == 0
  {
    Consumer(None, None, [])
  }

  // ------------------------------------------------------------- consumer

  /** The auto-send condition: a time stamp different from the last
      auto-sent one and a queue shorter than the client's bound. */
  predicate AutoGate(cl: Client, c: Consumer, stamp: real) {
    c.lastAutoStart != Some(stamp) && |c.jobs| < cl.autoBelow
  }

  /** One chunk taken off the chunker's queue while running. */
  function Receive(cl: Client, c: Consumer, autosend: bool, sr: Rate, ch: Chunker.Chunk)
    : (r: Consumer)
    ensures r.lastChunk == Some(ch)
    ensures |r.jobs| == |c.jobs| + 1 <==>
              autosend && c.lastAutoStart != Some(ch.start as real / sr as real)
              && |c.jobs| < cl.autoBelow
    ensures |r.jobs| == |c.jobs| + 1 ==>
              && r.jobs == c.jobs + [Job(cl.kind, ch, sr)]
              && r.lastAutoStart == Some(ch.start as real / sr as real)
    ensures |r.jobs| != |c.jobs| + 1 ==> r.jobs == c.jobs && r.lastAutoStart == c.lastAutoStart
  {
    var c1 := c.(lastChunk := Some(ch));
    var stamp := Chunker.Seconds(ch.start, sr);
    if autosend && AutoGate(cl, c, stamp) then
      c1.(jobs := c.jobs + [Job(cl.kind, ch, sr)], lastAutoStart := Some(stamp))
    else c1
  }

  /** The outcome of the "send last" button. */
  datatype SendResult = NoChunk | Busy | Queued

  const NoChunkMessage: string := "まだチャンクがありません"
  const BusyMessage: string := "処理中が多いためスキップしました"

  /** `send_last`: refuses without a chunk or with a full queue; otherwise
      queues the last chunk once more, whatever auto-send did with it. */
  function SendLast(cl: Client, c: Consumer, sr: nat): (r: (Consumer, SendResult))
    ensures r.1 == NoChunk <==> c.lastChunk.None?
    ensures r.1 == Busy <==> c.lastChunk.Some? && |c.jobs| >= cl.refuseAt
    ensures r.1 != Queued ==> r.0 == c
    ensures r.1 == Queued ==>
              r.0 == c.(jobs := c.jobs + [Job(cl.kind, c.lastChunk.value, sr)])
  {
    if c.lastChunk.None? then (c, NoChunk)
    else if |c.jobs| >= cl.refuseAt then (c, Busy)
    else (c.(jobs := c.jobs + [Job(cl.kind, c.lastChunk.value, sr)]), Queued)
  }

  /** The message box shown for a refused send. */
  function SendMessage(r: SendResult): (m: Option<string>)
    ensures m.Some? <==> r != Queued
  {
    match r
    case NoChunk => Some(NoChunkMessage)
    case Busy => Some(BusyMessage)
    case Queued => None
  }

  /** The worker takes the oldest job. */
  function TakeJob(c: Consumer): (r: (Option<Job>, Consumer))
    ensures r.0.Some? <==> |c.jobs| > 0
    ensures r.0.Some? ==> c.jobs == [r.0.value] + r.1.jobs
    ensures r.0.None? ==> r.1 == c
    ensures r.1.lastChunk == c.lastChunk && r.1.lastAutoStart == c.lastAutoStart
  {
    if |c.jobs| == 0 then (None, c) else (Some(c.jobs[0]), c.(jobs := c.jobs[1..]))
  }

  /** After stopping: the chunker is flushed and whatever is left in its
      queue is taken off without being auto-sent; the last of it becomes
      the chunk "send last" sends. A remainder too short to flush stays in
      the chunker's buffer. */
  function Stop(c: Consumer, s: Chunker.State): (r: (Consumer, Chunker.State))
    requires Chunker.Valid(s)
    ensures Chunker.Valid(r.1) && |r.1.queue| == 0
    ensures r.1.buf == (if Chunker.Flush(s).1.Some? then [] else s.buf)
    ensures r.0.jobs == c.jobs && r.0.lastAutoStart == c.lastAutoStart
    ensures Chunker.Flush(s).1.Some? ==> r.0.lastChunk == Chunker.Flush(s).1
    ensures Chunker.Flush(s).1.None? && |s.queue| > 0 ==>
              r.0.lastChunk == Some(s.queue[|s.queue| - 1])
    ensures Chunker.Flush(s).1.None? && |s.queue| == 0 ==> r.0.lastChunk == c.lastChunk
  {
    var (s1, _) := Chunker.Flush(s);
    var q := s1.queue;
    var last := if |q| > 0 then Some(q[|q| - 1]) else c.lastChunk;
    (c.(lastChunk := last), s1.(queue := []))
  }

  // ----------------------------------------------------------------- traces

  /** What can happen to the consumer while running: a chunk arrives with
      the auto-send box in a given state, the worker takes a job, or the
      "send last" button is pressed. */
  datatype Event = Arrive(ch: Chunker.Chunk, autosend: bool) | Work | Press

  function Step(cl: Client, sr: Rate, c: Consumer, ev: Event): Consumer {
    match ev
    case Arrive(ch, autosend) => Receive(cl, c, autosend, sr, ch)
    case Work => TakeJob(c).1
    case Press => SendLast(cl, c, sr).0
  }

  function Run(cl: Client, sr: Rate, c: Consumer, evs: seq<Event>): Consumer
    decreases |evs|
  {
    if |evs| == 0 then c
    else Step(cl, sr, Run(cl, sr, c, evs[..|evs| - 1]), evs[|evs| - 1])
  }

  /** The time stamp auto-sent by one event, if any. */
  function SentBy(cl: Client, sr: Rate, c: Consumer, ev: Event): (v: Option<real>)
    ensures v.Some? ==> ev.Arrive? && v.value == ev.ch.start as real / sr as real
  {
    if ev.Arrive? && ev.autosend && AutoGate(cl, c, Chunker.Seconds(ev.ch.start, sr))
    then Some(Chunker.Seconds(ev.ch.start, sr))
    else None
  }

  /** The time stamps auto-sent during a run, in order. */
  function AutoSent(cl: Client, sr: Rate, c: Consumer, evs: seq<Event>): seq<real>
    decreases |evs|
  {
    if |evs| == 0 then []
    else
      var before := evs[..|evs| - 1];
      var v := SentBy(cl, sr, Run(cl, sr, c, before), evs[|evs| - 1]);
      AutoSent(cl, sr, c, before) + (if v.Some? then [v.value] else [])
  }

  /** The last of `prev` followed by `xs`. */
  function LastOf(prev: Option<real>, xs: seq<real>): Option<real> {
    if |xs| == 0 then prev else Some(xs[|xs| - 1])
  }

  /** No start follows itself: each one differs from the one before it,
      the first from `prev`. */
  predicate NoRepeat(prev: Option<real>, xs: seq<real>) {
    forall i :: 0 <= i < |xs| ==> LastOf(prev, xs[..i]) != Some(xs[i])
  }

  /** One step of a run: a start auto-sent differs from the last one. */
  lemma NoRepeatSnoc(prev: Option<real>, xs: seq<real>, v: real)
    requires NoRepeat(prev, xs) && LastOf(prev, xs) != Some(v)
    ensures NoRepeat(prev, xs + [v])
  {
    var ys := xs + [v];
    forall i | 0 <= i < |ys|
      ensures LastOf(prev, ys[..i]) != Some(ys[i])
    {
      assert ys[..i] == if i < |xs| then xs[..i] else xs;
    }
  }

  /** Over any run, the same start is never auto-sent twice in a row, and
      the consumer remembers the last start it auto-sent. */
  lemma {:induction false} AutoSentNoRepeat(cl: Client, sr: Rate, c: Consumer, evs: seq<Event>)
    ensures NoRepeat(c.lastAutoStart, AutoSent(cl, sr, c, evs))
    ensures Run(cl, sr, c, evs).lastAutoStart == LastOf(c.lastAutoStart, AutoSent(cl, sr, c, evs))
    decreases |evs|
  {
    if |evs| > 0 {
      var before := evs[..|evs| - 1];
      var ev := evs[|evs| - 1];
      var c0 := Run(cl, sr, c, before);
      var xs := AutoSent(cl, sr, c, before);
      AutoSentNoRepeat(cl, sr, c, before);
      var v := SentBy(cl, sr, c0, ev);
      if v.Some? {
        NoRepeatSnoc(c.lastAutoStart, xs, v.value);
        assert LastOf(c.lastAutoStart, xs + [v.value]) == v;
      } else {
        assert AutoSent(cl, sr, c, evs) == xs + [];
        assert xs + [] == xs;
      }
    }
  }

  /** One event never grows the queue past the client's refusal bound. */
  lemma StepBounded(cl: Client, sr: Rate, c: Consumer, ev: Event)
    requires cl.autoBelow <= cl.refuseAt && |c.jobs| <= cl.refuseAt
    ensures |Step(cl, sr, c, ev).jobs| <= cl.refuseAt
  {
  }

  /** From a queue within bounds, every run keeps the queue within the
      client's refusal bound: at most 6 jobs in the remote front end and 5
      in the local one. */
  lemma {:induction false} RunBounded(cl: Client, sr: Rate, c: Consumer, evs: seq<Event>)
    requires cl.autoBelow <= cl.refuseAt && |c.jobs| <= cl.refuseAt
    ensures |Run(cl, sr, c, evs).jobs| <= cl.refuseAt
    decreases |evs|
  {
    if |evs| > 0 {
      RunBounded(cl, sr, c, evs[..|evs| - 1]);
      StepBounded(cl, sr, Run(cl, sr, c, evs[..|evs| - 1]), evs[|evs| - 1]);
    }
  }

  /** Starting from the constructor's fields, neither front end ever holds
      more queued jobs than its refusal bound. */
  lemma ClientsBounded(sr: Rate, evs: seq<Event>)
    ensures |Run(Remote, sr, Fresh(), evs).jobs| <= 6
    ensures |Run(Local, sr, Fresh(), evs).jobs| <= 5
  {
    RunBounded(Remote, sr, Fresh(), evs);
    RunBounded(Local, sr, Fresh(), evs);
  }

  // --------------------------------------------------------------- restart

  /** `start_live` after a stop: the consumer's fields are kept, including
      the last auto-sent start, and a new chunker at the device's rate
      starts with an empty buffer and counts samples from zero again. */
  function Restart(c: Consumer, sr: nat): (r: (Consumer, Chunker.State))
    requires sr > 0
    ensures r.0.lastAutoStart == c.lastAutoStart && r.0.jobs == c.jobs
    ensures Chunker.Valid(r.1) && r.1.cfg.sr == sr && r.1.cfg.chunkN == 3 * sr
    ensures r.1.buf == [] && r.1.emitted == 0 && r.1.queue == []
  {
    (c, Chunker.ClientChunker(sr))
  }

  /** The first chunk the new chunker cuts from the first three seconds of
      audio after a restart starts at zero. */
  lemma FirstChunkAtZero(cfg: Chunker.Config, data: seq<real>)
    requires 0 < cfg.chunkN <= |data|
    ensures |Chunker.Cut(cfg, data, 0).0| > 0 && Chunker.Cut(cfg, data, 0).0[0].start == 0
  {
    Chunker.CutStep(cfg, data, 0);
    Chunker.CutIsContiguous(cfg, data, 0);
  }

  /** If the previous run's last auto-sent chunk started at zero, the first
      chunk the restarted chunker cuts, which starts at zero too, is never
      auto-sent, though auto-send is on and however short the queue is. */
  lemma RestartSkipsFirstChunk(cl: Client, c: Consumer, sr: nat, data: seq<real>)
    requires sr > 0 && c.lastAutoStart == Some(0.0) && |data| >= 3 * sr
    ensures var (c1, s1) := Restart(c, sr);
            var chunks := Chunker.Cut(s1.cfg, s1.buf + data, s1.emitted).0;
            && |chunks| > 0 && chunks[0].start == 0
            && Receive(cl, c1, true, sr, chunks[0]).jobs == c.jobs
  {
    var (c1, s1) := Restart(c, sr);
    assert s1.buf + data == data;
    FirstChunkAtZero(s1.cfg, data);
    var first := Chunker.Cut(s1.cfg, data, 0).0[0];
    ZeroStamp(first.start, sr);
    RefusedAtRecord(cl, c1, sr, first);
  }

  lemma ZeroStamp(start: nat, sr: Rate)
    requires start == 0
    ensures start as real / sr as real == 0.0
  {
    assert start as real == 0.0;
  }

  /** The record is a time, not a sample count: a run at 16000 Hz that
      auto-sends the chunk starting at sample 48000 (3 s) refuses, after a
      restart at 48000 Hz, the chunk starting at sample 144000, which is
      3 s as well. */
  lemma RestartAtOtherRate(cl: Client, ch1: Chunker.Chunk, ch2: Chunker.Chunk)
    requires cl.autoBelow > 0 && ch1.start == 48000 && ch2.start == 144000
    ensures var c1 := Receive(cl, Fresh(), true, 16000, ch1);
            && c1.jobs == [Job(cl.kind, ch1, 16000)] && c1.lastAutoStart == Some(3.0)
            && Receive(cl, Restart(c1, 48000).0, true, 48000, ch2).jobs == c1.jobs
  {
    assert 48000 as real / 16000 as real == 3.0;
    assert 144000 as real / 48000 as real == 3.0;
  }

  /** A chunk stamped with the recorded time is never auto-sent. */
  lemma RefusedAtRecord(cl: Client, c: Consumer, sr: Rate, ch: Chunker.Chunk)
    requires c.lastAutoStart == Some(ch.start as real / sr as real)
    ensures Receive(cl, c, true, sr, ch).jobs == c.jobs
  {
  }

  /** A restart that also forgets the previous run's auto-sent start. */
  function RestartFresh(c: Consumer, sr: nat): (r: (Consumer, Chunker.State))
    requires sr > 0
    ensures r.0.lastAutoStart.None? && r.0.jobs == c.jobs && r.0.lastChunk == c.lastChunk
    ensures r.1 == Restart(c, sr).1
  {
    (c.(lastAutoStart := None), Chunker.ClientChunker(sr))
  }

  /** After a forgetful restart the first chunk of the new run is auto-sent
      whenever the queue has room, whatever the previous run sent. */
  lemma RestartFreshSendsFirst(cl: Client, c: Consumer, sr: nat, data: seq<real>)
    requires sr > 0 && |data| >= 3 * sr && |c.jobs| < cl.autoBelow
    ensures var (c1, s1) := RestartFresh(c, sr);
            var chunks := Chunker.Cut(s1.cfg, s1.buf + data, s1.emitted).0;
            && |chunks| > 0 && chunks[0].start == 0
            && Receive(cl, c1, true, sr, chunks[0]).jobs == c.jobs + [Job(cl.kind, chunks[0], sr)]
  {
    var (c1, s1) := RestartFresh(c, sr);
    assert s1.buf + data == data;
    FirstChunkAtZero(s1.cfg, data);
  }

  // ------------------------------------------------------------ worker text

  const NoSpeech: string := "(no speech detected)"
  const EmptyChunk: string := "(empty chunk)"

  /** A finished transcription as shown: stripped, or the placeholder when
      nothing but whitespace is left. */
  function Settle(raw: string): (r: string)
    ensures |r| > 0
    ensures Text.Blank(raw) ==> r == NoSpeech
    ensures !Text.Blank(raw) ==> r == Text.Strip(raw)
    ensures !Text.IsSpace(r[0]) && !Text.IsSpace(r[|r| - 1])
  {
    Text.StripBlank(raw);
    var t := Text.Strip(raw);
    if t == "" then NoSpeech else t
  }

  /** Settling an already settled text changes nothing. */
  lemma SettleIdempotent(raw: string)
    ensures Settle(Settle(raw)) == Settle(raw)
  {
    var r := Settle(raw);
    Text.StripTrimmed(r);
    Text.StripBlank(r);
  }

  /** A JSON value where the client expects a string: missing, a string, or
      a value of another type, either falsy (`null`, `false`, `0`, an empty
      list or object) or truthy. */
  datatype JsonText = Absent | Str(s: string) | FalsyOther | TruthyOther

  /** Python truthiness of such a value; a missing value reads as `None`. */
  predicate Falsy(v: JsonText) {
    v.Absent? || v == Str("") || v.FalsyOther?
  }

  /** The JSON body of a successful server reply: its `text` field and the
      `text` field of each entry of `segments`. */
  datatype ServerBody = ServerBody(text: JsonText, segments: seq<JsonText>)

  /** How posting a chunk ends: a 2xx/3xx reply with its body, a reply with
      an error status, or an exception with its message. */
  datatype PostOutcome = Ok(body: ServerBody) | NotOk(status: int) | PostError(message: string)

  /** `seg.get("text", "")` for every segment: a missing text is "", and a
      text that is not a string makes `" ".join` raise (None). */
  function SegmentTexts(segs: seq<JsonText>): (r: Option<seq<string>>)
    ensures r.Some? <==> forall i :: 0 <= i < |segs| ==> segs[i].Absent? || segs[i].Str?
    ensures r.Some? ==> |r.value| == |segs|
    ensures r.Some? ==> forall i :: 0 <= i < |segs| ==>
              r.value[i] == (if segs[i].Str? then segs[i].s else "")
  {
    if |segs| == 0 then Some([])
    else
      var front := SegmentTexts(segs[..|segs| - 1]);
      var last := segs[|segs| - 1];
      if front.None? || last.FalsyOther? || last.TruthyOther? then None
      else Some(front.value + [if last.Str? then last.s else ""])
  }

  /** The text taken from a reply before stripping: the `text` field when it
      is truthy, else the segment texts joined by spaces. None when that
      raises: a truthy `text` that is not a string has no `strip`, and a
      segment text that is not a string breaks the join. */
  function ReplyRaw(j: ServerBody): (raw: Option<string>)
    ensures j.text.Str? && j.text.s != "" ==> raw == Some(j.text.s)
    ensures Falsy(j.text) && SegmentTexts(j.segments).Some? ==>
              raw == Some(Text.Join(" ", SegmentTexts(j.segments).value))
    ensures raw.None? <==>
              j.text.TruthyOther?
              || (Falsy(j.text)
                  && exists i :: 0 <= i < |j.segments|
                                 && (j.segments[i].FalsyOther? || j.segments[i].TruthyOther?))
  {
    if j.text.Str? && j.text.s != "" then Some(j.text.s)
    else if j.text.TruthyOther? then None
    else
      var texts := SegmentTexts(j.segments);
      if texts.None? then None else Some(Text.Join(" ", texts.value))
  }

  /** What the remote worker shows for one job. `silence` is the verdict of
      the energy gate, with its message, computed outside this model;
      `raised` is the message of the exception a malformed body raises. */
  function RemoteShown(ch: Chunker.Chunk, silence: Option<string>, post: PostOutcome,
                       raised: string): string {
    if |ch.audio| == 0 then EmptyChunk
    else if silence.Some? then silence.value
    else
      match post
      case Ok(j) =>
        var raw := ReplyRaw(j);
        if raw.None? then "(error: " + raised + ")" else Settle(raw.value)
      case NotOk(status) => "(server " + Text.IntToString(status) + ")"
      case PostError(m) => "(error: " + m + ")"
  }

  /** A non-empty `text` field decides the shown text; the segments are
      consulted only when it is falsy, so even malformed segments do not
      matter next to it. */
  lemma TextFieldWins(ch: Chunker.Chunk, t: string, s1: seq<JsonText>, s2: seq<JsonText>,
                      m: string)
    requires |ch.audio| > 0 && t != ""
    ensures RemoteShown(ch, None, Ok(ServerBody(Str(t), s1)), m)
              == RemoteShown(ch, None, Ok(ServerBody(Str(t), s2)), m)
    ensures RemoteShown(ch, None, Ok(ServerBody(Str(t), s1)), m) == Settle(t)
  {
  }

  /** A successful reply never shows an empty text: a malformed body shows
      the error line, blank replies show the placeholder and every other
      reply its text with the ends trimmed. */
  lemma RemoteShownOk(ch: Chunker.Chunk, j: ServerBody, m: string)
    requires |ch.audio| > 0
    ensures var r := RemoteShown(ch, None, Ok(j), m);
            && |r| > 0
            && (ReplyRaw(j).None? ==> r == "(error: " + m + ")")
            && (ReplyRaw(j).Some? && !Text.Blank(ReplyRaw(j).value) ==>
                  r == Text.Strip(ReplyRaw(j).value))
            && (ReplyRaw(j).Some? ==>
                  (r == NoSpeech <==>
                     Text.Blank(ReplyRaw(j).value) || Text.Strip(ReplyRaw(j).value) == NoSpeech))
  {
  }

  /** A reply `{"segments": [{"text": null}]}` shows the error line, where
      a missing text would have shown the placeholder. */
  lemma NullSegmentShowsError(ch: Chunker.Chunk, m: string)
    requires |ch.audio| > 0
    ensures RemoteShown(ch, None, Ok(ServerBody(Absent, [FalsyOther])), m) == "(error: " + m + ")"
    ensures RemoteShown(ch, None, Ok(ServerBody(Absent, [Absent])), m) == NoSpeech
  {
    assert ReplyRaw(ServerBody(Absent, [Absent])) == Some("");
    assert Text.Blank("");
  }

  /** How transcribing in-process ends: the engine's segment texts, or an
      exception with its message. */
  datatype LocalOutcome = Transcribed(texts: seq<string>) | Raised(message: string)

  /** What the local worker shows for one job: the segment texts run
      together, settled, or the exception. Never empty, and never with
      whitespace at either end. */
  function LocalShown(run: LocalOutcome): (r: string)
    ensures |r| > 0
    ensures !Text.IsSpace(r[0]) && !Text.IsSpace(r[|r| - 1])
  {
    match run
    case Transcribed(texts) => Settle(Text.Concat(texts))
    case Raised(m) => "(error: " + m + ")"
  }

  /** An engine run whose segments hold only whitespace shows the
      placeholder; an exception is shown with its message. */
  lemma LocalShownCases(texts: seq<string>, m: string)
    ensures Text.Blank(Text.Concat(texts)) ==> LocalShown(Transcribed(texts)) == NoSpeech
    ensures !Text.Blank(Text.Concat(texts)) ==>
              LocalShown(Transcribed(texts)) == Text.Strip(Text.Concat(texts))
    ensures LocalShown(Raised(m))[..8] == "(error: "
  {
  }
}
