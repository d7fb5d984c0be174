/** The live transcription routes: the PCM callback of a session's pipe, the
    decode worker's loop body, subscriber fan-out, `push` validation with the
    lazily started pipe, the stream generator and the finalize part of
    `stop`. The speech engine is a function parameter from a decode request
    to either a sequence of segments or an error. */
module Realtime {
  import opened Common
  import Text
  import opened Sessions
  import FfmpegPipe

  /** Audio at the live edge that is never decoded, in seconds. */
  const TrailGuard: real := 2.0
  /** The boundary must move by more than this before a re-decode. */
  const MinStep: real := 0.5
  const DefaultLanguage: string := "ja"

  datatype Segment = Segment(start: real, end: real, text: string)

  datatype EngineOutcome = Segments(segs: seq<Segment>) | EngineError

  /** Everything the worker and finalize pass to `model.transcribe`: the
      whole sink so far, the language, and the fixed decoding options. */
  datatype DecodeRequest = DecodeRequest(
    audio: seq<Byte>, language: string, vadFilter: bool,
    noSpeechThreshold: real, temperature: real, beamSize: nat)

  type Engine = DecodeRequest -> EngineOutcome

  /** `sess.language or "ja"`. */
  function LanguageOf(s: Session): (l: string)
    ensures s.language.Some? && s.language.value != "" ==> l == s.language.value
    ensures s.language.None? || s.language.value == "" ==> l == DefaultLanguage
  {
    if s.language.Some? && s.language.value != "" then s.language.value else DefaultLanguage
  }

  /** The one request both the worker and finalize make: the same options
      on the whole sink. */
  function Request(s: Session): (q: DecodeRequest)
    ensures q.audio == s.audio && q.language == LanguageOf(s)
    ensures !q.vadFilter && q.noSpeechThreshold == 0.3 && q.temperature == 0.0 && q.beamSize == 5
  {
    DecodeRequest(s.audio, LanguageOf(s), false, 0.3, 0.0, 5)
  }

  // ------------------------------------------------------------ timing

  /** `_duration_sec`: frames in the sink over its frame rate. */
  function Duration(s: Session): real {
    s.pcmFrames as real / OpenWavWriter(s.wavPath).frameRate as real
  }

  /** `max(0.0, dur - 2.0)`. */
  function Target(s: Session): (t: real)
    ensures t >= 0.0 && t >= Duration(s) - TrailGuard
    ensures t == 0.0 || t == Duration(s) - TrailGuard
  {
    if Duration(s) - TrailGuard > 0.0 then Duration(s) - TrailGuard else 0.0
  }

  /** The worker decodes only when the boundary would move by more than
      `MinStep`. */
  predicate ShouldDecode(s: Session) {
    Target(s) > s.lastDecoded + MinStep
  }

  // ------------------------------------------------------------ texts

  /** `"".join(s.text for s in segs if s.end <= limit)`. */
  function TextUpTo(segs: seq<Segment>, limit: real): string {
    if |segs| == 0 then ""
    else
      var last := segs[|segs| - 1];
      TextUpTo(segs[..|segs| - 1], limit) + (if last.end <= limit then last.text else "")
  }

  /** `"".join(s.text for s in segs)`. */
  function FullText(segs: seq<Segment>): string {
    if |segs| == 0 then "" else FullText(segs[..|segs| - 1]) + segs[|segs| - 1].text
  }

  /** The confirmed text distributes over concatenated segment lists. */
  lemma {:induction false} TextUpToAppend(a: seq<Segment>, b: seq<Segment>, limit: real)
    ensures TextUpTo(a + b, limit) == TextUpTo(a, limit) + TextUpTo(b, limit)
    decreases |b|
  {
    if |b| == 0 {
      assert a + b == a;
    } else {
      var b' := b[..|b| - 1];
      assert (a + b)[..|a + b| - 1] == a + b';
      TextUpToAppend(a, b', limit);
    }
  }

  /** A single segment contributes its text exactly when it ends by the
      limit; with `TextUpToAppend` this pins the confirmed text down as the
      in-order concatenation of exactly the segments ending by the limit. */
  lemma TextUpToSingle(g: Segment, limit: real)
    ensures TextUpTo([g], limit) == if g.end <= limit then g.text else ""
  {
    assert [g][..0] == [];
  }

  /** When every segment ends by the limit the filter keeps them all, so the
      worker's text and finalize's text agree. */
  lemma {:induction false} TextUpToAll(segs: seq<Segment>, limit: real)
    requires forall i :: 0 <= i < |segs| ==> segs[i].end <= limit
    ensures TextUpTo(segs, limit) == FullText(segs)
  {
    if |segs| > 0 {
      TextUpToAll(segs[..|segs| - 1], limit);
    }
  }

  // ------------------------------------------------------------ fan-out

  /** `_notify_subscribers`: puts `text` into every subscriber queue of a
      snapshot of the list; a queue whose put raises (`refuses`) is skipped
      and the others are still served. */
  function Notify(subs: seq<Subscriber>, text: string, refuses: set<nat>): (r: seq<Subscriber>)
    ensures |r| == |subs|
    ensures forall i :: 0 <= i < |subs| ==> r[i].id == subs[i].id
    ensures forall i :: 0 <= i < |subs| && subs[i].id !in refuses ==>
              r[i].pending == subs[i].pending + [text]
    ensures forall i :: 0 <= i < |subs| && subs[i].id in refuses ==> r[i] == subs[i]
  {
    if |subs| == 0 then []
    else
      var s := subs[0];
      [if s.id in refuses then s else s.(pending := s.pending + [text])]
      + Notify(subs[1..], text, refuses)
  }

  lemma NotifyKeepsWellFormed(subs: seq<Subscriber>, text: string, refuses: set<nat>, next: nat)
    requires SubsWellFormed(subs, next)
    ensures SubsWellFormed(Notify(subs, text, refuses), next)
  {
    var r := Notify(subs, text, refuses);
    assert forall i :: 0 <= i < |r| ==> r[i].id == subs[i].id;
  }

  // ------------------------------------------------------------ PCM sink

  /** `write_pcm`: the block goes to the WAV sink, `len(buf)//2` frames are
      counted and one wake signal is queued for the worker. On a closed sink
      `writeframes` raises before anything is counted, which ends the
      reader: nothing changes. */
  function OnPcm(s: Session, buf: seq<Byte>): (r: Session)
    ensures s.sinkOpen ==> r.audio == s.audio + buf
    ensures s.sinkOpen ==> r.pcmFrames == s.pcmFrames + |buf| / 2
    ensures s.sinkOpen ==> r.wakes == s.wakes + 1
    ensures r == s.(audio := r.audio, pcmFrames := r.pcmFrames, wakes := r.wakes)
    ensures !s.sinkOpen ==> r == s
  {
    if !s.sinkOpen then s
    else
      s.(audio := s.audio + buf,
         pcmFrames := s.pcmFrames + |buf| / BytesPerFrame(OpenWavWriter(s.wavPath)),
         wakes := s.wakes + 1)
  }

  function FramesIn(blocks: seq<seq<Byte>>): nat {
    if |blocks| == 0 then 0 else FramesIn(blocks[..|blocks| - 1]) + |blocks[|blocks| - 1]| / 2
  }

  function OnPcmAll(s: Session, blocks: seq<seq<Byte>>): Session {
    if |blocks| == 0 then s else OnPcm(OnPcmAll(s, blocks[..|blocks| - 1]), blocks[|blocks| - 1])
  }

  /** Delivering the reader's blocks one by one to an open sink appends the
      whole PCM output to it, counts each block's frames and raises one wake
      per block; a closed sink takes nothing. */
  lemma {:induction false} OnPcmAllEffect(s: Session, blocks: seq<seq<Byte>>)
    ensures s.sinkOpen ==> OnPcmAll(s, blocks).audio == s.audio + FfmpegPipe.Flatten(blocks)
    ensures s.sinkOpen ==> OnPcmAll(s, blocks).pcmFrames == s.pcmFrames + FramesIn(blocks)
    ensures s.sinkOpen ==> OnPcmAll(s, blocks).wakes == s.wakes + |blocks|
    ensures !s.sinkOpen ==> OnPcmAll(s, blocks) == s
    ensures OnPcmAll(s, blocks) == s.(audio := OnPcmAll(s, blocks).audio,
                                      pcmFrames := OnPcmAll(s, blocks).pcmFrames,
                                      wakes := OnPcmAll(s, blocks).wakes)
  {
    if |blocks| > 0 {
      OnPcmAllEffect(s, blocks[..|blocks| - 1]);
    }
  }

  // ------------------------------------------------------------ worker

  /** Lines 42-66 of the worker, after a wake: compute the target, skip when
      it has not moved by more than `MinStep`, otherwise decode the whole
      sink and adopt the text of the segments ending by the target when it is
      at least as long as the current text. An engine error changes nothing. */
  function Decode(s: Session, engine: Engine, refuses: set<nat>): (r: Session)
    ensures r.lastDecoded >= s.lastDecoded
    ensures |r.textAccum| >= |s.textAccum|
    ensures r == s || (r.lastDecoded == Target(s) > s.lastDecoded + MinStep)
    ensures r.audio == s.audio && r.pcmFrames == s.pcmFrames && r.wakes == s.wakes
    ensures r.stopFlag == s.stopFlag && r.ff == s.ff && r.nextSubId == s.nextSubId
  {
    if !ShouldDecode(s) then s
    else
      match engine(Request(s))
      case EngineError => s
      case Segments(segs) =>
        var txt := TextUpTo(segs, Target(s));
        if |txt| >= |s.textAccum| then
          s.(textAccum := txt, lastDecoded := Target(s), subs := Notify(s.subs, txt, refuses))
        else s
  }

  /** A skipped wake does not consult the engine: any two engines give the
      same result, and that result is the unchanged session. */
  lemma SkipIgnoresEngine(s: Session, e1: Engine, e2: Engine, refuses: set<nat>)
    requires !ShouldDecode(s)
    ensures Decode(s, e1, refuses) == Decode(s, e2, refuses) == s
  {
  }

  /** The adoption rule. A wake changes the session exactly when the
      boundary moves, and it moves exactly when the target is far enough
      ahead, the engine answers and the confirmed text for the target is
      at least as long as the current one. The boundary then is the target,
      the text is that of the segments ending by it, and every subscriber
      that does not refuse has it as its newest pending entry. */
  lemma DecodeAdoption(s: Session, engine: Engine, refuses: set<nat>)
    ensures var r := Decode(s, engine, refuses);
            && (r != s <==> r.lastDecoded != s.lastDecoded)
            && (r.lastDecoded != s.lastDecoded <==>
                  ShouldDecode(s) && engine(Request(s)).Segments?
                  && |TextUpTo(engine(Request(s)).segs, Target(s))| >= |s.textAccum|)
    ensures var r := Decode(s, engine, refuses);
            r.lastDecoded != s.lastDecoded ==>
              && r.lastDecoded == Target(s)
              && r.textAccum == TextUpTo(engine(Request(s)).segs, r.lastDecoded)
              && |r.subs| == |s.subs|
              && forall i :: 0 <= i < |s.subs| && s.subs[i].id !in refuses ==>
                   r.subs[i].id == s.subs[i].id && |r.subs[i].pending| > 0
                   && r.subs[i].pending[|r.subs[i].pending| - 1] == r.textAccum
  {
  }

  /** What the worker loop does next. */
  datatype Next = Continue | Exit

  /** One turn of the worker loop. `stopAfterWait` is the stop flag as read
      after `q.get` returned, since `stop` may set it meanwhile. A stopped
      session exits; an empty queue is a timeout and the loop goes on; a
      wake consumes one signal and either exits on the stop flag or decodes. */
  function WorkerTurn(s: Session, stopAfterWait: bool, engine: Engine, refuses: set<nat>)
    : (r: (Session, Next))
    ensures s.stopFlag ==> r == (s, Exit)
    ensures !s.stopFlag && s.wakes == 0 ==> r == (s, Continue)
    ensures !s.stopFlag && s.wakes > 0 && stopAfterWait ==>
              r == (s.(wakes := s.wakes - 1, stopFlag := true), Exit)
    ensures !s.stopFlag && s.wakes > 0 && !stopAfterWait ==>
              r == (Decode(s.(wakes := s.wakes - 1), engine, refuses), Continue)
  {
    if s.stopFlag then (s, Exit)
    else if s.wakes == 0 then (s, Continue)
    else
      var s1 := s.(wakes := s.wakes - 1);
      if stopAfterWait then (s1.(stopFlag := true), Exit)
      else (Decode(s1, engine, refuses), Continue)
  }

  // ------------------------------------------------------------ push

  /** What a route hands back: a status with a body, or an exception that
      escapes the handler. */
  datatype Reply = Reply(status: nat, body: string) | Raised

  /** The `chunk` part of a push: the file name the browser gave it and its
      bytes. A part with an empty file name is falsy, as Werkzeug's
      `FileStorage` is. */
  datatype FilePart = FilePart(filename: string, data: seq<Byte>)

  /** `rt_push` against the store. The checks run in a fixed order: missing
      sid (400), unknown sid (410), a missing or falsy chunk (400), empty
      data ("ok", nothing else). The pipe is created and started only when
      the session has none; a spawn failure leaves the new pipe in place
      without a process and raises; a failed write answers 410. */
  function Push(st: Store, sid: Option<string>, mtype: Option<string>, chunk: Option<FilePart>,
                spawnOk: bool, writeFails: bool): (r: (Store, Reply))
    ensures sid.None? || sid.value == "" ==> r == (st, Reply(400, "missing sid"))
    ensures sid.Some? && sid.value != "" && sid.value !in st ==> r == (st, Reply(410, "gone"))
    ensures sid.Some? && sid.value != "" && sid.value in st
            && (chunk.None? || chunk.value.filename == "") ==>
              r == (st, Reply(400, "no chunk"))
    ensures sid.Some? && sid.value != "" && sid.value in st && chunk.Some?
            && chunk.value.filename != "" && chunk.value.data == [] ==>
              r == (st, Reply(200, "ok"))
    ensures sid.Some? && sid.value != "" && sid.value in st && chunk.Some?
            && chunk.value.filename != "" && chunk.value.data != [] ==>
              var ff := st[sid.value].ff;
              r.1 == if ff.None? && !spawnOk then Raised
                     else if (ff.Some? ==> ff.value.proc.Some?) && !writeFails then Reply(200, "ok")
                     else Reply(410, "gone")
    ensures r.0.Keys == st.Keys
    ensures forall k :: k in st && (sid.None? || k != sid.value) ==> r.0[k] == st[k]
  {
    if sid.None? || sid.value == "" then (st, Reply(400, "missing sid"))
    else if sid.value !in st then (st, Reply(410, "gone"))
    else if chunk.None? || chunk.value.filename == "" then (st, Reply(400, "no chunk"))
    else if chunk.value.data == [] then (st, Reply(200, "ok"))
    else
      var sess := st[sid.value];
      var (sess1, raised) :=
        if sess.ff.Some? then (sess, false)
        else
          var started := FfmpegPipe.Start(FfmpegPipe.New(Some(mtype.GetOr(""))), spawnOk);
          (sess.(ff := Some(started.0)), started.1);
      if raised then (st[sid.value := sess1], Raised)
      else
        var (pipe, ok) := FfmpegPipe.Write(sess1.ff.value, chunk.value.data, writeFails);
        var st1 := st[sid.value := sess1.(ff := Some(pipe))];
        if ok then (st1, Reply(200, "ok")) else (st1, Reply(410, "gone"))
  }

  /** A push with data to a known session touches only that session's pipe:
      an existing pipe is reused (never replaced by a new one), a new one
      gets the lower-cased media type. A spawn failure on the first push
      raises and leaves the pipe without a process; otherwise the push
      answers "ok" exactly when the pipe has a process and the write goes
      through, and the data is then appended to what the process got, and
      "gone" (410) when it does not. */
  lemma PushPipe(st: Store, sid: string, mtype: Option<string>, name: string, data: seq<Byte>,
                 spawnOk: bool, writeFails: bool)
    requires sid != "" && sid in st && name != "" && data != []
    ensures var (st1, reply) :=
              Push(st, Some(sid), mtype, Some(FilePart(name, data)), spawnOk, writeFails);
            var ff := st[sid].ff;
      && st1[sid] == st[sid].(ff := st1[sid].ff)
      && st1[sid].ff.Some?
      && (ff.Some? ==> st1[sid].ff.value.mtype == ff.value.mtype)
      && (ff.None? ==> st1[sid].ff.value.mtype == Text.Lower(mtype.GetOr("")))
      && reply == (if ff.None? && !spawnOk then Raised
                   else if (ff.Some? ==> ff.value.proc.Some?) && !writeFails then Reply(200, "ok")
                   else Reply(410, "gone"))
      && (reply == Raised ==> st1[sid].ff.value.proc.None?)
      && (reply == Reply(200, "ok") ==>
            && st1[sid].ff.value.proc.Some?
            && st1[sid].ff.value.proc.value.fed
               == (if ff.Some? then ff.value.proc.value.fed else []) + data)
      && (reply == Reply(410, "gone") && ff.Some? ==> st1[sid].ff == ff)
  {
    if st[sid].ff.Some? {
    } else if spawnOk {
    } else {
    }
  }

  /** Two pushes to a new session start one pipe: the second reuses the
      first one's pipe and media type, whatever media type it declares. */
  lemma RepeatedPushReusesPipe(st: Store, sid: string, m1: Option<string>, m2: Option<string>,
                               f1: FilePart, f2: FilePart)
    requires sid != "" && sid in st && st[sid].ff.None?
    requires f1.filename != "" && f2.filename != "" && f1.data != [] && f2.data != []
    ensures var st1 := Push(st, Some(sid), m1, Some(f1), true, false).0;
            var st2 := Push(st1, Some(sid), m2, Some(f2), true, false).0;
            && st2[sid].ff.value.mtype == Text.Lower(m1.GetOr(""))
            && st2[sid].ff.value.proc.value.cmd == FfmpegPipe.Command(Text.Lower(m1.GetOr("")))
            && st2[sid].ff.value.proc.value.fed == f1.data + f2.data
  {
  }

  // ------------------------------------------------------------ stream

  /** How opening a stream ends. */
  datatype Opened = BadSid | Opened(store: Store, subId: nat, first: string)

  /** `rt_stream`: rejects a missing or unknown sid with 400; otherwise
      registers a fresh queue and the first event is the current text. */
  function StreamOpen(st: Store, sid: Option<string>): (r: Opened)
    ensures r.BadSid? <==> sid.None? || sid.value == "" || sid.value !in st
    ensures r.Opened? ==>
      var s := st[sid.value];
      && r.first == s.textAccum
      && r.subId == s.nextSubId
      && r.store == st[sid.value := s.(subs := s.subs + [Subscriber(s.nextSubId, [])],
                                         nextSubId := s.nextSubId + 1)]
  {
    if sid.None? || sid.value == "" || sid.value !in st then BadSid
    else
      var s := st[sid.value];
      Opened(st[sid.value := s.(subs := s.subs + [Subscriber(s.nextSubId, [])],
                                nextSubId := s.nextSubId + 1)],
             s.nextSubId, s.textAccum)
  }

  /** Removes the first subscriber with identity `id`, if any: `list.remove`
      with its `ValueError` swallowed. */
  function Detach(subs: seq<Subscriber>, id: nat): (r: seq<Subscriber>)
    ensures forall x :: x in r ==> x in subs
    ensures |r| == |subs| || |r| == |subs| - 1
    ensures (forall i :: 0 <= i < |subs| ==> subs[i].id != id) ==> r == subs
  {
    if |subs| == 0 then []
    else if subs[0].id == id then subs[1..]
    else [subs[0]] + Detach(subs[1..], id)
  }

  /** Detaching keeps subscriber identities unique. */
  lemma {:induction false} DetachWellFormed(subs: seq<Subscriber>, id: nat, next: nat)
    requires SubsWellFormed(subs, next)
    ensures SubsWellFormed(Detach(subs, id), next)
  {
    if |subs| > 0 && subs[0].id != id {
      var rest := Detach(subs[1..], id);
      DetachWellFormed(subs[1..], id, next);
      forall i | 0 <= i < |rest|
        ensures rest[i].id != subs[0].id
      {
        assert rest[i] in rest;
        assert rest[i] in subs[1..];
        var j :| 0 <= j < |subs[1..]| && subs[1..][j] == rest[i];
        assert subs[j + 1] == rest[i];
      }
    }
  }

  /** With unique identities, detaching leaves no subscriber with that
      identity, so detaching again changes nothing. */
  lemma {:induction false} DetachRemoves(subs: seq<Subscriber>, id: nat, next: nat)
    requires SubsWellFormed(subs, next)
    ensures forall i :: 0 <= i < |Detach(subs, id)| ==> Detach(subs, id)[i].id != id
    ensures Detach(Detach(subs, id), id) == Detach(subs, id)
  {
    if |subs| > 0 {
      if subs[0].id == id {
        forall i | 0 <= i < |subs| - 1
          ensures subs[1..][i].id != id
        {
          assert subs[1..][i] == subs[i + 1];
        }
      } else {
        DetachRemoves(subs[1..], id, next);
        var r := Detach(subs, id);
        assert r == [subs[0]] + Detach(subs[1..], id);
        assert forall i :: 1 <= i < |r| ==> r[i] == Detach(subs[1..], id)[i - 1];
      }
    }
  }

  /** Detaching removes nobody else. */
  lemma {:induction false} DetachKeepsOthers(subs: seq<Subscriber>, id: nat)
    ensures forall x :: x in subs && x.id != id ==> x in Detach(subs, id)
  {
    if |subs| > 0 {
      DetachKeepsOthers(subs[1..], id);
      forall x | x in subs && x.id != id
        ensures x in Detach(subs, id)
      {
        if x != subs[0] {
          assert x in subs[1..];
        }
      }
    }
  }

  datatype StreamEvent = Emit(text: string) | End

  /** One turn of the stream generator for subscriber `id`. A stopped
      session ends the stream and removes the queue; otherwise the next
      queued text is emitted, and an empty queue (the 10 s timeout) re-emits
      the current text. */
  function StreamTurn(s: Session, id: nat): (r: (Session, StreamEvent))
    ensures s.stopFlag ==> r == (s.(subs := Detach(s.subs, id)), End)
    ensures !s.stopFlag ==> r.1.Emit?
    ensures (!s.stopFlag
             && forall i :: 0 <= i < |s.subs| ==> s.subs[i].id != id || s.subs[i].pending == [])
            ==> r == (s, Emit(s.textAccum))
  {
    if s.stopFlag then (s.(subs := Detach(s.subs, id)), End)
    else
      var k := IndexOf(s.subs, id);
      if k < |s.subs| && s.subs[k].pending != [] then
        var q := s.subs[k];
        (s.(subs := s.subs[k := q.(pending := q.pending[1..])]), Emit(q.pending[0]))
      else (s, Emit(s.textAccum))
  }

  function IndexOf(subs: seq<Subscriber>, id: nat): (k: nat)
    ensures k <= |subs|
    ensures k < |subs| ==> subs[k].id == id
    ensures forall i :: 0 <= i < k ==> subs[i].id != id
  {
    if |subs| == 0 then 0
    else if subs[0].id == id then 0
    else 1 + IndexOf(subs[1..], id)
  }

  /** A subscriber sees, in order, what was broadcast to it: after one
      broadcast into an empty queue the next turn emits that text. */
  lemma StreamRelaysBroadcast(s: Session, id: nat, text: string)
    requires !s.stopFlag && SubsWellFormed(s.subs, s.nextSubId)
    requires exists i :: 0 <= i < |s.subs| && s.subs[i].id == id && s.subs[i].pending == []
    ensures StreamTurn(s.(subs := Notify(s.subs, text, {})), id).1 == Emit(text)
  {
    var n := Notify(s.subs, text, {});
    var i :| 0 <= i < |s.subs| && s.subs[i].id == id && s.subs[i].pending == [];
    assert n[i].id == id && n[i].pending == [text];
    assert forall j :: 0 <= j < i ==> n[j].id != id by {
      assert forall j :: 0 <= j < i ==> n[j].id == s.subs[j].id;
    }
    TurnEmitsHead(s.(subs := n), id, i);
  }

  /** A live stream whose queue holds something emits the oldest entry. */
  lemma TurnEmitsHead(s: Session, id: nat, i: nat)
    requires !s.stopFlag && i < |s.subs| && s.subs[i].id == id && s.subs[i].pending != []
    requires forall j :: 0 <= j < i ==> s.subs[j].id != id
    ensures StreamTurn(s, id).1 == Emit(s.subs[i].pending[0])
  {
    IndexOfFirst(s.subs, id, i);
  }

  /** The first position holding `id` is the one `IndexOf` finds. */
  lemma IndexOfFirst(subs: seq<Subscriber>, id: nat, i: nat)
    requires i < |subs| && subs[i].id == id
    requires forall j :: 0 <= j < i ==> subs[j].id != id
    ensures IndexOf(subs, id) == i
  {
  }

  /** `rt_stream` then its generator's first turns: the first event is the
      current text even when it is empty, and with nothing queued the next
      turn is a heartbeat carrying the current text again. */
  lemma StreamFirstEvents(st: Store, sid: string)
    requires sid != "" && sid in st && !st[sid].stopFlag && Valid(st[sid])
    ensures StreamOpen(st, Some(sid)).Opened?
    ensures StreamOpen(st, Some(sid)).first == st[sid].textAccum
    ensures var o := StreamOpen(st, Some(sid));
            StreamTurn(o.store[sid], o.subId).1 == Emit(st[sid].textAccum)
  {
    var o := StreamOpen(st, Some(sid));
    var s := o.store[sid];
    var k := IndexOf(s.subs, o.subId);
    assert s.subs[|s.subs| - 1] == Subscriber(o.subId, []);
    assert k < |s.subs|;
  }

  // ------------------------------------------------------------ finalize

  /** The session's pipe has a running ffmpeg process, and so a reader. */
  predicate HasProcess(s: Session) {
    s.ff.Some? && s.ff.value.proc.Some?
  }

  /** The finalize part of `rt_stop`. Closing the pipe closes ffmpeg's
      input, waits for it and joins the reader, so the PCM ffmpeg still held
      (`drained`, the reader's last blocks) goes through `write_pcm` into
      the still open sink first. A pipe whose spawn failed has no process
      and no reader, so nothing is drained from it. Then the sink is closed, the whole sink is
      decoded once, and the text is replaced by all segment texts, with no
      end filter and no length check, and broadcast. An engine error keeps
      the previous text. */
  function Finalize(s: Session, drained: seq<seq<Byte>>, engine: Engine, refuses: set<nat>)
    : (r: Session)
    ensures !r.sinkOpen && r.language == s.language && r.lastDecoded == s.lastDecoded
    ensures r.sid == s.sid && r.wavPath == s.wavPath && r.stopFlag == s.stopFlag
            && r.nextSubId == s.nextSubId
    ensures r.wakes == if HasProcess(s) && s.sinkOpen then s.wakes + |drained| else s.wakes
    ensures r.ff.None? <==> s.ff.None?
    ensures r.ff.Some? ==> r.ff.value == FfmpegPipe.Close(s.ff.value)
    ensures r.audio ==
              if HasProcess(s) && s.sinkOpen then s.audio + FfmpegPipe.Flatten(drained)
              else s.audio
    ensures r.pcmFrames ==
              if HasProcess(s) && s.sinkOpen then s.pcmFrames + FramesIn(drained)
              else s.pcmFrames
    ensures engine(Request(r)).Segments? ==>
              r.textAccum == FullText(engine(Request(r)).segs)
              && r.subs == Notify(s.subs, r.textAccum, refuses)
    ensures engine(Request(r)).EngineError? ==> r.textAccum == s.textAccum && r.subs == s.subs
  {
    OnPcmAllEffect(s, drained);
    var s0 := if HasProcess(s) then OnPcmAll(s, drained) else s;
    var s1 := s0.(ff := if s.ff.Some? then Some(FfmpegPipe.Close(s.ff.value)) else None,
                  sinkOpen := false);
    match engine(Request(s1))
    case EngineError => s1
    case Segments(segs) =>
      var text := FullText(segs);
      var r := s1.(textAccum := text, subs := Notify(s1.subs, text, refuses));
      assert Request(r) == Request(s1);
      r
  }

  /** When every segment of the final decode ends by the trailing-guard
      target of the final audio, finalize confirms exactly the text a worker
      decode at that target would: the two filters differ only on segments
      in the last two seconds. */
  lemma FinalizeMatchesWorker(s: Session, drained: seq<seq<Byte>>, engine: Engine,
                              refuses: set<nat>)
    requires var r := Finalize(s, drained, engine, refuses);
             && engine(Request(r)).Segments?
             && forall i :: 0 <= i < |engine(Request(r)).segs| ==>
                  engine(Request(r)).segs[i].end <= Target(r)
    ensures var r := Finalize(s, drained, engine, refuses);
            r.textAccum == TextUpTo(engine(Request(r)).segs, Target(r))
  {
    var r := Finalize(s, drained, engine, refuses);
    TextUpToAll(engine(Request(r)).segs, Target(r));
  }

  /** Finalize is unconditional: it may shorten the text, which a worker
      step never does. */
  lemma FinalizeMayShrink()
    ensures var s := NewSession("a", None, "a.wav").(textAccum := "hello");
            var e: Engine := _ => Segments([]);
            Finalize(s, [], e, {}).textAccum == "" && |Decode(s, e, {}).textAccum| >= 5
  {
    var s := NewSession("a", None, "a.wav").(textAccum := "hello");
    var e: Engine := _ => Segments([]);
    assert FullText([]) == "";
  }

  // ------------------------------------------------------------ traces

  /** Everything that can happen to a live session between `start` and
      `stop`, in the order it happened. */
  datatype Event =
    | PcmBlock(buf: seq<Byte>)
    | Worker(stopAfterWait: bool, refuses: set<nat>)
    | Subscribe
    | StreamStep(id: nat)
    | Unsubscribe(id: nat)

  function Step(s: Session, ev: Event, engine: Engine): Session {
    match ev
    case PcmBlock(buf) => OnPcm(s, buf)
    case Worker(stopAfterWait, refuses) => WorkerTurn(s, stopAfterWait, engine, refuses).0
    case Subscribe =>
      s.(subs := s.subs + [Subscriber(s.nextSubId, [])], nextSubId := s.nextSubId + 1)
    case StreamStep(id) => StreamTurn(s, id).0
    case Unsubscribe(id) => s.(subs := Detach(s.subs, id))
  }

  function Run(s: Session, evs: seq<Event>, engine: Engine): Session {
    if |evs| == 0 then s else Step(Run(s, evs[..|evs| - 1], engine), evs[|evs| - 1], engine)
  }

  /** The live invariant: the session is well formed and the confirmed
      boundary never runs past the trailing guard of the audio received. */
  ghost predicate LiveInvariant(s: Session) {
    Valid(s) && s.lastDecoded <= Target(s)
  }

  lemma StepKeepsInvariant(s: Session, ev: Event, engine: Engine)
    requires LiveInvariant(s)
    ensures LiveInvariant(Step(s, ev, engine))
    ensures Step(s, ev, engine).lastDecoded >= s.lastDecoded
    ensures |Step(s, ev, engine).textAccum| >= |s.textAccum|
  {
    match ev
    case PcmBlock(buf) =>
      PcmKeepsInvariant(s, buf);
    case Worker(stopAfterWait, refuses) =>
      WorkerKeepsInvariant(s, stopAfterWait, engine, refuses);
    case Subscribe =>
    case StreamStep(id) =>
      if s.stopFlag {
        DetachWellFormed(s.subs, id, s.nextSubId);
      }
    case Unsubscribe(id) =>
      DetachWellFormed(s.subs, id, s.nextSubId);
  }

  /** More audio only moves the target forward. */
  lemma PcmKeepsInvariant(s: Session, buf: seq<Byte>)
    requires LiveInvariant(s)
    ensures LiveInvariant(OnPcm(s, buf))
  {
    var r := OnPcm(s, buf);
    assert Duration(r) >= Duration(s) by {
      assert r.pcmFrames >= s.pcmFrames;
    }
  }

  lemma WorkerKeepsInvariant(s: Session, stopAfterWait: bool, engine: Engine, refuses: set<nat>)
    requires LiveInvariant(s)
    ensures var r := WorkerTurn(s, stopAfterWait, engine, refuses).0;
            && LiveInvariant(r)
            && r.lastDecoded >= s.lastDecoded
            && |r.textAccum| >= |s.textAccum|
  {
    if !s.stopFlag && s.wakes > 0 && !stopAfterWait {
      var s1 := s.(wakes := s.wakes - 1);
      assert Target(s1) == Target(s);
      forall txt | true
        ensures SubsWellFormed(Notify(s1.subs, txt, refuses), s1.nextSubId)
      {
        NotifyKeepsWellFormed(s1.subs, txt, refuses, s1.nextSubId);
      }
    }
  }

  /** Over any sequence of live events the confirmed boundary never
      decreases, the confirmed text never gets shorter, and the invariant
      holds throughout. */
  lemma {:induction false} RunMonotone(s: Session, evs: seq<Event>, engine: Engine)
    requires LiveInvariant(s)
    ensures LiveInvariant(Run(s, evs, engine))
    ensures Run(s, evs, engine).lastDecoded >= s.lastDecoded
    ensures |Run(s, evs, engine).textAccum| >= |s.textAccum|
  {
    if |evs| > 0 {
      RunMonotone(s, evs[..|evs| - 1], engine);
      StepKeepsInvariant(Run(s, evs[..|evs| - 1], engine), evs[|evs| - 1], engine);
    }
  }
}
