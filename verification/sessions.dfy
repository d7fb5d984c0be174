/** A live transcription session and the registry of sessions by id. The
    session is an immutable record; every operation of the live routes
    returns the updated record. */
module Sessions {
  import opened Common
  import FfmpegPipe

  /** One stream subscriber: the identity of its `queue.Queue` and the texts
      waiting in it. */
  datatype Subscriber = Subscriber(id: nat, pending: seq<string>)

  /** The format the session's WAV sink is opened with. */
  datatype WavFormat = WavFormat(channels: nat, sampleWidth: nat, frameRate: nat)

  /** The fields of `RTSession`. `audio` is the PCM written to the WAV sink
      and `sinkOpen` whether the writer is still open; `wakes` counts the
      `None` signals waiting in the worker's queue; `nextSubId` hands out
      identities to new subscriber queues; `ff` is the lazily created pipe. */
  datatype Session = Session(
    sid: string,
    language: Option<string>,
    wavPath: string,
    audio: seq<Byte>,
    sinkOpen: bool,
    pcmFrames: nat,
    wakes: nat,
    stopFlag: bool,
    lastDecoded: real,
    textAccum: string,
    subs: seq<Subscriber>,
    nextSubId: nat,
    ff: Option<FfmpegPipe.Pipe>)

  /** `open_wav_writer`: mono, 16-bit samples, 16000 frames per second. */
  function OpenWavWriter(path: string): (f: WavFormat)
    ensures f.channels == 1 && f.sampleWidth == 2 && f.frameRate == 16000
    ensures BytesPerFrame(f) == 2
  {
    WavFormat(1, 2, 16000)
  }

  function BytesPerFrame(f: WavFormat): nat {
    f.channels * f.sampleWidth
  }

  /** Subscriber queues are distinct objects: identities are unique and all
      below the next identity to hand out. */
  ghost predicate SubsWellFormed(subs: seq<Subscriber>, next: nat) {
    && (forall i :: 0 <= i < |subs| ==> subs[i].id < next)
    && (forall i, j :: 0 <= i < j < |subs| ==> subs[i].id != subs[j].id)
  }

  /** What holds of every session at all times. */
  ghost predicate Valid(s: Session) {
    && s.lastDecoded >= 0.0
    && s.pcmFrames * 2 <= |s.audio|
    && SubsWellFormed(s.subs, s.nextSubId)
  }

  /** A fresh `RTSession` with its dataclass defaults. */
  function NewSession(sid: string, language: Option<string>, wavPath: string): (s: Session)
    ensures s.sid == sid && s.language == language && s.wavPath == wavPath
    ensures s.pcmFrames == 0 && !s.stopFlag && s.lastDecoded == 0.0
    ensures s.textAccum == "" && s.subs == [] && s.ff.None?
    ensures s.sinkOpen && s.audio == [] && s.wakes == 0
    ensures Valid(s)
  {
    Session(sid, language, wavPath, [], true, 0, 0, false, 0.0, "", [], 0, None)
  }

  // ------------------------------------------------------------ the store

  type Store = map<string, Session>

  /** `SessionStore.add`: registers the session under its id, replacing any
      session already there. */
  function Add(st: Store, s: Session): (r: Store)
    ensures Get(r, s.sid) == Some(s)
    ensures forall k :: k != s.sid ==> Get(r, k) == Get(st, k)
    ensures Count(r) == if s.sid in st then Count(st) else Count(st) + 1
  {
    st[s.sid := s]
  }

  /** `SessionStore.get`: the session stored under `sid`, or None. */
  function Get(st: Store, sid: string): (r: Option<Session>)
    ensures r.Some? <==> sid in st
    ensures r.Some? ==> r.value == st[sid]
  {
    if sid in st then Some(st[sid]) else None
  }

  /** `SessionStore.pop`: removes and returns the session under `sid`; the
      other entries stay as they were. */
  function Pop(st: Store, sid: string): (r: (Option<Session>, Store))
    ensures r.0 == Get(st, sid)
    ensures Get(r.1, sid) == None
    ensures forall k :: k != sid ==> Get(r.1, k) == Get(st, k)
    ensures Count(r.1) == if sid in st then Count(st) - 1 else Count(st)
  {
    (Get(st, sid), st - {sid})
  }

  /** `SessionStore.count`: the number of distinct ids stored. */
  function Count(st: Store): (n: nat)
    ensures n == |st.Keys|
  {
    |st|
  }

  /** Popping twice: the second pop finds nothing and changes nothing. */
  lemma PopTwice(st: Store, sid: string)
    ensures Pop(Pop(st, sid).1, sid) == (None, Pop(st, sid).1)
  {
    var st1 := Pop(st, sid).1;
    assert st1 - {sid} == st1;
  }

  /** Adding and then popping the same id restores the store when the id was
      new, and a lookup of the added id in between sees the added session. */
  lemma AddPopRoundTrip(st: Store, s: Session)
    requires s.sid !in st
    ensures Pop(Add(st, s), s.sid) == (Some(s), st)
  {
    assert Add(st, s) - {s.sid} == st;
  }
}
