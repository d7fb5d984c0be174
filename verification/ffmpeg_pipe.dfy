/** The transcode pipe of a live session: one long-lived `ffmpeg` process
    that turns concatenated container fragments into 16 kHz mono s16le PCM.
    The process is reduced to its command line and the bytes written to its
    standard input; spawning and writing may fail, which the caller passes
    in as an oracle. */
module FfmpegPipe {
  import opened Common
  import Text

  /** A running process: the argv it was started with and everything
      written to its standard input so far. */
  datatype Proc = Proc(cmd: seq<string>, fed: seq<Byte>)

  /** `mtype` is the lower-cased media type; `proc` and `readerRunning` are
      the `p` and `reader` attributes (None / a thread). */
  datatype Pipe = Pipe(mtype: string, proc: Option<Proc>, readerRunning: bool)

  const ReadBlockSize: nat := 4096

  const CmdPrefix: seq<string> := ["ffmpeg", "-hide_banner", "-nostdin", "-loglevel", "error"]
  const CmdOutput: seq<string> := ["-i", "-", "-ac", "1", "-ar", "16000", "-f", "s16le", "-"]

  predicate NoUpperAscii(s: string) {
    forall i :: 0 <= i < |s| ==> !('A' <= s[i] <= 'Z')
  }

  /** A fresh pipe: no process, no reader; the media type lower-cased, with
      a missing one read as "". */
  function New(mtype: Option<string>): (p: Pipe)
    ensures p.proc == None && !p.readerRunning
    ensures mtype.None? ==> p.mtype == ""
    ensures mtype.Some? ==> |p.mtype| == |mtype.value| && NoUpperAscii(p.mtype)
    ensures mtype.Some? ==> forall i :: 0 <= i < |p.mtype| ==>
              Text.LowerChar(p.mtype[i]) == Text.LowerChar(mtype.value[i])
  {
    Pipe(Text.Lower(mtype.GetOr("")), None, false)
  }

  /** The input-format hint, chosen by substring with ogg before webm
      before mp4/mpeg. */
  function InArgs(mt: string): (r: seq<string>)
    ensures r == ["-f", "ogg"] <==> Text.Contains(mt, "ogg")
    ensures r == ["-f", "webm"] <==> !Text.Contains(mt, "ogg") && Text.Contains(mt, "webm")
    ensures r == ["-f", "mp4"] <==>
              !Text.Contains(mt, "ogg") && !Text.Contains(mt, "webm")
              && (Text.Contains(mt, "mp4") || Text.Contains(mt, "mpeg"))
    ensures r == [] <==>
              !Text.Contains(mt, "ogg") && !Text.Contains(mt, "webm")
              && !Text.Contains(mt, "mp4") && !Text.Contains(mt, "mpeg")
  {
    if Text.Contains(mt, "ogg") then ["-f", "ogg"]
    else if Text.Contains(mt, "webm") then ["-f", "webm"]
    else if Text.Contains(mt, "mp4") || Text.Contains(mt, "mpeg") then ["-f", "mp4"]
    else []
  }

  /** The argv `start` spawns. */
  function Command(mt: string): seq<string> {
    CmdPrefix + InArgs(mt) + CmdOutput
  }

  /** Reads back the input format a command line forces, if any: the value
      of a "-f" option placed before "-i". */
  function ForcedInputFormat(cmd: seq<string>): Option<string> {
    if |cmd| >= 7 && cmd[5] == "-f" then Some(cmd[6]) else None
  }

  /** The command always reads standard input and writes mono 16 kHz s16le
      to standard output, and forces exactly the hint `InArgs` chose. */
  lemma CommandShape(mt: string)
    ensures Command(mt)[..|CmdPrefix|] == CmdPrefix
    ensures Command(mt)[|Command(mt)| - |CmdOutput|..] == CmdOutput
    ensures ForcedInputFormat(Command(mt)) ==
              if InArgs(mt) == [] then None else Some(InArgs(mt)[1])
    ensures Text.Contains(mt, "ogg") ==> ForcedInputFormat(Command(mt)) == Some("ogg")
  {
    var c := Command(mt);
    assert c[|c| - |CmdOutput|..] == CmdOutput;
  }

  /** `start`: a no-op while a process exists; otherwise spawns the command
      and the reader. The second component is true when spawning raised, in
      which case nothing was started. */
  function Start(p: Pipe, spawnOk: bool): (r: (Pipe, bool))
    ensures p.proc.Some? ==> r == (p, false)
    ensures p.proc.None? && spawnOk ==>
              !r.1 && r.0 == p.(proc := Some(Proc(Command(p.mtype), [])), readerRunning := true)
    ensures p.proc.None? && !spawnOk ==> r == (p, true)
  {
    if p.proc.Some? then (p, false)
    else if spawnOk then (p.(proc := Some(Proc(Command(p.mtype), [])), readerRunning := true), false)
    else (p, true)
  }

  /** `start` is idempotent: starting a started pipe changes nothing,
      whatever the spawn oracle says. */
  lemma StartIdempotent(p: Pipe, ok1: bool, ok2: bool)
    requires Start(p, ok1).0.proc.Some?
    ensures Start(Start(p, ok1).0, ok2) == (Start(p, ok1).0, false)
  {
  }

  /** `write`: false without a process or when the write or flush raises
      (`ioFails`); otherwise the data reaches the process and the result is
      true. */
  function Write(p: Pipe, data: seq<Byte>, ioFails: bool): (r: (Pipe, bool))
    ensures r.1 <==> p.proc.Some? && !ioFails
    ensures r.1 ==> r.0 == p.(proc := Some(p.proc.value.(fed := p.proc.value.fed + data)))
    ensures !r.1 ==> r.0 == p
  {
    if p.proc.None? then (p, false)
    else if ioFails then (p, false)
    else (p.(proc := Some(p.proc.value.(fed := p.proc.value.fed + data))), true)
  }

  /** `close`: whatever happens while closing stdin, waiting and joining, the
      pipe ends with neither process nor reader. */
  function Close(p: Pipe): (r: Pipe)
    ensures r.proc.None? && !r.readerRunning
    ensures r.mtype == p.mtype
  {
    p.(proc := None, readerRunning := false)
  }

  /** After `close`, a write fails and a second `close` changes nothing. */
  lemma CloseFinal(p: Pipe, data: seq<Byte>, ioFails: bool)
    ensures Write(Close(p), data, ioFails) == (Close(p), false)
    ensures Close(Close(p)) == Close(p)
  {
  }

  function Flatten(blocks: seq<seq<Byte>>): seq<Byte> {
    if |blocks| == 0 then [] else Flatten(blocks[..|blocks| - 1]) + blocks[|blocks| - 1]
  }

  /** The reader thread: repeated `read(4096)` on the process output `out`
      until a read comes back empty. `sizes[i]` is how many bytes the i-th
      read is willing to return (a short read), 0 or missing meaning a full
      block. The blocks handed to the callback are non-empty, at most 4096
      bytes each, and together are exactly the output. */
  method ReadLoop(out: seq<Byte>, sizes: seq<nat>) returns (blocks: seq<seq<Byte>>)
    ensures forall i :: 0 <= i < |blocks| ==> 1 <= |blocks[i]| <= ReadBlockSize
    ensures Flatten(blocks) == out
  {
    blocks := [];
    var pos := 0;
    var i := 0;
    while true
      invariant 0 <= pos <= |out|
      invariant Flatten(blocks) == out[..pos]
      invariant forall j :: 0 <= j < |blocks| ==> 1 <= |blocks[j]| <= ReadBlockSize
      decreases |out| - pos
    {
      var want := if i < |sizes| && 0 < sizes[i] < ReadBlockSize then sizes[i] else ReadBlockSize;
      var take := if want < |out| - pos then want else |out| - pos;
      var buf := out[pos..pos + take];
      if |buf| == 0 {
        break;
      }
      assert out[..pos + take] == out[..pos] + buf;
      blocks := blocks + [buf];
      pos := pos + take;
      i := i + 1;
    }
    assert out[..pos] == out;
  }
}
