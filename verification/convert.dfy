/** The conversion server's request handling: validation of the upload's
    extension and the output format, the ffmpeg argument list, the name and
    media type of the returned file, and the suffix of the temporary upload.
    Saving, running ffmpeg and streaming are left to parameters: the temp
    file's random stem, the temp directory, the random hex name and how the
    ffmpeg run ended. */
module Convert {
  import opened Common
  import Text

  const AllowedInputExts: set<string> :=
    {".mp3", ".wav", ".m4a", ".mp4", ".mov", ".webm", ".ogg", ".flac", ".aac", ".opus", ".wma"}

  const AllowedOutputFmts: set<string> := {"mp3", "wav", "flac", "ogg", "opus", "m4a"}

  /** The audio codec chosen for each output format. */
  const Codecs: map<string, string> :=
    map["mp3" := "libmp3lame", "wav" := "pcm_s16le", "flac" := "flac", "ogg" := "libvorbis",
        "opus" := "libopus", "m4a" := "aac"]

  /** The formats whose encoder takes a bit rate. */
  const LossyFmts: set<string> := {"mp3", "ogg", "opus", "m4a"}

  /** The media type announced for each output format. */
  const MimeMap: map<string, string> :=
    map["mp3" := "audio/mpeg", "wav" := "audio/wav", "flac" := "audio/flac", "ogg" := "audio/ogg",
        "opus" := "audio/ogg", "m4a" := "audio/mp4"]

  const OctetStream: string := "application/octet-stream"
  const FfmpegBin: string := "/usr/bin/ffmpeg"

  /** The error detail for a format the validation rejects: the sorted list
      of output formats as Python prints it. */
  const FormatListDetail: string := "対応出力: ['flac', 'm4a', 'mp3', 'ogg', 'opus', 'wav']"

  /** Python truthiness of an optional integer and an optional string. */
  predicate IntSet(x: Option<int>) {
    x.Some? && x.value != 0
  }

  predicate StrSet(x: Option<string>) {
    x.Some? && x.value != ""
  }

  // ---------------------------------------------------------- command line

  /** The fixed start of every command, ending with the input path. */
  function Header(input: string): (h: seq<string>)
    ensures |h| == 7 && h[6] == input
  {
    [FfmpegBin, "-hide_banner", "-loglevel", "error", "-y", "-i", input]
  }

  /** The outcome of `_build_ffmpeg_cmd`: the argument list, or the 400
      error for an unknown format with its detail. */
  datatype Built = Cmd(args: seq<string>) | Unsupported(detail: string)

  function RateOpts(ar: Option<int>): seq<string> {
    if IntSet(ar) then ["-ar", Text.IntToString(ar.value)] else []
  }

  function ChannelOpts(ac: Option<int>): seq<string> {
    if IntSet(ac) then ["-ac", Text.IntToString(ac.value)] else []
  }

  function BitrateOpts(ab: Option<string>): seq<string> {
    if StrSet(ab) then ["-b:a", ab.value] else []
  }

  /** The codec options of one format, compared case-sensitively; None for
      an unknown format. */
  function CodecOpts(fmt: string, ab: Option<string>): (r: Option<seq<string>>)
    ensures r.Some? <==> fmt in AllowedOutputFmts
  {
    if fmt == "mp3" then Some(["-c:a", "libmp3lame"] + BitrateOpts(ab))
    else if fmt == "wav" then Some(["-c:a", "pcm_s16le"])
    else if fmt == "flac" then Some(["-c:a", "flac"])
    else if fmt == "ogg" then Some(["-c:a", "libvorbis"] + BitrateOpts(ab))
    else if fmt == "opus" then Some(["-c:a", "libopus"] + BitrateOpts(ab))
    else if fmt == "m4a" then Some(["-c:a", "aac"] + BitrateOpts(ab))
    else None
  }

  /** `_build_ffmpeg_cmd(input_path, output_path, out_fmt, ar, ac, ab)`. */
  function BuildCmd(input: string, output: string, fmt: string, ar: Option<int>,
                    ac: Option<int>, ab: Option<string>): (r: Built)
    ensures r.Cmd? <==> fmt in AllowedOutputFmts
    ensures r.Unsupported? ==> r.detail == "未対応の出力形式: " + fmt
    ensures r.Cmd? ==> |r.args| >= 10 && r.args[..7] == Header(input)
                       && r.args[|r.args| - 1] == output
  {
    match CodecOpts(fmt, ab)
    case Some(codec) => Cmd(Header(input) + RateOpts(ar) + ChannelOpts(ac) + codec + [output])
    case None => Unsupported("未対応の出力形式: " + fmt)
  }

  /** What a command line asks ffmpeg for. */
  datatype Settings = Settings(input: string, output: string, rate: Option<string>,
                               channels: Option<string>, codec: Option<string>,
                               bitrate: Option<string>)

  /** The value following `key` among option pairs. */
  function Lookup(opts: seq<string>, key: string): Option<string>
    decreases |opts|
  {
    if |opts| < 2 then None
    else if opts[0] == key then Some(opts[1])
    else Lookup(opts[2..], key)
  }

  /** Reads a command line back: the fixed start, option pairs, and the
      output path last. An option is found only at the head of a pair. */
  function ReadCmd(args: seq<string>): Option<Settings> {
    if |args| < 8 || args[..6] != Header("")[..6] then None
    else
      var opts := args[7..|args| - 1];
      Some(Settings(args[6], args[|args| - 1], Lookup(opts, "-ar"), Lookup(opts, "-ac"),
                    Lookup(opts, "-c:a"), Lookup(opts, "-b:a")))
  }

  /** The settings a request means: the rate and channel count when set,
      the format's codec, and the bit rate only for a lossy format. */
  function Intended(input: string, output: string, fmt: string, ar: Option<int>,
                    ac: Option<int>, ab: Option<string>): Settings
    requires fmt in AllowedOutputFmts
  {
    Settings(input, output,
             if IntSet(ar) then Some(Text.IntToString(ar.value)) else None,
             if IntSet(ac) then Some(Text.IntToString(ac.value)) else None,
             Some(Codecs[fmt]),
             if fmt in LossyFmts && StrSet(ab) then ab else None)
  }

  lemma LookupPair(k: string, v: string, rest: seq<string>, key: string)
    ensures Lookup([k, v] + rest, key) == if k == key then Some(v) else Lookup(rest, key)
  {
    assert ([k, v] + rest)[2..] == rest;
  }

  /** Looking past an optional pair of options. */
  lemma LookupOpt(p: seq<string>, rest: seq<string>, key: string)
    requires |p| == 0 || |p| == 2
    ensures Lookup(p + rest, key) ==
              if |p| == 2 && p[0] == key then Some(p[1]) else Lookup(rest, key)
  {
    if |p| == 2 {
      assert p == [p[0], p[1]];
      LookupPair(p[0], p[1], rest, key);
    } else {
      assert p + rest == rest;
    }
  }

  /** Reading back the options of a known format gives its codec and, for
      a lossy format, the bit rate. */
  lemma CodecReadsBack(fmt: string, ab: Option<string>, key: string)
    requires fmt in AllowedOutputFmts
    ensures Lookup(CodecOpts(fmt, ab).value, key) ==
              if key == "-c:a" then Some(Codecs[fmt])
              else if key == "-b:a" && fmt in LossyFmts && StrSet(ab) then ab
              else None
  {
    var b := if fmt in LossyFmts then BitrateOpts(ab) else [];
    assert CodecOpts(fmt, ab).value == ["-c:a", Codecs[fmt]] + b;
    LookupPair("-c:a", Codecs[fmt], b, key);
    LookupOpt(b, [], key);
    assert b + [] == b;
  }

  /** The value of one key among all the options of a known format. */
  lemma OptsLookup(fmt: string, ar: Option<int>, ac: Option<int>, ab: Option<string>,
                   key: string)
    requires fmt in AllowedOutputFmts
    ensures var opts := RateOpts(ar) + ChannelOpts(ac) + CodecOpts(fmt, ab).value;
            Lookup(opts, key) ==
              if key == "-ar" then (if IntSet(ar) then Some(Text.IntToString(ar.value)) else None)
              else if key == "-ac" then
                (if IntSet(ac) then Some(Text.IntToString(ac.value)) else None)
              else if key == "-c:a" then Some(Codecs[fmt])
              else if key == "-b:a" && fmt in LossyFmts && StrSet(ab) then ab
              else None
  {
    var r, ch, c := RateOpts(ar), ChannelOpts(ac), CodecOpts(fmt, ab).value;
    assert r + ch + c == r + (ch + c);
    LookupOpt(r, ch + c, key);
    LookupOpt(ch, c, key);
    CodecReadsBack(fmt, ab, key);
  }

  /** Every built command reads back as the settings the request means:
      `-ar` and `-ac` exactly when those are set, the format's codec, and
      `-b:a` exactly for a lossy format with a bit rate. */
  lemma BuildCmdReadsBack(input: string, output: string, fmt: string, ar: Option<int>,
                          ac: Option<int>, ab: Option<string>)
    requires fmt in AllowedOutputFmts
    ensures ReadCmd(BuildCmd(input, output, fmt, ar, ac, ab).args)
              == Some(Intended(input, output, fmt, ar, ac, ab))
  {
    var opts := RateOpts(ar) + ChannelOpts(ac) + CodecOpts(fmt, ab).value;
    var args := BuildCmd(input, output, fmt, ar, ac, ab).args;
    var want := Intended(input, output, fmt, ar, ac, ab);
    assert args == Header(input) + opts + [output] by {
      BuildCmdParts(input, output, fmt, ar, ac, ab);
    }
    assert ReadCmd(args) == Some(Settings(input, output, Lookup(opts, "-ar"), Lookup(opts, "-ac"),
                                          Lookup(opts, "-c:a"), Lookup(opts, "-b:a"))) by {
      ReadCmdOf(input, opts, output);
    }
    assert Lookup(opts, "-ar") == want.rate by {
      OptsLookup(fmt, ar, ac, ab, "-ar");
    }
    assert Lookup(opts, "-ac") == want.channels by {
      OptsLookup(fmt, ar, ac, ab, "-ac");
    }
    assert Lookup(opts, "-c:a") == want.codec by {
      OptsLookup(fmt, ar, ac, ab, "-c:a");
    }
    assert Lookup(opts, "-b:a") == want.bitrate by {
      OptsLookup(fmt, ar, ac, ab, "-b:a");
    }
  }

  lemma BuildCmdParts(input: string, output: string, fmt: string, ar: Option<int>,
                      ac: Option<int>, ab: Option<string>)
    requires fmt in AllowedOutputFmts
    ensures BuildCmd(input, output, fmt, ar, ac, ab).args ==
              Header(input) + (RateOpts(ar) + ChannelOpts(ac) + CodecOpts(fmt, ab).value)
              + [output]
  {
    var r, ch, c := RateOpts(ar), ChannelOpts(ac), CodecOpts(fmt, ab).value;
    assert Header(input) + r + ch + c == Header(input) + (r + ch + c);
  }

  /** Reading back a command made of the fixed start, option pairs and an
      output path. */
  lemma ReadCmdOf(input: string, opts: seq<string>, output: string)
    ensures ReadCmd(Header(input) + opts + [output]) ==
              Some(Settings(input, output, Lookup(opts, "-ar"), Lookup(opts, "-ac"),
                            Lookup(opts, "-c:a"), Lookup(opts, "-b:a")))
  {
    var args := Header(input) + opts + [output];
    assert args[7..|args| - 1] == opts;
    assert args[..6] == Header("")[..6];
  }

  // ------------------------------------------------------------ validation

  /** The checks `convert` makes before touching the upload: 415 for a
      named upload whose non-empty extension, lower-cased, is not allowed;
      then 400 for an output format that, lower-cased, is not allowed. */
  function Validate(filename: Option<string>, fmt: string): (r: Option<(int, string)>)
    ensures r.Some? ==> r.value.0 == 415 || r.value.0 == 400
    ensures (r.Some? && r.value.0 == 415) <==>
              StrSet(filename) && Text.SplitExt(filename.value).1 != ""
              && Text.Lower(Text.SplitExt(filename.value).1) !in AllowedInputExts
    ensures r.None? <==>
              !(StrSet(filename) && Text.SplitExt(filename.value).1 != ""
                && Text.Lower(Text.SplitExt(filename.value).1) !in AllowedInputExts)
              && Text.Lower(fmt) in AllowedOutputFmts
  {
    var ext := if StrSet(filename) then Text.SplitExt(filename.value).1 else "";
    if ext != "" && Text.Lower(ext) !in AllowedInputExts then Some((415, "対応外の拡張子: " + ext))
    else if Text.Lower(fmt) !in AllowedOutputFmts then Some((400, FormatListDetail))
    else None
  }

  /** `_save_to_temp`'s suffix: the upload's extension lower-cased, or
      ".bin" when it has none. */
  function TempSuffix(filename: Option<string>): (r: string)
    ensures |r| > 0 && r[0] == '.'
  {
    var ext := Text.SplitExt(filename.GetOr("")).1;
    if ext != "" then Text.Lower(ext) else ".bin"
  }

  /** An upload that passes validation is stored under an allowed suffix or
      under ".bin". */
  lemma ValidatedSuffix(filename: Option<string>, fmt: string)
    requires Validate(filename, fmt).None?
    ensures TempSuffix(filename) in AllowedInputExts + {".bin"}
  {
  }

  /** The name of the returned file: the given name, or else the upload's
      base name (or "converted"), with its extension replaced by the
      lower-cased format. */
  function DownloadBase(given: Option<string>, filename: Option<string>): string {
    if StrSet(given) then Text.SplitExt(given.value).0
    else Text.SplitExt(Text.Basename(if StrSet(filename) then filename.value else "converted")).0
  }

  function DownloadName(given: Option<string>, filename: Option<string>, fmt: string): string {
    DownloadBase(given, filename) + "." + Text.Lower(fmt)
  }

  /** `mime_map.get(fmt.lower(), "application/octet-stream")`. */
  function MediaType(fmt: string): (r: string)
    ensures Text.Lower(fmt) in AllowedOutputFmts <==> r != OctetStream
  {
    var f := Text.Lower(fmt);
    if f in MimeMap then MimeMap[f] else OctetStream
  }

  /** The download name splits back into its base and the requested
      format's extension, provided the base's last component has something
      besides dots. */
  lemma DownloadNameSplits(given: Option<string>, filename: Option<string>, fmt: string)
    requires Text.Lower(fmt) in AllowedOutputFmts
    requires Text.HasStem(DownloadBase(given, filename))
    ensures Text.SplitExt(DownloadName(given, filename, fmt))
              == (DownloadBase(given, filename), "." + Text.Lower(fmt))
  {
    var f := Text.Lower(fmt);
    var base := DownloadBase(given, filename);
    assert DownloadName(given, filename, fmt) == base + ("." + f);
    assert Text.SplitExt(base + ("." + f)) == (base, "." + f) by {
      FormatExtension(f);
      Text.SplitExtAppend(base, "." + f);
    }
  }

  /** "." followed by an output format is an extension: one leading dot,
      no other dot and no '/'. */
  lemma FormatExtension(f: string)
    requires f in AllowedOutputFmts
    ensures var ext := "." + f;
            && |ext| >= 1 && ext[0] == '.' && '/' !in ext
            && forall k :: 1 <= k < |ext| ==> ext[k] != '.'
  {
  }

  // --------------------------------------------------------------- handler

  /** The query and upload of one `/convert` request; `filename` is None
      when the upload has no name. */
  datatype Request = Request(filename: Option<string>, fmt: string, ar: Option<int>,
                             ac: Option<int>, ab: Option<string>, downloadName: Option<string>)

  /** The query defaults of `/convert`: mp3 at 16000 Hz, mono, 64k, and no
      download name. */
  const DefaultFmt: string := "mp3"

  function DefaultRequest(filename: Option<string>): Request {
    Request(filename, DefaultFmt, Some(16000), Some(1), Some("64k"), None)
  }

  /** How the ffmpeg run ended: `create_subprocess_exec` raised (no binary
      at the fixed path, say), the process exited with a code and its
      stderr, or the 30-minute wait ran out. */
  datatype FfmpegRun = SpawnFailed | Exited(code: int, stderr: string) | TimedOut

  const TimeoutDetail: string := "変換タイムアウト"
  const FailedPrefix: string := "変換失敗: "

  /** The answer: an HTTP error with its detail, an exception that escapes
      the handler (which the framework answers with 500), or the streamed
      file with the command that made it, its download name and media type. */
  datatype Reply = Failed(status: int, detail: string)
                 | Crashed
                 | Streamed(cmd: seq<string>, name: string, mediaType: string)

  /** POSIX `os.path.join` of two parts. */
  function JoinPath(a: string, b: string): string {
    if |b| > 0 && b[0] == '/' then b
    else if |a| == 0 || a[|a| - 1] == '/' then a + b
    else a + "/" + b
  }

  /** `stderr[:500]`. */
  function Prefix(s: string, n: nat): (r: string)
    ensures |r| <= n && |r| <= |s| && r == s[..|r|]
    ensures |s| <= n ==> r == s
    ensures |s| > n ==> r == s[..n]
  {
    if |s| <= n then s else s[..n]
  }

  /** `convert`, with the format handed to the builder given separately.
      `tempStem` is the random part of the temp upload's path, `tmpDir`
      the temp directory and `hex` the random output name. */
  function Respond(req: Request, builderFmt: string, tempStem: string, tmpDir: string,
                   hex: string, run: FfmpegRun): Reply
  {
    match Validate(req.filename, req.fmt)
    case Some(err) => Failed(err.0, err.1)
    case None =>
      var src := tempStem + TempSuffix(req.filename);
      var out := JoinPath(tmpDir, hex + "." + Text.Lower(req.fmt));
      match BuildCmd(src, out, builderFmt, req.ar, req.ac, req.ab)
      case Unsupported(detail) => Failed(400, detail)
      case Cmd(args) =>
        match run
        case SpawnFailed => Crashed
        case TimedOut => Failed(504, TimeoutDetail)
        case Exited(code, err) =>
          if code != 0 then Failed(400, FailedPrefix + Prefix(err, 500))
          else Streamed(args, DownloadName(req.downloadName, req.filename, req.fmt),
                        MediaType(req.fmt))
  }

  /** `convert` as written: validation lower-cases the format, the builder
      gets it as sent. Every way out: the validation error, the builder's
      400, an exception when ffmpeg cannot be spawned, 504 on the time-out,
      400 with at most 500 characters of stderr on a failed run, and
      otherwise the stream under the derived name and media type. */
  function Convert(req: Request, tempStem: string, tmpDir: string, hex: string,
                   run: FfmpegRun): (r: Reply)
    ensures Validate(req.filename, req.fmt).Some? ==>
              r == Failed(Validate(req.filename, req.fmt).value.0,
                          Validate(req.filename, req.fmt).value.1)
    ensures Validate(req.filename, req.fmt).None? && req.fmt !in AllowedOutputFmts ==>
              r == Failed(400, "未対応の出力形式: " + req.fmt)
    ensures Validate(req.filename, req.fmt).None? && req.fmt in AllowedOutputFmts ==>
              && (run.SpawnFailed? <==> r.Crashed?)
              && (run.TimedOut? <==> r == Failed(504, TimeoutDetail))
              && (run.Exited? && run.code != 0 ==>
                    r == Failed(400, FailedPrefix + Prefix(run.stderr, 500)))
    ensures r.Streamed? <==>
              Validate(req.filename, req.fmt).None? && req.fmt in AllowedOutputFmts
              && run.Exited? && run.code == 0
    ensures r.Streamed? ==>
              r.name == DownloadName(req.downloadName, req.filename, req.fmt)
              && r.mediaType == MediaType(req.fmt)
  {
    Respond(req, req.fmt, tempStem, tmpDir, hex, run)
  }

  /** `convert` with the builder given the lower-cased format, as the
      validation intends. */
  function ConvertFixed(req: Request, tempStem: string, tmpDir: string, hex: string,
                        run: FfmpegRun): (r: Reply)
    ensures r.Streamed? <==>
              Validate(req.filename, req.fmt).None? && run.Exited? && run.code == 0
  {
    Respond(req, Text.Lower(req.fmt), tempStem, tmpDir, hex, run)
  }

  /** An upper-case format passes validation and then fails in the
      builder: "MP3" is answered with 400 although "mp3" is accepted. */
  lemma UpperCaseFormatRejected(tempStem: string, tmpDir: string, hex: string)
    ensures var req := Request(None, "MP3", Some(16000), Some(1), Some("64k"), None);
            && Validate(req.filename, req.fmt).None?
            && Convert(req, tempStem, tmpDir, hex, Exited(0, ""))
                 == Failed(400, "未対応の出力形式: MP3")
  {
    var req := Request(None, "MP3", Some(16000), Some(1), Some("64k"), None);
    assert Validate(req.filename, req.fmt).None? by {
      assert Text.Lower("MP3") == "mp3";
    }
    assert "MP3" !in AllowedOutputFmts;
  }

  /** Once validation passes, the corrected handler always reaches ffmpeg,
      its command reads back as the lower-cased format's settings, and the
      media type is the format's own. */
  lemma ConvertFixedBuilds(req: Request, tempStem: string, tmpDir: string, hex: string)
    requires Validate(req.filename, req.fmt).None?
    ensures var r := ConvertFixed(req, tempStem, tmpDir, hex, Exited(0, ""));
            var f := Text.Lower(req.fmt);
            && r.Streamed?
            && ReadCmd(r.cmd) == Some(Intended(tempStem + TempSuffix(req.filename),
                                               JoinPath(tmpDir, hex + "." + f), f,
                                               req.ar, req.ac, req.ab))
            && r.mediaType == MimeMap[f]
  {
    var f := Text.Lower(req.fmt);
    BuildCmdReadsBack(tempStem + TempSuffix(req.filename), JoinPath(tmpDir, hex + "." + f), f,
                      req.ar, req.ac, req.ab);
  }

  /** For a format sent in lower case the corrected handler answers exactly
      as the original. */
  lemma ConvertFixedAgrees(req: Request, tempStem: string, tmpDir: string, hex: string,
                           run: FfmpegRun)
    requires Text.Lower(req.fmt) == req.fmt
    ensures ConvertFixed(req, tempStem, tmpDir, hex, run) == Convert(req, tempStem, tmpDir, hex, run)
  {
  }

  /** A request that sets nothing but the upload, passing validation and
      converted without error, streams an mp3 made by a command asking for
      16000 Hz, one channel, libmp3lame and 64k, announced as audio/mpeg. */
  lemma DefaultRequestConverts(filename: Option<string>, tempStem: string, tmpDir: string,
                               hex: string)
    requires Validate(filename, DefaultFmt).None?
    ensures var r := Convert(DefaultRequest(filename), tempStem, tmpDir, hex, Exited(0, ""));
            && r.Streamed?
            && ReadCmd(r.cmd) == Some(Settings(tempStem + TempSuffix(filename),
                                               JoinPath(tmpDir, hex + "." + DefaultFmt), Some("16000"),
                                               Some("1"), Some("libmp3lame"), Some("64k")))
            && r.mediaType == "audio/mpeg"
  {
    var req := DefaultRequest(filename);
    var src, out := tempStem + TempSuffix(filename), JoinPath(tmpDir, hex + "." + DefaultFmt);
    assert Text.Lower(DefaultFmt) == DefaultFmt;
    ConvertStreams(req, tempStem, tmpDir, hex);
    DefaultMediaType();
    DefaultCmd(src, out);
  }

  lemma ConvertStreams(req: Request, tempStem: string, tmpDir: string, hex: string)
    requires Validate(req.filename, req.fmt).None? && req.fmt in AllowedOutputFmts
    ensures var out := JoinPath(tmpDir, hex + "." + Text.Lower(req.fmt));
            var src := tempStem + TempSuffix(req.filename);
            Convert(req, tempStem, tmpDir, hex, Exited(0, ""))
              == Streamed(BuildCmd(src, out, req.fmt, req.ar, req.ac, req.ab).args,
                          DownloadName(req.downloadName, req.filename, req.fmt), MediaType(req.fmt))
  {
  }

  lemma DefaultMediaType()
    ensures MediaType(DefaultFmt) == "audio/mpeg"
  {
    assert Text.Lower(DefaultFmt) == DefaultFmt;
  }

  /** The settings the query defaults mean. */
  lemma DefaultSettings(src: string, out: string)
    ensures Intended(src, out, DefaultFmt, Some(16000), Some(1), Some("64k"))
              == Settings(src, out, Some("16000"), Some("1"), Some("libmp3lame"), Some("64k"))
  {
    DefaultRate();
    DefaultCodec();
    assert Text.IntToString(1) == "1";
  }

  lemma DefaultRate()
    ensures Text.IntToString(16000) == "16000"
  {
    assert Text.NatToString(16) == "16";
    assert Text.NatToString(160) == "160";
    assert Text.NatToString(1600) == "1600";
  }

  lemma DefaultCodec()
    ensures Codecs[DefaultFmt] == "libmp3lame" && DefaultFmt in LossyFmts
  {
  }

  /** The command the defaults build reads back as the default settings. */
  lemma DefaultCmd(src: string, out: string)
    ensures ReadCmd(BuildCmd(src, out, DefaultFmt, Some(16000), Some(1), Some("64k")).args)
              == Some(Settings(src, out, Some("16000"), Some("1"), Some("libmp3lame"), Some("64k")))
  {
    BuildCmdReadsBack(src, out, DefaultFmt, Some(16000), Some(1), Some("64k"));
    DefaultSettings(src, out);
  }
}
