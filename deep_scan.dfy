/** The media introspection of scripts/6.2_deep_scan.py: each row's URL is probed with
    ffprobe, the stream list is scanned for video and audio, the row is extended with ten
    diagnostic columns, rows are split by whether a video stream was found, and each side
    is written with six readable columns added. ffprobe is an oracle whose outcome for row
    `i` is `runs(i)`; the parsing of the frame-rate fraction, the clock and the formatting
    of the elapsed time are oracles too. */
module DeepScan {
  import opened Common
  import Text

  /** One entry of ffprobe's `streams` list, with the fields the scan reads. */
  datatype Stream = Stream(
    codecType: Option<string>,
    codecName: Option<string>,
    width: Option<int>,
    height: Option<int>,
    avgFrameRate: Option<string>,
    rFrameRate: Option<string>)

  /** A non-empty probe document: its streams (empty when the key is missing) and the
      container's duration and bit rate, already converted (`None` when absent). */
  datatype Probe = Probe(streams: seq<Stream>, duration: Option<real>, bitRate: Option<int>)

  /** The dictionary `parse_probe` returns. */
  datatype Info = Info(
    hasVideo: bool,
    hasAudio: bool,
    videoCodec: Option<string>,
    width: Option<int>,
    height: Option<int>,
    frameRate: Option<real>,
    duration: Option<real>,
    bitRate: Option<int>)

  const EMPTY_INFO: Info := Info(false, false, None, None, None, None, None, None)

  predicate IsVideo(s: Stream)
  {
    s.codecType == Some("video")
  }

  predicate IsAudio(s: Stream)
  {
    s.codecType == Some("audio")
  }

  /** `s.get("avg_frame_rate") or s.get("r_frame_rate")`. */
  function RateText(s: Stream): Option<string>
  {
    if s.avgFrameRate.Some? && s.avgFrameRate.value != "" then s.avgFrameRate else s.rFrameRate
  }

  /** The rate text when it is non-empty and holds a '/', the only case that sets a rate. */
  function SlashRate(s: Stream): (r: Option<string>)
    ensures r.Some? ==> '/' in r.value
  {
    var t := RateText(s);
    if t.Some? && t.value != "" && '/' in t.value then t else None
  }

  /** The info once the stream loop has seen `streams`; the audio flag and the container
      fields are settled after the loop. */
  function Scanned(streams: seq<Stream>, rate: string -> Option<real>): (info: Info)
    ensures !info.hasAudio && info.duration == None && info.bitRate == None
  {
    if |streams| == 0 then EMPTY_INFO
    else
      var info := Scanned(streams[..|streams| - 1], rate);
      var s := streams[|streams| - 1];
      if IsVideo(s) then
        info.(hasVideo := true, videoCodec := s.codecName, width := s.width, height := s.height,
              frameRate := if SlashRate(s).Some? then rate(SlashRate(s).value) else info.frameRate)
      else info
  }

  predicate AnyVideo(streams: seq<Stream>)
  {
    exists i :: 0 <= i < |streams| && IsVideo(streams[i])
  }

  predicate AnyAudio(streams: seq<Stream>)
  {
    exists i :: 0 <= i < |streams| && IsAudio(streams[i])
  }

  /** `parse_probe`: a missing or empty probe gives the empty info. */
  function Parsed(probe: Option<Probe>, rate: string -> Option<real>): Info
  {
    match probe
    case None => EMPTY_INFO
    case Some(p) =>
      Scanned(p.streams, rate).(duration := p.duration, bitRate := p.bitRate, hasAudio := AnyAudio(p.streams))
  }

  /** The video flag is set exactly when some stream is a video stream. */
  lemma {:induction false} ScannedVideoIff(streams: seq<Stream>, rate: string -> Option<real>)
    ensures Scanned(streams, rate).hasVideo <==> AnyVideo(streams)
    ensures !AnyVideo(streams) ==> Scanned(streams, rate) == EMPTY_INFO
  {
    if |streams| > 0 {
      var init := streams[..|streams| - 1];
      ScannedVideoIff(init, rate);
      if AnyVideo(init) {
        var i :| 0 <= i < |init| && IsVideo(init[i]);
        assert IsVideo(streams[i]);
      }
      if AnyVideo(streams) && !IsVideo(streams[|streams| - 1]) {
        var i :| 0 <= i < |streams| && IsVideo(streams[i]);
        assert IsVideo(init[i]);
      }
    }
  }

  /** With several video streams, codec and dimensions come from the last of them. */
  lemma {:induction false} ScannedLastVideo(streams: seq<Stream>, rate: string -> Option<real>, k: nat)
    requires k < |streams| && IsVideo(streams[k])
    requires forall j :: k < j < |streams| ==> !IsVideo(streams[j])
    ensures Scanned(streams, rate).videoCodec == streams[k].codecName
    ensures Scanned(streams, rate).width == streams[k].width
    ensures Scanned(streams, rate).height == streams[k].height
  {
    if k < |streams| - 1 {
      var init := streams[..|streams| - 1];
      ScannedLastVideo(init, rate, k);
    }
  }

  /** The frame rate is that of the last video stream whose rate text holds a '/', even
      when a later video stream has no such text. */
  lemma {:induction false} ScannedFrameRate(streams: seq<Stream>, rate: string -> Option<real>, k: nat)
    requires k < |streams| && IsVideo(streams[k]) && SlashRate(streams[k]).Some?
    requires forall j :: k < j < |streams| ==> !(IsVideo(streams[j]) && SlashRate(streams[j]).Some?)
    ensures Scanned(streams, rate).frameRate == rate(SlashRate(streams[k]).value)
  {
    if k < |streams| - 1 {
      var init := streams[..|streams| - 1];
      ScannedFrameRate(init, rate, k);
    }
  }

  /** Without a video stream that carries a '/' rate, no frame rate is recorded. */
  lemma {:induction false} ScannedNoFrameRate(streams: seq<Stream>, rate: string -> Option<real>)
    requires forall j :: 0 <= j < |streams| ==> !(IsVideo(streams[j]) && SlashRate(streams[j]).Some?)
    ensures Scanned(streams, rate).frameRate == None
  {
    if |streams| > 0 {
      ScannedNoFrameRate(streams[..|streams| - 1], rate);
    }
  }

  /** The loop of `parse_probe`, then the container fields and the audio test. */
  method ParseProbe(probe: Option<Probe>, rate: string -> Option<real>) returns (info: Info)
    ensures info == Parsed(probe, rate)
    ensures probe.None? ==> info == EMPTY_INFO
    ensures probe.Some? ==> (info.hasVideo <==> AnyVideo(probe.value.streams))
    ensures probe.Some? ==> (info.hasAudio <==> AnyAudio(probe.value.streams))
  {
    info := EMPTY_INFO;
    if probe.None? {
      return;
    }
    var streams := probe.value.streams;
    var i := 0;
    while i < |streams|
      invariant i <= |streams|
      invariant info == Scanned(streams[..i], rate)
    {
      assert streams[..i + 1][..i] == streams[..i];
      var s := streams[i];
      if IsVideo(s) {
        info := info.(hasVideo := true, videoCodec := s.codecName, width := s.width, height := s.height);
        var r := SlashRate(s);
        if r.Some? {
          info := info.(frameRate := rate(r.value));
        }
      }
      i := i + 1;
    }
    assert streams[..i] == streams;
    info := info.(duration := probe.value.duration, bitRate := probe.value.bitRate);
    if AnyAudio(streams) {
      info := info.(hasAudio := true);
    }
    ScannedVideoIff(streams, rate);
  }

  /** What `ffprobe_json` returned: the parsed document (`None` for an empty or null one)
      or an error message (`None` when the key is missing). */
  datatype ProbeRun = ProbeData(probe: Option<Probe>) | ProbeError(error: Option<string>)

  /** The ten diagnostic columns `probe_one` adds. */
  const DIAGNOSTIC_COLUMNS: set<string> :=
    {"has_video", "has_audio", "video_codec", "width", "height", "frame_rate", "duration",
     "bit_rate", "error", "elapsed"}

  /** `x or ""` for the optional fields. */
  function StrOr(x: Option<string>): Cell
  {
    if x.Some? && x.value != "" then Str(x.value) else Str("")
  }

  function IntOr(x: Option<int>): Cell
  {
    if x.Some? && x.value != 0 then Int(x.value) else Str("")
  }

  function RealOr(x: Option<real>): Cell
  {
    if x.Some? && x.value != 0.0 then Real(x.value) else Str("")
  }

  /** The ten columns, from their values. */
  function Diagnostics(hasVideo: bool, hasAudio: bool, codec: Cell, width: Cell, height: Cell,
                       frameRate: Cell, duration: Cell, bitRate: Cell, error: string, elapsed: real): (d: map<string, Cell>)
    ensures d.Keys == DIAGNOSTIC_COLUMNS
    ensures d["has_video"] == Bool(hasVideo) && d["error"] == Str(error)
  {
    map["has_video" := Bool(hasVideo), "has_audio" := Bool(hasAudio), "video_codec" := codec,
        "width" := width, "height" := height, "frame_rate" := frameRate, "duration" := duration,
        "bit_rate" := bitRate, "error" := Str(error), "elapsed" := Real(elapsed)]
  }

  /** The pair `probe_one` returns for a run whose probe was parsed as `info`. */
  function ProbeResult(row: Row, run: ProbeRun, info: Info, elapsed: real): (Row, bool)
  {
    match run
    case ProbeError(e) =>
      (row + Diagnostics(false, false, Str(""), Str(""), Str(""), Str(""), Str(""), Str(""),
                         RunError(e), elapsed), false)
    case ProbeData(_) =>
      if !info.hasVideo then
        (row + Diagnostics(false, info.hasAudio, Str(""), Str(""), Str(""), Str(""), Str(""), Str(""),
                           "no_video_stream", elapsed), false)
      else
        (row + Diagnostics(true, info.hasAudio, StrOr(info.videoCodec), IntOr(info.width), IntOr(info.height),
                           RealOr(info.frameRate), RealOr(info.duration), IntOr(info.bitRate), "", elapsed), true)
  }

  /** The error a failed run reports: its message, or "unknown". */
  function RunError(e: Option<string>): string
  {
    if e.Some? then e.value else "unknown"
  }

  /** `probe_one` after the subprocess: the row extended with the diagnostics, and
      whether the source is usable. */
  method ProbeOne(row: Row, run: ProbeRun, elapsed: real, rate: string -> Option<real>)
    returns (result: Row, ok: bool)
    ensures (result, ok) == ProbeResult(row, run, ParsedRun(run, rate), elapsed)
    ensures ok <==> run.ProbeData? && run.probe.Some? && AnyVideo(run.probe.value.streams)
  {
    match run
    case ProbeError(e) =>
      result := row + Diagnostics(false, false, Str(""), Str(""), Str(""), Str(""), Str(""), Str(""),
                                  RunError(e), elapsed);
      ok := false;
    case ProbeData(probe) =>
      var info := ParseProbe(probe, rate);
      if !info.hasVideo {
        result := row + Diagnostics(false, info.hasAudio, Str(""), Str(""), Str(""), Str(""), Str(""), Str(""),
                                    "no_video_stream", elapsed);
        ok := false;
      } else {
        result := row + Diagnostics(true, info.hasAudio, StrOr(info.videoCodec), IntOr(info.width),
                                    IntOr(info.height), RealOr(info.frameRate), RealOr(info.duration),
                                    IntOr(info.bitRate), "", elapsed);
        ok := true;
      }
  }

  /** The parsed probe of a run (the empty info for a failed one, which is not read). */
  function ParsedRun(run: ProbeRun, rate: string -> Option<real>): Info
  {
    if run.ProbeData? then Parsed(run.probe, rate) else EMPTY_INFO
  }

  /** Every result is the input row with the same ten columns added: other columns pass
      through unchanged, and the error column tells the three cases apart. */
  lemma ProbeResultColumns(row: Row, run: ProbeRun, info: Info, elapsed: real)
    ensures ProbeResult(row, run, info, elapsed).0.Keys == row.Keys + DIAGNOSTIC_COLUMNS
    ensures forall c :: c in row && c !in DIAGNOSTIC_COLUMNS ==> ProbeResult(row, run, info, elapsed).0[c] == row[c]
    ensures ProbeResult(row, run, info, elapsed).1 <==> run.ProbeData? && info.hasVideo
    ensures ProbeResult(row, run, info, elapsed).1 ==> ProbeResult(row, run, info, elapsed).0["error"] == Str("")
    ensures run.ProbeData? && !info.hasVideo ==> ProbeResult(row, run, info, elapsed).0["error"] == Str("no_video_stream")
    ensures run.ProbeError? ==> ProbeResult(row, run, info, elapsed).0["error"] == Str(RunError(run.error))
  {
  }

  /** `classify_error`: the first matching test, in order, picks the label; an error no
      test matches is returned as it is. */
  function ClassifyError(err: string): (verdict: string)
    ensures err == "" ==> verdict == "成功"
    ensures err != "" && Text.Contains(err, "timeout") ==> verdict == "超时"
  {
    if err == "" then "成功"
    else if Text.Contains(err, "timeout") then "超时"
    else if Text.Contains(err, "no_output") then "无输出"
    else if Text.Contains(err, "json_parse_error") then "解析错误"
    else if Text.Contains(err, "ffprobe_not_installed") then "ffprobe未安装"
    else if err == "no_video_stream" then "无视频流"
    else err
  }

  /** The tests ClassifyError tries. */
  predicate Recognised(err: string)
  {
    err == "" || Text.Contains(err, "timeout") || Text.Contains(err, "no_output") ||
    Text.Contains(err, "json_parse_error") || Text.Contains(err, "ffprobe_not_installed") ||
    err == "no_video_stream"
  }

  /** A needle present at some index makes `Contains` true. */
  lemma ContainsAt(s: string, needle: string, i: nat)
    requires Text.OccursAt(s, needle, i)
    ensures Text.Contains(s, needle)
  {
  }

  /** A needle with a character the string lacks does not occur in it. */
  lemma AbsentChar(s: string, needle: string, k: nat)
    requires k < |needle| && needle[k] !in s
    ensures !Text.Contains(s, needle)
  {
    forall i | 0 <= i <= |s| ensures !Text.OccursAt(s, needle, i) {
      if i + |needle| <= |s| {
        assert s[i..i + |needle|][k] == s[i + k];
        assert s[i + k] in s;
      }
    }
  }

  /** A string holding `needle` holds each of its characters. */
  lemma PresentChar(s: string, needle: string, k: nat)
    requires k < |needle| && Text.Contains(s, needle)
    ensures needle[k] in s
  {
    var i :| 0 <= i <= |s| && Text.OccursAt(s, needle, i);
    assert s[i..i + |needle|][k] == s[i + k];
  }

  /** Each label is different from every error that earns it (labels are Chinese, the
      matched errors hold ASCII words), so an error comes back unchanged exactly when no
      test matches it. */
  lemma ClassifyErrorPassThrough(err: string)
    ensures ClassifyError(err) == err <==> !Recognised(err)
    ensures Recognised(err) ==>
      ClassifyError(err) in {"成功", "超时", "无输出", "解析错误", "ffprobe未安装", "无视频流"}
  {
    if err == "" {
    } else if Text.Contains(err, "timeout") {
      PresentChar(err, "timeout", 0);
      assert 't' !in ClassifyError(err);
    } else if Text.Contains(err, "no_output") {
      PresentChar(err, "no_output", 0);
      assert 'n' !in ClassifyError(err);
    } else if Text.Contains(err, "json_parse_error") {
      PresentChar(err, "json_parse_error", 0);
      assert 'j' !in ClassifyError(err);
    } else if Text.Contains(err, "ffprobe_not_installed") {
      PresentChar(err, "ffprobe_not_installed", 8);
      assert 'n' !in ClassifyError(err);
    } else if err == "no_video_stream" {
      assert 'n' !in ClassifyError(err);
    }
  }

  /** A good probe is labelled a success, a video-less one is labelled as such, and a
      failed run's label comes from its error. */
  lemma ProbeResultLabel(row: Row, run: ProbeRun, info: Info, elapsed: real)
    ensures ProbeResult(row, run, info, elapsed).1 ==> ClassifyError(ProbeResult(row, run, info, elapsed).0["error"].s) == "成功"
    ensures run.ProbeData? && !info.hasVideo ==>
      ClassifyError(ProbeResult(row, run, info, elapsed).0["error"].s) == "无视频流"
    ensures run.ProbeError? ==>
      ClassifyError(ProbeResult(row, run, info, elapsed).0["error"].s) == ClassifyError(RunError(run.error))
  {
    ProbeResultError(row, run, info, elapsed);
    NoVideoLabel();
  }

  /** The error a run records: the failed run's message, "no_video_stream" for a probe
      without video, and "" otherwise. */
  function ResultError(run: ProbeRun, info: Info): string
  {
    match run
    case ProbeError(e) => RunError(e)
    case ProbeData(_) => if !info.hasVideo then "no_video_stream" else ""
  }

  lemma ProbeResultError(row: Row, run: ProbeRun, info: Info, elapsed: real)
    ensures "error" in ProbeResult(row, run, info, elapsed).0
    ensures ProbeResult(row, run, info, elapsed).0["error"] == Str(ResultError(run, info))
    ensures ProbeResult(row, run, info, elapsed).1 <==> run.ProbeData? && info.hasVideo
  {
    assert "error" in DIAGNOSTIC_COLUMNS;
  }

  lemma NoVideoLabel()
    ensures ClassifyError("no_video_stream") == "无视频流"
  {
    var e := "no_video_stream";
    assert !Text.Contains(e, "timeout") by { AbsentChar(e, "timeout", 5); }
    assert !Text.Contains(e, "no_output") by { AbsentChar(e, "no_output", 4); }
    assert !Text.Contains(e, "json_parse_error") by { AbsentChar(e, "json_parse_error", 0); }
    assert !Text.Contains(e, "ffprobe_not_installed") by { AbsentChar(e, "ffprobe_not_installed", 0); }
  }

  /** `str(x)` for the cells the width and height columns can hold. */
  function Show(c: Cell): string
  {
    match c
    case Null => "None"
    case Bool(b) => if b then "True" else "False"
    case Int(i) => Text.Decimal(i)
    case Str(s) => s
    case Real(_) => ""
  }

  /** `format_resolution`: "WxH" when both dimensions are truthy, else "". */
  function FormatResolution(r: Row): (s: string)
    ensures s != "" <==> Truthy(GetOr(r, "width", Null)) && Truthy(GetOr(r, "height", Null))
    ensures s != "" ==> s == Show(r["width"]) + "x" + Show(r["height"])
  {
    var w := GetOr(r, "width", Null);
    var h := GetOr(r, "height", Null);
    if Truthy(w) && Truthy(h) then Show(w) + "x" + Show(h) else ""
  }

  /** A usable result with both dimensions known reads "WxH" in decimal. */
  lemma ResolutionOfResult(row: Row, run: ProbeRun, info: Info, elapsed: real)
    requires run.ProbeData? && info.hasVideo
    requires info.width.Some? && info.width.value > 0 && info.height.Some? && info.height.value > 0
    ensures FormatResolution(ProbeResult(row, run, info, elapsed).0) ==
      Text.Decimal(info.width.value) + "x" + Text.Decimal(info.height.value)
  {
  }

  /** `format_audio`. */
  function FormatAudio(r: Row): (s: string)
    ensures s == "有音频" <==> Truthy(GetOr(r, "has_audio", Null))
    ensures s in {"有音频", "无音频"}
  {
    if Truthy(GetOr(r, "has_audio", Null)) then "有音频" else "无音频"
  }

  /** The six readable columns added before writing. */
  const NEW_FIELDS: seq<string> := ["ffprobe是否成功", "视频编码", "分辨率", "帧率", "音频", "ffprobe探测时间"]

  /** The row written for a result; `fmt` is the `:.3f` formatting of the elapsed time. */
  function OutRow(r: Row, fmt: Cell -> string): (o: Row)
    ensures o.Keys == r.Keys + set f | f in NEW_FIELDS
  {
    r["ffprobe是否成功" := Str(ClassifyError(if GetOr(r, "error", Str("")).Str? then GetOr(r, "error", Str("")).s else ""))]
     ["视频编码" := GetOr(r, "video_codec", Str(""))]
     ["分辨率" := Str(FormatResolution(r))]
     ["帧率" := GetOr(r, "frame_rate", Str(""))]
     ["音频" := Str(FormatAudio(r))]
     ["ffprobe探测时间" := Str(fmt(GetOr(r, "elapsed", Int(0))))]
  }

  /** `csv.DictWriter.writerow` as the script configures it (the default
      `extrasaction="raise"`): a row holding a key outside the header raises. */
  function WriteRowRaising(header: seq<string>, r: Row): (line: Option<seq<Cell>>)
    ensures line.None? <==> exists k :: k in r && k !in header
  {
    if exists k :: k in r && k !in header then None
    else Some(seq(|header|, i requires 0 <= i < |header| => GetOr(r, header[i], Str(""))))
  }

  /** Every result carries the diagnostic columns, which the header of an input without
      them lacks: as written, the first row written raises. */
  lemma WriteRaisesOnResults(fieldnamesIn: seq<string>, row: Row, run: ProbeRun, info: Info, elapsed: real, fmt: Cell -> string)
    requires "has_video" !in fieldnamesIn
    ensures WriteRowRaising(fieldnamesIn + NEW_FIELDS, OutRow(ProbeResult(row, run, info, elapsed).0, fmt)).None?
  {
    var o := OutRow(ProbeResult(row, run, info, elapsed).0, fmt);
    assert "has_video" in o && "has_video" !in fieldnamesIn + NEW_FIELDS;
  }

  /** The writer with extra keys ignored (as the reachability stage configures it):
      one cell per header column, "" for a column the row lacks. */
  function WriteRow(header: seq<string>, r: Row): (line: seq<Cell>)
    ensures |line| == |header|
    ensures forall i :: 0 <= i < |header| && header[i] in r ==> line[i] == r[header[i]]
    ensures forall i :: 0 <= i < |header| && header[i] !in r ==> line[i] == Str("")
  {
    seq(|header|, i requires 0 <= i < |header| => GetOr(r, header[i], Str("")))
  }

  /** The readable columns are added on top of a result's own columns. */
  lemma OutRowCells(r: Row, fmt: Cell -> string)
    ensures forall c :: c in r && c !in NEW_FIELDS ==> OutRow(r, fmt)[c] == r[c]
    ensures "error" in r && r["error"].Str? ==> OutRow(r, fmt)["ffprobe是否成功"] == Str(ClassifyError(r["error"].s))
    ensures OutRow(r, fmt)["音频"] == Str(FormatAudio(r))
  {
  }

  /** Written with extra keys ignored, a row keeps the cells of the input columns and
      gains the readable ones. */
  lemma WrittenRow(fieldnamesIn: seq<string>, row: Row, r: Row, fmt: Cell -> string)
    requires forall c :: c in fieldnamesIn ==> c in row && c in r && r[c] == row[c] && c !in NEW_FIELDS
    requires "error" in r && r["error"].Str?
    ensures var line := WriteRow(fieldnamesIn + NEW_FIELDS, OutRow(r, fmt));
      |line| == |fieldnamesIn| + 6 &&
      (forall i :: 0 <= i < |fieldnamesIn| ==> line[i] == row[fieldnamesIn[i]]) &&
      line[|fieldnamesIn|] == Str(ClassifyError(r["error"].s)) &&
      line[|fieldnamesIn| + 4] == Str(FormatAudio(r))
  {
    var o := OutRow(r, fmt);
    OutRowCells(r, fmt);
    var header := fieldnamesIn + NEW_FIELDS;
    var line := WriteRow(header, o);
    assert header[|fieldnamesIn|] == "ffprobe是否成功";
    assert header[|fieldnamesIn| + 4] == "音频";
    forall i | 0 <= i < |fieldnamesIn| ensures line[i] == row[fieldnamesIn[i]] {
      var c := fieldnamesIn[i];
      assert c in fieldnamesIn;
      assert header[i] == c;
    }
  }

  /** Written with extra keys ignored, a result keeps its input cells and gains the six
      readable columns, whatever diagnostics it holds. */
  lemma WrittenResult(fieldnamesIn: seq<string>, row: Row, run: ProbeRun, info: Info, elapsed: real, fmt: Cell -> string)
    requires forall c :: c in fieldnamesIn ==> c in row && c !in DIAGNOSTIC_COLUMNS && c !in NEW_FIELDS
    ensures var r := ProbeResult(row, run, info, elapsed).0;
      var line := WriteRow(fieldnamesIn + NEW_FIELDS, OutRow(r, fmt));
      |line| == |fieldnamesIn| + 6 &&
      (forall i :: 0 <= i < |fieldnamesIn| ==> line[i] == row[fieldnamesIn[i]]) &&
      line[|fieldnamesIn|] == Str(ClassifyError(r["error"].s)) &&
      line[|fieldnamesIn| + 4] == Str(FormatAudio(r))
  {
    ProbeResultColumns(row, run, info, elapsed);
    WrittenRow(fieldnamesIn, row, ProbeResult(row, run, info, elapsed).0, fmt);
  }

  predicate OkPair(p: (Row, bool))
  {
    p.1
  }

  predicate FailPair(p: (Row, bool))
  {
    !p.1
  }

  /** The written lines for results. */
  function Lines(header: seq<string>, results: seq<(Row, bool)>, fmt: Cell -> string): (ls: seq<seq<Cell>>)
    ensures |ls| == |results|
    ensures forall i :: 0 <= i < |results| ==> ls[i] == WriteRow(header, OutRow(results[i].0, fmt))
  {
    seq(|results|, i requires 0 <= i < |results| => WriteRow(header, OutRow(results[i].0, fmt)))
  }

  /** The results of probing the first `n` rows, in input order. */
  function ProbeResults(rows: seq<Row>, runs: nat -> ProbeRun, elapsed: nat -> real, rate: string -> Option<real>, n: nat)
    : (rs: seq<(Row, bool)>)
    requires n <= |rows|
    ensures |rs| == n
    ensures forall i :: 0 <= i < n ==> rs[i] == ProbeResult(rows[i], runs(i), ParsedRun(runs(i), rate), elapsed(i))
  {
    if n == 0 then []
    else ProbeResults(rows, runs, elapsed, rate, n - 1) + [ProbeResult(rows[n - 1], runs(n - 1), ParsedRun(runs(n - 1), rate), elapsed(n - 1))]
  }

  /** Every row probed, in input order (the source gathers them in completion order;
      `Common.FilterPermutation` shows the split does not depend on it). */
  method ProbeAll(rows: seq<Row>, runs: nat -> ProbeRun, elapsed: nat -> real, rate: string -> Option<real>)
    returns (results: seq<(Row, bool)>)
    ensures results == ProbeResults(rows, runs, elapsed, rate, |rows|)
  {
    results := [];
    var i := 0;
    while i < |rows|
      invariant i <= |rows|
      invariant results == ProbeResults(rows, runs, elapsed, rate, i)
    {
      var r, ok := ProbeOne(rows[i], runs(i), elapsed(i), rate);
      results := results + [(r, ok)];
      i := i + 1;
    }
  }

  /** `deep_scan` without the subprocesses and the files: every row probed, the results
      split by the ok flag, and each side written under the input header followed by the
      six readable columns, extra keys ignored. */
  method DeepScan(rows: seq<Row>, fieldnamesIn: seq<string>, runs: nat -> ProbeRun, elapsed: nat -> real,
                  rate: string -> Option<real>, fmt: Cell -> string)
    returns (header: seq<string>, okLines: seq<seq<Cell>>, failLines: seq<seq<Cell>>, results: seq<(Row, bool)>)
    ensures results == ProbeResults(rows, runs, elapsed, rate, |rows|)
    ensures header == fieldnamesIn + NEW_FIELDS
    ensures okLines == Lines(header, Filter(results, OkPair), fmt)
    ensures failLines == Lines(header, Filter(results, FailPair), fmt)
    ensures |okLines| + |failLines| == |rows|
  {
    results := ProbeAll(rows, runs, elapsed, rate);
    var okResults, failResults := SplitBy(results, OkPair, FailPair);
    FilterSizes(results, OkPair, FailPair);
    header := fieldnamesIn + NEW_FIELDS;
    okLines := Lines(header, okResults, fmt);
    failLines := Lines(header, failResults, fmt);
  }
}
