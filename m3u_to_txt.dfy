/** The format conversion of scripts/2_m3u_to_txt.py: a downloaded playlist, either M3U
    (`#EXTINF:` lines, each followed by its address) or a delimited text table, becomes a
    list of channels with nine named fields, written as a table under a fixed header.
    Decoding the file and the CSV dialect sniffer are outside the model: the lines are
    given, and the rows the CSV reader yields for them come from the oracle `csv`. */
module M3uToTxt {
  import opened Common
  import opened Text

  /** The field names of a channel, in output column order. */
  const OUTPUT_FIELDS: seq<string> := ["display_name", "url", "tvg_logo", "tvg_name",
    "tvg_country", "tvg_language", "group_title", "tvg_id", "resolution"]

  /** The header row written above the channels, one title per field. */
  const OUTPUT_HEADER: seq<string> := ["频道名", "地址", "logo", "tvg频道名", "tvg国家",
    "tcg语言", "tvg分组", "tvg-id", "resolution"]

  /** A channel: the dictionary from field name to text. */
  type Channel = map<string, string>

  /** The channel whose fields, in `OUTPUT_FIELDS` order, are `v`. */
  function MakeChannel(v: seq<string>): Channel
    requires |v| == 9
  {
    map["display_name" := v[0], "url" := v[1], "tvg_logo" := v[2], "tvg_name" := v[3],
        "tvg_country" := v[4], "tvg_language" := v[5], "group_title" := v[6],
        "tvg_id" := v[7], "resolution" := v[8]]
  }

  /** One output row: each field in `OUTPUT_FIELDS` order, `""` when missing. */
  function SaveRow(ch: Channel): (row: seq<string>)
    ensures |row| == |OUTPUT_FIELDS|
    ensures forall k :: 0 <= k < |OUTPUT_FIELDS| ==>
      (OUTPUT_FIELDS[k] in ch ==> row[k] == ch[OUTPUT_FIELDS[k]]) &&
      (OUTPUT_FIELDS[k] !in ch ==> row[k] == "")
  {
    seq(|OUTPUT_FIELDS|, k requires 0 <= k < |OUTPUT_FIELDS| => GetOr(ch, OUTPUT_FIELDS[k], ""))
  }

  /** Every channel either parser builds is written back as exactly the values it was
      built from, in the same order: the field names of the dictionaries and of the
      output columns agree. */
  lemma SaveRowMake(v: seq<string>)
    requires |v| == 9
    ensures SaveRow(MakeChannel(v)) == v
    ensures MakeChannel(v).Keys == set k | 0 <= k < 9 :: OUTPUT_FIELDS[k]
  {
    var ch := MakeChannel(v);
    forall k | 0 <= k < 9 ensures SaveRow(ch)[k] == v[k] {
      assert OUTPUT_FIELDS[k] in ch;
    }
  }

  // ---------------------------------------------------------------- M3U

  /** A line that opens a channel: once stripped, it starts with "#EXTINF:". */
  predicate IsExtinf(line: string)
  {
    StartsWith(Strip(line), "#EXTINF:")
  }

  /** The playlist test: some line opens a channel. */
  predicate IsM3U(lines: seq<string>)
  {
    exists j :: 0 <= j < |lines| && IsExtinf(lines[j])
  }

  /** `is_m3u_format`. */
  method IsM3UFormat(lines: seq<string>) returns (r: bool)
    ensures r <==> IsM3U(lines)
  {
    for j := 0 to |lines|
      invariant forall m :: 0 <= m < j ==> !IsExtinf(lines[m])
    {
      if IsExtinf(lines[j]) {
        assert 0 <= j < |lines| && IsExtinf(lines[j]);
        return true;
      }
    }
    assert !IsM3U(lines);
    return false;
  }

  /** The display name: the stripped text after the first comma, or `""` without one. */
  function DisplayName(info: string): (name: string)
    ensures IsStripped(name)
    ensures ',' !in info ==> name == ""
  {
    match IndexOf(info, ',')
    case None => ""
    case Some(k) => Strip(info[k + 1..])
  }

  /** Whatever follows the first comma names the channel, commas included. */
  lemma DisplayNameAfterComma(attrs: string, name: string)
    requires ',' !in attrs
    ensures DisplayName(attrs + "," + name) == Strip(name)
  {
    IndexOfAfter(attrs, ',', name);
    assert (attrs + [','] + name)[|attrs| + 1..] == name;
  }

  /** The text that opens attribute `attr`: `attr="`. */
  function Opening(attr: string): string
  {
    attr + ['=', '"']
  }

  /** `extract_attr`: the stripped text between the first `attr="` and the next quote;
      `""` when the line has no `attr="` followed somewhere by a closing quote. */
  function ExtractAttr(info: string, attr: string): (v: string)
    ensures IsStripped(v)
  {
    ValueAt(info, FindFrom(info, Opening(attr), 0), |Opening(attr)|)
  }

  /** The quoted value that starts `n` characters after position `pos`, if any. */
  function ValueAt(info: string, pos: int, n: nat): (v: string)
    ensures IsStripped(v)
  {
    if 0 <= pos && pos + n <= |info| then QuotedValue(info[pos + n..]) else ""
  }

  /** The stripped text before the first quote of `rest`, or `""` without one. */
  function QuotedValue(rest: string): (v: string)
    ensures IsStripped(v)
  {
    match IndexOf(rest, '"')
    case None => ""
    case Some(k) => Strip(rest[..k])
  }

  lemma QuotedValueOf(rest: string, value: string, tail: string)
    requires rest == value + ['"'] + tail
    requires '"' !in value
    ensures QuotedValue(rest) == Strip(value)
  {
    IndexOfAfter(value, '"', tail);
    assert rest[..|value|] == value;
  }

  /** A line without `attr="` gives `""` for `attr`. */
  lemma ExtractAttrAbsent(info: string, attr: string)
    requires !Contains(info, Opening(attr))
    ensures ExtractAttr(info, attr) == ""
  {
    FindFromFirst(info, Opening(attr), 0);
  }

  /** The value of the first `attr="` is the text up to the next quote, stripped. */
  lemma ExtractAttrValue(info: string, attr: string, i: nat, value: string)
    requires OccursAt(info, Opening(attr) + value + ['"'], i)
    requires '"' !in value
    requires forall j :: 0 <= j < i ==> !OccursAt(info, Opening(attr), j)
    ensures ExtractAttr(info, attr) == Strip(value)
  {
    var rest := info[i + |Opening(attr)|..];
    var after := info[i + |Opening(attr)| + |value| + 1..];
    QuotedAfterFirst(info, Opening(attr), value, i);
    ExtractAttrAt(info, attr, i);
    QuotedValueOf(rest, value, after);
  }

  lemma ExtractAttrAt(info: string, attr: string, i: nat)
    requires FindFrom(info, Opening(attr), 0) == i
    ensures ExtractAttr(info, attr) == QuotedValue(info[i + |Opening(attr)|..])
  {
  }

  /** The first occurrence of `o` followed by `value` and a quote is the one `find`
      reports, and the text after it is `value`, the quote and the rest. */
  lemma QuotedAfterFirst(s: string, o: string, value: string, i: nat)
    requires OccursAt(s, o + value + ['"'], i)
    requires forall j :: 0 <= j < i ==> !OccursAt(s, o, j)
    ensures FindFrom(s, o, 0) == i
    ensures s[i + |o|..] == value + ['"'] + s[i + |o| + |value| + 1..]
  {
    assert o + value + ['"'] == o + (value + ['"']);
    OccursAtConcat(s, o, value + ['"'], i);
    FindFirst(s, o, i);
  }

  /** The address of the channel opened at line `i`: the next line, stripped, unless it
      is empty or a comment; `""` otherwise, and at the end of the file. */
  function NextUrl(lines: seq<string>, i: nat): (url: string)
    ensures url == "" || (IsStripped(url) && url[0] != '#')
    ensures url != "" ==> i + 1 < |lines| && url == Strip(lines[i + 1])
  {
    if i + 1 < |lines| then
      var next := Strip(lines[i + 1]);
      if next != "" && !StartsWith(next, "#") then next else ""
    else ""
  }

  /** The attributes read from an opening line, for the fields after the address. */
  const ATTRIBUTES: seq<string> := ["tvg-logo", "tvg-name", "tvg-country", "tvg-language",
    "group-title", "tvg-id", "resolution"]

  /** The nine field values of a channel, in `OUTPUT_FIELDS` order, for the stripped
      opening line `info` and the address `url`. */
  function M3uFields(info: string, url: string): (v: seq<string>)
    ensures |v| == 9 && v[1] == url
  {
    [DisplayName(info), url] +
    seq(|ATTRIBUTES|, k requires 0 <= k < |ATTRIBUTES| => ExtractAttr(info, ATTRIBUTES[k]))
  }

  /** The channel that the `#EXTINF:` line at `i` opens. */
  function M3uChannel(lines: seq<string>, i: nat): Channel
    requires i < |lines|
  {
    MakeChannel(M3uFields(Strip(lines[i]), NextUrl(lines, i)))
  }

  /** The lines the scan takes from index `i` on: a line satisfying `opens` is taken
      and the scan resumes two lines later, skipping the line after it whatever it
      holds; any other line is passed over. */
  function Openings<T>(lines: seq<T>, opens: T -> bool, i: nat): (js: seq<nat>)
    ensures forall k :: 0 <= k < |js| ==> i <= js[k] < |lines| && opens(lines[js[k]])
    decreases |lines| - i
  {
    if i >= |lines| then []
    else if opens(lines[i]) then [i] + Openings(lines, opens, i + 2)
    else Openings(lines, opens, i + 1)
  }

  /** What the lines `js` yield under `make`, in order. */
  function ChannelsAt<C>(js: seq<nat>, make: nat -> C): (chs: seq<C>)
    ensures |chs| == |js|
    ensures forall k :: 0 <= k < |js| ==> chs[k] == make(js[k])
  {
    seq(|js|, k requires 0 <= k < |js| => make(js[k]))
  }

  lemma ChannelsAtCons<C>(j: nat, js: seq<nat>, make: nat -> C)
    ensures ChannelsAt([j] + js, make) == [make(j)] + ChannelsAt(js, make)
  {
  }

  /** The channel opened at each line index of `lines`. */
  function ChannelMaker(lines: seq<string>): nat -> Channel
  {
    (j: nat) => if j < |lines| then M3uChannel(lines, j) else map[]
  }

  lemma OpeningsStep<T>(lines: seq<T>, opens: T -> bool, i: nat)
    requires i < |lines|
    ensures opens(lines[i]) ==> Openings(lines, opens, i) == [i] + Openings(lines, opens, i + 2)
    ensures !opens(lines[i]) ==> Openings(lines, opens, i) == Openings(lines, opens, i + 1)
  {
  }

  /** One step over the openings, with what they yield under any `make`. */
  lemma OpeningsChannels<T, C>(lines: seq<T>, opens: T -> bool, i: nat, make: nat -> C)
    requires i < |lines|
    ensures opens(lines[i]) ==>
      ChannelsAt(Openings(lines, opens, i), make) == [make(i)] + ChannelsAt(Openings(lines, opens, i + 2), make)
    ensures !opens(lines[i]) ==>
      ChannelsAt(Openings(lines, opens, i), make) == ChannelsAt(Openings(lines, opens, i + 1), make)
  {
    OpeningsStep(lines, opens, i);
    if opens(lines[i]) {
      ChannelsAtCons(i, Openings(lines, opens, i + 2), make);
    }
  }

  /** The channels of a playlist. */
  function ParsedM3U(lines: seq<string>): seq<Channel>
  {
    ChannelsFrom(lines, 0)
  }

  /** The channels the scan finds from line `i` on. */
  function ChannelsFrom(lines: seq<string>, i: nat): seq<Channel>
  {
    ChannelsAt(Openings(lines, IsExtinf, i), ChannelMaker(lines))
  }

  /** One step of the scan: an opening line yields its channel and the scan resumes two
      lines later; any other line is passed over; past the end nothing is found. */
  lemma ChannelsFromStep(lines: seq<string>, i: nat)
    ensures i >= |lines| ==> ChannelsFrom(lines, i) == []
    ensures i < |lines| && IsExtinf(lines[i]) ==>
      ChannelsFrom(lines, i) == [M3uChannel(lines, i)] + ChannelsFrom(lines, i + 2)
    ensures i < |lines| && !IsExtinf(lines[i]) ==> ChannelsFrom(lines, i) == ChannelsFrom(lines, i + 1)
  {
    if i < |lines| {
      OpeningsChannels(lines, IsExtinf, i, ChannelMaker(lines));
      if IsExtinf(lines[i]) {
        assert ChannelMaker(lines)(i) == M3uChannel(lines, i);
      }
    }
  }

  /** `parse_m3u`. */
  method ParseM3U(lines: seq<string>) returns (channels: seq<Channel>)
    ensures channels == ParsedM3U(lines)
  {
    channels := [];
    var i := 0;
    while i < |lines|
      invariant i <= |lines| + 1
      invariant channels + ChannelsFrom(lines, i) == ChannelsFrom(lines, 0)
      decreases |lines| - i
    {
      if IsExtinf(lines[i]) {
        ParseStep(lines, i, channels);
        channels := channels + [M3uChannel(lines, i)];
        i := i + 2;
      } else {
        ChannelsFromStep(lines, i);
        i := i + 1;
      }
    }
    ChannelsFromStep(lines, i);
  }

  lemma ParseStep(lines: seq<string>, i: nat, found: seq<Channel>)
    requires i < |lines| && IsExtinf(lines[i])
    ensures found + [M3uChannel(lines, i)] + ChannelsFrom(lines, i + 2) == found + ChannelsFrom(lines, i)
  {
    ChannelsFromStep(lines, i);
    MoveHead(found, M3uChannel(lines, i), ChannelsFrom(lines, i + 2), ChannelsFrom(lines, i));
  }

  /** The number of lines satisfying `opens` from index `i` on. */
  function OpenCount<T>(lines: seq<T>, opens: T -> bool, i: nat): nat
    decreases |lines| - i
  {
    if i >= |lines| then 0
    else (if opens(lines[i]) then 1 else 0) + OpenCount(lines, opens, i + 1)
  }

  /** At most one channel per opening line. */
  lemma {:induction false} OpeningsAtMost<T>(lines: seq<T>, opens: T -> bool, i: nat)
    ensures |Openings(lines, opens, i)| <= OpenCount(lines, opens, i)
    decreases |lines| - i
  {
    if i < |lines| {
      if opens(lines[i]) {
        OpeningsAtMost(lines, opens, i + 2);
        assert OpenCount(lines, opens, i + 1) >= OpenCount(lines, opens, i + 2);
      } else {
        OpeningsAtMost(lines, opens, i + 1);
      }
    }
  }

  /** When no opening line directly follows another, every opening line yields exactly
      one channel. */
  lemma {:induction false} OpeningsExactly<T>(lines: seq<T>, opens: T -> bool, i: nat)
    requires forall j :: i <= j && j + 1 < |lines| && opens(lines[j]) ==> !opens(lines[j + 1])
    ensures |Openings(lines, opens, i)| == OpenCount(lines, opens, i)
    decreases |lines| - i
  {
    if i < |lines| {
      if opens(lines[i]) {
        OpeningsExactly(lines, opens, i + 2);
        if i + 1 < |lines| {
          assert !opens(lines[i + 1]);
        }
      } else {
        OpeningsExactly(lines, opens, i + 1);
      }
    }
  }

  /** The first opening line is always taken first. */
  lemma {:induction false} FirstOpened<T>(lines: seq<T>, opens: T -> bool, i: nat, f: nat)
    requires i <= f < |lines| && opens(lines[f])
    requires forall j :: i <= j < f ==> !opens(lines[j])
    ensures |Openings(lines, opens, i)| >= 1 && Openings(lines, opens, i)[0] == f
    decreases f - i
  {
    if i < f {
      FirstOpened(lines, opens, i + 1, f);
    }
  }

  lemma {:induction false} NoneOpened<T>(lines: seq<T>, opens: T -> bool, i: nat)
    requires forall j :: i <= j < |lines| ==> !opens(lines[j])
    ensures Openings(lines, opens, i) == []
    decreases |lines| - i
  {
    if i < |lines| {
      NoneOpened(lines, opens, i + 1);
    }
  }

  /** An opening line at or after `i` is taken or follows a taken one, so the scan from
      `i` takes at least one. */
  lemma {:induction false} SomeOpened<T>(lines: seq<T>, opens: T -> bool, i: nat)
    requires exists j :: i <= j < |lines| && opens(lines[j])
    ensures |Openings(lines, opens, i)| >= 1
    decreases |lines| - i
  {
    if !opens(lines[i]) {
      SomeOpened(lines, opens, i + 1);
    }
  }

  /** A file is a playlist exactly when parsing it as one finds a channel, and it then
      finds at most one channel per opening line, exactly one when no opening line
      directly follows another; the first channel comes from the first opening line. */
  lemma M3UChannelCount(lines: seq<string>)
    ensures IsM3U(lines) <==> |ParsedM3U(lines)| >= 1
    ensures |ParsedM3U(lines)| <= OpenCount(lines, IsExtinf, 0)
    ensures (forall j :: 0 <= j && j + 1 < |lines| && IsExtinf(lines[j]) ==> !IsExtinf(lines[j + 1])) ==>
      |ParsedM3U(lines)| == OpenCount(lines, IsExtinf, 0)
  {
    if IsM3U(lines) {
      SomeOpened(lines, IsExtinf, 0);
    } else {
      NoneOpened(lines, IsExtinf, 0);
    }
    OpeningsAtMost(lines, IsExtinf, 0);
    if forall j :: 0 <= j && j + 1 < |lines| && IsExtinf(lines[j]) ==> !IsExtinf(lines[j + 1]) {
      OpeningsExactly(lines, IsExtinf, 0);
    }
  }

  /** The first channel of a playlist comes from its first opening line. */
  lemma FirstChannel(lines: seq<string>, f: nat)
    requires f < |lines| && IsExtinf(lines[f])
    requires forall j :: 0 <= j < f ==> !IsExtinf(lines[j])
    ensures |ParsedM3U(lines)| >= 1 && ParsedM3U(lines)[0] == M3uChannel(lines, f)
  {
    FirstOpened(lines, IsExtinf, 0, f);
  }

  /** The line after an opening line is never read as one: two opening lines in a row
      give a single channel, with no address. */
  lemma ConsecutiveExtinf(a: string, b: string)
    requires IsExtinf(a) && IsExtinf(b)
    ensures |ParsedM3U([a, b])| == 1
    ensures ParsedM3U([a, b])[0]["url"] == ""
  {
    var lines := [a, b];
    PairOpenings(lines);
    ExtinfNotUrl(lines, 0);
    ChannelUrl(lines, 0);
    assert ParsedM3U(lines) == ChannelsAt([0], ChannelMaker(lines));
    assert ParsedM3U(lines)[0] == M3uChannel(lines, 0);
  }

  /** Two lines whose first opens a channel: only that line is taken. */
  lemma PairOpenings(lines: seq<string>)
    requires |lines| == 2 && IsExtinf(lines[0])
    ensures Openings(lines, IsExtinf, 0) == [0]
  {
    OpeningsStep(lines, IsExtinf, 0);
    assert Openings(lines, IsExtinf, 2) == [];
  }

  /** An opening line gives no address to the line before it. */
  lemma ExtinfNotUrl(lines: seq<string>, i: nat)
    requires i + 1 < |lines| && IsExtinf(lines[i + 1])
    ensures NextUrl(lines, i) == ""
  {
    assert Strip(lines[i + 1])[0] == '#';
  }

  lemma MakeChannelUrl(v: seq<string>)
    requires |v| == 9
    ensures "url" in MakeChannel(v) && MakeChannel(v)["url"] == v[1]
  {
  }

  /** The address of the channel opened at line `j` is the one the line after it gives. */
  lemma ChannelUrl(lines: seq<string>, j: nat)
    requires j < |lines|
    ensures "url" in M3uChannel(lines, j) && M3uChannel(lines, j)["url"] == NextUrl(lines, j)
  {
    MakeChannelUrl(M3uFields(Strip(lines[j]), NextUrl(lines, j)));
  }

  /** Channel `k` of a playlist is the one its `k`-th taken opening line opens, and its
      address is the one the line after that gives. */
  lemma ParsedUrls(lines: seq<string>)
    ensures forall k :: 0 <= k < |ParsedM3U(lines)| ==>
      ParsedM3U(lines)[k] == M3uChannel(lines, Openings(lines, IsExtinf, 0)[k]) &&
      "url" in ParsedM3U(lines)[k] &&
      ParsedM3U(lines)[k]["url"] == NextUrl(lines, Openings(lines, IsExtinf, 0)[k])
  {
    var js := Openings(lines, IsExtinf, 0);
    forall k | 0 <= k < |js|
      ensures ParsedM3U(lines)[k] == M3uChannel(lines, js[k])
      ensures "url" in ParsedM3U(lines)[k] && ParsedM3U(lines)[k]["url"] == NextUrl(lines, js[k])
    {
      assert ParsedM3U(lines)[k] == ChannelMaker(lines)(js[k]);
      ChannelUrl(lines, js[k]);
    }
  }

  // ---------------------------------------------------------------- text tables

  /** A first column of the form `20231227 15:30`. */
  predicate IsTimestamp(s: string)
  {
    |s| == 14 && s[8] == ' ' && s[11] == ':' &&
    forall k :: 0 <= k < 14 && k != 8 && k != 11 ==> IsDigit(s[k])
  }

  /** A row that yields a channel: not empty, its first column neither an update-time
      nor a genre marker nor a bare timestamp. */
  predicate KeptRow(row: seq<string>)
  {
    |row| > 0 &&
    !Contains(Lower(Strip(row[0])), "更新时间") &&
    !Contains(Lower(Strip(row[0])), "#genre#") &&
    !IsTimestamp(Strip(row[0]))
  }

  /** The row padded with empty columns up to nine. */
  function Pad(row: seq<string>): (p: seq<string>)
    ensures |p| >= 9 && |p| >= |row| && p[..|row|] == row
    ensures forall k :: |row| <= k < |p| ==> p[k] == ""
  {
    if |row| >= 9 then row else row + seq(9 - |row|, _ => "")
  }

  /** The channel a kept row gives: its first nine columns, stripped. */
  function TxtChannel(row: seq<string>): Channel
  {
    var p := Pad(row);
    MakeChannel(seq(9, k requires 0 <= k < 9 => Strip(p[k])))
  }

  /** The channels of a table, in row order. */
  function TxtChannels(rows: seq<seq<string>>): seq<Channel>
  {
    if |rows| == 0 then []
    else
      var last := rows[|rows| - 1];
      TxtChannels(rows[..|rows| - 1]) + (if KeptRow(last) then [TxtChannel(last)] else [])
  }

  /** `parse_txt` from the reader's rows on. */
  method ParseTxt(rows: seq<seq<string>>) returns (channels: seq<Channel>)
    ensures channels == TxtChannels(rows)
  {
    channels := [];
    for i := 0 to |rows|
      invariant channels == TxtChannels(rows[..i])
    {
      assert rows[..i + 1][..i] == rows[..i];
      var row := rows[i];
      if KeptRow(row) {
        channels := channels + [TxtChannel(row)];
      }
    }
    assert rows[..|rows|] == rows;
  }

  /** A table yields one channel per kept row, built from that row. */
  lemma {:induction false} TxtChannelsOfKept(rows: seq<seq<string>>)
    ensures TxtChannels(rows) == MapAll(Filter(rows, KeptRow), TxtChannel)
  {
    if |rows| > 0 {
      var init, last := rows[..|rows| - 1], rows[|rows| - 1];
      TxtChannelsOfKept(init);
      assert rows == init + [last];
      FilterMapSnoc(init, last, KeptRow, TxtChannel);
    }
  }

  /** Column k of the output is column k of the input row, stripped, or `""` when the
      row is shorter; columns after the ninth are dropped. */
  lemma TxtColumns(row: seq<string>)
    ensures forall k :: 0 <= k < 9 ==>
      SaveRow(TxtChannel(row))[k] == if k < |row| then Strip(row[k]) else ""
  {
    var p := Pad(row);
    SaveRowMake(seq(9, k requires 0 <= k < 9 => Strip(p[k])));
    forall k | 0 <= k < 9 && k < |row| ensures p[k] == row[k] {
      assert p[..|row|][k] == p[k];
    }
  }

  /** A bare timestamp row is dropped. */
  lemma TimestampRowDropped()
    ensures !KeptRow(["20231227 15:30", "x"])
  {
    StripStripped("20231227 15:30");
    assert IsTimestamp("20231227 15:30");
  }

  // ---------------------------------------------------------------- files

  /** The channels of a file: none for an empty file, the playlist parse when some line
      opens a channel, the table parse otherwise. */
  function FileChannels(lines: seq<string>, csv: seq<string> -> seq<seq<string>>): seq<Channel>
  {
    if |lines| == 0 then []
    else if IsM3U(lines) then ParsedM3U(lines)
    else TxtChannels(csv(lines))
  }

  /** `process_file` from the decoded lines on. */
  method ProcessFile(lines: seq<string>, csv: seq<string> -> seq<seq<string>>) returns (channels: seq<Channel>)
    ensures channels == FileChannels(lines, csv)
    ensures IsM3U(lines) ==> 1 <= |channels| <= OpenCount(lines, IsExtinf, 0)
  {
    if |lines| == 0 {
      return [];
    }
    var m3u := IsM3UFormat(lines);
    if m3u {
      channels := ParseM3U(lines);
      M3UChannelCount(lines);
    } else {
      channels := ParseTxt(csv(lines));
    }
  }

  /** `save_channels_to_txt`: the header, then one row per channel. */
  method SaveChannels(channels: seq<Channel>) returns (table: seq<seq<string>>)
    ensures |table| == |channels| + 1 && table[0] == OUTPUT_HEADER
    ensures forall j :: 0 <= j < |channels| ==> table[j + 1] == SaveRow(channels[j])
  {
    table := [OUTPUT_HEADER];
    for j := 0 to |channels|
      invariant |table| == j + 1 && table[0] == OUTPUT_HEADER
      invariant forall m :: 0 <= m < j ==> table[m + 1] == SaveRow(channels[m])
    {
      table := table + [SaveRow(channels[j])];
    }
  }

  /** The output name: the input name without its extension, plus ".txt". */
  function OutputName(filename: string): string
  {
    SplitExt(filename).0 + ".txt"
  }

  /** A plain name such as "cctv.m3u" becomes "cctv.txt". */
  lemma OutputNameOfPlain(base: string, ext: string)
    requires ext == ".m3u" || ext == ".txt"
    requires |base| > 0 && base[0] != '.' && '/' !in base
    ensures OutputName(base + ext) == base + ".txt"
  {
    assert ext[1..] == "m3u" || ext[1..] == "txt";
    SplitExtPlain(base, ext);
  }

  /** The body of `main`'s loop for one directory entry: `None` when the file is skipped
      (not a playlist or table by name, or no channel found), otherwise the output name
      and the table written. */
  method ConvertFile(filename: string, lines: seq<string>, csv: seq<string> -> seq<seq<string>>)
    returns (out: Option<(string, seq<seq<string>>)>)
    ensures out.None? <==>
      !(EndsWith(filename, ".m3u") || EndsWith(filename, ".txt")) || FileChannels(lines, csv) == []
    ensures out.Some? ==>
      out.value.0 == OutputName(filename) &&
      |out.value.1| == |FileChannels(lines, csv)| + 1 && out.value.1[0] == OUTPUT_HEADER
    ensures out.Some? ==> forall j :: 0 <= j < |FileChannels(lines, csv)| ==>
      out.value.1[j + 1] == SaveRow(FileChannels(lines, csv)[j])
  {
    if !(EndsWith(filename, ".m3u") || EndsWith(filename, ".txt")) {
      return None;
    }
    var channels := ProcessFile(lines, csv);
    if |channels| == 0 {
      return None;
    }
    var table := SaveChannels(channels);
    return Some((OutputName(filename), table));
  }
}
