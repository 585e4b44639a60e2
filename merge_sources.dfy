/** The local-source merge of scripts/3_merge_local_sources.py: every playlist (M3U) or
    nine-column table (TXT) of a directory is read into channels, each channel is tagged
    with its file, channels are de-duplicated by address, and the survivors are written
    as a playlist, a table and a log of the skipped duplicates. Decoding and directory
    listing are outside the model: a directory is the list of its files' names and lines,
    in listing order. */
module MergeSources {
  import opened Common
  import opened Text
  import M3uToTxt

  /** A channel: the dictionary from column name to text. */
  type Channel = map<string, string>

  const NAME: string := "频道名"
  const URL: string := "地址"
  const TVG_ID: string := "tvg-id"
  const TVG_NAME: string := "tvg-name"
  const COUNTRY: string := "国家分组"
  const LANGUAGE: string := "语言分组"
  const LOGO: string := "图标"
  const GROUP: string := "原分组"
  const RESOLUTION: string := "分辨率"
  const SOURCE: string := "来源文件"
  const DUPLICATE: string := "重复URL"

  /** The columns of the merged table, in order. */
  const CSV_COLUMNS: seq<string> := [NAME, URL, TVG_ID, TVG_NAME, COUNTRY, LANGUAGE, LOGO,
    GROUP, RESOLUTION, SOURCE]

  /** A channel with the nine columns both readers fill, in the table's column order
      (without the source file). */
  function MakeChannel(v: seq<string>): Channel
    requires |v| == 9
  {
    map[NAME := v[0], URL := v[1], TVG_ID := v[2], TVG_NAME := v[3], COUNTRY := v[4],
        LANGUAGE := v[5], LOGO := v[6], GROUP := v[7], RESOLUTION := v[8]]
  }

  // ---------------------------------------------------------------- attributes

  /** A character `\w` matches: ASCII letters and digits, the underscore, and (as an
      approximation of Unicode word characters) every non-ASCII character. */
  predicate IsWordChar(c: char)
  {
    'a' <= c <= 'z' || 'A' <= c <= 'Z' || '0' <= c <= '9' || c == '_' || c as int >= 128
  }

  /** A character of an attribute name as playlists write them: a word character or a
      hyphen. */
  predicate IsAttrNameChar(c: char)
  {
    IsWordChar(c) || c == '-'
  }

  /** One `name="value"` pair. */
  datatype Attr = Attr(name: string, value: string)

  /** The length of the longest prefix of `s` made of name characters. */
  function NameRun(s: string, nameChar: char -> bool): (n: nat)
    ensures n <= |s|
  {
    if |s| > 0 && nameChar(s[0]) then 1 + NameRun(s[1..], nameChar) else 0
  }

  /** The name run is the longest prefix of name characters: each of its characters is
      one, and the character after it is not. */
  lemma {:induction false} NameRunLongest(s: string, nameChar: char -> bool)
    ensures forall k :: 0 <= k < NameRun(s, nameChar) ==> nameChar(s[k])
    ensures NameRun(s, nameChar) < |s| ==> !nameChar(s[NameRun(s, nameChar)])
    decreases |s|
  {
    if |s| > 0 && nameChar(s[0]) {
      NameRunLongest(s[1..], nameChar);
      forall k | 0 <= k < NameRun(s, nameChar) ensures nameChar(s[k]) {
        if k > 0 {
          assert s[k] == s[1..][k - 1];
        }
      }
    }
  }

  /** The pattern `name="value"` matched at the start of `s`, where a name is a
      non-empty run of `nameChar` characters and a value holds no quote: the pair and
      the length of the match. Since '=' is never a name character, the greedy name
      run is the only candidate. */
  function MatchAt(s: string, nameChar: char -> bool): (m: Option<(Attr, nat)>)
    ensures m.Some? ==> 0 < m.value.1 <= |s|
  {
    MatchWith(s, NameRun(s, nameChar))
  }

  /** The rest of the pattern once the name is known to span the first `n` characters:
      `="`, a quote-free value and the closing quote. */
  function MatchWith(s: string, n: nat): (m: Option<(Attr, nat)>)
    requires n <= |s|
    ensures m.Some? ==> 0 < m.value.1 <= |s|
  {
    if n >= 1 && n + 2 <= |s| && s[n] == '=' && s[n + 1] == '"' then
      match IndexOf(s[n + 2..], '"')
      case None => None
      case Some(k) => Some((Attr(s[..n], s[n + 2..n + 2 + k]), n + 3 + k))
    else None
  }

  /** The left-to-right scan that both `re.findall` and `re.sub` make with that
      pattern: the pairs found, and the text left once every match is removed. */
  function Scan(s: string, nameChar: char -> bool): (r: (seq<Attr>, string))
    decreases |s|
  {
    if |s| == 0 then ([], [])
    else match MatchAt(s, nameChar)
      case Some((a, len)) =>
        var rest := Scan(s[len..], nameChar);
        ([a] + rest.0, rest.1)
      case None =>
        var rest := Scan(s[1..], nameChar);
        (rest.0, [s[0]] + rest.1)
  }

  /** `dict(pairs).get(key, "")`: the value of the last pair named `key`. */
  function Lookup(attrs: seq<Attr>, key: string): string
  {
    if |attrs| == 0 then ""
    else if attrs[|attrs| - 1].name == key then attrs[|attrs| - 1].value
    else Lookup(attrs[..|attrs| - 1], key)
  }

  /** A key that no pair carries reads as `""`. */
  lemma {:induction false} LookupMissing(attrs: seq<Attr>, key: string)
    requires forall k :: 0 <= k < |attrs| ==> attrs[k].name != key
    ensures Lookup(attrs, key) == ""
  {
    if |attrs| > 0 {
      LookupMissing(attrs[..|attrs| - 1], key);
    }
  }

  /** Every name the scan finds consists of name characters. */
  lemma {:induction false} ScanNames(s: string, nameChar: char -> bool)
    ensures forall k :: 0 <= k < |Scan(s, nameChar).0| ==>
      forall j :: 0 <= j < |Scan(s, nameChar).0[k].name| ==> nameChar(Scan(s, nameChar).0[k].name[j])
    decreases |s|
  {
    if |s| > 0 {
      match MatchAt(s, nameChar)
      case Some((a, len)) =>
        ScanNames(s[len..], nameChar);
        var n := NameRun(s, nameChar);
        NameRunLongest(s, nameChar);
        assert a.name == s[..n];
      case None =>
        ScanNames(s[1..], nameChar);
    }
  }

  /** With `\w` names, a hyphenated key such as "tvg-id" is never found: its lookup is
      `""` whatever the line holds. */
  lemma HyphenatedKeyLost(s: string, key: string)
    requires '-' in key
    ensures Lookup(Scan(s, IsWordChar).0, key) == ""
  {
    var attrs := Scan(s, IsWordChar).0;
    ScanNames(s, IsWordChar);
    var j :| 0 <= j < |key| && key[j] == '-';
    forall k | 0 <= k < |attrs| ensures attrs[k].name != key {
      assert j >= |attrs[k].name| || attrs[k].name[j] != key[j];
    }
    LookupMissing(attrs, key);
  }

  /** `name="value"`. */
  function Render(a: Attr): string
  {
    a.name + ['=', '"'] + a.value + ['"']
  }

  /** A pair the scan can read back: a non-empty name of name characters and a value
      without quotes. */
  predicate Readable(a: Attr, nameChar: char -> bool)
  {
    |a.name| >= 1 && '"' !in a.value && (forall j :: 0 <= j < |a.name| ==> nameChar(a.name[j]))
  }

  lemma {:induction false} NameRunPrefix(name: string, rest: string, nameChar: char -> bool)
    requires forall j :: 0 <= j < |name| ==> nameChar(name[j])
    requires |rest| > 0 && !nameChar(rest[0])
    ensures NameRun(name + rest, nameChar) == |name|
  {
    if |name| > 0 {
      assert (name + rest)[1..] == name[1..] + rest;
      NameRunPrefix(name[1..], rest, nameChar);
    }
  }

  /** Where the parts of a rendered pair sit in the text that starts with it. */
  lemma RenderParts(a: Attr, tail: string)
    ensures var s, n := Render(a) + tail, |a.name|;
      |s| == n + 3 + |a.value| + |tail| && s[..n] == a.name && s[n] == '=' && s[n + 1] == '"' &&
      s[n..] == ['=', '"'] + (a.value + ['"'] + tail) && s[n + 2..] == a.value + ['"'] + tail &&
      s[n + 2..n + 2 + |a.value|] == a.value
  {
    var s, n := Render(a) + tail, |a.name|;
    assert s == a.name + (['=', '"'] + (a.value + ['"'] + tail));
    assert s[..n] == a.name;
    assert s[n..] == ['=', '"'] + (a.value + ['"'] + tail);
    assert s[n + 2..] == s[n..][2..];
    assert s[n + 2..n + 2 + |a.value|] == s[n + 2..][..|a.value|];
  }

  /** The name run of a rendered pair stops at its '='. */
  lemma NameRunRendered(a: Attr, tail: string, nameChar: char -> bool)
    requires Readable(a, nameChar) && !nameChar('=')
    ensures NameRun(Render(a) + tail, nameChar) == |a.name|
  {
    var s, n := Render(a) + tail, |a.name|;
    RenderParts(a, tail);
    assert s == a.name + s[n..];
    NameRunPrefix(a.name, s[n..], nameChar);
  }

  /** The closing quote of a rendered pair is the first quote after its `="`. */
  lemma QuoteRendered(a: Attr, tail: string)
    requires '"' !in a.value
    ensures |a.name| + 2 <= |Render(a) + tail|
    ensures IndexOf((Render(a) + tail)[|a.name| + 2..], '"') == Some(|a.value|)
  {
    RenderParts(a, tail);
    IndexOfAfter(a.value, '"', tail);
  }

  /** A rendered pair is matched whole at the start of the text. */
  lemma MatchRendered(a: Attr, tail: string, nameChar: char -> bool)
    requires Readable(a, nameChar) && !nameChar('=')
    ensures MatchAt(Render(a) + tail, nameChar) == Some((a, |Render(a)|))
  {
    var s, n := Render(a) + tail, |a.name|;
    RenderParts(a, tail);
    NameRunRendered(a, tail, nameChar);
    QuoteRendered(a, tail);
    MatchWithPair(s, a.name, a.value);
    assert MatchAt(s, nameChar) == MatchWith(s, n);
    assert Attr(a.name, a.value) == a;
  }

  /** A name followed by `="`, a value and the closing quote is matched as that pair,
      spanning exactly those characters. */
  lemma MatchWithPair(s: string, name: string, value: string)
    requires |name| >= 1 && |name| + 3 + |value| <= |s|
    requires s[..|name|] == name && s[|name|] == '=' && s[|name| + 1] == '"'
    requires s[|name| + 2..|name| + 2 + |value|] == value
    requires IndexOf(s[|name| + 2..], '"') == Some(|value|)
    ensures MatchWith(s, |name|) == Some((Attr(name, value), |name| + 3 + |value|))
  {
  }

  /** `" ".join` of the rendered pairs. */
  function Rendered(attrs: seq<Attr>): string
  {
    if |attrs| == 0 then ""
    else if |attrs| == 1 then Render(attrs[0])
    else Render(attrs[0]) + [' '] + Rendered(attrs[1..])
  }

  lemma ScanRenderedHead(a: Attr, tail: string, nameChar: char -> bool)
    requires Readable(a, nameChar) && !nameChar('=')
    ensures Scan(Render(a) + tail, nameChar).0 == [a] + Scan(tail, nameChar).0
  {
    MatchRendered(a, tail, nameChar);
    assert (Render(a) + tail)[|Render(a)|..] == tail;
  }

  lemma ScanSpace(tail: string, nameChar: char -> bool)
    requires !nameChar(' ')
    ensures Scan([' '] + tail, nameChar).0 == Scan(tail, nameChar).0
  {
    assert NameRun([' '] + tail, nameChar) == 0;
    assert ([' '] + tail)[1..] == tail;
  }

  /** Scanning the written attribute list with hyphen-aware names gives the pairs back,
      in order. */
  lemma {:induction false} ScanRenderedRoundTrip(attrs: seq<Attr>)
    requires forall k :: 0 <= k < |attrs| ==> Readable(attrs[k], IsAttrNameChar)
    ensures Scan(Rendered(attrs), IsAttrNameChar).0 == attrs
  {
    if |attrs| == 1 {
      ScanRenderedHead(attrs[0], [], IsAttrNameChar);
      assert Render(attrs[0]) + [] == Render(attrs[0]);
    } else if |attrs| > 1 {
      var rest := Rendered(attrs[1..]);
      ScanRenderedRoundTrip(attrs[1..]);
      assert Rendered(attrs) == Render(attrs[0]) + ([' '] + rest);
      ScanRenderedHead(attrs[0], [' '] + rest, IsAttrNameChar);
      ScanSpace(rest, IsAttrNameChar);
    }
  }

  // ---------------------------------------------------------------- M3U files

  /** `str.replace(needle, "")`: every occurrence, left to right, removed. */
  function RemoveAll(s: string, needle: string): (r: string)
    requires |needle| > 0
    ensures |r| <= |s|
    decreases |s|
  {
    if |s| < |needle| then s
    else if s[..|needle|] == needle then RemoveAll(s[|needle|..], needle)
    else [s[0]] + RemoveAll(s[1..], needle)
  }

  /** The opening line without its `#EXTINF:-1` or `#EXTINF:` marker, stripped. */
  function Content(info: string): string
  {
    Strip(RemoveAll(RemoveAll(info, "#EXTINF:-1"), "#EXTINF:"))
  }

  /** The display name: in what is left once the pairs are removed, the stripped text
      after the first comma, or all of it without a comma. */
  function DisplayName(left: string): (name: string)
    ensures IsStripped(name)
    ensures ',' !in Strip(left) ==> name == Strip(left)
  {
    var temp := Strip(left);
    match IndexOf(temp, ',')
    case None => temp
    case Some(k) => Strip(temp[k + 1..])
  }

  /** The address of the channel opened at line `i`: the next line stripped, whatever
      it holds, or `""` at the end of the file. */
  function NextLine(lines: seq<string>, i: nat): (url: string)
    ensures i + 1 < |lines| ==> url == Strip(lines[i + 1])
    ensures i + 1 >= |lines| ==> url == ""
  {
    if i + 1 < |lines| then Strip(lines[i + 1]) else ""
  }

  /** The attribute names looked up for the columns after the address, in column order. */
  const LOOKUPS: seq<string> := ["tvg-id", "tvg-name", "tvg-country", "tvg-language",
    "tvg-logo", "group-title", "resolution"]

  /** The nine column values of the channel opened by `info`, with `url` its address. */
  function M3uFields(info: string, url: string, nameChar: char -> bool): (v: seq<string>)
    ensures |v| == 9 && v[1] == url
  {
    var scan := Scan(Content(info), nameChar);
    [DisplayName(scan.1), url] +
    seq(|LOOKUPS|, k requires 0 <= k < |LOOKUPS| => Lookup(scan.0, LOOKUPS[k]))
  }

  /** The channel that the opening line at `i` yields, for a given name class. */
  function M3uChannel(lines: seq<string>, i: nat, nameChar: char -> bool): Channel
    requires i < |lines|
  {
    MakeChannel(M3uFields(Strip(lines[i]), NextLine(lines, i), nameChar))
  }

  /** The channel opened at each line index, for a given name class. */
  function ChannelMaker(lines: seq<string>, nameChar: char -> bool): nat -> Channel
  {
    (j: nat) => if j < |lines| then M3uChannel(lines, j, nameChar) else map[]
  }

  /** The channels read from line `i` on: an opening line yields a channel and the
      reader resumes two lines later; any other line is passed over. */
  function M3uFrom(lines: seq<string>, i: nat, nameChar: char -> bool): seq<Channel>
  {
    M3uToTxt.ChannelsAt(M3uToTxt.Openings(lines, M3uToTxt.IsExtinf, i), ChannelMaker(lines, nameChar))
  }

  /** The channels of a playlist file as the reader is written: names are `\w+`. */
  function M3uAsWritten(lines: seq<string>): (chs: seq<Channel>)
    ensures |chs| == |M3uChannels(lines)|
    ensures forall k :: 0 <= k < |chs| ==>
      URL in chs[k] && URL in M3uChannels(lines)[k] && chs[k][URL] == M3uChannels(lines)[k][URL]
  {
    M3uFromUrls(lines, IsWordChar);
    M3uFromUrls(lines, IsAttrNameChar);
    M3uFrom(lines, 0, IsWordChar)
  }

  /** Whatever the name class, channel `k` is the `k`-th taken opening line's, and its
      address is the line after that one. */
  lemma M3uFromUrls(lines: seq<string>, nameChar: char -> bool)
    ensures |M3uFrom(lines, 0, nameChar)| == |M3uToTxt.Openings(lines, M3uToTxt.IsExtinf, 0)|
    ensures forall k :: 0 <= k < |M3uFrom(lines, 0, nameChar)| ==>
      URL in M3uFrom(lines, 0, nameChar)[k] &&
      M3uFrom(lines, 0, nameChar)[k][URL] == NextLine(lines, M3uToTxt.Openings(lines, M3uToTxt.IsExtinf, 0)[k])
  {
    var js := M3uToTxt.Openings(lines, M3uToTxt.IsExtinf, 0);
    var chs := M3uFrom(lines, 0, nameChar);
    forall k | 0 <= k < |js|
      ensures URL in chs[k] && chs[k][URL] == NextLine(lines, js[k])
    {
      assert chs[k] == ChannelMaker(lines, nameChar)(js[k]);
      MakeChannelUrl(M3uFields(Strip(lines[js[k]]), NextLine(lines, js[k]), nameChar));
    }
  }

  /** The channels of a playlist file with hyphenated attribute names read whole. */
  function M3uChannels(lines: seq<string>): seq<Channel>
  {
    M3uFrom(lines, 0, IsAttrNameChar)
  }

  /** One step of the reader: an opening line yields its channel and reading resumes two
      lines later; any other line is passed over; past the end nothing is found. */
  lemma M3uFromStep(lines: seq<string>, i: nat, nameChar: char -> bool)
    ensures i >= |lines| ==> M3uFrom(lines, i, nameChar) == []
    ensures i < |lines| && M3uToTxt.IsExtinf(lines[i]) ==>
      M3uFrom(lines, i, nameChar) == [M3uChannel(lines, i, nameChar)] + M3uFrom(lines, i + 2, nameChar)
    ensures i < |lines| && !M3uToTxt.IsExtinf(lines[i]) ==>
      M3uFrom(lines, i, nameChar) == M3uFrom(lines, i + 1, nameChar)
  {
    if i < |lines| {
      M3uToTxt.OpeningsChannels(lines, M3uToTxt.IsExtinf, i, ChannelMaker(lines, nameChar));
      if M3uToTxt.IsExtinf(lines[i]) {
        assert ChannelMaker(lines, nameChar)(i) == M3uChannel(lines, i, nameChar);
      }
    }
  }

  lemma ReadStep(lines: seq<string>, i: nat, nameChar: char -> bool, found: seq<Channel>)
    requires i < |lines| && M3uToTxt.IsExtinf(lines[i])
    ensures found + [M3uChannel(lines, i, nameChar)] + M3uFrom(lines, i + 2, nameChar) ==
      found + M3uFrom(lines, i, nameChar)
  {
    M3uFromStep(lines, i, nameChar);
    MoveHead(found, M3uChannel(lines, i, nameChar), M3uFrom(lines, i + 2, nameChar), M3uFrom(lines, i, nameChar));
  }

  /** `read_m3u_file` from the decoded lines on, with hyphen-aware attribute names. */
  method ReadM3u(lines: seq<string>) returns (channels: seq<Channel>)
    ensures channels == M3uChannels(lines)
  {
    channels := [];
    var i := 0;
    while i < |lines|
      invariant i <= |lines| + 1
      invariant channels + M3uFrom(lines, i, IsAttrNameChar) == M3uFrom(lines, 0, IsAttrNameChar)
      decreases |lines| - i
    {
      if M3uToTxt.IsExtinf(lines[i]) {
        ReadStep(lines, i, IsAttrNameChar, channels);
        channels := channels + [M3uChannel(lines, i, IsAttrNameChar)];
        i := i + 2;
      } else {
        M3uFromStep(lines, i, IsAttrNameChar);
        i := i + 1;
      }
    }
    M3uFromStep(lines, i, IsAttrNameChar);
  }

  /** Channel `k` of a playlist is the one its `k`-th taken opening line yields, and
      its address is the stripped line after that one, whatever it holds. */
  lemma M3uChannelsAt(lines: seq<string>)
    ensures |M3uChannels(lines)| == |M3uToTxt.Openings(lines, M3uToTxt.IsExtinf, 0)|
    ensures forall k :: 0 <= k < |M3uChannels(lines)| ==>
      var j := M3uToTxt.Openings(lines, M3uToTxt.IsExtinf, 0)[k];
      M3uChannels(lines)[k] == M3uChannel(lines, j, IsAttrNameChar) &&
      URL in M3uChannels(lines)[k] && M3uChannels(lines)[k][URL] == NextLine(lines, j)
  {
    var js := M3uToTxt.Openings(lines, M3uToTxt.IsExtinf, 0);
    forall k | 0 <= k < |js|
      ensures M3uChannels(lines)[k] == M3uChannel(lines, js[k], IsAttrNameChar)
      ensures URL in M3uChannels(lines)[k] && M3uChannels(lines)[k][URL] == NextLine(lines, js[k])
    {
      assert M3uChannels(lines)[k] == ChannelMaker(lines, IsAttrNameChar)(js[k]);
      MakeChannelUrl(M3uFields(Strip(lines[js[k]]), NextLine(lines, js[k]), IsAttrNameChar));
    }
  }

  lemma MakeChannelUrl(v: seq<string>)
    requires |v| == 9
    ensures URL in MakeChannel(v) && MakeChannel(v)[URL] == v[1]
  {
  }

  lemma MakeChannelTvgId(v: seq<string>)
    requires |v| == 9
    ensures TVG_ID in MakeChannel(v) && MakeChannel(v)[TVG_ID] == v[2]
  {
    assert |TVG_ID| == 6 && |TVG_NAME| == 8;
    assert |COUNTRY| == |LANGUAGE| == 4 && |LOGO| == 2 && |GROUP| == |RESOLUTION| == 3;
  }

  /** As written, an opening line never fills the tvg-id field. */
  lemma AsWrittenFieldTvgIdEmpty(info: string, url: string)
    ensures M3uFields(info, url, IsWordChar)[2] == ""
  {
    var content := Content(info);
    HyphenatedKeyLost(content, "tvg-id");
    assert M3uFields(info, url, IsWordChar)[2] == Lookup(Scan(content, IsWordChar).0, LOOKUPS[0]);
  }

  /** As written, an opening line never fills the tvg-id column. */
  lemma AsWrittenLineTvgIdEmpty(lines: seq<string>, j: nat)
    requires j < |lines|
    ensures TVG_ID in M3uChannel(lines, j, IsWordChar) && M3uChannel(lines, j, IsWordChar)[TVG_ID] == ""
  {
    AsWrittenFieldTvgIdEmpty(Strip(lines[j]), NextLine(lines, j));
    MakeChannelTvgId(M3uFields(Strip(lines[j]), NextLine(lines, j), IsWordChar));
  }

  /** Channel `k` read from a playlist is the channel of its `k`-th taken opening line. */
  lemma M3uFromAt(lines: seq<string>, nameChar: char -> bool, k: nat)
    requires k < |M3uFrom(lines, 0, nameChar)|
    ensures var js := M3uToTxt.Openings(lines, M3uToTxt.IsExtinf, 0);
      k < |js| && js[k] < |lines| && M3uFrom(lines, 0, nameChar)[k] == M3uChannel(lines, js[k], nameChar)
  {
    var js := M3uToTxt.Openings(lines, M3uToTxt.IsExtinf, 0);
    assert M3uFrom(lines, 0, nameChar)[k] == ChannelMaker(lines, nameChar)(js[k]);
  }

  /** As written, the tvg-id column of every channel read from a playlist is empty. */
  lemma AsWrittenTvgIdEmpty(lines: seq<string>)
    ensures forall k :: 0 <= k < |M3uAsWritten(lines)| ==>
      TVG_ID in M3uAsWritten(lines)[k] && M3uAsWritten(lines)[k][TVG_ID] == ""
  {
    forall k | 0 <= k < |M3uAsWritten(lines)|
      ensures TVG_ID in M3uAsWritten(lines)[k] && M3uAsWritten(lines)[k][TVG_ID] == ""
    {
      M3uFromAt(lines, IsWordChar, k);
      AsWrittenLineTvgIdEmpty(lines, M3uToTxt.Openings(lines, M3uToTxt.IsExtinf, 0)[k]);
    }
  }

  // ---------------------------------------------------------------- TXT files

  /** The address schemes a table row must use. */
  predicate StreamUrl(url: string)
  {
    StartsWith(url, "http://") || StartsWith(url, "https://") || StartsWith(url, "rtsp://")
  }

  /** The channel of nine stripped fields, in the table's field order: name, address,
      logo, tvg-name, country, language, group, tvg-id, resolution. */
  function TxtChannelOf(f: seq<string>): Channel
    requires |f| == 9
  {
    MakeChannel([f[0], f[1], f[7], f[3], f[4], f[5], f[2], f[6], f[8]])
  }

  /** The nine stripped leading fields of a table line, or `None` when the line is
      blank, a genre marker, or shorter than nine comma-separated fields. */
  function TxtFields(line: string): (f: Option<seq<string>>)
    ensures f.Some? ==> |f.value| == 9 && forall k :: 0 <= k < 9 ==> IsStripped(f.value[k])
  {
    var s := Strip(line);
    if s == "" || Contains(s, "#genre#") then None
    else
      var parts := Split(s, ',');
      if |parts| < 9 then None
      else
        Some(StripFirst(parts, 9))
  }

  /** One line of a table: skipped (`None`) when blank, a genre marker, shorter than
      nine comma-separated fields, or not a stream address; otherwise its channel. */
  function TxtLine(line: string): (ch: Option<Channel>)
    ensures ch.Some? ==> URL in ch.value && StreamUrl(ch.value[URL])
    ensures ch.Some? <==> TxtFields(line).Some? && StreamUrl(TxtFields(line).value[1])
  {
    match TxtFields(line)
    case None => None
    case Some(f) =>
      if !StreamUrl(f[1]) then None
      else
        MakeChannelUrl([f[0], f[1], f[7], f[3], f[4], f[5], f[2], f[6], f[8]]);
        Some(TxtChannelOf(f))
  }

  /** The channels of a table, in line order. */
  function TxtChannels(lines: seq<string>): (chs: seq<Channel>)
    ensures |chs| <= |lines|
  {
    if |lines| == 0 then []
    else
      var last := TxtLine(lines[|lines| - 1]);
      TxtChannels(lines[..|lines| - 1]) + (if last.Some? then [last.value] else [])
  }

  /** `read_txt_9_column` from the decoded lines on. */
  method ReadTxt9(lines: seq<string>) returns (channels: seq<Channel>)
    ensures channels == TxtChannels(lines)
  {
    channels := [];
    for i := 0 to |lines|
      invariant channels == TxtChannels(lines[..i])
    {
      assert lines[..i + 1][..i] == lines[..i];
      var ch := TxtLine(lines[i]);
      if ch.Some? {
        channels := channels + [ch.value];
      }
    }
    assert lines[..|lines|] == lines;
  }

  /** Every channel read from a table has a stream address. */
  lemma {:induction false} TxtChannelsStream(lines: seq<string>)
    ensures forall k :: 0 <= k < |TxtChannels(lines)| ==>
      URL in TxtChannels(lines)[k] && StreamUrl(TxtChannels(lines)[k][URL])
  {
    if |lines| > 0 {
      TxtChannelsStream(lines[..|lines| - 1]);
    }
  }

  /** Nine stripped, comma-free fields joined by commas are read back as themselves
      when the joined line is stripped and holds no genre marker. */
  lemma TxtFieldsRoundTrip(f: seq<string>)
    requires |f| == 9
    requires forall k :: 0 <= k < 9 ==> ',' !in f[k] && IsStripped(f[k])
    requires f[1] != ""
    requires IsStripped(Join(f, ',')) && !Contains(Join(f, ','), "#genre#")
    ensures TxtFields(Join(f, ',')) == Some(f)
  {
    var s := Join(f, ',');
    assert Strip(s) == s by { StripStripped(s); }
    assert Split(s, ',') == f by { SplitJoin(f, ','); }
    assert s != "" by {
      JoinLength(f, ',');
      assert |s| >= |f[1]|;
    }
    assert StripFirst(f, 9) == f by {
      StripFirstStripped(f, 9);
      assert f[..9] == f;
    }
  }

  /** A row written as nine stripped, comma-free fields with a stream address is read
      back as the channel of those fields. */
  lemma TxtLineRoundTrip(f: seq<string>)
    requires |f| == 9
    requires forall k :: 0 <= k < 9 ==> ',' !in f[k] && IsStripped(f[k])
    requires StreamUrl(f[1])
    requires IsStripped(Join(f, ',')) && !Contains(Join(f, ','), "#genre#")
    ensures TxtLine(Join(f, ',')) == Some(TxtChannelOf(f))
  {
    TxtFieldsRoundTrip(f);
  }

  /** A joined string is at least as long as each part. */
  lemma {:induction false} JoinLength(parts: seq<string>, sep: char)
    ensures forall k :: 0 <= k < |parts| ==> |Join(parts, sep)| >= |parts[k]|
  {
    if |parts| > 1 {
      JoinLength(parts[1..], sep);
      forall k | 1 <= k < |parts| ensures |Join(parts, sep)| >= |parts[k]| {
        assert parts[1..][k - 1] == parts[k];
      }
    }
  }

  // ---------------------------------------------------------------- directories

  /** A file of the directory: its name and its decoded lines. */
  datatype SourceFile = SourceFile(name: string, lines: seq<string>)

  /** The channels of one file when merging playlists (`isM3u`) or tables, each tagged
      with the file's name; files of the other kind contribute nothing. */
  function FileChannels(file: SourceFile, isM3u: bool): seq<Channel>
  {
    if isM3u && EndsWith(file.name, ".m3u") then Tagged(M3uChannels(file.lines), file.name)
    else if !isM3u && EndsWith(file.name, ".txt") then Tagged(TxtChannels(file.lines), file.name)
    else []
  }

  /** Every channel, tagged with its source file. */
  function Tagged(chs: seq<Channel>, name: string): (r: seq<Channel>)
    ensures |r| == |chs|
    ensures forall k :: 0 <= k < |chs| ==> r[k] == chs[k][SOURCE := name]
  {
    seq(|chs|, k requires 0 <= k < |chs| => chs[k][SOURCE := name])
  }

  /** The channels of a directory, file by file in listing order. */
  function Merged(files: seq<SourceFile>, isM3u: bool): seq<Channel>
  {
    if |files| == 0 then []
    else Merged(files[..|files| - 1], isM3u) + FileChannels(files[|files| - 1], isM3u)
  }

  lemma MergedStep(files: seq<SourceFile>, i: nat, isM3u: bool)
    requires i < |files|
    ensures Merged(files[..i + 1], isM3u) == Merged(files[..i], isM3u) + FileChannels(files[i], isM3u)
  {
    assert files[..i + 1][..i] == files[..i];
  }

  /** The tagging loop `for ch in chs: ch["来源文件"] = file`. */
  method Tag(chs: seq<Channel>, name: string) returns (tagged: seq<Channel>)
    ensures tagged == Tagged(chs, name)
  {
    tagged := [];
    for k := 0 to |chs|
      invariant |tagged| == k
      invariant forall m :: 0 <= m < k ==> tagged[m] == chs[m][SOURCE := name]
    {
      tagged := tagged + [chs[k][SOURCE := name]];
    }
  }

  /** `merge_all_sources`: a missing directory gives no channel. */
  method MergeAllSources(dir: Option<seq<SourceFile>>, isM3u: bool) returns (all: seq<Channel>)
    ensures dir.None? ==> all == []
    ensures dir.Some? ==> all == Merged(dir.value, isM3u)
  {
    if dir.None? {
      return [];
    }
    var files := dir.value;
    all := [];
    for i := 0 to |files|
      invariant all == Merged(files[..i], isM3u)
    {
      MergedStep(files, i, isM3u);
      var chs: seq<Channel>;
      if isM3u && EndsWith(files[i].name, ".m3u") {
        chs := ReadM3u(files[i].lines);
      } else if !isM3u && EndsWith(files[i].name, ".txt") {
        chs := ReadTxt9(files[i].lines);
      } else {
        continue;
      }
      var tagged := Tag(chs, files[i].name);
      all := all + tagged;
    }
    assert files[..|files|] == files;
  }

  /** `name` is the name of a file of the directory with the extension being merged. */
  predicate FromFile(files: seq<SourceFile>, name: string, isM3u: bool)
  {
    exists f :: f in files && f.name == name && EndsWith(name, if isM3u then ".m3u" else ".txt")
  }

  /** Every merged channel names, as its source, a file of the right kind in the
      directory. */
  lemma {:induction false} MergedSources(files: seq<SourceFile>, isM3u: bool)
    ensures forall k :: 0 <= k < |Merged(files, isM3u)| ==>
      SOURCE in Merged(files, isM3u)[k] && FromFile(files, Merged(files, isM3u)[k][SOURCE], isM3u)
  {
    if |files| > 0 {
      var init := files[..|files| - 1];
      var last := files[|files| - 1];
      MergedSources(init, isM3u);
      var m := Merged(files, isM3u);
      forall k | 0 <= k < |m|
        ensures SOURCE in m[k] && FromFile(files, m[k][SOURCE], isM3u)
      {
        if k < |Merged(init, isM3u)| {
          var f :| f in init && f.name == m[k][SOURCE] && EndsWith(f.name, if isM3u then ".m3u" else ".txt");
          assert f in files;
        } else {
          assert last in files;
        }
      }
    }
  }

  // ---------------------------------------------------------------- output

  /** The de-duplication key: the stripped address (`""` when missing). */
  function UrlKey(ch: Channel): string
  {
    Strip(GetOr(ch, URL, ""))
  }

  /** The keys of a list, as the `seen` set holds them after the list is visited. */
  function Keys<T>(xs: seq<T>, key: T -> string): set<string>
  {
    if |xs| == 0 then {} else Keys(xs[..|xs| - 1], key) + {key(xs[|xs| - 1])}
  }

  lemma KeysSnoc<T>(xs: seq<T>, x: T, key: T -> string)
    ensures Keys(xs + [x], key) == Keys(xs, key) + {key(x)}
  {
    assert (xs + [x])[..|xs|] == xs;
  }

  /** A key is seen exactly when some element carries it. */
  lemma {:induction false} KeysIn<T>(xs: seq<T>, key: T -> string, u: string)
    ensures u in Keys(xs, key) <==> exists k :: 0 <= k < |xs| && key(xs[k]) == u
  {
    if |xs| > 0 {
      var init := xs[..|xs| - 1];
      KeysIn(init, key, u);
      if u in Keys(init, key) {
        var k :| 0 <= k < |init| && key(init[k]) == u;
        assert xs[k] == init[k];
      }
      if exists k :: 0 <= k < |xs| && key(xs[k]) == u {
        var k :| 0 <= k < |xs| && key(xs[k]) == u;
        if k < |init| {
          assert xs[k] == init[k];
        }
      }
    }
  }

  /** The first element of each key, kept in order, and every later element whose key
      was seen before, in order. */
  function FirstByKey<T>(xs: seq<T>, key: T -> string): (r: (seq<T>, seq<T>))
    ensures |r.0| + |r.1| == |xs|
  {
    if |xs| == 0 then ([], [])
    else
      var init := xs[..|xs| - 1];
      var last := xs[|xs| - 1];
      var d := FirstByKey(init, key);
      if key(last) in Keys(init, key) then (d.0, d.1 + [last]) else (d.0 + [last], d.1)
  }

  /** De-duplication loses and invents nothing: the kept and the skipped elements
      together are the input. */
  lemma {:induction false} FirstByKeyPartition<T>(xs: seq<T>, key: T -> string)
    ensures multiset(FirstByKey(xs, key).0) + multiset(FirstByKey(xs, key).1) == multiset(xs)
  {
    if |xs| > 0 {
      var init := xs[..|xs| - 1];
      FirstByKeyPartition(init, key);
      assert xs == init + [xs[|xs| - 1]];
    }
  }

  /** The kept elements carry every key of the input exactly once, and an element is
      kept when no earlier element has its key; every skipped element repeats a key of
      a kept one. */
  lemma {:induction false} FirstByKeyKeeps<T>(xs: seq<T>, key: T -> string)
    ensures Keys(FirstByKey(xs, key).0, key) == Keys(xs, key)
    ensures forall a, b :: 0 <= a < b < |FirstByKey(xs, key).0| ==>
      key(FirstByKey(xs, key).0[a]) != key(FirstByKey(xs, key).0[b])
    ensures forall k :: 0 <= k < |xs| && (forall j :: 0 <= j < k ==> key(xs[j]) != key(xs[k])) ==>
      xs[k] in FirstByKey(xs, key).0
    ensures forall x :: x in FirstByKey(xs, key).1 ==> key(x) in Keys(FirstByKey(xs, key).0, key)
  {
    if |xs| > 0 {
      var init := xs[..|xs| - 1];
      var last := xs[|xs| - 1];
      FirstByKeyKeeps(init, key);
      var v := FirstByKey(init, key).0;
      assert xs == init + [last];
      KeysSnoc(init, last, key);
      if key(last) !in Keys(init, key) {
        KeysSnoc(v, last, key);
        forall a, b | 0 <= a < b < |v| + 1
          ensures key((v + [last])[a]) != key((v + [last])[b])
        {
          if b == |v| {
            assert (v + [last])[a] == v[a];
            KeysIn(v, key, key(v[a]));
          } else {
            assert (v + [last])[a] == v[a] && (v + [last])[b] == v[b];
          }
        }
      }
      forall k | 0 <= k < |xs| && (forall j :: 0 <= j < k ==> key(xs[j]) != key(xs[k]))
        ensures xs[k] in FirstByKey(xs, key).0
      {
        if k < |init| {
          assert xs[k] == init[k];
          assert forall j :: 0 <= j < k ==> init[j] == xs[j];
        } else {
          forall j | 0 <= j < |init| ensures key(init[j]) != key(last) {
            assert init[j] == xs[j];
          }
          KeysIn(init, key, key(last));
        }
      }
    }
  }

  /** One line of the skip log: name, address and reason. */
  datatype Skip = Skip(name: string, url: string, reason: string)

  /** The log entry of a channel whose address was seen before. */
  function SkipOf(ch: Channel): Skip
  {
    Skip(GetOr(ch, NAME, ""), UrlKey(ch), DUPLICATE)
  }

  /** The log entries of the duplicates, in order. */
  function Skips(dups: seq<Channel>): (r: seq<Skip>)
    ensures |r| == |dups|
    ensures forall k :: 0 <= k < |dups| ==> r[k] == SkipOf(dups[k]) && r[k].reason == DUPLICATE
  {
    seq(|dups|, k requires 0 <= k < |dups| => SkipOf(dups[k]))
  }

  /** The de-duplication loop of `write_output_files`: the first element of each key is
      kept, every later one is logged. Channels are keyed by `UrlKey` and logged by
      `SkipOf`. */
  method Deduplicate<T>(chs: seq<T>, key: T -> string, skipOf: T -> Skip)
    returns (valid: seq<T>, skipped: seq<Skip>)
    ensures valid == FirstByKey(chs, key).0
    ensures |skipped| == |FirstByKey(chs, key).1|
    ensures forall k :: 0 <= k < |skipped| ==> skipped[k] == skipOf(FirstByKey(chs, key).1[k])
  {
    var seen: set<string> := {};
    ghost var dups: seq<T> := [];
    valid, skipped := [], [];
    for i := 0 to |chs|
      invariant seen == Keys(chs[..i], key)
      invariant valid == FirstByKey(chs[..i], key).0 && dups == FirstByKey(chs[..i], key).1
      invariant |skipped| == |dups| && forall k :: 0 <= k < |dups| ==> skipped[k] == skipOf(dups[k])
    {
      assert chs[..i + 1][..i] == chs[..i];
      KeysSnoc(chs[..i], chs[i], key);
      var url := key(chs[i]);
      if url in seen {
        skipped := skipped + [skipOf(chs[i])];
        dups := dups + [chs[i]];
        continue;
      }
      seen := seen + {url};
      valid := valid + [chs[i]];
    }
    assert chs[..|chs|] == chs;
  }

  /** The attributes of a channel's `#EXTINF` line: tvg-id, tvg-name, tvg-logo (from
      the logo column), group-title (from the group column) and resolution, each only
      when non-empty, in that order. */
  function ExtinfAttrs(ch: Channel): (attrs: seq<Attr>)
    ensures forall k :: 0 <= k < |attrs| ==> attrs[k].value != ""
  {
    (if GetOr(ch, TVG_ID, "") != "" then [Attr("tvg-id", ch[TVG_ID])] else []) +
    (if GetOr(ch, TVG_NAME, "") != "" then [Attr("tvg-name", ch[TVG_NAME])] else []) +
    (if GetOr(ch, LOGO, "") != "" then [Attr("tvg-logo", ch[LOGO])] else []) +
    (if GetOr(ch, GROUP, "") != "" then [Attr("group-title", ch[GROUP])] else []) +
    (if GetOr(ch, RESOLUTION, "") != "" then [Attr("resolution", ch[RESOLUTION])] else [])
  }

  /** The `#EXTINF` line written for a channel. */
  function ExtinfLine(ch: Channel): string
  {
    "#EXTINF:-1 " + Rendered(ExtinfAttrs(ch)) + "," + GetOr(ch, NAME, "")
  }

  /** The attribute names written are hyphen-aware names. */
  lemma ExtinfAttrsReadable(ch: Channel)
    requires forall k :: k in ch ==> '"' !in ch[k]
    ensures forall k :: 0 <= k < |ExtinfAttrs(ch)| ==> Readable(ExtinfAttrs(ch)[k], IsAttrNameChar)
  {
  }

  /** What is written is what a hyphen-aware reader finds: the non-empty attributes, in
      the written order. */
  lemma ExtinfRoundTrip(ch: Channel)
    requires forall k :: k in ch ==> '"' !in ch[k]
    ensures Scan(Rendered(ExtinfAttrs(ch)), IsAttrNameChar).0 == ExtinfAttrs(ch)
  {
    ExtinfAttrsReadable(ch);
    ScanRenderedRoundTrip(ExtinfAttrs(ch));
  }

  /** The playlist written: one `#EXTM3U` header, then an `#EXTINF` line and the
      address line for each kept channel. */
  method WritePlaylist(valid: seq<Channel>) returns (out: seq<string>)
    ensures |out| == 1 + 2 * |valid| && out[0] == "#EXTM3U"
    ensures forall k :: 0 <= k < |valid| ==>
      out[1 + 2 * k] == ExtinfLine(valid[k]) && out[2 + 2 * k] == GetOr(valid[k], URL, "")
  {
    out := ["#EXTM3U"];
    for k := 0 to |valid|
      invariant |out| == 1 + 2 * k && out[0] == "#EXTM3U"
      invariant forall m :: 0 <= m < k ==>
        out[1 + 2 * m] == ExtinfLine(valid[m]) && out[2 + 2 * m] == GetOr(valid[m], URL, "")
    {
      out := out + [ExtinfLine(valid[k]), GetOr(valid[k], URL, "")];
    }
  }

  /** One row of the merged table: the columns in `CSV_COLUMNS` order. */
  function CsvRow(ch: Channel): (row: seq<string>)
    ensures |row| == |CSV_COLUMNS|
    ensures forall k :: 0 <= k < |CSV_COLUMNS| ==> row[k] == GetOr(ch, CSV_COLUMNS[k], "")
  {
    seq(|CSV_COLUMNS|, k requires 0 <= k < |CSV_COLUMNS| => GetOr(ch, CSV_COLUMNS[k], ""))
  }

  /** The skip log: a header, then one comma-joined line per skipped channel. */
  function SkipLog(skipped: seq<Skip>): (log: seq<string>)
    ensures |log| == |skipped| + 1 && log[0] == "频道名,地址,跳过原因"
    ensures forall k :: 0 <= k < |skipped| ==>
      log[k + 1] == skipped[k].name + "," + skipped[k].url + "," + skipped[k].reason
  {
    ["频道名,地址,跳过原因"] +
    seq(|skipped|, k requires 0 <= k < |skipped| =>
      skipped[k].name + "," + skipped[k].url + "," + skipped[k].reason)
  }

  /** What `write_output_files` writes. */
  datatype Output = Output(playlist: seq<string>, table: seq<seq<string>>, log: seq<string>)

  /** What `write_output_files` writes for `chs`: the playlist (`#EXTM3U`, then each
      kept channel's `#EXTINF` line and address) and the table (the column header, then
      one row per kept channel) of the first channel per stripped address, and the log of
      every later duplicate. */
  predicate Describes(out: Output, chs: seq<Channel>)
  {
    var valid := FirstByKey(chs, UrlKey).0;
    |out.playlist| == 1 + 2 * |valid| && out.playlist[0] == "#EXTM3U" &&
    (forall k :: 0 <= k < |valid| ==>
      out.playlist[1 + 2 * k] == ExtinfLine(valid[k]) && out.playlist[2 + 2 * k] == GetOr(valid[k], URL, "")) &&
    out.table == [CSV_COLUMNS] + seq(|valid|, k requires 0 <= k < |valid| => CsvRow(valid[k])) &&
    out.log == SkipLog(Skips(FirstByKey(chs, UrlKey).1))
  }

  /** `write_output_files`: the playlist of the first channel per address, the table of
      the same channels and the log of the rest. */
  method WriteOutputFiles(chs: seq<Channel>) returns (out: Output)
    ensures Describes(out, chs)
    ensures |out.table| - 1 + |out.log| - 1 == |chs|
  {
    var valid, skipped := Deduplicate(chs, UrlKey, SkipOf);
    assert skipped == Skips(FirstByKey(chs, UrlKey).1);
    var playlist := WritePlaylist(valid);
    var table := [CSV_COLUMNS] + seq(|valid|, k requires 0 <= k < |valid| => CsvRow(valid[k]));
    out := Output(playlist, table, SkipLog(skipped));
  }

  /** The main block for one directory: nothing is written when no channel was read. */
  method MergeStage(dir: Option<seq<SourceFile>>, isM3u: bool) returns (out: Option<Output>)
    ensures out.None? <==> dir.None? || Merged(dir.value, isM3u) == []
    ensures out.Some? ==> Describes(out.value, Merged(dir.value, isM3u))
  {
    var chs := MergeAllSources(dir, isM3u);
    if |chs| == 0 {
      return None;
    }
    var o := WriteOutputFiles(chs);
    return Some(o);
  }
}
