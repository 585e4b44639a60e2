/** The source-list reader of scripts/1_download_m3u.py: each line `url#name` of a list
    names a playlist to fetch and the file to save it as. The download itself is outside
    the model, and so is URL parsing: `pathOf` gives the path component of a URL. */
module Download {
  import opened Common
  import opened Text

  /** Every character of a stripped string comes from the string. */
  lemma StripWithin(s: string)
    ensures forall c :: c in Strip(s) ==> c in s
  {
    var l := TrimLeft(s);
    forall c | c in Strip(s) ensures c in s {
      var k :| 0 <= k < |Strip(s)| && Strip(s)[k] == c;
      assert Strip(s)[k] == l[k];
      assert l[k] == s[|s| - |l| + k];
    }
  }

  /** `os.path.basename` on a POSIX path: the text after the last '/'. */
  function BaseName(p: string): (b: string)
    ensures '/' !in b
    ensures |b| <= |p| && p[|p| - |b|..] == b
  {
    match LastIndexOf(p, '/')
    case None => p
    case Some(k) => p[k + 1..]
  }

  /** The extension of the saved file: the path's own extension, or ".m3u" when the
      path has none. */
  function Extension(path: string): (ext: string)
    ensures |ext| > 0 && ext[0] == '.'
  {
    var e := SplitExt(path).1;
    if e == "" then ".m3u" else e
  }

  /** `line.split("#", 1)` with both parts stripped: the address, and the name when
      the line has a '#'. */
  function SplitLine(s: string): (string, Option<string>)
  {
    match IndexOf(s, '#')
    case None => (Strip(s), None)
    case Some(i) => (Strip(s[..i]), Some(Strip(s[i + 1..])))
  }

  /** The file name: the given name with the extension when it is non-empty, else the
      path's last segment, else "downloaded_file" with the extension. */
  function FileName(base: Option<string>, path: string): string
  {
    if base.Some? && base.value != "" then base.value + Extension(path)
    else if BaseName(path) != "" then BaseName(path)
    else "downloaded_file" + Extension(path)
  }

  /** The lines `parse_url_line` rejects: blank after stripping, or a comment. */
  predicate Skipped(line: string)
  {
    Strip(line) == "" || StartsWith(Strip(line), "#")
  }

  /** `parse_url_line`: `(None, None)` for a blank or commented line; otherwise the
      address before the first '#' and the file name to save under. */
  function ParseUrlLine(line: string, pathOf: string -> string): (r: (Option<string>, Option<string>))
    ensures r.0.None? <==> r.1.None?
  {
    if Skipped(line) then (None, None)
    else
      var (url, base) := SplitLine(Strip(line));
      (Some(url), Some(FileName(base, pathOf(url))))
  }

  /** A blank line or a comment gives nothing; any other line gives an address that is
      non-empty, stripped and free of '#', and a non-empty file name. */
  lemma ParseUrlLineShape(line: string, pathOf: string -> string)
    ensures var r := ParseUrlLine(line, pathOf);
      r.0.None? <==> Skipped(line)
    ensures var r := ParseUrlLine(line, pathOf);
      r.0.Some? ==> r.0.value != "" && IsStripped(r.0.value) && '#' !in r.0.value && r.1.value != ""
  {
    var s := Strip(line);
    if !Skipped(line) {
      StripIdempotent(line);
      SplitLineShape(s);
    }
  }

  /** The address part of a stripped line that does not start with '#'. */
  lemma SplitLineShape(s: string)
    requires s != "" && IsStripped(s) && s[0] != '#'
    ensures var url := SplitLine(s).0; url != "" && IsStripped(url) && '#' !in url
  {
    match IndexOf(s, '#')
    case None =>
      StripStripped(s);
    case Some(i) =>
      assert i > 0;
      StripKeepsFirst(s[..i]);
      StripWithin(s[..i]);
      StripIdempotent(s[..i]);
  }

  /** A line written as `url#name`, with a stripped address free of '#' and a non-empty
      stripped name, is read back as that address and the name with the extension. */
  lemma ParseUrlLineRoundTrip(url: string, name: string, pathOf: string -> string)
    requires url != "" && IsStripped(url) && '#' !in url
    requires name != "" && IsStripped(name)
    ensures ParseUrlLine(url + "#" + name, pathOf) == (Some(url), Some(name + Extension(pathOf(url))))
  {
    var line := url + "#" + name;
    assert line == url + ['#'] + name;
    assert line[0] == url[0] && line[|line| - 1] == name[|name| - 1];
    StripStripped(line);
    assert !StartsWith(line, "#") by {
      assert line[0] == url[0] && url[0] != '#';
    }
    SplitLineAt(url, name);
  }

  lemma SplitLineAt(url: string, name: string)
    requires IsStripped(url) && '#' !in url && IsStripped(name)
    ensures SplitLine(url + "#" + name) == (url, Some(name))
  {
    var line := url + "#" + name;
    assert line == url + ['#'] + name;
    IndexOfAfter(url, '#', name);
    assert line[..|url|] == url;
    assert line[|url| + 1..] == name;
    StripStripped(url);
    StripStripped(name);
  }

  /** A line with an address and no name is saved under the path's last segment, or
      under "downloaded_file" with the extension when that segment is empty. */
  lemma ParseUrlLineNoName(url: string, pathOf: string -> string)
    requires url != "" && IsStripped(url) && '#' !in url
    ensures ParseUrlLine(url, pathOf).1 ==
      Some(if BaseName(pathOf(url)) != "" then BaseName(pathOf(url))
           else "downloaded_file" + Extension(pathOf(url)))
  {
    StripStripped(url);
    assert !StartsWith(url, "#") by {
      assert url[0] in url;
    }
  }

  /** The extension of a path `base + ext` with a plain base and a one-dot extension is
      that extension; a path without any dot gets ".m3u". */
  lemma ExtensionOf(base: string, ext: string)
    requires |base| > 0 && base[0] != '.' && '/' !in base
    ensures '.' !in base ==> Extension(base) == ".m3u"
    ensures |ext| > 0 && ext[0] == '.' && '.' !in ext[1..] && '/' !in ext ==> Extension(base + ext) == ext
  {
    if '.' !in base {
      assert LastIndexOf(base, '.').None?;
    }
    if |ext| > 0 && ext[0] == '.' && '.' !in ext[1..] && '/' !in ext {
      SplitExtPlain(base, ext);
    }
  }

  /** What one line queues: its (address, file name) pair when it yields an address. */
  function Pair(line: string, pathOf: string -> string): seq<(string, string)>
  {
    var r := ParseUrlLine(line, pathOf);
    if r.0.Some? && r.0.value != "" && r.1.Some? then [(r.0.value, r.1.value)] else []
  }

  /** The (address, file name) pairs `download_list` queues: one per line that yields
      an address, in line order. */
  function Queued(lines: seq<string>, pathOf: string -> string): (q: seq<(string, string)>)
    ensures |q| <= |lines|
  {
    if |lines| == 0 then []
    else Queued(lines[..|lines| - 1], pathOf) + Pair(lines[|lines| - 1], pathOf)
  }

  /** The reading loop of `download_list`. */
  method DownloadList(lines: seq<string>, pathOf: string -> string) returns (urls: seq<(string, string)>)
    ensures urls == Queued(lines, pathOf)
  {
    urls := [];
    for i := 0 to |lines|
      invariant urls == Queued(lines[..i], pathOf)
    {
      assert lines[..i + 1][..i] == lines[..i];
      var (url, filename) := ParseUrlLine(lines[i], pathOf);
      if url.Some? && url.value != "" && filename.Some? {
        urls := urls + [(url.value, filename.value)];
      }
    }
    assert lines[..|lines|] == lines;
  }

  /** A line is queued exactly when it is neither blank nor a comment. */
  predicate Listed(line: string)
  {
    !Skipped(line)
  }

  /** One line more queues one pair exactly when it is listed, and that pair's address
      is non-empty. */
  lemma QueuedStep(lines: seq<string>, pathOf: string -> string)
    requires |lines| > 0
    ensures var last := lines[|lines| - 1];
      |Queued(lines, pathOf)| == |Queued(lines[..|lines| - 1], pathOf)| + (if Listed(last) then 1 else 0)
    ensures forall k :: |Queued(lines[..|lines| - 1], pathOf)| <= k < |Queued(lines, pathOf)| ==>
      Queued(lines, pathOf)[k].0 != ""
    ensures Queued(lines, pathOf)[..|Queued(lines[..|lines| - 1], pathOf)|] == Queued(lines[..|lines| - 1], pathOf)
  {
    var last := lines[|lines| - 1];
    var init := Queued(lines[..|lines| - 1], pathOf);
    var added := Pair(last, pathOf);
    PairShape(last, pathOf);
    assert Queued(lines, pathOf) == init + added;
    assert (init + added)[..|init|] == init;
    var q: seq<(string, string)> := init + added;
    forall k | |init| <= k < |q| ensures q[k].0 != "" {
      assert q[k] == added[k - |init|];
    }
  }

  /** A line queues one pair exactly when it is listed, with a non-empty address. */
  lemma PairShape(line: string, pathOf: string -> string)
    ensures |Pair(line, pathOf)| == if Listed(line) then 1 else 0
    ensures forall k :: 0 <= k < |Pair(line, pathOf)| ==> Pair(line, pathOf)[k].0 != ""
  {
    ParseUrlLineShape(line, pathOf);
  }

  /** One queued pair per listed line. */
  lemma {:induction false} QueuedCount(lines: seq<string>, pathOf: string -> string)
    ensures |Queued(lines, pathOf)| == |Filter(lines, Listed)|
  {
    if |lines| > 0 {
      var init := lines[..|lines| - 1];
      QueuedCount(init, pathOf);
      QueuedStep(lines, pathOf);
      FilterStep(lines, |lines| - 1, Listed);
      assert lines[..|lines|] == lines;
    }
  }

  /** Every queued address is non-empty. */
  lemma {:induction false} QueuedAddresses(lines: seq<string>, pathOf: string -> string)
    ensures forall k :: 0 <= k < |Queued(lines, pathOf)| ==> Queued(lines, pathOf)[k].0 != ""
  {
    if |lines| > 0 {
      var init := lines[..|lines| - 1];
      QueuedAddresses(init, pathOf);
      QueuedStep(lines, pathOf);
      var q := Queued(lines, pathOf);
      forall k | 0 <= k < |Queued(init, pathOf)| ensures q[k].0 != "" {
        assert q[k] == q[..|Queued(init, pathOf)|][k];
      }
    }
  }
}
