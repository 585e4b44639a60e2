/** The concatenation step of scripts/7.2_merge_deep_scan.py: the `.csv` files of a
    directory are read in sorted name order and written as one table that carries the
    header once, taken from the first file that has a row, followed by every non-empty
    data row of every file. Parsing CSV is outside the model: a file is its list of rows,
    a row its list of fields, and a directory maps each file name to its rows. */
module MergeDeepScan {
  import opened Common
  import opened Text

  type CsvRow = seq<string>

  /** `if row:` — a row read from a blank line is empty. */
  predicate NonEmpty(row: CsvRow)
  {
    |row| > 0
  }

  predicate IsCsv(name: string)
  {
    EndsWith(name, ".csv")
  }

  /** The rows a file contributes below the header: its non-empty rows after the first
      one; a file without rows contributes nothing. */
  function DataRows(file: seq<CsvRow>): (r: seq<CsvRow>)
  {
    if |file| == 0 then [] else Filter(file[1..], NonEmpty)
  }

  /** The data rows of the files, file after file. */
  function AllData(files: seq<seq<CsvRow>>): seq<CsvRow>
  {
    if |files| == 0 then []
    else AllData(files[..|files| - 1]) + DataRows(files[|files| - 1])
  }

  /** The header written: the first row of the first file that has a row. */
  function FirstHeader(files: seq<seq<CsvRow>>): Option<CsvRow>
  {
    if |files| == 0 then None
    else
      var h := FirstHeader(files[..|files| - 1]);
      var last := files[|files| - 1];
      if h.Some? then h else if |last| > 0 then Some(last[0]) else None
  }

  /** The merged table: the header, if any file has a row, then every data row. */
  function MergedTable(files: seq<seq<CsvRow>>): seq<CsvRow>
  {
    match FirstHeader(files)
    case Some(h) => [h] + AllData(files)
    case None => AllData(files)
  }

  lemma MergedStep(files: seq<seq<CsvRow>>, i: nat)
    requires i < |files|
    ensures AllData(files[..i + 1]) == AllData(files[..i]) + DataRows(files[i])
    ensures FirstHeader(files[..i + 1]) ==
      if FirstHeader(files[..i]).Some? then FirstHeader(files[..i])
      else if |files[i]| > 0 then Some(files[i][0]) else None
  {
    assert files[..i + 1][..i] == files[..i];
  }

  /** One file more: its first row is added when no header was written yet, then its
      data rows. */
  lemma MergedTableStep(files: seq<seq<CsvRow>>, i: nat)
    requires i < |files|
    ensures MergedTable(files[..i + 1]) ==
      (if FirstHeader(files[..i]).None? && |files[i]| > 0 then MergedTable(files[..i]) + [files[i][0]]
       else MergedTable(files[..i])) + DataRows(files[i])
  {
    assert files[..i + 1] == files[..i] + [files[i]];
    MergedTableSnoc(files[..i], files[i]);
  }

  lemma MergedTableSnoc(init: seq<seq<CsvRow>>, f: seq<CsvRow>)
    ensures MergedTable(init + [f]) ==
      (if FirstHeader(init).None? && |f| > 0 then MergedTable(init) + [f[0]] else MergedTable(init)) + DataRows(f)
  {
    var all := init + [f];
    assert all[..|all| - 1] == init;
    var h := FirstHeader(init);
    var a := AllData(init);
    assert AllData(all) == a + DataRows(f);
    if h.Some? {
      assert FirstHeader(all) == h;
      assert MergedTable(all) == [h.value] + (a + DataRows(f));
    } else {
      NoHeaderNoData(init);
      assert MergedTable(init) == [];
      assert a == [];
      assert AllData(all) == DataRows(f);
      if |f| > 0 {
        assert FirstHeader(all) == Some(f[0]);
      } else {
        assert FirstHeader(all) == None;
      }
    }
  }

  /** The row loop of one file: the non-empty rows after the header, appended to `out`. */
  method CopyRows(file: seq<CsvRow>, out: seq<CsvRow>, total: nat)
    returns (out': seq<CsvRow>, total': nat)
    requires |file| > 0
    ensures out' == out + DataRows(file) && total' == total + |DataRows(file)|
  {
    var body := file[1..];
    out', total' := out, total;
    assert body[..0] == [];
    for j := 0 to |body|
      invariant out' == out + Filter(body[..j], NonEmpty)
      invariant total' == total + |Filter(body[..j], NonEmpty)|
    {
      CopyStep(body, j, out, out');
      if |body[j]| > 0 {
        out' := out' + [body[j]];
        total' := total' + 1;
      }
    }
    assert body[..|body|] == body;
  }

  /** One turn of the row loop: a non-empty row is appended and counted, an empty one
      skipped. */
  lemma CopyStep(body: seq<CsvRow>, j: nat, out: seq<CsvRow>, out': seq<CsvRow>)
    requires j < |body| && out' == out + Filter(body[..j], NonEmpty)
    ensures (if NonEmpty(body[j]) then out' + [body[j]] else out') == out + Filter(body[..j + 1], NonEmpty)
    ensures |Filter(body[..j + 1], NonEmpty)| == |Filter(body[..j], NonEmpty)| + (if NonEmpty(body[j]) then 1 else 0)
  {
    FilterStep(body, j, NonEmpty);
    if NonEmpty(body[j]) {
      assert out + Filter(body[..j], NonEmpty) + [body[j]] == out + (Filter(body[..j], NonEmpty) + [body[j]]);
    }
  }

  /** The file loop with its `header_written` flag and `total_rows` counter. */
  method MergeFiles(files: seq<seq<CsvRow>>) returns (out: seq<CsvRow>, total: nat)
    ensures out == MergedTable(files)
    ensures total == |AllData(files)|
  {
    var headerWritten := false;
    out, total := [], 0;
    for i := 0 to |files|
      invariant headerWritten == FirstHeader(files[..i]).Some?
      invariant out == MergedTable(files[..i])
      invariant total == |AllData(files[..i])|
    {
      MergedStep(files, i);
      MergedTableStep(files, i);
      var file := files[i];
      if |file| == 0 {
        continue;
      }
      if !headerWritten {
        out := out + [file[0]];
        headerWritten := true;
      }
      out, total := CopyRows(file, out, total);
    }
    assert files[..|files|] == files;
  }

  /** The files named, in the order given. */
  function FilesOf(dir: map<string, seq<CsvRow>>, names: seq<string>): (files: seq<seq<CsvRow>>)
    requires forall n :: n in names ==> n in dir
    ensures |files| == |names|
    ensures forall k :: 0 <= k < |names| ==> files[k] == dir[names[k]]
  {
    seq(|names|, k requires 0 <= k < |names| => dir[names[k]])
  }

  /** `merge_csv_dir`: the `.csv` names in sorted order, and the table written with its
      data-row count, or `None` when there is no `.csv` file and nothing is written. */
  method MergeCsvDir(dir: map<string, seq<CsvRow>>) returns (names: seq<string>, out: Option<(seq<CsvRow>, nat)>)
    ensures StrictlySorted(names)
    ensures forall n :: n in names <==> n in dir && IsCsv(n)
    ensures out.None? <==> names == []
    ensures out.Some? ==>
      out.value.0 == MergedTable(FilesOf(dir, names)) && out.value.1 == |AllData(FilesOf(dir, names))|
  {
    names := SortedList(set n | n in dir && IsCsv(n));
    if |names| == 0 {
      return names, None;
    }
    var table, total := MergeFiles(FilesOf(dir, names));
    out := Some((table, total));
  }

  /** `h` is the first row of a file before which every file is empty. */
  predicate HeaderFrom(files: seq<seq<CsvRow>>, h: CsvRow)
  {
    exists i :: 0 <= i < |files| && |files[i]| > 0 && h == files[i][0] &&
      forall k :: 0 <= k < i ==> |files[k]| == 0
  }

  /** `r` is a row of some file below that file's first row. */
  predicate BelowHeader(files: seq<seq<CsvRow>>, r: CsvRow)
  {
    exists i, j :: 0 <= i < |files| && 1 <= j < |files[i]| && files[i][j] == r
  }

  /** The header comes from the first file that has a row: it is that file's first row,
      and every earlier file is empty. */
  lemma {:induction false} FirstHeaderIsFirst(files: seq<seq<CsvRow>>)
    ensures FirstHeader(files).None? <==> forall k :: 0 <= k < |files| ==> |files[k]| == 0
    ensures FirstHeader(files).Some? ==> HeaderFrom(files, FirstHeader(files).value)
  {
    if |files| > 0 {
      var init := files[..|files| - 1];
      FirstHeaderIsFirst(init);
      if FirstHeader(init).Some? {
        var i :| 0 <= i < |init| && |init[i]| > 0 && FirstHeader(init).value == init[i][0] &&
          forall k :: 0 <= k < i ==> |init[k]| == 0;
        assert files[i] == init[i];
        assert forall k :: 0 <= k < i ==> files[k] == init[k];
      } else {
        assert forall k :: 0 <= k < |init| ==> files[k] == init[k];
      }
    }
  }

  /** The table holds exactly one header row followed by the counted data rows, or no
      row at all when every file is empty. */
  lemma HeaderOnce(files: seq<seq<CsvRow>>)
    ensures FirstHeader(files).Some? ==>
      |MergedTable(files)| == 1 + |AllData(files)| && MergedTable(files)[0] == FirstHeader(files).value &&
      MergedTable(files)[1..] == AllData(files)
    ensures FirstHeader(files).None? ==> MergedTable(files) == [] && AllData(files) == []
  {
    if FirstHeader(files).None? {
      NoHeaderNoData(files);
    }
  }

  /** Empty files contribute no data row. */
  lemma {:induction false} NoHeaderNoData(files: seq<seq<CsvRow>>)
    requires FirstHeader(files).None?
    ensures AllData(files) == []
  {
    if |files| > 0 {
      NoHeaderNoData(files[..|files| - 1]);
    }
  }

  /** Every data row is a non-empty row of some file below that file's first row: a
      file's header is never copied as data. */
  lemma {:induction false} DataRowsBelowHeader(files: seq<seq<CsvRow>>)
    ensures forall r :: r in AllData(files) ==> NonEmpty(r) && BelowHeader(files, r)
  {
    if |files| > 0 {
      var init := files[..|files| - 1];
      var last := files[|files| - 1];
      DataRowsBelowHeader(init);
      forall r | r in AllData(files)
        ensures NonEmpty(r) && BelowHeader(files, r)
      {
        if r in AllData(init) {
          var i, j :| 0 <= i < |init| && 1 <= j < |init[i]| && init[i][j] == r;
          assert files[i] == init[i];
        } else {
          assert r in DataRows(last);
          var j :| 0 <= j < |last[1..]| && last[1..][j] == r;
          assert files[|files| - 1][j + 1] == r;
        }
      }
    }
  }

  /** The counted rows are the non-empty rows after each header: each file adds as many
      as it has non-empty rows below its first one. */
  lemma {:induction false} DataCount(files: seq<seq<CsvRow>>)
    ensures |AllData(files)| == Sum(seq(|files|, k requires 0 <= k < |files| => |DataRows(files[k])|))
  {
    if |files| > 0 {
      var init := files[..|files| - 1];
      DataCount(init);
      var counts := seq(|files|, k requires 0 <= k < |files| => |DataRows(files[k])|);
      assert counts[..|files| - 1] == seq(|init|, k requires 0 <= k < |init| => |DataRows(init[k])|);
    }
  }

  function Sum(xs: seq<nat>): nat
  {
    if |xs| == 0 then 0 else Sum(xs[..|xs| - 1]) + xs[|xs| - 1]
  }

  /** The order of the merge leaves no freedom: any strictly sorted list of the `.csv`
      names is the one merged. */
  lemma MergeOrderUnique(dir: map<string, seq<CsvRow>>, names: seq<string>, other: seq<string>)
    requires StrictlySorted(names) && forall n :: n in names <==> n in dir && IsCsv(n)
    requires StrictlySorted(other) && forall n :: n in other <==> n in dir && IsCsv(n)
    ensures names == other
  {
    SortedUnique(names, other);
  }
}
