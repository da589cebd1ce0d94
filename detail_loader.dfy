/** `DetailLoaderSpider`: the argument checks and the request generation of
    `start_requests`, the file discovery of `_find_asin_files` and the record
    assembly of `parse`.

    The filesystem is a parameter: how a path argument is resolved
    (`os.path.abspath(os.path.expanduser(...))`), whether a path exists or is
    a regular file, what `os.walk` enumerates under a directory and in which
    order, and the lines a file yields when iterated. */
module DetailLoader {
  import opened Wrappers
  import opened PyText
  import opened AsinFormat
  import opened AsinUrls

  /** One triple `(dirpath, dirnames, filenames)` produced by `os.walk`. */
  datatype WalkEntry = WalkEntry(dirpath: string, dirnames: seq<string>, filenames: seq<string>)

  datatype FileSystem = FileSystem(
    resolve: string -> string,
    pathExists: string -> bool,
    isFile: string -> bool,
    walk: string -> seq<WalkEntry>,
    lines: string -> seq<string>)

  /** The spider arguments `asins_path` and `marketplace`, absent unless
      supplied on the command line. */
  datatype Arguments = Arguments(asinsPath: Option<string>, marketplace: Option<string>)

  /** The configuration errors, each of which aborts the run with a critical
      log line and no request. */
  datatype ArgumentError = MissingAsinsPath | UnsupportedMarketplace(marketplace: string) | AsinsPathNotFound

  /** What the checks hand on: the lowercased marketplace and the resolved path. */
  datatype Config = Config(marketplace: string, path: string)

  const DefaultMarketplace: string := "us"

  /** The marketplace key looked up in the host table: the argument, or
      `us` when absent, lowercased. */
  function MarketplaceKey(args: Arguments): string {
    Lower(args.marketplace.GetOr(DefaultMarketplace))
  }

  /** The three checks at the head of `start_requests`, in the source's
      order: a missing path argument is reported first, then an unsupported
      marketplace, then a path that does not exist. */
  function CheckArguments(args: Arguments, hosts: map<string, string>, fs: FileSystem): (r: Result<Config, ArgumentError>)
    ensures r == Err(MissingAsinsPath) <==> args.asinsPath.None?
    ensures r == Err(UnsupportedMarketplace(MarketplaceKey(args)))
            <==> args.asinsPath.Some? && MarketplaceKey(args) !in hosts
    ensures r == Err(AsinsPathNotFound)
            <==> args.asinsPath.Some? && MarketplaceKey(args) in hosts && !fs.pathExists(fs.resolve(args.asinsPath.value))
    ensures r.Ok? <==> args.asinsPath.Some? && MarketplaceKey(args) in hosts && fs.pathExists(fs.resolve(args.asinsPath.value))
    ensures r.Ok? ==> r.value.marketplace in hosts
    ensures r.Ok? ==> r.value == Config(MarketplaceKey(args), fs.resolve(args.asinsPath.value))
  {
    if args.asinsPath.None? then Err(MissingAsinsPath)
    else
      var marketplace := MarketplaceKey(args);
      if marketplace !in hosts then Err(UnsupportedMarketplace(marketplace))
      else
        var asinsPath := fs.resolve(args.asinsPath.value);
        if !fs.pathExists(asinsPath) then Err(AsinsPathNotFound)
        else Ok(Config(marketplace, asinsPath))
  }

  /** `os.path.join(a, b)` on POSIX: an absolute `b` replaces `a`; otherwise
      `b` is appended, with a `/` in between unless `a` is empty or already
      ends with one. */
  function Join(a: string, b: string): string {
    if |b| > 0 && b[0] == '/' then b
    else if a == [] || a[|a| - 1] == '/' then a + b
    else a + "/" + b
  }

  /** The joined path ends with the file name; it starts with the directory
      unless the name is absolute, and then it is the name itself. */
  lemma JoinShape(a: string, b: string)
    ensures var r := Join(a, b); |r| >= |b| && r[|r| - |b|..] == b
    ensures |b| > 0 && b[0] == '/' ==> Join(a, b) == b
    ensures !(|b| > 0 && b[0] == '/') ==> a <= Join(a, b) && |Join(a, b)| <= |a| + 1 + |b|
    ensures !(|b| > 0 && b[0] == '/') && a != [] && a[|a| - 1] != '/'
            ==> |Join(a, b)| == |a| + 1 + |b| && Join(a, b)[|a|] == '/'
    ensures !(|b| > 0 && b[0] == '/') && (a == [] || a[|a| - 1] == '/')
            ==> |Join(a, b)| == |a| + |b|
  {
  }

  /** The paths of the files of one walked directory, in listing order. */
  function JoinAll(dir: string, names: seq<string>): seq<string> {
    if names == [] then []
    else JoinAll(dir, names[..|names| - 1]) + [Join(dir, names[|names| - 1])]
  }

  /** One path per name, each the directory joined with that name. */
  lemma {:induction false} JoinAllShape(dir: string, names: seq<string>)
    ensures |JoinAll(dir, names)| == |names|
    ensures forall i :: 0 <= i < |names| ==> JoinAll(dir, names)[i] == Join(dir, names[i])
    decreases |names|
  {
    if names != [] {
      JoinAllShape(dir, names[..|names| - 1]);
    }
  }

  /** The paths the directory branch of `_find_asin_files` collects, in
      walk order. */
  function WalkedFiles(entries: seq<WalkEntry>): seq<string> {
    if entries == [] then []
    else
      var last := entries[|entries| - 1];
      WalkedFiles(entries[..|entries| - 1]) + JoinAll(last.dirpath, last.filenames)
  }

  /** What `_find_asin_files(path)` returns. */
  function AsinFiles(path: string, fs: FileSystem): seq<string> {
    if fs.isFile(path) then [path] else WalkedFiles(fs.walk(path))
  }

  /** The paths joined in one directory are that directory joined with one
      of its names. */
  lemma JoinAllMembers(dir: string, names: seq<string>, f: string)
    ensures f in JoinAll(dir, names) <==> exists n :: n in names && f == Join(dir, n)
  {
    var paths := JoinAll(dir, names);
    JoinAllShape(dir, names);
    if f in paths {
      var i :| 0 <= i < |paths| && paths[i] == f;
      assert names[i] in names;
    }
    if exists n :: n in names && f == Join(dir, n) {
      var n :| n in names && f == Join(dir, n);
      var i :| 0 <= i < |names| && names[i] == n;
      assert paths[i] == f;
    }
  }

  /** Every file the walk lists is collected, joined to its directory, and
      nothing else is. */
  lemma {:induction false} WalkedFilesMembers(entries: seq<WalkEntry>, f: string)
    ensures f in WalkedFiles(entries)
            <==> exists e, n :: e in entries && n in e.filenames && f == Join(e.dirpath, n)
    decreases |entries|
  {
    if entries != [] {
      var init := entries[..|entries| - 1];
      var last := entries[|entries| - 1];
      var tail := JoinAll(last.dirpath, last.filenames);
      WalkedFilesMembers(init, f);
      JoinAllMembers(last.dirpath, last.filenames, f);
      assert WalkedFiles(entries) == WalkedFiles(init) + tail;
      assert forall e :: e in entries <==> e in init || e == last;
      if f in WalkedFiles(entries) {
        if f in tail {
          var n :| n in last.filenames && f == Join(last.dirpath, n);
          assert last in entries && n in last.filenames && f == Join(last.dirpath, n);
        } else {
          var e, n :| e in init && n in e.filenames && f == Join(e.dirpath, n);
          assert e in entries && n in e.filenames && f == Join(e.dirpath, n);
        }
      }
      if exists e, n :: e in entries && n in e.filenames && f == Join(e.dirpath, n) {
        var e, n :| e in entries && n in e.filenames && f == Join(e.dirpath, n);
        if e == last {
          assert f in tail;
        } else {
          assert f in WalkedFiles(init);
        }
      }
    }
  }

  /** `_find_asin_files(asins_path)`: the path itself when it is a regular
      file, otherwise every file `os.walk` lists under it, directory by
      directory. */
  method FindAsinFiles(asinsPath: string, fs: FileSystem) returns (asinFiles: seq<string>)
    ensures asinFiles == AsinFiles(asinsPath, fs)
    ensures fs.isFile(asinsPath) ==> asinFiles == [asinsPath]
  {
    asinFiles := [];
    if fs.isFile(asinsPath) {
      asinFiles := asinFiles + [asinsPath];
    } else {
      var entries := fs.walk(asinsPath);
      var i := 0;
      while i < |entries|
        invariant 0 <= i <= |entries|
        invariant asinFiles == WalkedFiles(entries[..i])
      {
        var entry := entries[i];
        ghost var before := asinFiles;
        var j := 0;
        while j < |entry.filenames|
          invariant 0 <= j <= |entry.filenames|
          invariant asinFiles == before + JoinAll(entry.dirpath, entry.filenames[..j])
        {
          var filePath := Join(entry.dirpath, entry.filenames[j]);
          asinFiles := asinFiles + [filePath];
          assert entry.filenames[..j + 1][..j] == entry.filenames[..j];
          j := j + 1;
        }
        assert entry.filenames[..j] == entry.filenames;
        assert entries[..i + 1][..i] == entries[..i];
        i := i + 1;
      }
      assert entries[..i] == entries;
    }
  }

  /** The identifiers one file contributes: each line stripped, in order,
      keeping those that pass `_is_valid_asin`. */
  function ValidAsins(lines: seq<string>): seq<string> {
    if lines == [] then []
    else
      var asin := Strip(lines[|lines| - 1]);
      ValidAsins(lines[..|lines| - 1]) + if IsValidAsin(asin) then [asin] else []
  }

  /** The identifiers of all files, file by file. */
  function FileAsins(asinFiles: seq<string>, fs: FileSystem): seq<string> {
    if asinFiles == [] then []
    else FileAsins(asinFiles[..|asinFiles| - 1], fs) + ValidAsins(fs.lines(asinFiles[|asinFiles| - 1]))
  }

  /** One request per identifier, in order, for the given marketplace. */
  function RequestsFor(asins: seq<string>, marketplace: string, hosts: map<string, string>): seq<Request>
    requires marketplace in hosts
  {
    seq(|asins|, k requires 0 <= k < |asins| => GenerateAsinUrl(asins[k], marketplace, hosts))
  }

  /** Everything `start_requests` yields, in order. */
  function ExpectedRequests(args: Arguments, hosts: map<string, string>, fs: FileSystem): seq<Request> {
    match CheckArguments(args, hosts, fs)
    case Err(_) => []
    case Ok(config) => RequestsFor(FileAsins(AsinFiles(config.path, fs), fs), config.marketplace, hosts)
  }

  /** `start_requests`: after the argument checks, every line of every file
      found is stripped and, when it is a valid ASIN, turned into a request;
      the requests come out in file order and, within a file, in line order.
      A configuration error yields no request at all. */
  method StartRequests(args: Arguments, hosts: map<string, string>, fs: FileSystem) returns (requests: seq<Request>)
    ensures requests == ExpectedRequests(args, hosts, fs)
    ensures CheckArguments(args, hosts, fs).Err? ==> requests == []
  {
    if args.asinsPath.None? {
      return [];
    }
    var marketplace := Lower(args.marketplace.GetOr(DefaultMarketplace));
    if marketplace !in hosts {
      return [];
    }
    var asinsPath := fs.resolve(args.asinsPath.value);
    if !fs.pathExists(asinsPath) {
      return [];
    }
    var asinFiles := FindAsinFiles(asinsPath, fs);
    requests := RequestsFromFiles(asinFiles, marketplace, hosts, fs);
  }

  /** The loop of `start_requests` over the files found and over the lines
      of each file. */
  method RequestsFromFiles(asinFiles: seq<string>, marketplace: string, hosts: map<string, string>, fs: FileSystem)
    returns (requests: seq<Request>)
    requires marketplace in hosts
    ensures requests == RequestsFor(FileAsins(asinFiles, fs), marketplace, hosts)
  {
    requests := [];
    ghost var asins: seq<string> := [];
    var i := 0;
    while i < |asinFiles|
      invariant 0 <= i <= |asinFiles|
      invariant asins == FileAsins(asinFiles[..i], fs)
      invariant |requests| == |asins|
      invariant forall k :: 0 <= k < |asins| ==> requests[k] == GenerateAsinUrl(asins[k], marketplace, hosts)
    {
      var lines := fs.lines(asinFiles[i]);
      ghost var before := asins;
      var j := 0;
      while j < |lines|
        invariant 0 <= j <= |lines|
        invariant asins == before + ValidAsins(lines[..j])
        invariant |requests| == |asins|
        invariant forall k :: 0 <= k < |asins| ==> requests[k] == GenerateAsinUrl(asins[k], marketplace, hosts)
      {
        var asin := Strip(lines[j]);
        assert lines[..j + 1][..j] == lines[..j];
        if IsValidAsin(asin) {
          requests := requests + [GenerateAsinUrl(asin, marketplace, hosts)];
          asins := asins + [asin];
        }
        j := j + 1;
      }
      assert lines[..j] == lines;
      assert asinFiles[..i + 1][..i] == asinFiles[..i];
      i := i + 1;
    }
    assert asinFiles[..i] == asinFiles;
  }

  /** The lines of all files, file after file. */
  function AllLines(asinFiles: seq<string>, fs: FileSystem): seq<string> {
    if asinFiles == [] then []
    else AllLines(asinFiles[..|asinFiles| - 1], fs) + fs.lines(asinFiles[|asinFiles| - 1])
  }

  /** Filtering distributes over concatenation. */
  lemma {:induction false} ValidAsinsAppend(a: seq<string>, b: seq<string>)
    ensures ValidAsins(a + b) == ValidAsins(a) + ValidAsins(b)
    decreases |b|
  {
    if b != [] {
      var b' := b[..|b| - 1];
      ValidAsinsAppend(a, b');
      assert (a + b)[..|a + b| - 1] == a + b';
      assert (a + b)[|a + b| - 1] == b[|b| - 1];
    } else {
      assert a + b == a;
    }
  }

  /** The run's identifiers are those of the concatenated lines of all
      files: the per-file walk changes nothing but the grouping. */
  lemma {:induction false} FileAsinsOfAllLines(asinFiles: seq<string>, fs: FileSystem)
    ensures FileAsins(asinFiles, fs) == ValidAsins(AllLines(asinFiles, fs))
    decreases |asinFiles|
  {
    if asinFiles != [] {
      var init := asinFiles[..|asinFiles| - 1];
      FileAsinsOfAllLines(init, fs);
      ValidAsinsAppend(AllLines(init, fs), fs.lines(asinFiles[|asinFiles| - 1]));
    }
  }

  /** A line whose stripped text is not a valid ASIN contributes nothing. */
  lemma InvalidLineSkipped(before: seq<string>, line: string, after: seq<string>)
    requires !IsValidAsin(Strip(line))
    ensures ValidAsins(before + [line] + after) == ValidAsins(before + after)
  {
    ValidAsinsAppend(before + [line], after);
    ValidAsinsAppend(before, after);
    assert (before + [line])[..|before|] == before;
  }

  /** A line whose stripped text is a valid ASIN contributes exactly that
      text, between what comes before and what comes after. */
  lemma ValidLineKept(before: seq<string>, line: string, after: seq<string>)
    requires IsValidAsin(Strip(line))
    ensures ValidAsins(before + [line] + after) == ValidAsins(before) + [Strip(line)] + ValidAsins(after)
  {
    ValidAsinsAppend(before + [line], after);
    assert (before + [line])[..|before|] == before;
  }

  /** The indices of the lines whose stripped text is a valid ASIN, in
      increasing order. */
  function ValidPositions(lines: seq<string>): seq<nat> {
    if lines == [] then []
    else ValidPositions(lines[..|lines| - 1]) + if IsValidAsin(Strip(lines[|lines| - 1])) then [|lines| - 1] else []
  }

  /** Appending one line extends the identifiers and the positions by that
      line's contribution. */
  lemma ValidStep(lines: seq<string>)
    requires lines != []
    ensures var n := |lines| - 1; var valid := IsValidAsin(Strip(lines[n]));
      && ValidAsins(lines) == ValidAsins(lines[..n]) + (if valid then [Strip(lines[n])] else [])
      && ValidPositions(lines) == ValidPositions(lines[..n]) + (if valid then [n] else [])
  {
  }

  /** Every recorded position is the index of a line. */
  lemma {:induction false} ValidPositionsBelow(lines: seq<string>)
    ensures forall k :: 0 <= k < |ValidPositions(lines)| ==> ValidPositions(lines)[k] < |lines|
    decreases |lines|
  {
    if lines != [] {
      ValidPositionsBelow(lines[..|lines| - 1]);
      ValidStep(lines);
    }
  }

  /** The k-th identifier is the stripped line at the k-th position. */
  lemma {:induction false} ValidAsinsAtPositions(lines: seq<string>)
    ensures |ValidAsins(lines)| == |ValidPositions(lines)|
    ensures forall k :: 0 <= k < |ValidPositions(lines)| ==>
      ValidPositions(lines)[k] < |lines| && ValidAsins(lines)[k] == Strip(lines[ValidPositions(lines)[k]])
    decreases |lines|
  {
    if lines != [] {
      var n := |lines| - 1;
      var init := lines[..n];
      ValidAsinsAtPositions(init);
      ValidStep(lines);
      var pos, pos0 := ValidPositions(lines), ValidPositions(init);
      var ids, ids0 := ValidAsins(lines), ValidAsins(init);
      forall k | 0 <= k < |pos|
        ensures pos[k] < |lines| && ids[k] == Strip(lines[pos[k]])
      {
        if k < |pos0| {
          assert pos[k] == pos0[k] && ids[k] == ids0[k] && init[pos0[k]] == lines[pos0[k]];
        } else {
          assert pos[k] == n && ids[k] == Strip(lines[n]);
        }
      }
    }
  }

  /** The positions strictly increase. */
  lemma {:induction false} ValidPositionsIncrease(lines: seq<string>)
    ensures forall k, l :: 0 <= k < l < |ValidPositions(lines)| ==> ValidPositions(lines)[k] < ValidPositions(lines)[l]
    decreases |lines|
  {
    if lines != [] {
      var n := |lines| - 1;
      var init := lines[..n];
      ValidPositionsIncrease(init);
      ValidPositionsBelow(init);
      ValidStep(lines);
      var pos, pos0 := ValidPositions(lines), ValidPositions(init);
      forall k, l | 0 <= k < l < |pos|
        ensures pos[k] < pos[l]
      {
        if l < |pos0| {
          assert pos[k] == pos0[k] && pos[l] == pos0[l];
        } else {
          assert pos[k] == pos0[k] && pos[l] == n;
        }
      }
    }
  }

  /** A line's index is recorded exactly when its stripped text is valid. */
  lemma {:induction false} ValidPositionsExactly(lines: seq<string>)
    ensures forall j :: 0 <= j < |lines| ==> (j in ValidPositions(lines) <==> IsValidAsin(Strip(lines[j])))
    decreases |lines|
  {
    if lines != [] {
      var n := |lines| - 1;
      var init := lines[..n];
      ValidPositionsExactly(init);
      ValidPositionsBelow(init);
      ValidStep(lines);
      var pos, pos0 := ValidPositions(lines), ValidPositions(init);
      assert n !in pos0;
      forall j | 0 <= j < |lines|
        ensures j in pos <==> IsValidAsin(Strip(lines[j]))
      {
        if j < n {
          assert init[j] == lines[j];
        }
      }
    }
  }

  /** One-to-one and in order: the k-th identifier is the stripped k-th
      valid line, the valid lines are visited in increasing order, and a
      line is used exactly when its stripped text is valid. So the number of
      identifiers is the number of valid lines. */
  lemma ValidAsinsCorrespondence(lines: seq<string>)
    ensures var pos := ValidPositions(lines);
      && |ValidAsins(lines)| == |pos|
      && (forall k :: 0 <= k < |pos| ==> pos[k] < |lines| && ValidAsins(lines)[k] == Strip(lines[pos[k]]))
      && (forall k, l :: 0 <= k < l < |pos| ==> pos[k] < pos[l])
      && (forall j :: 0 <= j < |lines| ==> (j in pos <==> IsValidAsin(Strip(lines[j]))))
  {
    ValidAsinsAtPositions(lines);
    ValidPositionsIncrease(lines);
    ValidPositionsExactly(lines);
  }

  /** The number of requests of a run equals the number of valid lines
      over all its files. */
  lemma RequestCount(args: Arguments, hosts: map<string, string>, fs: FileSystem)
    requires CheckArguments(args, hosts, fs).Ok?
    ensures var config := CheckArguments(args, hosts, fs).value;
      |ExpectedRequests(args, hosts, fs)| == |ValidPositions(AllLines(AsinFiles(config.path, fs), fs))|
  {
    var config := CheckArguments(args, hosts, fs).value;
    FileAsinsOfAllLines(AsinFiles(config.path, fs), fs);
    ValidAsinsCorrespondence(AllLines(AsinFiles(config.path, fs), fs));
  }

  /** The marketplace defaults to `us` and is lowercased before the lookup,
      so leaving it out, passing `us` and passing `US` give the same run. */
  lemma MarketplaceDefaultAndCase(path: string, hosts: map<string, string>, fs: FileSystem)
    ensures ExpectedRequests(Arguments(Some(path), None), hosts, fs)
            == ExpectedRequests(Arguments(Some(path), Some("us")), hosts, fs)
            == ExpectedRequests(Arguments(Some(path), Some("US")), hosts, fs)
  {
  }

  /** A line that neither starts nor ends with whitespace is stripped of
      its line end and nothing else. */
  lemma StripLineEnd(t: string)
    requires t != [] && !IsSpace(t[0]) && !IsSpace(t[|t| - 1])
    ensures Strip(t + "\n") == t
  {
    var line := t + "\n";
    assert TrimStart(line) == line;
    assert line[..|line| - 1] == t;
    assert TrimEnd(line) == TrimEnd(t);
  }

  /** Of the lines `B000123456`, `bad` and `123456789X`, the first and the
      third are kept, stripped of their line ends. */
  lemma TwoOfThreeLinesValid(lines: seq<string>)
    requires lines == ["B000123456\n", "bad\n", "123456789X\n"]
    ensures ValidAsins(lines) == ["B000123456", "123456789X"]
  {
    assert lines[0] == "B000123456" + "\n" && lines[1] == "bad" + "\n" && lines[2] == "123456789X" + "\n";
    StripLineEnd("B000123456");
    StripLineEnd("bad");
    StripLineEnd("123456789X");
    ValidExamples();
    InvalidExamples();
    assert lines[..2][..1] == lines[..1] && lines[..1][..0] == [] && lines[..3] == lines;
    assert ValidAsins(lines[..1]) == ["B000123456"];
    assert ValidAsins(lines[..2]) == ["B000123456"];
  }

  /** The run over one file with the lines `B000123456`, `bad` and
      `123456789X` yields two requests, for the first and the third line. */
  lemma TwoOfThreeLines(path: string, hosts: map<string, string>, fs: FileSystem)
    requires "us" in hosts
    requires fs.pathExists(fs.resolve(path)) && fs.isFile(fs.resolve(path))
    requires fs.lines(fs.resolve(path)) == ["B000123456\n", "bad\n", "123456789X\n"]
    ensures ExpectedRequests(Arguments(Some(path), None), hosts, fs)
            == [GenerateAsinUrl("B000123456", "us", hosts), GenerateAsinUrl("123456789X", "us", hosts)]
  {
    assert Lower("us") == "us";
    TwoOfThreeLinesValid(fs.lines(fs.resolve(path)));
    assert FileAsins([fs.resolve(path)], fs) == ValidAsins(fs.lines(fs.resolve(path)));
  }

  /** A field value of a parsed record. The parser's own values are kept
      opaque; the spider writes one text value, the ASIN. */
  datatype FieldValue = Text(text: string) | Opaque(repr: string)

  const AsinField: string := "asin"

  /** `parse(response)`: `parsed` is what `DetailParser(response.text).parse()`
      returned, or `None` when it raised. On success the record is emitted
      with its `asin` field set to the ASIN extracted from the response URL
      and every other field as parsed; on failure nothing is emitted. */
  function Parse(responseUrl: string, parsed: Option<map<string, FieldValue>>): (r: Option<map<string, FieldValue>>)
    ensures r.Some? <==> parsed.Some?
    ensures r.Some? ==> r.value.Keys == parsed.value.Keys + {AsinField}
    ensures r.Some? ==> r.value[AsinField] == Text(ExtractAsin(responseUrl))
    ensures r.Some? ==> forall f :: f in parsed.value && f != AsinField ==> r.value[f] == parsed.value[f]
  {
    match parsed
    case None => None
    case Some(info) => Some(info[AsinField := Text(ExtractAsin(responseUrl))])
  }

  /** A successful parse of the example product page records its ASIN. */
  lemma ParseExample(info: map<string, FieldValue>)
    ensures var r := Parse("https://www.amazon.com/dp/B000123456", Some(info));
      r.Some? && r.value[AsinField] == Text("B000123456")
  {
    ExtractExample();
  }
}
