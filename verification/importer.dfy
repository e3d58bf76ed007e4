/** `REDCapErrorChecksImporter`: loading one file (`load_error_check_csv`),
    importing its batch (`import_to_redcap`) and the run over every listed
    file (`run`). The object store, the REDCap transport and the run's
    settings are explicit parameters: the listed files with their parsed
    contents, a function standing for the remote import, and a `Config`. */
module Importer {
  import opened Results
  import opened Strings
  import opened ErrorCheckKeys
  import opened ImportStats
  import opened CsvVisitor

  /** What `load_error_check_csv` does with one file. Python returns `None`
      for the middle three (each logged differently); `ErrorCodeMissing` is
      the `KeyError` raised when a validated record has no `error_code`. */
  datatype LoadOutcome =
    | Loaded(checks: seq<ErrorCheck>)
    | ReadFailed
    | NoErrorChecks
    | DuplicateCodes(duplicates: seq<string>)
    | ErrorCodeMissing

  datatype Load = Load(outcome: LoadOutcome, stats: Stats)

  /** `[x['error_code'] for x in checks]`, or `None` where that raises `KeyError`. */
  function ErrorCodes(checks: seq<ErrorCheck>): (codes: Option<seq<string>>)
    ensures codes.Some? <==> forall i :: 0 <= i < |checks| ==> "error_code" in checks[i]
    ensures codes.Some? ==> |codes.value| == |checks|
    ensures codes.Some? ==> forall i :: 0 <= i < |checks| ==> codes.value[i] == checks[i]["error_code"]
  {
    if forall i :: 0 <= i < |checks| ==> "error_code" in checks[i] then
      Some(seq(|checks|, i requires 0 <= i < |checks| => checks[i]["error_code"]))
    else None
  }

  /** The part of `load_error_check_csv` after a successful `read_csv`, on
      the validated records: none is rejected with the stats untouched;
      otherwise every error code goes to duplicate detection and stays
      recorded, and the records load only when no code was recorded before. */
  function LoadValidated(validated: seq<ErrorCheck>, stats: Stats): (l: Load)
    ensures l.outcome.NoErrorChecks? <==> validated == []
    ensures l.outcome.ReadFailed? == false
    ensures l.outcome.Loaded? ==>
      && l.outcome.checks == validated && validated != []
      && ErrorCodes(validated).Some?
      && (forall i :: 0 <= i < |validated| ==> validated[i]["error_code"] !in stats.allErrorCodes)
      && l.stats.allErrorCodes == stats.allErrorCodes + ErrorCodes(validated).value
    ensures l.outcome.DuplicateCodes? ==>
      && l.outcome.duplicates != []
      && (forall i :: 0 <= i < |l.outcome.duplicates| ==> l.outcome.duplicates[i] in stats.allErrorCodes)
      && ErrorCodes(validated).Some?
      && l.stats.allErrorCodes == stats.allErrorCodes + ErrorCodes(validated).value
    ensures l.outcome.ErrorCodeMissing? <==> validated != [] && ErrorCodes(validated).None?
    ensures validated != [] && ErrorCodes(validated).Some? ==>
      (l.outcome.Loaded? <==>
        forall i :: 0 <= i < |validated| ==> validated[i]["error_code"] !in stats.allErrorCodes)
    ensures l.outcome.DuplicateCodes? ==>
      l.outcome.duplicates == AddErrorCodes(stats, ErrorCodes(validated).value).duplicates
    ensures !l.outcome.Loaded? && !l.outcome.DuplicateCodes? ==> l.stats == stats
    ensures l.stats.totalRecords == stats.totalRecords && l.stats.failedFiles == stats.failedFiles
  {
    if validated == [] then Load(NoErrorChecks, stats)
    else match ErrorCodes(validated)
      case None => Load(ErrorCodeMissing, stats)
      case Some(codes) =>
        var added := AddErrorCodes(stats, codes);
        if added.duplicates != [] then
          DuplicatesAreRecorded(stats, codes);
          Load(DuplicateCodes(added.duplicates), added.stats)
        else
          Load(Loaded(validated), added.stats)
  }

  /** `load_error_check_csv`: a file that fails `read_csv`, or validates no
      check at all, is rejected with the stats untouched. Otherwise all its
      error codes go to duplicate detection and stay recorded even when a
      duplicate rejects the file. A loaded file yields exactly the visitor's
      records, in row order, none of whose codes was recorded before. */
  function LoadErrorCheckCsv(key: ErrorCheckKey, input: CsvInput, stats: Stats): (l: Load)
    ensures l.outcome.ReadFailed? <==> !ReadCsv(key, input, []).ok
    ensures l.outcome.NoErrorChecks? <==> ReadCsv(key, input, []).ok && Accepted(key, input.rows) == []
    ensures l.outcome.Loaded? ==>
      && ReadCsv(key, input, []).ok
      && l.outcome.checks == Accepted(key, input.rows) && l.outcome.checks != []
      && ErrorCodes(l.outcome.checks).Some?
      && (forall i :: 0 <= i < |l.outcome.checks| ==>
            l.outcome.checks[i]["error_code"] !in stats.allErrorCodes)
      && l.stats.allErrorCodes == stats.allErrorCodes + ErrorCodes(l.outcome.checks).value
    ensures l.outcome.DuplicateCodes? ==>
      && l.outcome.duplicates != []
      && (forall i :: 0 <= i < |l.outcome.duplicates| ==> l.outcome.duplicates[i] in stats.allErrorCodes)
      && ErrorCodes(Accepted(key, input.rows)).Some?
      && l.stats.allErrorCodes == stats.allErrorCodes + ErrorCodes(Accepted(key, input.rows)).value
    ensures l.outcome.ErrorCodeMissing? <==>
      ReadCsv(key, input, []).ok && Accepted(key, input.rows) != [] &&
      ErrorCodes(Accepted(key, input.rows)).None?
    ensures (ReadCsv(key, input, []).ok && Accepted(key, input.rows) != [] &&
             ErrorCodes(Accepted(key, input.rows)).Some?) ==>
      (l.outcome.Loaded? <==>
        forall i :: 0 <= i < |Accepted(key, input.rows)| ==>
          Accepted(key, input.rows)[i]["error_code"] !in stats.allErrorCodes)
    ensures l.outcome.DuplicateCodes? ==>
      l.outcome.duplicates ==
        AddErrorCodes(stats, ErrorCodes(Accepted(key, input.rows)).value).duplicates
    ensures !l.outcome.Loaded? && !l.outcome.DuplicateCodes? ==> l.stats == stats
    ensures l.stats.totalRecords == stats.totalRecords && l.stats.failedFiles == stats.failedFiles
  {
    var visit := ReadCsv(key, input, []);
    if !visit.ok then Load(ReadFailed, stats)
    else
      assert visit.validated == Accepted(key, input.rows);
      LoadValidated(visit.validated, stats)
  }

  /** Every reported duplicate was recorded before the call. */
  lemma {:induction false} DuplicatesAreRecorded(stats: Stats, codes: seq<string>)
    ensures forall i :: 0 <= i < |AddErrorCodes(stats, codes).duplicates| ==>
      AddErrorCodes(stats, codes).duplicates[i] in stats.allErrorCodes
  {
    var dups := AddErrorCodes(stats, codes).duplicates;
    forall i | 0 <= i < |dups|
      ensures dups[i] in stats.allErrorCodes
    {
      assert dups[i] in multiset(dups);
    }
  }

  /** The rows of `input` each carry exactly the header's columns, as every
      row `DictReader` produces from a well-formed file does. */
  predicate Aligned(input: CsvInput) {
    input.Table? &&
    forall i :: 0 <= i < |input.rows| ==> input.rows[i].Keys == set h | h in input.header
  }

  /** The visitor keeps every required column a row has. */
  lemma {:induction false} CollectKeepsColumn(rows: seq<Row>, accept: Row -> bool, column: string)
    requires column in RequiredHeaders
    requires forall i :: 0 <= i < |rows| ==> column in rows[i]
    ensures forall i :: 0 <= i < |Collect(rows, accept)| ==> column in Collect(rows, accept)[i]
    decreases |rows|
  {
    if rows != [] {
      assert forall i :: 1 <= i < |rows| ==> rows[i] == rows[1..][i - 1];
      CollectKeepsColumn(rows[1..], accept, column);
    }
  }

  /** Validating the header guarantees every record has an `error_code`:
      for a well-formed file the `KeyError` branch cannot be reached. */
  lemma {:induction false} AlignedFileHasErrorCodes(key: ErrorCheckKey, input: CsvInput, stats: Stats)
    requires Aligned(input)
    ensures !LoadErrorCheckCsv(key, input, stats).outcome.ErrorCodeMissing?
  {
    if ReadCsv(key, input, []).ok {
      assert "error_code" in RequiredHeaders;
      assert "error_code" in input.header;
      forall i | 0 <= i < |input.rows|
        ensures "error_code" in input.rows[i]
      {
        assert "error_code" in set h | h in input.header;
      }
      CollectKeepsColumn(input.rows, AcceptFor(key), "error_code");
    }
  }

  /** The remote import's answer: the number of records imported, or a
      connection error with its message. */
  datatype ImportReply = Imported(count: int) | ConnectionError(message: string)

  /** `import_to_redcap`: a dry run changes nothing and calls nothing;
      otherwise the batch is sent, an imported count is added to the total,
      and a connection error is raised as a `RuntimeException` carrying its
      message. */
  function ImportToRedcap(stats: Stats, checks: seq<ErrorCheck>, dryRun: bool,
                          transport: seq<ErrorCheck> -> ImportReply): (r: Result<Stats, string>)
    ensures dryRun ==> r == Success(stats)
    ensures !dryRun ==> (r.Success? <==> transport(checks).Imported?)
    ensures !dryRun && r.Success? ==>
      && r.value.totalRecords == stats.totalRecords + transport(checks).count
      && r.value.allErrorCodes == stats.allErrorCodes
      && r.value.failedFiles == stats.failedFiles
    ensures r.Failure? ==> r.error == transport(checks).message
  {
    if dryRun then Success(stats)
    else match transport(checks)
      case Imported(count) => Success(AddToTotalRecords(stats, count))
      case ConnectionError(message) => Failure(message)
  }

  /** The importer's settings: the module filter (`["all"]` selects every
      module), `fail_fast` and `dry_run`. */
  datatype Config = Config(modules: seq<string>, failFast: bool, dryRun: bool)

  /** One listed object: its key and its contents as the CSV reader sees them. */
  datatype SourceFile = SourceFile(key: string, content: CsvInput)

  /** The exceptions that end a run. */
  datatype RunError =
    | BadKey(key: string, error: KeyError)
    | ErrorCodeKeyMissing(key: string)
    | ImportFailed(message: string)
    | FailedFiles(files: seq<string>)
  {
    /** The text of the `RuntimeException` listing the failed files. */
    function Message(): string {
      match this
      case BadKey(_, e) => e.Message()
      case ErrorCodeKeyMissing(_) => "'error_code'"
      case ImportFailed(message) => message
      case FailedFiles(files) =>
        "Failed to import the following:\n" + (if files == [] then "" else Join(files, '\n'))
    }
  }

  /** The final report's text is its title line followed by one line per
      failed file: split into lines it gives the title and then the files,
      in order, for keys without line breaks. */
  lemma {:induction false} FailedFilesReportLines(files: seq<string>)
    requires files != []
    requires forall i :: 0 <= i < |files| ==> '\n' !in files[i]
    ensures Split(FailedFiles(files).Message(), '\n') == ["Failed to import the following:"] + files
  {
    var title := "Failed to import the following:";
    assert FailedFiles(files).Message() == title + ['\n'] + Join(files, '\n');
    SplitAfterPiece(title, '\n', Join(files, '\n'));
    SplitJoin(files, '\n');
  }

  /** How a run ends: it completes, `fail_fast` makes it return early
      without raising, or it raises. */
  datatype RunEnd = Completed | HaltedFailFast | Raised(error: RunError)

  /** The state after some files: `halt` is set once the run has stopped. */
  datatype Progress = Progress(halt: Option<RunEnd>, stats: Stats)

  datatype RunResult = RunResult(end: RunEnd, stats: Stats)

  const CsvSuffix: string := ".csv"

  /** `modules == ['all'] or module in modules` */
  predicate ModuleSelected(modules: seq<string>, moduleName: string) {
    modules == ["all"] || moduleName in modules
  }

  /** The keys of `files`. */
  function KeysOf(files: seq<SourceFile>): set<string> {
    set i | 0 <= i < |files| :: files[i].key
  }

  /** The file is passed over without being loaded: it is not a CSV, or its
      module is filtered out. */
  predicate Skipped(config: Config, file: SourceFile) {
    || !EndsWith(file.key, CsvSuffix)
    || (CreateFromKey(file.key).Success? &&
        !ModuleSelected(config.modules, CreateFromKey(file.key).value.moduleName))
  }

  /** The effect of one listed file on the run: go on with the next file,
      or stop with how the run ends. */
  datatype Step = Continue(stats: Stats) | Stop(end: RunEnd, stats: Stats)

  /** One iteration of the loop of `run`. A skipped file changes nothing. A
      key that does not parse, a record without `error_code` and a failed
      import raise. A file that fails to load stops the run under
      `fail_fast` (recording nothing) and is otherwise recorded as failed.
      A dry run adds no imported records; error codes are only ever added. */
  function ProcessFile(file: SourceFile, config: Config,
                       transport: seq<ErrorCheck> -> ImportReply, stats: Stats): (s: Step)
    ensures Skipped(config, file) ==> s == Continue(stats)
    ensures stats.allErrorCodes <= s.stats.allErrorCodes
    ensures || s.stats.failedFiles == stats.failedFiles
            || (&& !config.failFast && s.Continue? && EndsWith(file.key, CsvSuffix)
                && s.stats.failedFiles == stats.failedFiles + [file.key])
    ensures config.dryRun ==> s.stats.totalRecords == stats.totalRecords
    ensures s.Stop? ==> s.end.HaltedFailFast? || (s.end.Raised? && !s.end.error.FailedFiles?)
    ensures s.Stop? && s.end.HaltedFailFast? ==> config.failFast
    ensures (&& EndsWith(file.key, CsvSuffix) && CreateFromKey(file.key).Success?
             && ModuleSelected(config.modules, CreateFromKey(file.key).value.moduleName)
             && LoadErrorCheckCsv(CreateFromKey(file.key).value, file.content, stats).outcome.Loaded?) ==>
      var load := LoadErrorCheckCsv(CreateFromKey(file.key).value, file.content, stats);
      var imported := ImportToRedcap(load.stats, load.outcome.checks, config.dryRun, transport);
      s == if imported.Success? then Continue(imported.value)
           else Stop(Raised(ImportFailed(imported.error)), load.stats)
  {
    if !EndsWith(file.key, CsvSuffix) then Continue(stats)
    else match CreateFromKey(file.key)
      case Failure(e) => Stop(Raised(BadKey(file.key, e)), stats)
      case Success(key) =>
        if !ModuleSelected(config.modules, key.moduleName) then Continue(stats)
        else
          var load := LoadErrorCheckCsv(key, file.content, stats);
          match load.outcome
          case ErrorCodeMissing => Stop(Raised(ErrorCodeKeyMissing(file.key)), load.stats)
          case Loaded(checks) =>
            (match ImportToRedcap(load.stats, checks, config.dryRun, transport)
             case Failure(message) => Stop(Raised(ImportFailed(message)), load.stats)
             case Success(imported) => Continue(imported))
          case _ =>
            if config.failFast then Stop(HaltedFailFast, load.stats)
            else Continue(AddFailedFile(load.stats, file.key))
  }

  /** The loop of `run` over the listed files, in order, until a file stops
      it. The error codes seen and the failed files only ever grow; under
      `fail_fast` no file is ever recorded as failed; a dry run imports no
      records; only listed CSV keys are recorded as failed; and a stop is
      never the end-of-run failed-files report. */
  function ProcessFiles(files: seq<SourceFile>, config: Config,
                        transport: seq<ErrorCheck> -> ImportReply, stats: Stats): (p: Progress)
    ensures p.halt.Some? ==>
      p.halt.value.HaltedFailFast? || (p.halt.value.Raised? && !p.halt.value.error.FailedFiles?)
    ensures p.halt.Some? && p.halt.value.HaltedFailFast? ==> config.failFast
    ensures stats.allErrorCodes <= p.stats.allErrorCodes
    ensures stats.failedFiles <= p.stats.failedFiles
    ensures config.failFast ==> p.stats.failedFiles == stats.failedFiles
    ensures config.dryRun ==> p.stats.totalRecords == stats.totalRecords
    ensures forall i :: |stats.failedFiles| <= i < |p.stats.failedFiles| ==>
      p.stats.failedFiles[i] in KeysOf(files) && EndsWith(p.stats.failedFiles[i], CsvSuffix)
    decreases |files|
  {
    if files == [] then Progress(None, stats)
    else
      match ProcessFile(files[0], config, transport, stats)
      case Stop(end, s) => Progress(Some(end), s)
      case Continue(s) =>
        var p := ProcessFiles(files[1..], config, transport, s);
        assert KeysOf(files[1..]) <= KeysOf(files) by {
          forall k | k in KeysOf(files[1..]) ensures k in KeysOf(files) {
            var i :| 0 <= i < |files[1..]| && files[1..][i].key == k;
            assert files[i + 1].key == k;
          }
        }
        assert files[0].key in KeysOf(files);
        assert stats.failedFiles <= s.failedFiles;
        p
  }

  /** `run`: no listed file means nothing to do. Otherwise the files are
      processed in order and, unless the run already stopped, it raises
      listing every failed file if there is any, and completes if not. */
  function Run(files: seq<SourceFile>, config: Config,
               transport: seq<ErrorCheck> -> ImportReply, stats: Stats): (r: RunResult)
    ensures files == [] ==> r == RunResult(Completed, stats)
    ensures files != [] ==> r.stats == ProcessFiles(files, config, transport, stats).stats
    ensures files != [] && ProcessFiles(files, config, transport, stats).halt.Some? ==>
      r.end == ProcessFiles(files, config, transport, stats).halt.value
    ensures files != [] && ProcessFiles(files, config, transport, stats).halt.None? ==>
      r.end == (if r.stats.failedFiles == [] then Completed else Raised(FailedFiles(r.stats.failedFiles)))
    ensures r.end.Raised? && r.end.error.FailedFiles? ==>
      r.end.error.files == r.stats.failedFiles && r.stats.failedFiles != []
    ensures r.end.HaltedFailFast? ==> config.failFast
    ensures files != [] && r.end.Completed? ==> r.stats.failedFiles == []
    ensures config.failFast && stats.failedFiles == [] ==> !(r.end.Raised? && r.end.error.FailedFiles?)
    ensures config.dryRun ==> r.stats.totalRecords == stats.totalRecords
    ensures stats.allErrorCodes <= r.stats.allErrorCodes
  {
    if files == [] then RunResult(Completed, stats)
    else
      var p := ProcessFiles(files, config, transport, stats);
      match p.halt
      case Some(end) => RunResult(end, p.stats)
      case None =>
        if p.stats.failedFiles != [] then RunResult(Raised(FailedFiles(p.stats.failedFiles)), p.stats)
        else RunResult(Completed, p.stats)
  }

  /** Skipped files leave no trace: neither the stats nor the outcome of the
      rest of the run depend on them. */
  lemma {:induction false} SkippedFilesVanish(skipped: seq<SourceFile>, files: seq<SourceFile>,
                                              config: Config, transport: seq<ErrorCheck> -> ImportReply,
                                              stats: Stats)
    requires forall i :: 0 <= i < |skipped| ==> Skipped(config, skipped[i])
    ensures ProcessFiles(skipped + files, config, transport, stats) ==
            ProcessFiles(files, config, transport, stats)
    decreases |skipped|
  {
    if skipped == [] {
      assert skipped + files == files;
    } else {
      assert (skipped + files)[0] == skipped[0];
      assert (skipped + files)[1..] == skipped[1..] + files;
      assert forall i :: 1 <= i < |skipped| ==> skipped[i] == skipped[1..][i - 1];
      SkippedFilesVanish(skipped[1..], files, config, transport, stats);
    }
  }

  /** In a dry run one file's effect does not depend on the transport. */
  lemma {:induction false} DryRunFileIgnoresTransport(file: SourceFile, config: Config,
                                   t1: seq<ErrorCheck> -> ImportReply,
                                   t2: seq<ErrorCheck> -> ImportReply, stats: Stats)
    requires config.dryRun
    ensures ProcessFile(file, config, t1, stats) == ProcessFile(file, config, t2, stats)
  {
  }

  /** A dry run never consults the transport: any two transports give the
      same run. */
  lemma {:induction false} DryRunIgnoresTransport(files: seq<SourceFile>, config: Config,
                                                  t1: seq<ErrorCheck> -> ImportReply,
                                                  t2: seq<ErrorCheck> -> ImportReply, stats: Stats)
    requires config.dryRun
    ensures ProcessFiles(files, config, t1, stats) == ProcessFiles(files, config, t2, stats)
    ensures Run(files, config, t1, stats) == Run(files, config, t2, stats)
    decreases |files|
  {
    if files != [] {
      DryRunFileIgnoresTransport(files[0], config, t1, t2, stats);
      match ProcessFile(files[0], config, t1, stats)
      case Stop(_, _) =>
      case Continue(s) => DryRunIgnoresTransport(files[1..], config, t1, t2, s);
    }
  }

  /** A key that is a CSV but does not parse ends the run with its error,
      whatever files follow; nothing after it is processed. */
  lemma {:induction false} BadKeyAbortsRun(file: SourceFile, rest: seq<SourceFile>, config: Config,
                        transport: seq<ErrorCheck> -> ImportReply, stats: Stats)
    requires EndsWith(file.key, CsvSuffix) && CreateFromKey(file.key).Failure?
    ensures Run([file] + rest, config, transport, stats) ==
      RunResult(Raised(BadKey(file.key, CreateFromKey(file.key).error)), stats)
  {
    assert ([file] + rest)[0] == file;
  }

  /** A selected file that fails to load: under `fail_fast` the step stops
      the run, recording nothing; otherwise the file is recorded as failed
      and the loop goes on. */
  lemma {:induction false} FailedLoadStep(file: SourceFile, config: Config,
                       transport: seq<ErrorCheck> -> ImportReply, stats: Stats)
    requires EndsWith(file.key, CsvSuffix) && CreateFromKey(file.key).Success?
    requires ModuleSelected(config.modules, CreateFromKey(file.key).value.moduleName)
    requires var o := LoadErrorCheckCsv(CreateFromKey(file.key).value, file.content, stats).outcome;
      o.ReadFailed? || o.NoErrorChecks? || o.DuplicateCodes?
    ensures var load := LoadErrorCheckCsv(CreateFromKey(file.key).value, file.content, stats);
      ProcessFile(file, config, transport, stats) ==
        if config.failFast then Stop(HaltedFailFast, load.stats)
        else Continue(AddFailedFile(load.stats, file.key))
    ensures LoadErrorCheckCsv(CreateFromKey(file.key).value, file.content, stats).stats.failedFiles
            == stats.failedFiles
  {
  }

  /** The same at the level of the run: under `fail_fast` the run returns at
      once, without recording the file and without raising; otherwise the
      run goes on with the next file, the failed one recorded. */
  lemma {:induction false} FailedLoadHandling(file: SourceFile, rest: seq<SourceFile>, config: Config,
                           transport: seq<ErrorCheck> -> ImportReply, stats: Stats)
    requires EndsWith(file.key, CsvSuffix) && CreateFromKey(file.key).Success?
    requires ModuleSelected(config.modules, CreateFromKey(file.key).value.moduleName)
    requires var o := LoadErrorCheckCsv(CreateFromKey(file.key).value, file.content, stats).outcome;
      o.ReadFailed? || o.NoErrorChecks? || o.DuplicateCodes?
    ensures var load := LoadErrorCheckCsv(CreateFromKey(file.key).value, file.content, stats);
      config.failFast ==>
        Run([file] + rest, config, transport, stats) == RunResult(HaltedFailFast, load.stats) &&
        load.stats.failedFiles == stats.failedFiles
    ensures var load := LoadErrorCheckCsv(CreateFromKey(file.key).value, file.content, stats);
      !config.failFast ==>
        ProcessFiles([file] + rest, config, transport, stats) ==
        ProcessFiles(rest, config, transport, AddFailedFile(load.stats, file.key))
  {
    FailedLoadStep(file, config, transport, stats);
    assert ([file] + rest)[0] == file;
    assert ([file] + rest)[1..] == rest;
  }

  /** A selected file whose records load goes to the remote import: a dry
      run goes on with the stats as loaded, an imported batch adds its count
      to the total, and a connection error raises its message. */
  lemma {:induction false} LoadedFileStep(file: SourceFile, config: Config,
                       transport: seq<ErrorCheck> -> ImportReply, stats: Stats)
    requires EndsWith(file.key, CsvSuffix) && CreateFromKey(file.key).Success?
    requires ModuleSelected(config.modules, CreateFromKey(file.key).value.moduleName)
    requires LoadErrorCheckCsv(CreateFromKey(file.key).value, file.content, stats).outcome.Loaded?
    ensures var load := LoadErrorCheckCsv(CreateFromKey(file.key).value, file.content, stats);
      load.outcome.checks == Accepted(CreateFromKey(file.key).value, file.content.rows)
    ensures var load := LoadErrorCheckCsv(CreateFromKey(file.key).value, file.content, stats);
      config.dryRun ==> ProcessFile(file, config, transport, stats) == Continue(load.stats)
    ensures var load := LoadErrorCheckCsv(CreateFromKey(file.key).value, file.content, stats);
      var reply := transport(load.outcome.checks);
      !config.dryRun && reply.Imported? ==>
        ProcessFile(file, config, transport, stats) == Continue(AddToTotalRecords(load.stats, reply.count))
    ensures var load := LoadErrorCheckCsv(CreateFromKey(file.key).value, file.content, stats);
      var reply := transport(load.outcome.checks);
      !config.dryRun && reply.ConnectionError? ==>
        ProcessFile(file, config, transport, stats) == Stop(Raised(ImportFailed(reply.message)), load.stats)
  {
  }

  /** The same at the level of the run, when the import fails: the run
      ends raising the transport's message, with the stats as loaded. */
  lemma {:induction false} LoadedFileImportFails(file: SourceFile, rest: seq<SourceFile>, config: Config,
                           transport: seq<ErrorCheck> -> ImportReply, stats: Stats)
    requires EndsWith(file.key, CsvSuffix) && CreateFromKey(file.key).Success?
    requires ModuleSelected(config.modules, CreateFromKey(file.key).value.moduleName)
    requires LoadErrorCheckCsv(CreateFromKey(file.key).value, file.content, stats).outcome.Loaded?
    ensures var load := LoadErrorCheckCsv(CreateFromKey(file.key).value, file.content, stats);
      var imported := ImportToRedcap(load.stats, load.outcome.checks, config.dryRun, transport);
      imported.Failure? ==>
        Run([file] + rest, config, transport, stats) ==
        RunResult(Raised(ImportFailed(imported.error)), load.stats)
  {
    var load := LoadErrorCheckCsv(CreateFromKey(file.key).value, file.content, stats);
    var imported := ImportToRedcap(load.stats, load.outcome.checks, config.dryRun, transport);
    LoadedFileStep(file, config, transport, stats);
    var files := [file] + rest;
    assert files[0] == file;
    if imported.Failure? {
      var end := Raised(ImportFailed(imported.error));
      assert ProcessFile(file, config, transport, stats) == Stop(end, load.stats);
      assert ProcessFiles(files, config, transport, stats) == Progress(Some(end), load.stats);
    }
  }

  /** The same at the level of the run, when the import succeeds (always so
      in a dry run): the run goes on with the next file from the stats the
      import left. */
  lemma {:induction false} LoadedFileImported(file: SourceFile, rest: seq<SourceFile>, config: Config,
                           transport: seq<ErrorCheck> -> ImportReply, stats: Stats)
    requires EndsWith(file.key, CsvSuffix) && CreateFromKey(file.key).Success?
    requires ModuleSelected(config.modules, CreateFromKey(file.key).value.moduleName)
    requires LoadErrorCheckCsv(CreateFromKey(file.key).value, file.content, stats).outcome.Loaded?
    ensures var load := LoadErrorCheckCsv(CreateFromKey(file.key).value, file.content, stats);
      var imported := ImportToRedcap(load.stats, load.outcome.checks, config.dryRun, transport);
      imported.Success? ==>
        ProcessFiles([file] + rest, config, transport, stats) ==
        ProcessFiles(rest, config, transport, imported.value)
  {
    var load := LoadErrorCheckCsv(CreateFromKey(file.key).value, file.content, stats);
    var imported := ImportToRedcap(load.stats, load.outcome.checks, config.dryRun, transport);
    LoadedFileStep(file, config, transport, stats);
    var files := [file] + rest;
    assert files[0] == file && files[1..] == rest;
    if imported.Success? {
      assert ProcessFile(file, config, transport, stats) == Continue(imported.value);
    }
  }
}
