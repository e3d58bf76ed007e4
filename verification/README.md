# Error-check CSV import, modelled in Dafny

This project models the error-check import tool of the NACC REDCap API
repository. The tool lists every object-store key that starts with `CSV`. The prefix has no slash, so a key such as `CSVX/a.csv` is listed too; its first segment is not `CSV`, so `create_from_key` rejects it and the run aborts (`ErrorCheckKeys.OtherTopLevelRejected`, `Importer.BadKeyAbortsRun`). For each error-check CSV file the tool:

- parses the object key into an `ErrorCheckKey`;
- validates the header and every row with `ErrorCheckCSVVisitor` and `read_csv`;
- rejects files that re-use an error code already seen in the run (`ErrorCheckImportStats`);
- imports the validated records into REDCap, unless this is a dry run;
- finally raises an error listing every file that failed.

The project also models `REDCapEmailList.__pull_email_list_from_redcap`, which indexes a REDCap report's records by their email column.

Files, one module each:

| file | module | models |
|---|---|---|
| `results.dfy` | `Results` | `Option` and `Result`, standing for `None` and raised exceptions |
| `strings.dfy` | `Strings` | the Python `str` operations the code relies on: `split`, `join`, `startswith`, `endswith`, `in`, `lower` |
| `keys.dfy` | `ErrorCheckKeys` | `ErrorCheckKey.create_from_key`, `get_visit_type` |
| `stats.dfy` | `ImportStats` | `ErrorCheckImportStats` |
| `visitor.dfy` | `CsvVisitor` | `REQUIRED_HEADERS`, `ALLOWED_EMPTY_FIELDS`, `visit_header`, `visit_row`, `read_csv` |
| `importer.dfy` | `Importer` | `load_error_check_csv`, `import_to_redcap`, `run` |
| `email_list.dfy` | `EmailList` | `__pull_email_list_from_redcap` |

Everything is a pure function over immutable values:

- The mutable stats object is threaded through as a `Stats` value.
- The visitor's list of validated records is threaded the same way.
- Where Python raises, the model returns a `Failure` or a `Raised` run end.
- A CSV file is given as the `DictReader` view of it (`CsvInput`):
  - `EmptyInput`;
  - or a header, the rows read, and whether a `csv.Error` cut the file short.
- The object-store listing is a sequence of `SourceFile`s, in listing order.
- REDCap's `import_records` is a `transport` function from the batch to an `ImportReply`.
- The email report's records are a parameter, in place of the call to `get_report_records`.

### Behaviour of the code worth knowing

- `add_error_codes` compares each code only with the codes recorded before the call. A code repeated inside one file is therefore not reported as a duplicate (`ImportStats.RepeatWithinOneCallNotReported`).
- Under `fail_fast`, a file that fails to load makes `run` return at once. It does not record the file and does not raise (`Importer.FailedLoadHandling`).
- A CSV key that `create_from_key` cannot parse is not caught in `run`: it aborts the whole run (`Importer.BadKeyAbortsRun`).
- Four-segment keys other than `CSV/ENROLL/...` fail the `assert module == 'ENROLL'`. That is an `AssertionError`, not a `ValueError` (`ErrorCheckKeys.FourSegmentsNeedEnroll`, `ErrorCheckKeys.CreateFromKey`).
- A filename without `_` makes `filename.split('_')[1]` raise `IndexError`. That is also not a `ValueError` (`ErrorCheckKeys.FormNameOf`, `ErrorCheckKeys.CreateFromKey`).
- The `packet` header is excused only when the key has no packet at all. An enrollment key has none. A five-segment key with an empty packet segment is not excused, although `visit_row` then skips every packet check (`CsvVisitor.EmptyPacketNotExcused`).
- `importer.py` uses several names it never binds:
  - the module-level `boto3` and `type_adapter`;
  - `self.__dry_run`, `self.__fail_fast` and `self.__modules`, which `__init__` never sets;
  - `stats` in `run`;
  - `full_path` in `import_to_redcap`.

  The model reads each as its evident intent: the run's settings (`Config`) and the importer's own stats object.

## Model

| member | source | states |
|---|---|---|
| Strings.Split | tools/redcap_error_checks_import/src/python/redcap_error_checks_import/utils/utils.py:41 | `str.split` on one character: at least one piece, no piece holds the separator, and joining the pieces gives the input back |
| Strings.SplitJoin | tools/redcap_error_checks_import/src/python/redcap_error_checks_import/utils/utils.py:41 | the other round trip: splitting the join of separator-free pieces recovers the pieces |
| Strings.SplitWithoutSeparator | tools/redcap_error_checks_import/src/python/redcap_error_checks_import/utils/utils.py:49 | a string without the separator splits into itself alone |
| Strings.SplitAfterPiece | tools/redcap_error_checks_import/src/python/redcap_error_checks_import/utils/utils.py:41-43 | a separator-free first segment is the first piece of the split |
| Strings.ContainsIffOccurs | tools/redcap_error_checks_import/src/python/redcap_error_checks_import/utils/visitor.py:101 | the substring test `in` holds iff the substring occurs at some position |
| Strings.Lower | tools/redcap_error_checks_import/src/python/redcap_error_checks_import/utils/utils.py:51 | `lower()`: same length, upper-case ASCII letters shifted to lower case, all else kept, no upper-case letter left |
| ErrorCheckKeys.SecondToken | tools/redcap_error_checks_import/src/python/redcap_error_checks_import/utils/utils.py:49 | there is a second `_`-token iff the filename holds `_`, and the token holds no `_` |
| ErrorCheckKeys.FormNameOf | tools/redcap_error_checks_import/src/python/redcap_error_checks_import/utils/utils.py:48-51 | the form name is the second `_`-token, except that `header` gives `<module lower-cased>_header`; a filename without `_` raises |
| ErrorCheckKeys.SecondTokenOf | tools/redcap_error_checks_import/src/python/redcap_error_checks_import/utils/utils.py:49 | `filename.split('_')[1]` stated without splitting: the second token of `<first>_<token>` followed by nothing or by `_...` is `<token>` |
| ErrorCheckKeys.FormNameOfFilename | tools/redcap_error_checks_import/src/python/redcap_error_checks_import/utils/utils.py:48-51 | the form name of `<first>_<token>...` is `<token>`, or `<module lower-cased>_header` when the token is `header` |
| ErrorCheckKeys.CreateFromKey | tools/redcap_error_checks_import/src/python/redcap_error_checks_import/utils/utils.py:32-75 | a first segment other than `CSV` is rejected first, and exactly those; a segment count other than 4 or 5 is the "Cannot parse" error, and exactly those; a five-segment key fails with the `IndexError` iff its filename holds no `_`, naming that filename; a four-segment key fails the enrollment assertion iff its module is not `ENROLL`, naming that module; a parsed key records the full key; its fields hold no `/` and put back together give the key; five segments give the packet and the form name of the filename; four give the `ENROLL` module, form `enrl` and no packet |
| ErrorCheckKeys.ParseFiveSegmentKey | tools/redcap_error_checks_import/src/python/redcap_error_checks_import/utils/utils.py:46-59 | converse direction: every `CSV/<module>/<version>/<packet>/<filename>` whose filename holds `_` parses to exactly its segments |
| ErrorCheckKeys.ParseEnrollKey | tools/redcap_error_checks_import/src/python/redcap_error_checks_import/utils/utils.py:60-70 | every `CSV/ENROLL/<version>/<filename>` parses, with no packet and form `enrl` |
| ErrorCheckKeys.FourSegmentsNeedEnroll | tools/redcap_error_checks_import/src/python/redcap_error_checks_import/utils/utils.py:60-62 | a four-segment key under any other module fails the enrollment assertion, which is not a `ValueError` |
| ErrorCheckKeys.ThreeSegmentKeyIsMalformed | tools/redcap_error_checks_import/test/python/test_utils.py:22-33 | `CSV/badmodule/test.csv` raises the "Cannot parse" error naming the key |
| ErrorCheckKeys.MalformedKeyNamesKey | tools/redcap_error_checks_import/src/python/redcap_error_checks_import/utils/utils.py:72-75 | the "Cannot parse" error is a `ValueError` whose message contains the offending key |
| ErrorCheckKeys.OtherTopLevelRejected | tools/redcap_error_checks_import/src/python/redcap_error_checks_import/utils/utils.py:41-44 | a key whose first segment is not `CSV` raises the `ValueError` "Expected CSV at top level of S3 key", whatever follows |
| ErrorCheckKeys.VisitType | tools/redcap_error_checks_import/src/python/redcap_error_checks_import/utils/utils.py:77-89 | no visit type iff the packet is missing or empty; `i4vp` iff the packet is `I4`; `fvp` iff it starts with `F`; `ivp` for every other non-empty packet |
| ErrorCheckKeys.VisitTypeOfPacket | tools/redcap_error_checks_import/test/python/test_utils.py:44-60 | the visit type of a parsed five-segment key follows its packet segment |
| ErrorCheckKeys.EnrollKeyHasNoVisitType | tools/redcap_error_checks_import/test/python/test_utils.py:62-67 | a parsed enrollment key has no visit type |
| ImportStats.DuplicatesAgainstCounts | tools/redcap_error_checks_import/src/python/redcap_error_checks_import/utils/utils.py:142-145 | each code is reported once per occurrence in the input when it was recorded before, and never otherwise |
| ImportStats.DuplicatesAgainstEmpty | tools/redcap_error_checks_import/src/python/redcap_error_checks_import/utils/utils.py:142-145 | nothing is reported iff no input code was recorded before |
| ImportStats.DuplicatesAgainstAppend | tools/redcap_error_checks_import/src/python/redcap_error_checks_import/utils/utils.py:143-145 | the duplicates of a concatenation are those of each part, in input order |
| ImportStats.AddErrorCodes | tools/redcap_error_checks_import/src/python/redcap_error_checks_import/utils/utils.py:132-148 | all input codes are appended, duplicates included; the reported duplicates are exactly the input codes already recorded, with multiplicity; total and failed files are untouched |
| ImportStats.AddErrorCodesTwice | tools/redcap_error_checks_import/src/python/redcap_error_checks_import/utils/utils.py:132-148 | two calls record what one call on the concatenation records, but the second call also reports codes the first recorded |
| ImportStats.RepeatWithinOneCallNotReported | tools/redcap_error_checks_import/test/python/test_utils.py:84-91 | a code given twice in one call is not reported; given in two calls, the second reports it |
| ImportStats.AddToTotalRecords | tools/redcap_error_checks_import/src/python/redcap_error_checks_import/utils/utils.py:116-122 | the total grows by the given amount and nothing else changes |
| ImportStats.AddFailedFile | tools/redcap_error_checks_import/src/python/redcap_error_checks_import/utils/utils.py:124-130 | the file is appended after the earlier ones and nothing else changes |
| CsvVisitor.MissingAmong | tools/redcap_error_checks_import/src/python/redcap_error_checks_import/utils/visitor.py:44-53 | a header is logged as missing iff it is required, absent, and not the `packet` of a key without a packet |
| CsvVisitor.VisitHeader | tools/redcap_error_checks_import/src/python/redcap_error_checks_import/utils/visitor.py:36-55 | true iff every required header is present, `packet` being excused only for a key without a packet |
| CsvVisitor.EmptyFieldErrorsNone | tools/redcap_error_checks_import/src/python/redcap_error_checks_import/utils/visitor.py:82-86 | no "cannot be empty" error iff no required, not-allowed-empty field is present and empty |
| CsvVisitor.PacketErrorsNone | tools/redcap_error_checks_import/src/python/redcap_error_checks_import/utils/visitor.py:98-108 | no packet error iff, for a key with a non-empty packet, the error code contains the visit type and the row's packet is the key's |
| CsvVisitor.RowAcceptedIff | tools/redcap_error_checks_import/src/python/redcap_error_checks_import/utils/visitor.py:82-108 | the row gets no logged error iff it passes every rule: non-empty required fields, matching form name, error code prefixed by the form name, and the packet rules |
| CsvVisitor.Project | tools/redcap_error_checks_import/src/python/redcap_error_checks_import/utils/visitor.py:110-115 | the upload record has exactly the required columns the row has, with the row's values |
| CsvVisitor.ProjectionDropsExtras | tools/redcap_error_checks_import/src/python/redcap_error_checks_import/utils/visitor.py:14-18 | for a row with every required column, the record keeps exactly those columns and drops the rest; projecting twice changes nothing |
| CsvVisitor.VisitRow | tools/redcap_error_checks_import/src/python/redcap_error_checks_import/utils/visitor.py:71-118 | a row is accepted iff it passes every rule; an accepted row appends its projection; a rejected row appends nothing |
| CsvVisitor.EmptyErrorCodeRejected | tools/redcap_error_checks_import/src/python/redcap_error_checks_import/utils/visitor.py:83-86 | a row with an empty `error_code` is rejected whatever else it holds |
| CsvVisitor.EmptyPacketNotExcused | tools/redcap_error_checks_import/src/python/redcap_error_checks_import/utils/visitor.py:44-53 | a key with an empty packet still needs the `packet` header and has no visit type, but its rows skip every packet check |
| CsvVisitor.AcceptedCons | tools/redcap_error_checks_import/src/python/redcap_error_checks_import/utils/visitor.py:110-116 | the records from a non-empty run of rows are the first row's record, if accepted, followed by the rest's records |
| CsvVisitor.VisitRows | tools/redcap_error_checks_import/src/python/redcap_error_checks_import/utils/visitor.py:150-153 | every row is visited whatever the earlier ones gave; the result is true iff every row is accepted; the records are those of the accepted rows, in order |
| CsvVisitor.ReadCsv | tools/redcap_error_checks_import/src/python/redcap_error_checks_import/utils/visitor.py:121-158 | empty input, no header or a rejected header fail without visiting rows; otherwise the result is true iff every row is accepted and no parse error cut the file short |
| CsvVisitor.AcceptedAppend | tools/redcap_error_checks_import/src/python/redcap_error_checks_import/utils/visitor.py:151-153 | the records of a concatenation of rows are those of each part, in turn |
| CsvVisitor.RejectedRowDoesNotStopReading | tools/redcap_error_checks_import/src/python/redcap_error_checks_import/utils/visitor.py:151-153 | a rejected row contributes nothing and the rows after it are still collected |
| CsvVisitor.AllAcceptedKeepsEveryRow | tools/redcap_error_checks_import/src/python/redcap_error_checks_import/utils/visitor.py:110-116 | when every row is accepted, there is one record per row, each the projection of the row at the same position |
| Importer.ErrorCodes | tools/redcap_error_checks_import/src/python/redcap_error_checks_import/importer.py:107 | the list of error codes exists iff every record has `error_code`, and then lists them in record order |
| Importer.LoadValidated | tools/redcap_error_checks_import/src/python/redcap_error_checks_import/importer.py:101-113 | no records means rejection with stats untouched; a record without `error_code` raises, and only then; otherwise every code goes to duplicate detection and stays recorded, and the records load iff none of their codes was recorded before; a rejection reports exactly the duplicates duplicate detection returns |
| Importer.LoadErrorCheckCsv | tools/redcap_error_checks_import/src/python/redcap_error_checks_import/importer.py:80-113 | a failed read, and only that, is `ReadFailed`; a clean read with no records, and only that, is `NoErrorChecks`; the `KeyError` is raised iff a read record lacks `error_code`; otherwise the file loads iff none of its codes was recorded before, yielding exactly the visitor's records; a duplicate rejection reports exactly the duplicates duplicate detection returns, yet keeps every code recorded; the total and the failed files never change |
| Importer.DuplicatesAreRecorded | tools/redcap_error_checks_import/src/python/redcap_error_checks_import/importer.py:106-111 | every duplicate reported was recorded before the call |
| Importer.CollectKeepsColumn | tools/redcap_error_checks_import/src/python/redcap_error_checks_import/utils/visitor.py:110-115 | a required column every row holds is in every collected record |
| Importer.AlignedFileHasErrorCodes | tools/redcap_error_checks_import/src/python/redcap_error_checks_import/importer.py:107 | when every row carries the header's columns, the `KeyError` on `error_code` cannot happen |
| Importer.ImportToRedcap | tools/redcap_error_checks_import/src/python/redcap_error_checks_import/importer.py:115-132 | a dry run changes nothing; otherwise an imported count is added to the total and nothing else changes; a connection error is raised with its message |
| Importer.ProcessFile | tools/redcap_error_checks_import/src/python/redcap_error_checks_import/importer.py:144-166 | a non-CSV key or an unselected module changes nothing; codes only grow; the failed files are unchanged, or, without `fail_fast`, gain exactly this CSV key; a dry run imports nothing; a stop is `fail_fast` or a raise other than the final report; a `fail_fast` stop happens only under `fail_fast`; a selected file whose records load goes on with the stats the import leaves, or stops raising the import's failure with the stats as loaded |
| Importer.ProcessFiles | tools/redcap_error_checks_import/src/python/redcap_error_checks_import/importer.py:144-166 | across the loop codes and failed files only grow; under `fail_fast` no file is recorded as failed; a dry run imports nothing; only listed CSV keys are recorded as failed; the loop halts without raising only under `fail_fast` |
| Importer.Run | tools/redcap_error_checks_import/src/python/redcap_error_checks_import/importer.py:134-173 | an empty listing does nothing; otherwise the run ends with the loop's stats, ends as the loop halted if it halted, and, if it did not, raises the final error listing exactly the failed files when there are any and completes when there are none; `fail_fast` from fresh stats never raises that error; returning early without raising happens only under `fail_fast`; a dry run imports nothing |
| Importer.FailedFilesReportLines | tools/redcap_error_checks_import/src/python/redcap_error_checks_import/importer.py:169-171 | the final error's text, split into lines, is the title `Failed to import the following:` followed by the failed files in order |
| Importer.SkippedFilesVanish | tools/redcap_error_checks_import/src/python/redcap_error_checks_import/importer.py:145-150 | files passed over for their suffix or module leave no trace on the rest of the run |
| Importer.DryRunIgnoresTransport | tools/redcap_error_checks_import/src/python/redcap_error_checks_import/importer.py:121-123 | a dry run never consults REDCap: any two transports give the same run |
| Importer.BadKeyAbortsRun | tools/redcap_error_checks_import/src/python/redcap_error_checks_import/importer.py:148 | a CSV key that does not parse ends the run with its error and nothing after it is processed |
| Importer.FailedLoadStep | tools/redcap_error_checks_import/src/python/redcap_error_checks_import/importer.py:157-164 | a selected file that fails to load stops the run under `fail_fast` and is otherwise recorded as failed; loading it added no failed file |
| Importer.FailedLoadHandling | tools/redcap_error_checks_import/src/python/redcap_error_checks_import/importer.py:157-164 | under `fail_fast` such a file makes the run return without raising and without recording it; otherwise the run goes on with the file recorded |
| Importer.LoadedFileStep | tools/redcap_error_checks_import/src/python/redcap_error_checks_import/importer.py:155-166 | a selected file whose records load is imported: the loaded records are exactly the visitor's; a dry run goes on with the stats as loaded; an imported batch goes on with its count added to the total; a connection error stops the step raising its message |
| Importer.LoadedFileImportFails | tools/redcap_error_checks_import/src/python/redcap_error_checks_import/importer.py:155-166 | when that import fails, the run ends raising the transport's message, with the stats as loaded |
| Importer.LoadedFileImported | tools/redcap_error_checks_import/src/python/redcap_error_checks_import/importer.py:155-166 | when that import succeeds, the run goes on with the next file from the stats the import left |
| EmailList.PullFirst | common/src/python/redcap_api/redcap_email_list.py:45-50 | after the first `n` records the loop succeeds iff they all have the email column and no email repeats; the map then has one entry per record, keyed by its email; otherwise the error names the first faulty record |
| EmailList.PullEmailList | common/src/python/redcap_api/redcap_email_list.py:34-52 | success iff every record has the email column and every email is unique; the map then has exactly the records' emails as keys, one entry per record, each record under its own email; otherwise the error is the first missing column or repeated email |
| EmailList.RepeatedEmail | common/src/python/redcap_api/redcap_email_list.py:48-49 | the first record repeating an earlier email is the one reported, with that email |
| EmailList.MissingColumn | common/src/python/redcap_api/redcap_email_list.py:47 | the first record without the email column raises, at its position |

## Left out

- Logging is not modelled: every `log.*` call, the line numbers passed to `visit_row`, and `log_row_error`'s messages. The errors themselves are modelled as the `RowError` set.
- Only the `DictReader` view of a file is modelled: CSV parsing, the 1024-character sample and the UTF-8 decoding are not.
  - A short row (missing cells become `None`) and a long row (extra cells under the `None` key) are not modelled: every row is a `map<string, string>`.
  - A `csv.Error` while reading the header is not modelled. It happens outside the `try` and would escape `read_csv`.
- S3 and SSM are not modelled: `boto3`, the parameter store, `build_full_path`, `json.dumps`, and the REDCap project object. The listing is a parameter, and `import_records` is the `transport` parameter.
- The `NameError`s that `importer.py`'s unbound names would raise are not modelled. These are `stats` in `run` and `full_path` in `import_to_redcap`. Each name is modelled as its evident intent (see above).
- The importer's constructor and `entrypoint.py` are not part of this model. Neither is the rest of `REDCapEmailList` (its constructor, the `email_list` property, `create`).
- CsvVisitor.VisitRow: an empty row under a key with a non-empty form name is modelled as a rejected row. In `visit_row` the loop variable `field` is then never bound, so the form-name check's `log_row_error(line_num, field, ...)` raises `UnboundLocalError`. `DictReader` never yields an empty row under a non-empty header, so this case does not arise from a file.
- Strings.Lower: covers ASCII `A`–`Z` only, not Python's full Unicode `str.lower`. Module names in keys are ASCII in practice.
- ErrorCheckKeys.KeyError: the `Message` of the failed enrollment assertion is the empty text of a bare `AssertionError`.
- Importer.ProcessFiles: the loop order is the listing order given as input. The object store's own ordering is not modelled.
- Totals are unbounded integers. Python's integers do not overflow either, so nothing is lost.
