# the-stack-v2-packager, modelled in Dafny

The packager turns The Stack v2 Parquet shards into compressed JSON-lines files.
This project models the logic of that pipeline in Dafny and proves properties of it:

- **Column materializer** (`rust/src/io.rs`, module `ColumnMaterializer` in
  `materializer.dfy`). One typed Arrow cell becomes a JSON value. Utf8, Int64,
  Boolean and nanosecond Timestamp cells carry over, and a null cell becomes JSON
  null. A list of Utf8 loses its null entries. Every other type is an error. A row
  becomes a JSON object holding the columns whose conversion succeeds. The batches
  become one record per (batch, row), in that order.
- **Encoding resolver** (`decode_to_string` in `rust/src/io.rs`, module
  `EncodingResolver` in `encoding.dfy`). The labels "IBM852", "IBM855" and "IBM866"
  are matched exactly and decoded through a complete lookup table. Every other label
  is upper-cased and looked up in a fixed table. A decode that reports errors is
  rejected as a whole.
- **Collection driver** (`rust/src/main.rs`, module `Collect` in `collect.dfy`).
  The language, shard number and blob directory come from a Parquet file's path.
  The rows are cut into chunks of `max_lines`. Chunk `k` is processed row by row
  and saved as `<local_jsonl_dir>/<language>/<number>_<k:04>.jsonl.gz`.
- **Completeness checker** (`completed_checker.py`, module `CompletedChecker` in
  `completed_checker.dfy`). It derives the upload location of a Parquet file's
  `.jsonl.zstd` files. It decides that the file is complete when the listing holds
  as many of them as the first one's `-of-N` suffix announces.

`strings.dfy` holds the shared text functions: splitting on a character, joining,
and decimal spellings. `wrappers.dfy` holds `Option` and `Result`.

Conventions of the model:

- A Rust panic (`unwrap`, `expect`) and a Python exception are a `Failure` variant
  of a `Result`.
- Rust's `PathBuf` is its component list: whether it is absolute, and its names.
  This is the view Rust's `parent`, `file_name` and `join` work on.
- Python's `os.path` functions work on the path string, as POSIX `posixpath` does.
- Where a loop updates variables in the source, the model is a method with loop
  invariants. It is proved against a specification function, and the properties
  are lemmas about that function. These are the row assembly and the chunk
  loop. The record collection, an iterator chain in the source, is a nested
  loop in the model.

Facts about the code that the model follows:

- Output files are named `{pqt_number}_{chunk_num:04}.jsonl.gz` under
  `<local_jsonl_dir>/<language>/`.
- The code has no missing-blob counter, no abort threshold and no
  single-container gzip assembly with checksum combination.
- The decode failure is one generic error. The `DecodingError` enum at
  `rust/src/io.rs:147-151` is never used.
- The comment at `rust/src/main.rs:60-62` gives the shard number of
  `train-00000-of-00001...` as "0000". The code takes the whole second field,
  "00000", and the model does the same.

## Model

| member | source | states |
|---|---|---|
| ColumnMaterializer.ConvertColumnToJson | rust/src/io.rs:29-108 | Conversion succeeds exactly for Utf8, Int64, Boolean, Timestamp and List-of-Utf8 columns; any other type, a list of non-Utf8 elements included, is an error. The result is JSON null exactly when the type is supported and the cell is null. A non-null cell gives a string, number, bool or array of strings according to its column type. |
| ColumnMaterializer.ScalarCellValue | rust/src/io.rs:34-105 | A non-null Utf8, Int64, Boolean or Timestamp cell becomes exactly its own string, number or bool value. |
| ColumnMaterializer.ListCellValue | rust/src/io.rs:67-94 | A non-null list cell becomes an array. Its length plus the number of null entries equals the list's length. The array holds the list's non-null strings, in list order. A string is in the array exactly when it is a non-null entry of the list. |
| ColumnMaterializer.PresentStringsLength | rust/src/io.rs:83-91 | Kept entries plus dropped nulls make up the whole list. Nothing is dropped exactly when the list has no null entry. |
| ColumnMaterializer.PresentStringsAppend | rust/src/io.rs:83-91 | Dropping nulls distributes over concatenation, so the kept strings stay in their original order. |
| ColumnMaterializer.PresentStringsMembers | rust/src/io.rs:83-91 | A string is kept exactly when the list holds it as a non-null entry. |
| ColumnMaterializer.RowObjectKeys | rust/src/io.rs:125-133 | A key is in a row's object exactly when some column with that field name converts successfully. Columns that fail are left out, and the row is not failed. |
| ColumnMaterializer.RowObjectValue | rust/src/io.rs:127-131 | A column that converts, with no later converting column of the same name, appears under its field name with its converted value. A later insert under the same name overwrites it. |
| ColumnMaterializer.AssembleRow | rust/src/io.rs:125-134 | The insert loop over the columns builds exactly the row object specified by `RowObject`, whose keys and values the two lemmas above describe. |
| ColumnMaterializer.BatchRecordsAt | rust/src/io.rs:123-136 | A batch gives one record per row, and record `r` is the object of row `r`. |
| ColumnMaterializer.RecordsLength | rust/src/io.rs:121-138 | There are exactly as many records as the batches have rows in total. |
| ColumnMaterializer.RecordsAt | rust/src/io.rs:121-138 | Row `r` of batch `b` is the record at position (rows of the batches before `b`) + `r`. The records are in (batch, row) order. |
| ColumnMaterializer.LoadRecords | rust/src/io.rs:121-138 | The nested loop over batches and rows yields exactly the specified record sequence, with one record per row of every batch. |
| EncodingResolver.Resolve | rust/src/io.rs:157-208 | A complete-table decoder is chosen exactly for the three exact IBM labels. Any other label resolves exactly when its upper-case form is a key of the table. |
| EncodingResolver.DecodeToString | rust/src/io.rs:154-221 | The result is a bad-encoding error exactly when the label does not resolve. It is a decoding failure exactly when a standard decoder reports errors. These are its only errors: it succeeds exactly when the label resolves and, for a standard encoding, the decoder reports no errors. The text is then the complete-table text, or the decoder's text. |
| EncodingResolver.AsciiUpperIdempotent | rust/src/io.rs:167 | Upper-casing an upper-cased label changes nothing. |
| EncodingResolver.CaseInsensitive | rust/src/io.rs:157-167 | A label resolves as its upper-case form does, unless the label or its upper-case form is one of the exact IBM spellings. |
| EncodingResolver.SameUpperSameDecoder | rust/src/io.rs:157-167 | Two labels that differ only in ASCII case, neither an exact IBM spelling, resolve to the same decoder. |
| EncodingResolver.CaseVariantsResolve | rust/src/io.rs:167-206 | Every label whose upper-case form is a table key resolves to that key's encoding, in any letter case. |
| EncodingResolver.OemLabelsUpper | rust/src/io.rs:157-165 | The three IBM labels are already upper case, and none of them is a key of the upper-case table. |
| EncodingResolver.OemLabelsDecode | rust/src/io.rs:157-207 | "IBM852", "IBM855" and "IBM866" always decode through their tables. "ibm866" and "Ibm852" give the bad-encoding error. |
| EncodingResolver.ForLabelEntries | rust/src/io.rs:179-181 | "iso-8859-9" resolves to windows-1254 and "Iso8859-11" to windows-874, the encodings the WHATWG Encoding Standard assigns to those labels. |
| EncodingResolver.Latin1IsWindows1252 | rust/src/io.rs:171 | "iso-8859-1" resolves to Windows-1252. The unhyphenated "ISO8859-1" does not resolve. |
| EncodingResolver.UhcIsEucKr | rust/src/io.rs:194 | Any label whose ASCII upper-case form is "UHC" resolves to EUC-KR. |
| EncodingResolver.Utf16IsBigEndian | rust/src/io.rs:195 | Any label whose ASCII upper-case form is "UTF-16" resolves to UTF-16BE. |
| EncodingResolver.ThaiLabels | rust/src/io.rs:193-196 | "tis-620" and "cp874" both resolve to Windows-874. |
| EncodingResolver.Iso8859Spellings | rust/src/io.rs:172-186 | For n from 2 to 16, "ISO-8859-n" and "ISO8859-n" resolve alike, and they resolve exactly when n is not 12. |
| Strings.Split | rust/src/main.rs:67 | Splitting on a character gives at least one field, and exactly one when the character does not occur. |
| Strings.SplitJoin | rust/src/main.rs:67 | Joining the fields with the separator gives back the original text. |
| Strings.SplitFields | rust/src/main.rs:67 | No field contains the separator, and every character of a field comes from the text. |
| Strings.SplitCount | completed_checker.py:72 | There is one field more than the separator has occurrences. |
| Strings.SplitConcat | completed_checker.py:72-74 | The fields of `x + sep + y` are the fields of `x` followed by those of `y`. |
| Collect.JoinPath | rust/src/main.rs:68 | `Path::join` of a valid path gives a valid path: every name is non-empty, not "." and free of '/'. |
| Collect.JoinName | rust/src/main.rs:94 | Joining a single name appends exactly that name and keeps the path's root. |
| Collect.ExtractBlobLoc | rust/src/main.rs:59-69 | A path without components panics at its parent. Success needs at least two components, neither of the last two "..", and a '-' in the file name. The language is the parent's file name. The number is the file name's second '-'-separated field, with no '-' or '/'. The blob directory is the parent joined with the number. |
| Collect.BlobDirInLanguageDir | rust/src/main.rs:60-68 | When the shard number is a proper name (not empty, "." or "..", and without '/'), the blob directory sits next to the Parquet file, inside the language directory, under the shard number. |
| Collect.Chunks | rust/src/main.rs:89 | Every chunk is non-empty and holds at most `max_lines` rows. All but the last hold exactly `max_lines`. Concatenating the chunks gives back the rows. |
| Collect.ChunksCount | rust/src/main.rs:89 | There are ceil(n / max_lines) chunks. |
| Collect.Pad4 | rust/src/main.rs:94 | `{:04}` gives at least four decimal digits, with no leading zero beyond four digits, and reading them back gives the chunk number. This fixes the spelling: exactly four digits below 10000, the plain decimal above. |
| Collect.ChunkFileNameInjective | rust/src/main.rs:94 | Two chunk numbers that give the same file name are equal. |
| Collect.ChunkPathsDistinct | rust/src/main.rs:94 | Different chunks of one Parquet file get different output paths. |
| Collect.SavedChunksFacts | rust/src/main.rs:88-97 | Saving chunk `k` under chunk number `k` has these consequences. There are ceil(n / max_lines) saved chunks. Their rows concatenate back to the input. Each holds between one and `max_lines` rows. All output paths are distinct. |
| Collect.ProcessChunk | rust/src/main.rs:90-93 | The row loop, which calls `process_row` (lines 72-74) on each row, gives back the chunk unchanged, same length and order. |
| Collect.SaveChunks | rust/src/main.rs:88-97 | The chunk loop saves chunk `k` of the rows, after `process_row` has run over it, under the path with chunk number `k`. The counter advances by one per chunk. The result meets every fact `SavedChunksFacts` lists: ceil(n / max_lines) chunks, rows in order, distinct paths. |
| Collect.ProcessParquetFile | rust/src/main.rs:81-99 | A bad Parquet path fails with the panic `extract_blob_loc` raises. `max_lines` = 0 fails, as `chunks(0)` panics. Otherwise the saved chunks satisfy everything `SavedChunksFacts` lists. |
| CompletedChecker.Basename | completed_checker.py:56-57 | `os.path.basename` has no '/' and is a suffix of the path. |
| CompletedChecker.GetZstdLoc | completed_checker.py:55-58 | The location fails exactly when the Parquet file's name has no '-', and the failure is IndexError. |
| CompletedChecker.ZstdLocValue | completed_checker.py:55-58 | The location is `PREFIX/jsonl_data/<pl>/<pl>-<num>`, with `pl` free of '/' and `num` free of '-' and '/'. For an empty `pl` it is `PREFIX/jsonl_data/-<num>`. |
| CompletedChecker.ZstdLocJoined | completed_checker.py:58 | `os.path.join` of the four pieces puts exactly one '/' between them. An empty directory name joins to nothing. |
| CompletedChecker.ParentDirName | completed_checker.py:56 | For `.../<lang>/<file>`, the basename of the dirname is `lang` and the basename is `file`. |
| CompletedChecker.SecondField | completed_checker.py:57 | The second '-'-separated field of `<stem>-<num>[-<rest>]` is `num`. |
| CompletedChecker.ZstdLocOfParquet | completed_checker.py:55-58 | A Parquet file `.../<lang>/<stem>-<num>[-...]` has its files under `PREFIX/jsonl_data/<lang>/<lang>-<num>`. |
| CompletedChecker.ZstdKeys | completed_checker.py:67 | Only keys ending in ".jsonl.zstd" are kept. |
| CompletedChecker.ZstdKeysKept | completed_checker.py:67-70 | A key is kept exactly when it is listed and ends in ".jsonl.zstd". Each such key is kept as often as it is listed, so the number kept is `num_files`, the count of matching keys. |
| CompletedChecker.ZstdKeysAppend | completed_checker.py:67 | The filter distributes over concatenation, so kept keys stay in listing order. |
| CompletedChecker.OtherKeysIgnored | completed_checker.py:67 | A key not ending in ".jsonl.zstd", wherever it is listed, does not change the decision. |
| CompletedChecker.Decide | completed_checker.py:67-76 | With no ".jsonl.zstd" key the answer is False. The answer is True exactly when such keys exist and the first one's announced total equals their number. An exception is raised exactly when the first key's total cannot be read, and it is the exception reading that total raises. |
| CompletedChecker.FirstKeyDecides | completed_checker.py:71 | Only the first ".jsonl.zstd" key is read. Two listings with as many such keys and the same first key are decided alike. |
| CompletedChecker.ExpectedTotalErrors | completed_checker.py:71-74 | Reading a key's total raises IndexError when its name has no '-', AssertionError when the field before the last is not "of", and ValueError when the last field up to its first '.' is not an integer. A total is read only when the field before the last is "of". |
| CompletedChecker.NotOfFails | completed_checker.py:71-73 | A key `<stem>-<x>-<last>` with `x` other than "of" fails the assertion. |
| CompletedChecker.ExpectedTotalRoundTrip | completed_checker.py:71-74 | A key written as `<stem>-of-<N>.<ext>` announces N: the total parsed back is the total written. |
| CompletedChecker.ExpectedTotalOfFields | completed_checker.py:72-74 | The total is read from the last '-'-separated field, up to its first '.', once the field before it is "of". |
| CompletedChecker.Completed | completed_checker.py:65-76 | A location error is raised before anything is listed. Otherwise the answer is the decision on the keys listed under the location. |

## Left out

- Reading Parquet files into Arrow record batches (`rust/src/io.rs:110-117`) is a foreign library. The model starts from the batches.
- The byte decoders of encoding_rs and the oem_cp tables are foreign algorithms. They are a parameter (`Codecs`) returning the text and whether errors occurred.
- EncodingResolver.AsciiUpper: `str::to_uppercase` is Unicode-aware, and the model upper-cases ASCII letters only. A non-ASCII letter whose upper-case form turns the label into a table key is not modelled.
- ColumnMaterializer.ConvertColumnToJson: a timestamp column stored in any unit other than nanoseconds makes the source panic in its downcast. The model requires nanosecond columns instead.
- The parallel iterators of rayon are modelled as sequential loops. Collecting a rayon `par_iter().flat_map(..)` into a `Vec` keeps the sequential order, so the loops give the same records in the same order.
- Reading and writing gzip files (`read_gzip_file`, `write_string_gzip`, `write_bytes`) is file I/O.
- Command-line parsing, `collect` and the `RAYON_NUM_THREADS` setting in `main` are process set-up.
- `collect_parquet_files` and `save_processed_chunk` have no behaviour. The model returns the chunks a save would be given, each with its path.
- Collect.ProcessParquetFile: the rows are a parameter, because the source loads a placeholder empty vector. The chunk counter is unbounded, while the source's `i32` would overflow after 2^31 chunks.
- Collect.ExtractBlobLoc: the `to_str().unwrap()` panics on non-UTF-8 names cannot occur, because names are strings here. A path whose first component is "." is not distinguished from one without it.
- The S3 listing `list_s3_files_with_sizes` and its sorting by key are a parameter of `CompletedChecker.Completed`. Argument parsing and printing are left out.
- CompletedChecker.Decide: Python's `int()` also accepts surrounding whitespace, '_' between digits and any Unicode decimal digit (`int("٣") == 3`). The model reads only an optional sign followed by ASCII digits, so such keys raise ValueError in the model.
- The order of keys in a JSON object is not modelled: an object is a map.
- `make_s5cmd_commands.py` and `download_parquets.py` are pandas, multiprocessing and network scripts with no logic of the packager's own.
