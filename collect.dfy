/** The collection driver of `rust/src/main.rs`: where the blobs of a Parquet file
    live (`extract_blob_loc`), and how its rows are cut into chunks of at most
    `max_lines` rows, each saved under its own numbered file (`process_parquet_file`). */
module Collect {
  import opened Wrappers
  import opened Strings

  /** A `PathBuf`, seen through its components as Rust compares paths: whether it
      starts at the root, and its names. Names are never empty, never "." and never
      hold a '/'. */
  datatype Path = Path(absolute: bool, names: seq<string>)

  predicate ValidName(n: string)
  {
    n != "" && n != "." && '/' !in n
  }

  predicate ValidPath(p: Path)
  {
    forall i :: 0 <= i < |p.names| ==> ValidName(p.names[i])
  }

  /** `Path::parent`: the path without its last component; a root or empty path has none. */
  function Parent(p: Path): Option<Path>
  {
    if p.names == [] then None else Some(Path(p.absolute, p.names[..|p.names| - 1]))
  }

  /** `Path::file_name`: the last component, unless there is none or it is "..". */
  function FileName(p: Path): Option<string>
  {
    if p.names == [] || p.names[|p.names| - 1] == ".." then None
    else Some(p.names[|p.names| - 1])
  }

  /** The names among `pieces`: empty pieces and "." are dropped. */
  function KeepNames(pieces: seq<string>): (names: seq<string>)
    requires forall i :: 0 <= i < |pieces| ==> '/' !in pieces[i]
    ensures forall i :: 0 <= i < |names| ==> ValidName(names[i])
  {
    if pieces == [] then []
    else (if pieces[0] == "" || pieces[0] == "." then [] else [pieces[0]]) + KeepNames(pieces[1..])
  }

  /** The components of a relative path string. */
  function Components(s: string): (names: seq<string>)
    ensures forall i :: 0 <= i < |names| ==> ValidName(names[i])
  {
    SplitFields(s, '/');
    KeepNames(Split(s, '/'))
  }

  /** `Path::join`: a string starting with '/' replaces the path, any other string
      adds its components. */
  function JoinPath(p: Path, s: string): (r: Path)
    ensures ValidPath(p) ==> ValidPath(r)
  {
    if |s| > 0 && s[0] == '/' then Path(true, Components(s)) else Path(p.absolute, p.names + Components(s))
  }

  /** Joining a single name adds exactly that name. */
  lemma JoinName(p: Path, name: string)
    requires ValidName(name)
    ensures JoinPath(p, name) == Path(p.absolute, p.names + [name])
  {
    SplitSingle(name, '/');
    assert KeepNames([name]) == [name] + KeepNames([]);
  }

  datatype BlobLoc = BlobLoc(language: string, number: string, blobDir: Path)

  /** The `unwrap`s of `extract_blob_loc` that can panic, in the order they run. */
  datatype PathPanic = NoParent | NoParentName | NoFileName | NoShardNumber

  /** `extract_blob_loc`: the language is the name of the Parquet file's directory,
      the shard number is the second '-'-separated field of its file name, and the
      blobs live in the directory named by that number inside the language directory.
      A panicking `unwrap` is a `Failure`. */
  function ExtractBlobLoc(pqt: Path): (r: Result<BlobLoc, PathPanic>)
    requires ValidPath(pqt)
    ensures r == Failure(NoParent) <==> pqt.names == []
    ensures r.Success? <==>
      |pqt.names| >= 2 && pqt.names[|pqt.names| - 2] != ".." &&
      pqt.names[|pqt.names| - 1] != ".." && '-' in pqt.names[|pqt.names| - 1]
    ensures r.Success? ==>
      var parent, filename := Parent(pqt).value, pqt.names[|pqt.names| - 1];
      var first := Split(filename, '-')[0];
      var n := |first| + 1 + |r.value.number|;
      && FileName(parent) == Some(r.value.language)
      && '-' !in r.value.number && '/' !in r.value.number
      && n <= |filename| && filename[..n] == first + "-" + r.value.number
      && (n == |filename| || filename[n] == '-')
      && r.value.blobDir == JoinPath(parent, r.value.number)
  {
    match Parent(pqt)
    case None => Failure(NoParent)
    case Some(parent) =>
      match FileName(parent)
      case None => Failure(NoParentName)
      case Some(language) =>
        match FileName(pqt)
        case None => Failure(NoFileName)
        case Some(filename) =>
          var fields := Split(filename, '-');
          if |fields| < 2 then Failure(NoShardNumber)
          else
            SplitFields(filename, '-');
            SplitSecondField(filename, '-');
            Success(BlobLoc(language, fields[1], JoinPath(parent, fields[1])))
  }

  /** The blob directory sits inside the language directory, under the shard number. */
  lemma BlobDirInLanguageDir(pqt: Path)
    requires ValidPath(pqt) && ExtractBlobLoc(pqt).Success?
    requires ValidName(ExtractBlobLoc(pqt).value.number) && ExtractBlobLoc(pqt).value.number != ".."
    ensures var loc := ExtractBlobLoc(pqt).value;
      Parent(loc.blobDir) == Parent(pqt) &&
      FileName(loc.blobDir) == Some(loc.number) &&
      FileName(Parent(loc.blobDir).value) == Some(loc.language)
  {
    var loc := ExtractBlobLoc(pqt).value;
    var parent := Parent(pqt).value;
    JoinName(parent, loc.number);
    assert (parent.names + [loc.number])[..|parent.names|] == parent.names;
  }

  /** `rows.chunks(k)`: consecutive runs of `k` rows, the last one possibly shorter. */
  function Chunks<T>(rows: seq<T>, k: nat): (cs: seq<seq<T>>)
    requires k > 0
    ensures forall i :: 0 <= i < |cs| ==> 0 < |cs[i]| <= k
    ensures forall i :: 0 <= i < |cs| - 1 ==> |cs[i]| == k
    ensures Flatten(cs) == rows
    decreases |rows|
  {
    if rows == [] then []
    else if |rows| <= k then
      assert Flatten([rows]) == rows + Flatten([]);
      [rows]
    else
      var cs := [rows[..k]] + Chunks(rows[k..], k);
      assert cs[1..] == Chunks(rows[k..], k);
      assert rows == rows[..k] + rows[k..];
      cs
  }

  function Flatten<T>(css: seq<seq<T>>): seq<T>
  {
    if css == [] then [] else css[0] + Flatten(css[1..])
  }

  lemma MulAtLeast(d: int, k: int)
    requires d >= 1 && k > 0
    ensures d * k >= k
  {
  }

  /** Division is determined by quotient and remainder. */
  lemma DivUnique(n: int, k: int, q: int, m: int)
    requires k > 0 && n == q * k + m && 0 <= m < k
    ensures n / k == q
  {
    var q', m' := n / k, n % k;
    assert n == q' * k + m';
    assert (q - q') * k == m' - m;
    if q > q' {
      MulAtLeast(q - q', k);
    } else if q < q' {
      MulAtLeast(q' - q, k);
    }
  }

  lemma DivStep(a: nat, k: nat)
    requires k > 0
    ensures (a + k) / k == a / k + 1
  {
    var q, m := a / k, a % k;
    assert a == q * k + m;
    assert a + k == (q + 1) * k + m;
    DivUnique(a + k, k, q + 1, m);
  }

  /** There are ceil(n / k) chunks. */
  lemma {:induction false} ChunksCount<T>(rows: seq<T>, k: nat)
    requires k > 0
    ensures |Chunks(rows, k)| == (|rows| + k - 1) / k
    decreases |rows|
  {
    if rows == [] {
      DivUnique(k - 1, k, 0, k - 1);
    } else if |rows| <= k {
      DivUnique(|rows| + k - 1, k, 1, |rows| - 1);
    } else {
      ChunksCount(rows[k..], k);
      DivStep(|rows| - k + k - 1, k);
    }
  }

  /** `{:04}`: the decimal spelling of `k`, left-padded with zeros to four digits. */
  function Pad4(k: nat): (s: string)
    ensures |s| >= 4 && AllDigits(s)
    ensures |s| > 4 ==> s[0] != '0'
    ensures DecimalValue(s) == k
  {
    var d := Decimal(k);
    if |d| < 4 then
      LeadingZeros(4 - |d|, d);
      Zeros(4 - |d|) + d
    else d
  }

  /** The file a chunk is saved to: `{pqt_number}_{chunk_num:04}.jsonl.gz`. */
  function ChunkFileName(number: string, chunkNum: nat): string
  {
    number + "_" + Pad4(chunkNum) + ".jsonl.gz"
  }

  /** Different chunk numbers give different file names. */
  lemma ChunkFileNameInjective(number: string, i: nat, j: nat)
    requires ChunkFileName(number, i) == ChunkFileName(number, j)
    ensures i == j
  {
    var a, b := ChunkFileName(number, i), ChunkFileName(number, j);
    var lo := |number| + 1;
    assert |Pad4(i)| == |Pad4(j)|;
    assert a[lo..lo + |Pad4(i)|] == Pad4(i);
    assert b[lo..lo + |Pad4(j)|] == Pad4(j);
  }

  /** `local_jsonl_dir/language/{pqt_number}_{chunk_num:04}.jsonl.gz` */
  function ChunkPath(localJsonlDir: Path, language: string, number: string, chunkNum: nat): Path
  {
    JoinPath(JoinPath(localJsonlDir, language), ChunkFileName(number, chunkNum))
  }

  /** A chunk file name is a single path component. */
  lemma ChunkFileNameIsName(number: string, k: nat)
    requires '/' !in number
    ensures ValidName(ChunkFileName(number, k))
  {
    var p := Pad4(k);
    assert forall i :: 0 <= i < |p| ==> p[i] != '/';
    var name := ChunkFileName(number, k);
    assert |name| > 1;
    assert forall c | c in name :: c in number || c in "_" || c in p || c in ".jsonl.gz";
  }

  /** Different chunks of one Parquet file never share an output path. */
  lemma ChunkPathsDistinct(localJsonlDir: Path, language: string, number: string, i: nat, j: nat)
    requires '/' !in number
    requires i != j
    ensures ChunkPath(localJsonlDir, language, number, i) != ChunkPath(localJsonlDir, language, number, j)
  {
    var dir := JoinPath(localJsonlDir, language);
    var a, b := ChunkFileName(number, i), ChunkFileName(number, j);
    ChunkFileNameIsName(number, i);
    ChunkFileNameIsName(number, j);
    JoinName(dir, a);
    JoinName(dir, b);
    if a == b {
      ChunkFileNameInjective(number, i, j);
    }
    assert (dir.names + [a])[|dir.names|] == a;
    assert (dir.names + [b])[|dir.names|] == b;
  }

  /** `process_row`: the placeholder row step, which hands its row back. */
  function ProcessRow(row: nat, blobLoc: Path): nat
  {
    row
  }

  /** What `save_processed_chunk` is given: the output path and the processed rows. */
  datatype SavedChunk = SavedChunk(outputPath: Path, rows: seq<nat>)

  datatype ProcessError = BadParquetPath(reason: PathPanic) | ZeroMaxLines

  function SavedRows(saved: seq<SavedChunk>): (r: seq<seq<nat>>)
    ensures |r| == |saved| && forall i :: 0 <= i < |saved| ==> r[i] == saved[i].rows
  {
    if saved == [] then [] else [saved[0].rows] + SavedRows(saved[1..])
  }

  /** The chunks as saved: every row once, in order, ceil(n / max_lines) chunks of at
      most max_lines rows, and no two under the same path. */
  predicate SavedAsChunked(saved: seq<SavedChunk>, rows: seq<nat>, maxLines: nat,
                           localJsonlDir: Path, loc: BlobLoc)
    requires maxLines > 0
  {
    && |saved| == |Chunks(rows, maxLines)| == (|rows| + maxLines - 1) / maxLines
    && Flatten(SavedRows(saved)) == rows
    && (forall i :: 0 <= i < |saved| ==>
          && saved[i].rows == Chunks(rows, maxLines)[i]
          && 0 < |saved[i].rows| <= maxLines
          && saved[i].outputPath == ChunkPath(localJsonlDir, loc.language, loc.number, i))
    && (forall i, j :: 0 <= i < j < |saved| ==> saved[i].outputPath != saved[j].outputPath)
  }

  /** The first `n` chunks, each with the path `pathOf` gives its position. */
  function Planned(pathOf: nat -> Path, chunks: seq<seq<nat>>, n: nat): (r: seq<SavedChunk>)
    requires n <= |chunks|
    ensures |r| == n
  {
    if n == 0 then []
    else Planned(pathOf, chunks, n - 1) + [SavedChunk(pathOf(n - 1), chunks[n - 1])]
  }

  lemma {:induction false} PlannedAt(pathOf: nat -> Path, chunks: seq<seq<nat>>, n: nat, i: nat)
    requires i < n <= |chunks|
    ensures Planned(pathOf, chunks, n)[i] == SavedChunk(pathOf(i), chunks[i])
  {
    if i < n - 1 {
      PlannedAt(pathOf, chunks, n - 1, i);
    }
  }

  lemma SavedChunksFacts(saved: seq<SavedChunk>, rows: seq<nat>, maxLines: nat,
                         localJsonlDir: Path, loc: BlobLoc)
    requires maxLines > 0 && '/' !in loc.number
    requires |saved| == |Chunks(rows, maxLines)|
    requires forall i :: 0 <= i < |saved| ==>
      saved[i] == SavedChunk(ChunkPath(localJsonlDir, loc.language, loc.number, i), Chunks(rows, maxLines)[i])
    ensures SavedAsChunked(saved, rows, maxLines, localJsonlDir, loc)
  {
    ChunksCount(rows, maxLines);
    assert SavedRows(saved) == Chunks(rows, maxLines);
    forall i, j | 0 <= i < j < |saved|
      ensures saved[i].outputPath != saved[j].outputPath
    {
      ChunkPathsDistinct(localJsonlDir, loc.language, loc.number, i, j);
    }
  }

  /** The inner loop of `process_parquet_file`: every row of the chunk goes through
      `process_row`, in order, so the processed chunk is the chunk itself. */
  method ProcessChunk(chunk: seq<nat>, blobLoc: Path) returns (processedChunk: seq<nat>)
    ensures processedChunk == chunk
  {
    processedChunk := [];
    for j := 0 to |chunk|
      invariant processedChunk == chunk[..j]
    {
      processedChunk := processedChunk + [ProcessRow(chunk[j], blobLoc)];
    }
    assert chunk[..|chunk|] == chunk;
  }

  /** The chunk loop of `process_parquet_file`: chunk `k` of the rows, processed row
      by row, goes to the path numbered `k`, and the counter moves on by one. */
  method SaveChunks(rows: seq<nat>, maxLines: nat, localJsonlDir: Path, loc: BlobLoc)
    returns (saved: seq<SavedChunk>)
    requires maxLines > 0 && '/' !in loc.number
    ensures SavedAsChunked(saved, rows, maxLines, localJsonlDir, loc)
  {
    var chunks := Chunks(rows, maxLines);
    ghost var pathOf := (k: nat) => ChunkPath(localJsonlDir, loc.language, loc.number, k);
    saved := [];
    var chunkNum := 0;
    while chunkNum < |chunks|
      invariant chunkNum <= |chunks|
      invariant saved == Planned(pathOf, chunks, chunkNum)
    {
      var processedChunk := ProcessChunk(chunks[chunkNum], loc.blobDir);
      var outputPath := ChunkPath(localJsonlDir, loc.language, loc.number, chunkNum);
      saved := saved + [SavedChunk(outputPath, processedChunk)];
      chunkNum := chunkNum + 1;
    }
    forall i | 0 <= i < |saved|
      ensures saved[i] == SavedChunk(ChunkPath(localJsonlDir, loc.language, loc.number, i), chunks[i])
    {
      PlannedAt(pathOf, chunks, |chunks|, i);
    }
    SavedChunksFacts(saved, rows, maxLines, localJsonlDir, loc);
  }

  /** `process_parquet_file`, with the rows it would load as a parameter: chunk `k`
      of the rows, processed row by row, is saved under chunk number `k`.
      `max_lines == 0` panics in `chunks`. */
  method ProcessParquetFile(pqt: Path, maxLines: nat, localJsonlDir: Path, rows: seq<nat>)
    returns (r: Result<seq<SavedChunk>, ProcessError>)
    requires ValidPath(pqt)
    ensures ExtractBlobLoc(pqt).Failure? ==> r == Failure(BadParquetPath(ExtractBlobLoc(pqt).error))
    ensures ExtractBlobLoc(pqt).Success? && maxLines == 0 ==> r == Failure(ZeroMaxLines)
    ensures ExtractBlobLoc(pqt).Success? && maxLines > 0 ==>
      r.Success? && SavedAsChunked(r.value, rows, maxLines, localJsonlDir, ExtractBlobLoc(pqt).value)
  {
    var blobLoc := ExtractBlobLoc(pqt);
    if blobLoc.Failure? {
      r := Failure(BadParquetPath(blobLoc.error));
      return;
    }
    var loc := blobLoc.value;
    if maxLines == 0 {
      r := Failure(ZeroMaxLines);
      return;
    }
    var saved := SaveChunks(rows, maxLines, localJsonlDir, loc);
    r := Success(saved);
  }
}
