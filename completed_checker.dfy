/** `completed_checker.py`: where the compressed JSON-lines files of a Parquet file
    are uploaded (`get_zstd_loc`), and whether all of them are there (`main`). The
    S3 listing is a parameter. Paths are POSIX strings, as `os.path` treats them. */
module CompletedChecker {
  import opened Wrappers
  import opened Strings

  const Prefix := "pretraining-data/sources/the-stack-v2/"
  const JsonlLoc := "jsonl_data"
  const ZstdSuffix := ".jsonl.zstd"

  /** The Python exceptions the modelled code can raise. */
  datatype CheckError = IndexError | AssertionError | ValueError

  /** `str.rfind(c)`: the last position of `c`, or -1. */
  function RFind(s: string, c: char): (i: int)
    ensures -1 <= i < |s|
    ensures i >= 0 ==> s[i] == c
    ensures forall j :: i < j < |s| ==> s[j] != c
  {
    if s == [] then -1
    else if s[|s| - 1] == c then |s| - 1
    else RFind(s[..|s| - 1], c)
  }

  /** `os.path.basename`: everything after the last '/'. */
  function Basename(p: string): (b: string)
    ensures '/' !in b
    ensures |b| <= |p| && p[|p| - |b|..] == b
  {
    p[RFind(p, '/') + 1..]
  }

  /** `str.rstrip(c)` */
  function RStrip(s: string, c: char): string
  {
    if s != [] && s[|s| - 1] == c then RStrip(s[..|s| - 1], c) else s
  }

  predicate AllSlashes(s: string)
  {
    forall i :: 0 <= i < |s| ==> s[i] == '/'
  }

  /** `os.path.dirname`: everything up to the last '/', with trailing slashes removed
      unless the head is made of slashes only. */
  function Dirname(p: string): string
  {
    var head := p[..RFind(p, '/') + 1];
    if head != "" && !AllSlashes(head) then RStrip(head, '/') else head
  }

  /** `os.path.join(a, b)` */
  function PathJoin(a: string, b: string): string
  {
    if |b| > 0 && b[0] == '/' then b
    else if a == "" || a[|a| - 1] == '/' then a + b
    else a + "/" + b
  }

  /** `get_zstd_loc`: `PREFIX/jsonl_data/<pl>/<pl>-<num>`, with `pl` the name of the
      Parquet file's directory and `num` the second '-'-separated field of its name;
      a name without '-' raises IndexError. */
  function GetZstdLoc(pqt: string): (r: Result<string, CheckError>)
    ensures r.Failure? <==> '-' !in Basename(pqt)
    ensures r.Failure? ==> r.error == IndexError
  {
    var parts := Split(Basename(pqt), '-');
    if |parts| < 2 then Failure(IndexError)
    else Success(ZstdLoc(Basename(Dirname(pqt)), parts[1]))
  }

  /** `os.path.join(PREFIX, JSONL_LOC, pl, f"{pl}-{num}")` */
  function ZstdLoc(pl: string, num: string): string
  {
    PathJoin(PathJoin(PathJoin(Prefix, JsonlLoc), pl), pl + "-" + num)
  }

  /** `os.path.join(a, b)` of two relative pieces puts one '/' between them. */
  lemma JoinRelative(a: string, b: string)
    requires a != "" && a[|a| - 1] != '/'
    requires b != "" && b[0] != '/'
    ensures PathJoin(a, b) == a + "/" + b
  {
  }

  /** The joined location has one '/' between pieces; an empty `pl` joins to
      nothing, leaving `<JSONL_LOC>/-<num>`. */
  lemma ZstdLocJoined(pl: string, num: string)
    requires '/' !in pl
    ensures ZstdLoc(pl, num) == if pl == "" then Prefix + JsonlLoc + "/-" + num
                                else Prefix + JsonlLoc + "/" + pl + "/" + pl + "-" + num
  {
    var base := Prefix + JsonlLoc;
    assert Prefix[|Prefix| - 1] == '/' && JsonlLoc[0] == 'j';
    assert PathJoin(Prefix, JsonlLoc) == base;
    assert JsonlLoc[|JsonlLoc| - 1] == 'a';
    assert base[|base| - 1] == 'a';
    if pl == "" {
      assert PathJoin(base, pl) == base + "/";
      assert PathJoin(base + "/", pl + "-" + num) == base + "/" + "-" + num;
    } else {
      assert pl[0] in pl;
      JoinRelative(base, pl);
      var dir := base + "/" + pl;
      assert dir[|dir| - 1] == pl[|pl| - 1];
      assert pl[|pl| - 1] in pl;
      assert (pl + "-" + num)[0] == pl[0];
      JoinRelative(dir, pl + "-" + num);
    }
  }

  /** The upload location spelled out: `pl` is the Parquet file's directory name and
      `num` the field after its first '-', with neither '/' nor '-' in it. */
  lemma ZstdLocValue(pqt: string)
    requires '-' in Basename(pqt)
    ensures var pl, num := Basename(Dirname(pqt)), Split(Basename(pqt), '-')[1];
      && '/' !in pl && '-' !in num && '/' !in num
      && GetZstdLoc(pqt).value == if pl == "" then Prefix + JsonlLoc + "/-" + num
                                  else Prefix + JsonlLoc + "/" + pl + "/" + pl + "-" + num
  {
    var name := Basename(pqt);
    SplitFields(name, '-');
    var num := Split(name, '-')[1];
    assert forall c | c in num :: c in name;
    ZstdLocJoined(Basename(Dirname(pqt)), num);
  }

  /** For a Parquet file `<...>/<lang>/<stem>-<num>[-<rest>]` the location is
      `PREFIX/jsonl_data/<lang>/<lang>-<num>`. */
  lemma ZstdLocOfParquet(front: string, lang: string, stem: string, num: string, rest: string)
    requires front == "" || front[|front| - 1] == '/'
    requires lang != "" && '/' !in lang
    requires '/' !in stem && '-' !in stem && '/' !in num && '-' !in num && '/' !in rest
    requires rest == "" || rest[0] == '-'
    ensures GetZstdLoc(front + lang + "/" + stem + "-" + num + rest)
      == Success(Prefix + JsonlLoc + "/" + lang + "/" + lang + "-" + num)
  {
    var file := stem + "-" + num + rest;
    var pqt := front + lang + "/" + file;
    assert pqt == front + lang + "/" + stem + "-" + num + rest;
    assert '/' !in file;
    ParentDirName(front, lang, file);
    SecondField(stem, num, rest);
    ZstdLocValue(pqt);
  }

  /** The second '-'-separated field of `<stem>-<num>[-<rest>]` is `num`. */
  lemma SecondField(stem: string, num: string, rest: string)
    requires '-' !in stem && '-' !in num && (rest == "" || rest[0] == '-')
    ensures '-' in stem + "-" + num + rest
    ensures Split(stem + "-" + num + rest, '-')[1] == num
  {
    var file := stem + "-" + num + rest;
    assert file[|stem|] == '-';
    SplitSingle(stem, '-');
    SplitSingle(num, '-');
    if rest == "" {
      assert file == stem + ['-'] + num;
      SplitConcat(stem, '-', num);
    } else {
      var more := rest[1..];
      assert file == stem + ['-'] + (num + ['-'] + more);
      SplitConcat(stem, '-', num + ['-'] + more);
      SplitConcat(num, '-', more);
      assert Split(file, '-') == [stem] + ([num] + Split(more, '-'));
    }
  }

  /** The last '/' of `dir + "/" + name` is the one before `name`. */
  lemma RFindLast(dir: string, name: string)
    requires '/' !in name
    ensures RFind(dir + "/" + name, '/') == |dir|
  {
    RFindSkip(dir + "/", name, '/');
    assert dir + "/" + name == (dir + "/") + name;
  }

  /** Characters other than `c` at the end do not move the last `c`. */
  lemma {:induction false} RFindSkip(s: string, t: string, c: char)
    requires c !in t
    ensures RFind(s + t, c) == RFind(s, c)
    decreases |t|
  {
    if t == [] {
      assert s + t == s;
    } else {
      var u := s + t;
      assert u[..|u| - 1] == s + t[..|t| - 1];
      assert u[|u| - 1] == t[|t| - 1];
      RFindSkip(s, t[..|t| - 1], c);
    }
  }

  /** For `.../<lang>/<file>`, the basename is the file and the basename of the
      dirname is the directory's name. */
  lemma ParentDirName(front: string, lang: string, file: string)
    requires front == "" || front[|front| - 1] == '/'
    requires lang != "" && '/' !in lang && '/' !in file
    ensures Basename(front + lang + "/" + file) == file
    ensures Basename(Dirname(front + lang + "/" + file)) == lang
  {
    var dir := front + lang;
    assert dir[|dir| - 1] == lang[|lang| - 1];
    assert lang[|lang| - 1] in lang;
    DirnameOf(dir, file);
    assert front + lang + "/" + file == dir + "/" + file;
    BasenameOf(dir + "/", file);
    assert (dir + "/") + file == dir + "/" + file;
    BasenameOf(front, lang);
  }

  /** The dirname of `dir + "/" + file` is `dir` when `dir` does not end in '/'. */
  lemma DirnameOf(dir: string, file: string)
    requires dir != "" && dir[|dir| - 1] != '/' && '/' !in file
    ensures Dirname(dir + "/" + file) == dir
  {
    var p := dir + "/" + file;
    RFindLast(dir, file);
    var head := p[..|dir| + 1];
    assert head == dir + "/";
    assert head[|dir| - 1] != '/';
    assert !AllSlashes(head);
    assert head[..|head| - 1] == dir;
    assert RStrip(head, '/') == RStrip(dir, '/');
    assert RStrip(dir, '/') == dir;
  }

  /** The keys ending in ".jsonl.zstd", in listing order. */
  function ZstdKeys(keys: seq<string>): (r: seq<string>)
    ensures |r| <= |keys|
    ensures forall i :: 0 <= i < |r| ==> EndsWith(r[i], ZstdSuffix)
  {
    if keys == [] then []
    else (if EndsWith(keys[0], ZstdSuffix) then [keys[0]] else []) + ZstdKeys(keys[1..])
  }

  /** Every key ending in ".jsonl.zstd" is kept, as often as it is listed, and no
      other key is: the count of kept keys is `num_files`. */
  lemma {:induction false} ZstdKeysKept(keys: seq<string>)
    ensures forall k :: k in ZstdKeys(keys) <==> k in keys && EndsWith(k, ZstdSuffix)
    ensures forall k :: multiset(ZstdKeys(keys))[k] ==
                        (if EndsWith(k, ZstdSuffix) then multiset(keys)[k] else 0)
  {
    if keys != [] {
      ZstdKeysKept(keys[1..]);
      assert keys == [keys[0]] + keys[1..];
    }
  }

  /** `int(s)` for an optional sign and ASCII digits. */
  function PyInt(s: string): Option<int>
  {
    if |s| > 0 && (s[0] == '+' || s[0] == '-') then
      if |s| > 1 && AllDigits(s[1..]) then
        var magnitude: int := DecimalValue(s[1..]);
        Some(if s[0] == '-' then -magnitude else magnitude)
      else None
    else if |s| > 0 && AllDigits(s) then Some(DecimalValue(s))
    else None
  }

  /** The file count a key announces: `<...>-of-<N>.<ext>` gives N. */
  function ExpectedTotal(key: string): Result<int, CheckError>
  {
    TotalOfParts(Split(Basename(key), '-'))
  }

  /** Which exception reading a key's total raises: IndexError for a name without
      '-', AssertionError when the field before the last is not "of", and ValueError
      when the last field up to its first '.' is not an integer. */
  lemma ExpectedTotalErrors(key: string)
    ensures var parts := Split(Basename(key), '-');
      && ('-' !in Basename(key) ==> ExpectedTotal(key) == Failure(IndexError))
      && (|parts| >= 2 && parts[|parts| - 2] != "of" ==> ExpectedTotal(key) == Failure(AssertionError))
      && ((|parts| >= 2 && parts[|parts| - 2] == "of" && PyInt(Split(parts[|parts| - 1], '.')[0]).None?)
          ==> ExpectedTotal(key) == Failure(ValueError))
      && (ExpectedTotal(key).Success? ==> |parts| >= 2 && parts[|parts| - 2] == "of")
  {
  }

  /** A key `<front><stem>-<x>-<last>` whose field before the last is not "of" fails
      the assertion, whatever its last field holds. */
  lemma NotOfFails(front: string, stem: string, x: string, last: string)
    requires front == "" || front[|front| - 1] == '/'
    requires '/' !in stem && '/' !in x && '/' !in last
    requires '-' !in x && '-' !in last && x != "of"
    ensures ExpectedTotal(front + stem + "-" + x + "-" + last) == Failure(AssertionError)
  {
    var tail := x + "-" + last;
    var name := stem + "-" + tail;
    assert front + stem + "-" + x + "-" + last == front + name;
    assert '/' !in name;
    BasenameOf(front, name);
    assert name == stem + ['-'] + tail;
    assert tail == x + ['-'] + last;
    SplitConcat(stem, '-', tail);
    SplitConcat(x, '-', last);
    SplitSingle(x, '-');
    SplitSingle(last, '-');
  }

  /** `parts[-2]` must be "of", and `parts[-1]` up to its first '.' is the total. */
  function TotalOfParts(parts: seq<string>): Result<int, CheckError>
  {
    if |parts| < 2 then Failure(IndexError)
    else if parts[|parts| - 2] != "of" then Failure(AssertionError)
    else match PyInt(Split(parts[|parts| - 1], '.')[0])
      case None => Failure(ValueError)
      case Some(total) => Success(total)
  }

  /** The decision of `main` on the listed keys: no ".jsonl.zstd" key means not
      complete; otherwise the first such key tells how many there should be, and the
      Parquet file is complete exactly when that many are listed. */
  function Decide(keys: seq<string>): (r: Result<bool, CheckError>)
    ensures ZstdKeys(keys) == [] ==> r == Success(false)
    ensures r == Success(true) <==>
      ZstdKeys(keys) != [] && ExpectedTotal(ZstdKeys(keys)[0]) == Success(|ZstdKeys(keys)|)
    ensures r.Failure? <==> ZstdKeys(keys) != [] && ExpectedTotal(ZstdKeys(keys)[0]).Failure?
    ensures r.Failure? ==> r.error == ExpectedTotal(ZstdKeys(keys)[0]).error
  {
    var files := ZstdKeys(keys);
    if |files| == 0 then Success(false)
    else match ExpectedTotal(files[0])
      case Failure(e) => Failure(e)
      case Success(total) => Success(|files| == total)
  }

  /** `main`: list the keys under the upload location and decide. */
  function Completed(bucket: string, pqt: string, listFiles: (string, string) -> seq<(string, int)>)
    : (r: Result<bool, CheckError>)
    ensures GetZstdLoc(pqt).Failure? ==> r == Failure(GetZstdLoc(pqt).error)
    ensures GetZstdLoc(pqt).Success? ==>
      r == Decide(Keys(listFiles(bucket, GetZstdLoc(pqt).value)))
  {
    match GetZstdLoc(pqt)
    case Failure(e) => Failure(e)
    case Success(zstdLoc) => Decide(Keys(listFiles(bucket, zstdLoc)))
  }

  function Keys(files: seq<(string, int)>): (keys: seq<string>)
    ensures |keys| == |files| && forall i :: 0 <= i < |files| ==> keys[i] == files[i].0
  {
    if files == [] then [] else [files[0].0] + Keys(files[1..])
  }

  lemma {:induction false} ZstdKeysAppend(a: seq<string>, b: seq<string>)
    ensures ZstdKeys(a + b) == ZstdKeys(a) + ZstdKeys(b)
  {
    if a == [] {
      assert a + b == b;
    } else {
      assert (a + b)[1..] == a[1..] + b;
      ZstdKeysAppend(a[1..], b);
    }
  }

  /** A key that does not end in ".jsonl.zstd" changes nothing, wherever it is listed. */
  lemma OtherKeysIgnored(a: seq<string>, key: string, b: seq<string>)
    requires !EndsWith(key, ZstdSuffix)
    ensures Decide(a + [key] + b) == Decide(a + b)
  {
    ZstdKeysAppend(a + [key], b);
    ZstdKeysAppend(a, [key]);
    ZstdKeysAppend(a, b);
    assert ZstdKeys([key]) == [key][1..] == [];
  }

  /** Only the first ".jsonl.zstd" key is read: listings with as many such keys and
      the same first one are decided alike, whatever the other names are. */
  lemma FirstKeyDecides(keys1: seq<string>, keys2: seq<string>)
    requires |ZstdKeys(keys1)| == |ZstdKeys(keys2)| > 0
    requires ZstdKeys(keys1)[0] == ZstdKeys(keys2)[0]
    ensures Decide(keys1) == Decide(keys2)
  {
  }

  /** The last two '-'-separated fields of `<stem>-of-<last>` are "of" and `last`. */
  lemma OfFields(stem: string, last: string)
    requires '-' !in last
    ensures Split(stem + "-of-" + last, '-') == Split(stem, '-') + ["of", last]
  {
    assert stem + "-of-" + last == stem + ['-'] + ("of" + ['-'] + last);
    SplitConcat(stem, '-', "of" + ['-'] + last);
    SplitConcat("of", '-', last);
    SplitSingle("of", '-');
    SplitSingle(last, '-');
  }

  /** The text before the first '.' of `d + ext` is `d`, when `ext` starts with '.'. */
  lemma FirstDotField(d: string, ext: string)
    requires '.' !in d && |ext| > 0 && ext[0] == '.'
    ensures Split(d + ext, '.')[0] == d
  {
    assert d + ext == d + ['.'] + ext[1..];
    SplitConcat(d, '.', ext[1..]);
    SplitSingle(d, '.');
  }

  /** A key written as `<stem>-of-<N><ext>`, with `ext` starting with '.', announces N:
      the count parsed back is the count that was written. */
  lemma ExpectedTotalRoundTrip(front: string, stem: string, n: nat, ext: string)
    requires front == "" || front[|front| - 1] == '/'
    requires '/' !in stem && '/' !in ext && '-' !in ext
    requires |ext| > 0 && ext[0] == '.'
    ensures ExpectedTotal(front + stem + "-of-" + Decimal(n) + ext) == Success(n)
  {
    var d := Decimal(n);
    var key := front + stem + "-of-" + d + ext;
    KeyFields(front, stem, d, ext);
    ExpectedTotalOfFields(key, d + ext, d);
  }

  /** The fields of a key `<front><stem>-of-<d><ext>` that the total is read from. */
  lemma KeyFields(front: string, stem: string, d: string, ext: string)
    requires front == "" || front[|front| - 1] == '/'
    requires '/' !in stem && '/' !in ext && '-' !in ext
    requires |ext| > 0 && ext[0] == '.'
    requires |d| > 0 && AllDigits(d)
    ensures var parts := Split(Basename(front + stem + "-of-" + d + ext), '-');
      |parts| >= 2 && parts[|parts| - 2] == "of" && parts[|parts| - 1] == d + ext
    ensures Split(d + ext, '.')[0] == d
  {
    DigitsHaveNoSeparator(d);
    var name := KeyName(front, stem, d, ext);
    OfFields(stem, d + ext);
    FirstDotField(d, ext);
  }

  /** The name of a key `<front><stem>-of-<d><ext>` is everything after `front`. */
  lemma KeyName(front: string, stem: string, d: string, ext: string) returns (name: string)
    requires front == "" || front[|front| - 1] == '/'
    requires '/' !in stem && '/' !in d && '/' !in ext
    ensures name == stem + "-of-" + (d + ext)
    ensures Basename(front + stem + "-of-" + d + ext) == name
  {
    name := stem + "-of-" + (d + ext);
    assert front + stem + "-of-" + d + ext == front + name;
    BasenameOf(front, name);
  }

  /** Digits are none of the separators a key is split on. */
  lemma DigitsHaveNoSeparator(d: string)
    requires AllDigits(d)
    ensures '/' !in d && '-' !in d && '.' !in d
  {
    assert forall c | c in d :: IsDigit(c);
  }

  /** A key whose name ends in fields "of" and `last`, where `last` starts with the
      digits `d` up to its first '.', announces the value of `d`. */
  lemma ExpectedTotalOfFields(key: string, last: string, d: string)
    requires var parts := Split(Basename(key), '-');
      |parts| >= 2 && parts[|parts| - 2] == "of" && parts[|parts| - 1] == last
    requires Split(last, '.')[0] == d && |d| > 0 && AllDigits(d)
    ensures ExpectedTotal(key) == Success(DecimalValue(d))
  {
    TotalOfOf(Split(Basename(key), '-'), last, d);
  }

  lemma TotalOfOf(parts: seq<string>, last: string, d: string)
    requires |parts| >= 2 && parts[|parts| - 2] == "of" && parts[|parts| - 1] == last
    requires Split(last, '.')[0] == d && |d| > 0 && AllDigits(d)
    ensures TotalOfParts(parts) == Success(DecimalValue(d))
  {
    PyIntDigits(d);
  }

  /** `int()` of plain decimal digits is their value. */
  lemma PyIntDigits(d: string)
    requires |d| > 0 && AllDigits(d)
    ensures PyInt(d) == Some(DecimalValue(d))
  {
    assert IsDigit(d[0]);
  }

  /** The basename of `front + name` is `name` when `name` has no '/'. */
  lemma BasenameOf(front: string, name: string)
    requires front == "" || front[|front| - 1] == '/'
    requires '/' !in name
    ensures Basename(front + name) == name
  {
    if front != "" {
      RFindLast(front[..|front| - 1], name);
      assert front[..|front| - 1] + "/" + name == front + name;
    } else {
      assert front + name == name;
    }
  }
}
