/** Text helpers shared by the Rust and the Python parts of the model:
    splitting on a separator character, suffix tests and decimal digits. */
module Strings {

  /** `fields` glued back together with `sep` between neighbours. */
  function Join(fields: seq<string>, sep: char): string
  {
    if |fields| == 0 then ""
    else if |fields| == 1 then fields[0]
    else fields[0] + [sep] + Join(fields[1..], sep)
  }

  /** The fields of `s` between occurrences of `sep`, empty fields kept, as
      Rust's `str::split(char)` yields them and Python's `str.split(sep)` returns them. */
  function Split(s: string, sep: char): (fields: seq<string>)
    ensures |fields| >= 1
    ensures |fields| == 1 <==> sep !in s
    decreases |s|
  {
    if s == [] then [""]
    else
      var rest := Split(s[1..], sep);
      assert s == [s[0]] + s[1..];
      if s[0] == sep then [""] + rest else [[s[0]] + rest[0]] + rest[1..]
  }

  /** Without `sep`, the only field is `s` itself. */
  lemma {:induction false} SplitSingle(s: string, sep: char)
    requires sep !in s
    ensures Split(s, sep) == [s]
    decreases |s|
  {
    if s != [] {
      SplitSingle(s[1..], sep);
      assert s == [s[0]] + s[1..];
    }
  }

  /** Prefixing a character that is not `sep` extends the first field. */
  lemma JoinConsChar(c: char, fields: seq<string>, sep: char)
    requires |fields| >= 1
    ensures Join([[c] + fields[0]] + fields[1..], sep) == [c] + Join(fields, sep)
  {
    var g := [[c] + fields[0]] + fields[1..];
    if |fields| > 1 {
      assert g[1..] == fields[1..];
    }
  }

  /** Splitting and joining again give back the original text. */
  lemma {:induction false} SplitJoin(s: string, sep: char)
    ensures Join(Split(s, sep), sep) == s
    decreases |s|
  {
    if s != [] {
      var rest := Split(s[1..], sep);
      SplitJoin(s[1..], sep);
      if s[0] == sep {
        assert ([""] + rest)[1..] == rest;
      } else {
        JoinConsChar(s[0], rest, sep);
      }
      assert s == [s[0]] + s[1..];
    }
  }

  /** No field contains the separator, and every character of a field comes from `s`. */
  lemma {:induction false} SplitFields(s: string, sep: char)
    ensures forall k :: 0 <= k < |Split(s, sep)| ==> sep !in Split(s, sep)[k]
    ensures forall k, c :: 0 <= k < |Split(s, sep)| && c in Split(s, sep)[k] ==> c in s
    decreases |s|
  {
    if s != [] {
      var rest, f := Split(s[1..], sep), Split(s, sep);
      SplitFields(s[1..], sep);
      assert forall c :: c in s[1..] ==> c in s;
      if s[0] == sep {
        assert forall k :: 0 < k < |f| ==> f[k] == rest[k - 1];
      } else {
        assert forall k :: 0 < k < |f| ==> f[k] == rest[k];
        assert f[0] == [s[0]] + rest[0];
      }
    }
  }

  /** There is one more field than there are separators. */
  lemma {:induction false} SplitCount(s: string, sep: char)
    ensures |Split(s, sep)| == multiset(s)[sep] + 1
    decreases |s|
  {
    if s != [] {
      SplitCount(s[1..], sep);
      assert s == [s[0]] + s[1..];
      assert multiset(s) == multiset([s[0]]) + multiset(s[1..]);
    }
  }

  /** With at least two fields, `s` starts with the first field, one `sep` and the
      second field, and what follows (if anything) starts with `sep` again. */
  lemma SplitSecondField(s: string, sep: char)
    requires |Split(s, sep)| >= 2
    ensures var f := Split(s, sep);
      var n := |f[0]| + 1 + |f[1]|;
      n <= |s| && s[..n] == f[0] + [sep] + f[1] && (n == |s| || s[n] == sep)
  {
    var f := Split(s, sep);
    SplitJoin(s, sep);
    var g := f[1..];
    var tail := if |g| == 1 then "" else [sep] + Join(g[1..], sep);
    assert Join(g, sep) == g[0] + tail;
    assert s == f[0] + [sep] + f[1] + tail;
    var n := |f[0]| + 1 + |f[1]|;
    assert s[..n] == f[0] + [sep] + f[1];
  }

  predicate EndsWith(s: string, suffix: string)
  {
    |suffix| <= |s| && s[|s| - |suffix|..] == suffix
  }

  predicate IsDigit(c: char)
  {
    '0' <= c <= '9'
  }

  predicate AllDigits(s: string)
  {
    forall i :: 0 <= i < |s| ==> IsDigit(s[i])
  }

  function DigitChar(d: nat): (c: char)
    requires d < 10
    ensures IsDigit(c) && c as int - '0' as int == d
  {
    ('0' as int + d) as char
  }

  /** The number a string of decimal digits denotes; leading zeros are allowed. */
  function DecimalValue(s: string): nat
    requires AllDigits(s)
  {
    if s == [] then 0
    else DecimalValue(s[..|s| - 1]) * 10 + (s[|s| - 1] as int - '0' as int)
  }

  /** The shortest decimal spelling of `n`, as Rust's `{}` and Python's `str` print it. */
  function Decimal(n: nat): (s: string)
    ensures 1 <= |s| && AllDigits(s)
    ensures |s| > 1 ==> s[0] != '0'
    ensures DecimalValue(s) == n
  {
    if n < 10 then [DigitChar(n)]
    else
      var s := Decimal(n / 10) + [DigitChar(n % 10)];
      assert s[..|s| - 1] == Decimal(n / 10);
      s
  }

  function Zeros(k: nat): (z: string)
    ensures |z| == k && AllDigits(z)
  {
    if k == 0 then "" else Zeros(k - 1) + "0"
  }

  /** Leading zeros do not change the value of a digit string. */
  lemma {:induction false} LeadingZeros(k: nat, s: string)
    requires AllDigits(s)
    ensures AllDigits(Zeros(k) + s) && DecimalValue(Zeros(k) + s) == DecimalValue(s)
    decreases |s|, k
  {
    var t := Zeros(k) + s;
    if s == [] {
      if k > 0 {
        assert t[..|t| - 1] == Zeros(k - 1);
        LeadingZeros(k - 1, "");
        assert Zeros(k - 1) + "" == Zeros(k - 1);
      }
    } else {
      assert t[..|t| - 1] == Zeros(k) + s[..|s| - 1];
      LeadingZeros(k, s[..|s| - 1]);
    }
  }

  /** The fields of `x + [sep] + y` are those of `x` followed by those of `y`. */
  lemma {:induction false} SplitConcat(x: string, sep: char, y: string)
    ensures Split(x + [sep] + y, sep) == Split(x, sep) + Split(y, sep)
    decreases |x|
  {
    var s := x + [sep] + y;
    if x == [] {
      assert s[1..] == y;
    } else {
      assert s[0] == x[0] && s[1..] == x[1..] + [sep] + y;
      SplitConcat(x[1..], sep, y);
      SplitConsStep(x[0], Split(x[1..], sep), Split(y, sep), sep);
    }
  }

  /** The step of `Split` on a first character, applied to a concatenation of fields. */
  lemma SplitConsStep(c: char, r: seq<string>, ry: seq<string>, sep: char)
    requires |r| >= 1
    ensures (if c == sep then [""] + (r + ry) else [[c] + (r + ry)[0]] + (r + ry)[1..]) ==
      (if c == sep then [""] + r else [[c] + r[0]] + r[1..]) + ry
  {
    if c != sep {
      assert (r + ry)[1..] == r[1..] + ry;
    }
  }
}
