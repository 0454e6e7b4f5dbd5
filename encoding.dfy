/** The decoding half of `rust/src/io.rs` (`decode_to_string`): a label is resolved
    to a decoder through a fixed table, then the bytes are decoded and the result
    is accepted only when the decoder reports no error. The decoders themselves
    (encoding_rs and the oem_cp tables) are parameters. */
module EncodingResolver {
  import opened Wrappers

  type byte = bv8

  /** The encoding_rs encodings the table can pick. */
  datatype Encoding =
    | Big5 | EucJp | EucKr | Gb18030 | ShiftJis
    | Iso8859_2 | Iso8859_3 | Iso8859_4 | Iso8859_5 | Iso8859_6 | Iso8859_7 | Iso8859_8
    | Iso8859_10 | Iso8859_13 | Iso8859_14 | Iso8859_15 | Iso8859_16
    | Koi8R | Koi8U | Macintosh | XMacCyrillic | Utf16Be | Utf8
    | Windows874 | Windows1250 | Windows1251 | Windows1252 | Windows1253
    | Windows1254 | Windows1255 | Windows1256 | Windows1257 | Windows1258

  /** The DOS code pages decoded through a complete oem_cp lookup table. */
  datatype OemTable = Cp852 | Cp855 | Cp866

  datatype Decoder = Standard(encoding: Encoding) | CompleteTable(table: OemTable)

  datatype DecodeError = BadEncoding(encodingName: string) | DecodingFailed(encodingName: string)

  /** The external decoders: `decode` gives the text and whether anything had to be
      replaced; a complete table maps every byte, so it never fails. */
  datatype Codecs = Codecs(
    decode: (Encoding, seq<byte>) -> (string, bool),
    decodeTable: (OemTable, seq<byte>) -> string)

  function UpperChar(c: char): char
  {
    if 'a' <= c <= 'z' then (c as int - 32) as char else c
  }

  /** `str::to_uppercase`, restricted to ASCII letters. */
  function AsciiUpper(s: string): (u: string)
    ensures |u| == |s|
  {
    seq(|s|, i requires 0 <= i < |s| => UpperChar(s[i]))
  }

  /** The three labels compared before any case folding. */
  function OemLabel(encodingName: string): Option<OemTable>
  {
    match encodingName
    case "IBM852" => Some(Cp852)
    case "IBM855" => Some(Cp855)
    case "IBM866" => Some(Cp866)
    case _ => None
  }

  /** The table for an upper-cased label. "ISO-8859-9" and "ISO-8859-11" go through
      `Encoding::for_label`, which answers with windows-1254 and windows-874 as the
      WHATWG Encoding Standard lists those labels under them. */
  function UpperTable(upper: string): Option<Encoding>
  {
    match upper
    case "BIG5" => Some(Big5)
    case "EUC-JP" => Some(EucJp)
    case "GB18030" => Some(Gb18030)
    case "ISO-8859-1" => Some(Windows1252)
    case "ISO-8859-2" | "ISO8859-2" => Some(Iso8859_2)
    case "ISO-8859-3" | "ISO8859-3" => Some(Iso8859_3)
    case "ISO-8859-4" | "ISO8859-4" => Some(Iso8859_4)
    case "ISO-8859-5" | "ISO8859-5" => Some(Iso8859_5)
    case "ISO-8859-6" | "ISO8859-6" => Some(Iso8859_6)
    case "ISO-8859-7" | "ISO8859-7" => Some(Iso8859_7)
    case "ISO-8859-8" | "ISO8859-8" => Some(Iso8859_8)
    case "ISO-8859-9" | "ISO8859-9" => Some(Windows1254)
    case "ISO-8859-10" | "ISO8859-10" => Some(Iso8859_10)
    case "ISO-8859-11" | "ISO8859-11" => Some(Windows874)
    case "ISO-8859-13" | "ISO8859-13" => Some(Iso8859_13)
    case "ISO-8859-14" | "ISO8859-14" => Some(Iso8859_14)
    case "ISO-8859-15" | "ISO8859-15" => Some(Iso8859_15)
    case "ISO-8859-16" | "ISO8859-16" => Some(Iso8859_16)
    case "KOI8-R" | "KOI8R" => Some(Koi8R)
    case "KOI8-U" | "KOI8U" => Some(Koi8U)
    case "MACINTOSH" | "MAC" => Some(Macintosh)
    case "MACCENTRALEUROPE" => Some(Windows1250)
    case "MACCYRILLIC" => Some(XMacCyrillic)
    case "SHIFT_JIS" => Some(ShiftJis)
    case "TIS-620" => Some(Windows874)
    case "UHC" => Some(EucKr)
    case "UTF-16" => Some(Utf16Be)
    case "WINDOWS-874" | "CP874" => Some(Windows874)
    case "WINDOWS-1250" | "CP1250" => Some(Windows1250)
    case "WINDOWS-1251" | "CP1251" => Some(Windows1251)
    case "WINDOWS-1252" | "CP1252" => Some(Windows1252)
    case "WINDOWS-1253" | "CP1253" => Some(Windows1253)
    case "WINDOWS-1254" | "CP1254" => Some(Windows1254)
    case "WINDOWS-1255" | "CP1255" => Some(Windows1255)
    case "WINDOWS-1256" | "CP1256" => Some(Windows1256)
    case "WINDOWS-1257" | "CP1257" => Some(Windows1257)
    case "WINDOWS-1258" | "CP1258" => Some(Windows1258)
    case "UTF-8" | "UTF8" => Some(Utf8)
    case _ => None
  }

  /** The dispatch of `decode_to_string`: the exact IBM labels first, then the
      upper-cased label against the table. */
  function Resolve(encodingName: string): (d: Option<Decoder>)
    ensures d.Some? && d.value.CompleteTable? <==> OemLabel(encodingName).Some?
    ensures OemLabel(encodingName).None? ==>
      (d.Some? <==> UpperTable(AsciiUpper(encodingName)).Some?)
  {
    match OemLabel(encodingName)
    case Some(t) => Some(CompleteTable(t))
    case None =>
      match UpperTable(AsciiUpper(encodingName))
      case Some(e) => Some(Standard(e))
      case None => None
  }

  /** `decode_to_string`. An unknown label fails before anything is decoded; a
      decode that reports errors fails as a whole, so no partial text is returned. */
  function DecodeToString(bytes: seq<byte>, encodingName: string, codecs: Codecs): (r: Result<string, DecodeError>)
    ensures r == Failure(BadEncoding(encodingName)) <==> Resolve(encodingName).None?
    ensures r == Failure(DecodingFailed(encodingName)) <==>
      Resolve(encodingName).Some? && Resolve(encodingName).value.Standard? &&
      codecs.decode(Resolve(encodingName).value.encoding, bytes).1
    ensures r.Success? <==>
      (Resolve(encodingName).Some? &&
       (Resolve(encodingName).value.Standard? ==> !codecs.decode(Resolve(encodingName).value.encoding, bytes).1))
    ensures r.Failure? ==> r.error == BadEncoding(encodingName) || r.error == DecodingFailed(encodingName)
    ensures r.Success? ==>
      match Resolve(encodingName).value
      case CompleteTable(t) => r.value == codecs.decodeTable(t, bytes)
      case Standard(e) => codecs.decode(e, bytes) == (r.value, false)
  {
    match Resolve(encodingName)
    case None => Failure(BadEncoding(encodingName))
    case Some(CompleteTable(t)) => Success(codecs.decodeTable(t, bytes))
    case Some(Standard(e)) =>
      var (text, hadErrors) := codecs.decode(e, bytes);
      if hadErrors then Failure(DecodingFailed(encodingName)) else Success(text)
  }

  lemma {:induction false} AsciiUpperIdempotent(s: string)
    ensures AsciiUpper(AsciiUpper(s)) == AsciiUpper(s)
  {
    var u := AsciiUpper(s);
    forall i | 0 <= i < |s| ensures AsciiUpper(u)[i] == u[i] {
      assert u[i] == UpperChar(s[i]);
    }
  }

  /** Outside the three exact IBM spellings, resolution ignores ASCII case: a label
      resolves as its upper-case form does, unless that form is itself one of the IBM
      spellings (so "ibm866" is not resolved although "IBM866" is). */
  lemma CaseInsensitive(encodingName: string)
    requires OemLabel(encodingName).None? && OemLabel(AsciiUpper(encodingName)).None?
    ensures Resolve(encodingName) == Resolve(AsciiUpper(encodingName))
  {
    AsciiUpperIdempotent(encodingName);
  }

  /** Two labels equal up to ASCII case resolve alike, unless one is an exact IBM spelling. */
  lemma SameUpperSameDecoder(a: string, b: string)
    requires AsciiUpper(a) == AsciiUpper(b)
    requires OemLabel(a).None? && OemLabel(b).None?
    ensures Resolve(a) == Resolve(b)
  {
  }

  /** Every spelling whose upper-case form is a key of the table resolves to that
      key's encoding, whatever the case of its letters. */
  lemma CaseVariantsResolve(encodingName: string, e: Encoding)
    requires UpperTable(AsciiUpper(encodingName)) == Some(e)
    ensures Resolve(encodingName) == Some(Standard(e))
  {
    if OemLabel(encodingName).Some? {
      OemLabelsUpper(encodingName);
      assert false;
    }
  }

  /** The three IBM spellings are their own upper-case forms, and none is a table key. */
  lemma OemLabelsUpper(encodingName: string)
    requires OemLabel(encodingName).Some?
    ensures AsciiUpper(encodingName) == encodingName
    ensures UpperTable(encodingName).None?
  {
    match encodingName
    case "IBM852" => assert AsciiUpper("IBM852") == "IBM852";
    case "IBM855" => assert AsciiUpper("IBM855") == "IBM855";
    case "IBM866" => assert AsciiUpper("IBM866") == "IBM866";
  }

  /** Two labels go through `Encoding::for_label`, which gives Windows code pages. */
  lemma ForLabelEntries()
    ensures Resolve("iso-8859-9") == Some(Standard(Windows1254))
    ensures Resolve("Iso8859-11") == Some(Standard(Windows874))
  {
    assert AsciiUpper("iso-8859-9") == "ISO-8859-9";
    assert AsciiUpper("Iso8859-11") == "ISO8859-11";
  }

  /** The three IBM code pages match only in their exact spelling, and always decode. */
  lemma OemLabelsDecode(bytes: seq<byte>, codecs: Codecs)
    ensures DecodeToString(bytes, "IBM852", codecs) == Success(codecs.decodeTable(Cp852, bytes))
    ensures DecodeToString(bytes, "IBM855", codecs) == Success(codecs.decodeTable(Cp855, bytes))
    ensures DecodeToString(bytes, "IBM866", codecs) == Success(codecs.decodeTable(Cp866, bytes))
    ensures DecodeToString(bytes, "ibm866", codecs) == Failure(BadEncoding("ibm866"))
    ensures DecodeToString(bytes, "Ibm852", codecs) == Failure(BadEncoding("Ibm852"))
  {
    OemOtherCasesRejected(bytes, codecs);
  }

  /** Other spellings of the IBM labels are neither exact labels nor table keys. */
  lemma OemOtherCasesRejected(bytes: seq<byte>, codecs: Codecs)
    ensures DecodeToString(bytes, "ibm866", codecs) == Failure(BadEncoding("ibm866"))
    ensures DecodeToString(bytes, "Ibm852", codecs) == Failure(BadEncoding("Ibm852"))
  {
    assert AsciiUpper("ibm866") == "IBM866";
    assert AsciiUpper("Ibm852") == "IBM852";
  }

  /** "ISO-8859-1" is read as its Windows-1252 superset, in any case; the unhyphenated
      "ISO8859-1" has no entry. */
  lemma Latin1IsWindows1252()
    ensures Resolve("iso-8859-1") == Some(Standard(Windows1252))
    ensures Resolve("ISO8859-1") == None
  {
    assert AsciiUpper("iso-8859-1") == "ISO-8859-1";
    assert AsciiUpper("ISO8859-1") == "ISO8859-1";
  }

  /** "UHC", in any ASCII case, is read as EUC-KR. */
  lemma UhcIsEucKr(name: string)
    requires AsciiUpper(name) == "UHC"
    ensures Resolve(name) == Some(Standard(EucKr))
  {
    assert UpperTable("UHC") == Some(EucKr);
    CaseVariantsResolve(name, EucKr);
  }

  /** "UTF-16" without a byte order, in any ASCII case, is read as big-endian. */
  lemma Utf16IsBigEndian(name: string)
    requires AsciiUpper(name) == "UTF-16"
    ensures Resolve(name) == Some(Standard(Utf16Be))
  {
    assert UpperTable("UTF-16") == Some(Utf16Be);
    CaseVariantsResolve(name, Utf16Be);
  }

  /** "TIS-620" and "CP874" both name Windows-874. */
  lemma ThaiLabels()
    ensures Resolve("tis-620") == Some(Standard(Windows874))
    ensures Resolve("cp874") == Some(Standard(Windows874))
  {
    assert AsciiUpper("tis-620") == "TIS-620";
    assert AsciiUpper("cp874") == "CP874";
  }

  /** ISO-8859-n for n from 2 to 16 accepts the hyphenated and the unhyphenated
      spelling alike; there is no entry for -12. */
  lemma Iso8859Spellings(n: nat)
    requires 2 <= n <= 16
    ensures var hyphen, plain := UpperTable("ISO-8859-" + IsoPart(n)), UpperTable("ISO8859-" + IsoPart(n));
      hyphen == plain && (hyphen.Some? <==> n != 12)
  {
    if n < 10 {
      IsoOneDigitSpellings(n);
    } else {
      IsoTwoDigitSpellings(n);
    }
  }

  /** Parts 2 to 9, whose number is one digit. */
  lemma IsoOneDigitSpellings(n: nat)
    requires 2 <= n < 10
    ensures var hyphen, plain := UpperTable("ISO-8859-" + IsoPart(n)), UpperTable("ISO8859-" + IsoPart(n));
      hyphen == plain && hyphen.Some?
  {
    var p := IsoPart(n);
    assert "ISO-8859-" + p == ['I', 'S', 'O', '-', '8', '8', '5', '9', '-', p[0]];
    assert "ISO8859-" + p == ['I', 'S', 'O', '8', '8', '5', '9', '-', p[0]];
  }

  /** Parts 10 to 16, whose number is two digits; part 12 was never published. */
  lemma IsoTwoDigitSpellings(n: nat)
    requires 10 <= n <= 16
    ensures var hyphen, plain := UpperTable("ISO-8859-" + IsoPart(n)), UpperTable("ISO8859-" + IsoPart(n));
      hyphen == plain && (hyphen.Some? <==> n != 12)
  {
    var p := IsoPart(n);
    assert "ISO-8859-" + p == ['I', 'S', 'O', '-', '8', '8', '5', '9', '-', '1', p[1]];
    assert "ISO8859-" + p == ['I', 'S', 'O', '8', '8', '5', '9', '-', '1', p[1]];
  }

  /** The part number as it is spelled in a label. */
  function IsoPart(n: nat): string
    requires 1 <= n <= 16
  {
    if n < 10 then [('0' as int + n) as char] else ['1', ('0' as int + n - 10) as char]
  }
}
