/**
 The guard run on an uploaded file's metadata before its contents are read: the file must have a
 name, an allowed extension and a size within the limit, checked in that order.
 */
module Validators {
  import opened Wrappers
  import opened Text

  /** `MAX_FILE_SIZE`: 10 MiB. */
  const MaxFileSize: int := 10 * 1024 * 1024

  /** `ALLOWED_EXTENSIONS`. */
  const AllowedExtensions: seq<string> := [".csv", ".xlsx", ".xls"]

  /** What the guard reads of an upload: its file name and its size, either of which may be absent. */
  datatype Upload = Upload(filename: Option<string>, size: Option<int>)

  /** An `HTTPException`: its status code and detail message. */
  datatype HttpError = HttpError(status: int, detail: string)

  const NoFileMessage: string := "No se ha subido ningún archivo"
  const BadFormatMessage: string := "Formato no permitido. Use: " + Join(AllowedExtensions, ", ")
  /** `MAX_FILE_SIZE/1024/1024` is 10.0, printed with one decimal. */
  const TooLargeMessage: string := "Archivo demasiado grande. Máximo permitido: 10.0MB"

  /** `'.' + filename.lower().split('.')[-1]`. */
  function Extension(filename: string): string {
    var pieces := Split(Lower(filename), '.');
    "." + pieces[|pieces| - 1]
  }

  /** The size check fires only for a known, non-zero size above the limit. */
  predicate TooLarge(size: Option<int>) {
    size.Some? && size.value != 0 && size.value > MaxFileSize
  }

  /** `validar_archivo_csv(file)`: `Pass` where Python returns None, `Fail` where it raises. */
  function ValidarArchivoCsv(file: Upload): Outcome<HttpError> {
    if file.filename.None? || file.filename.value == "" then Fail(HttpError(400, NoFileMessage))
    else if Extension(file.filename.value) !in AllowedExtensions then Fail(HttpError(400, BadFormatMessage))
    else if TooLarge(file.size) then Fail(HttpError(400, TooLargeMessage))
    else Pass
  }

  /**
   The last piece of `s.split(d)` is the longest suffix of `s` without `d`: it holds no `d` and is
   either all of `s` or preceded by `d`.
   */
  lemma {:induction false} LastPiece(s: string, d: char)
    ensures var p := Split(s, d); var last := p[|p| - 1];
      d !in last && |last| <= |s| && s[|s| - |last|..] == last
      && (|last| < |s| ==> s[|s| - |last| - 1] == d)
  {
    if |s| > 0 {
      var t := s[1..];
      LastPiece(t, d);
      var rest := Split(t, d);
      var last := rest[|rest| - 1];
      if s[0] != d && |rest| == 1 {
        SplitWhole(s, d);
        assert s[0..] == s;
      } else {
        if s[0] != d {
          SplitSingle(t, d);
        }
        SplitLast(s, d);
        LastPieceStep(s, d, last);
      }
    }
  }

  /** A name whose first character is not `d` and whose tail holds no `d` is a single piece. */
  lemma SplitWhole(s: string, d: char)
    requires |s| > 0 && s[0] != d && |Split(s[1..], d)| == 1
    ensures Split(s, d) == [s]
  {
    var t := s[1..];
    SplitSingle(t, d);
    JoinSplit(t, d);
    assert Split(t, d) == [t] && [s[0]] + t == s;
  }

  /** When `s` does not split into one piece, its last piece is the last piece of `s[1..]`. */
  lemma SplitLast(s: string, d: char)
    requires |s| > 0 && (s[0] == d || |Split(s[1..], d)| > 1)
    ensures var p := Split(s, d); var q := Split(s[1..], d); p[|p| - 1] == q[|q| - 1]
  {
  }

  /**
   A dot-free suffix of `s[1..]` that is all of `s[1..]` or preceded by `d` is such a suffix of
   `s` as well, once `d` occurs in `s`.
   */
  lemma LastPieceStep(s: string, d: char, last: string)
    requires |s| > 0 && (s[0] == d || d in s[1..])
    requires d !in last && |last| <= |s| - 1 && s[1..][|s| - 1 - |last|..] == last
    requires |last| < |s| - 1 ==> s[1..][|s| - 1 - |last| - 1] == d
    ensures d !in last && |last| <= |s| && s[|s| - |last|..] == last
    ensures |last| < |s| ==> s[|s| - |last| - 1] == d
  {
    assert s[|s| - |last|..] == s[1..][|s| - 1 - |last|..];
    if |last| == |s| - 1 {
      assert s[1..] == last;
      assert s[0] == d;
    }
  }

  /**
   The extension is "." followed by the longest dot-free suffix of the lower-cased name; a name
   without any dot is entirely that suffix.
   */
  lemma ExtensionIsLastSegment(filename: string)
    ensures var seg := Extension(filename)[1..];
      Extension(filename) == "." + seg
      && '.' !in seg && |seg| <= |filename| && Lower(filename)[|filename| - |seg|..] == seg
      && (|seg| < |filename| ==> Lower(filename)[|filename| - |seg| - 1] == '.')
      && ('.' !in filename ==> seg == Lower(filename))
  {
    LowerFacts(filename);
    LastPiece(Lower(filename), '.');
    if '.' !in filename {
      var seg := Extension(filename)[1..];
      LowerKeepsCaseless(filename, '.');
      assert |seg| == |filename|;
      assert Lower(filename)[0..] == Lower(filename);
    }
  }

  /** Two extensions are equal exactly when their parts after the dot are. */
  lemma DotPrefix(x: string, y: string)
    ensures "." + x == "." + y <==> x == y
  {
    if "." + x == "." + y {
      assert ("." + x)[1..] == x && ("." + y)[1..] == y;
    }
  }

  /** A missing or empty name is refused first, whatever the size. */
  lemma NoNameRejectedFirst(size: Option<int>)
    ensures ValidarArchivoCsv(Upload(None, size)) == Fail(HttpError(400, NoFileMessage))
    ensures ValidarArchivoCsv(Upload(Some(""), size)) == Fail(HttpError(400, NoFileMessage))
  {
  }

  /**
   An upload is accepted exactly when it has a non-empty name whose lower-cased last segment after
   "." is "csv", "xlsx" or "xls", and its size is unknown, zero or at most 10 MiB. The zero case is
   implied by the bound; it is kept to mirror the truthiness test on the size.
   */
  lemma AcceptedIff(file: Upload)
    ensures ValidarArchivoCsv(file).Pass? <==>
      (file.filename.Some? && file.filename.value != ""
       && (Extension(file.filename.value)[1..] == "csv" || Extension(file.filename.value)[1..] == "xlsx"
           || Extension(file.filename.value)[1..] == "xls")
       && (file.size.None? || file.size.value == 0 || file.size.value <= 10485760))
  {
    if file.filename.Some? {
      var e := Extension(file.filename.value);
      assert e == "." + e[1..];
      assert ".csv" == "." + "csv" && ".xlsx" == "." + "xlsx" && ".xls" == "." + "xls";
      DotPrefix(e[1..], "csv");
      DotPrefix(e[1..], "xlsx");
      DotPrefix(e[1..], "xls");
    }
  }

  /** The check does not depend on the case of the name. */
  lemma CaseInsensitive(name: string, size: Option<int>)
    ensures ValidarArchivoCsv(Upload(Some(Lower(name)), size)) == ValidarArchivoCsv(Upload(Some(name), size))
  {
    LowerFacts(name);
    LowerIdempotent(name);
  }

  /** A file of exactly 10 MiB passes the size check; one byte more is refused. */
  lemma SizeBoundary(name: string)
    requires name != "" && Extension(name) in AllowedExtensions
    ensures ValidarArchivoCsv(Upload(Some(name), Some(10485760))) == Pass
    ensures ValidarArchivoCsv(Upload(Some(name), Some(10485761))) == Fail(HttpError(400, TooLargeMessage))
    ensures ValidarArchivoCsv(Upload(Some(name), None)) == Pass
    ensures ValidarArchivoCsv(Upload(Some(name), Some(0))) == Pass
  {
  }

  /** The extension is checked before the size: an oversized file with a bad extension gets the format error. */
  lemma ExtensionBeforeSize(name: string, size: int)
    requires name != "" && Extension(name) !in AllowedExtensions && size > MaxFileSize
    ensures ValidarArchivoCsv(Upload(Some(name), Some(size))) == Fail(HttpError(400, BadFormatMessage))
  {
  }

  /** A name without a dot is all extension: "CSV" passes. */
  lemma ExampleNoDot()
    ensures ValidarArchivoCsv(Upload(Some("CSV"), None)) == Pass
  {
    assert Lower("CSV") == "csv" by {
      assert Lower("CSV")[0] == 'c' && Lower("CSV")[1] == 's' && Lower("CSV")[2] == 'v';
    }
    ExtensionIsLastSegment("CSV");
    assert ".csv" == "." + "csv";
  }

  /** A name ending in a dot has the bare "." as extension: "data." is refused. */
  lemma ExampleTrailingDot()
    ensures ValidarArchivoCsv(Upload(Some("data."), None)) == Fail(HttpError(400, BadFormatMessage))
  {
    ExtensionIsLastSegment("data.");
    var seg := Extension("data.")[1..];
    assert Lower("data.")[4] == '.';
    assert |seg| == 0;
    assert Extension("data.") == ".";
  }

  /** The extension is lower-cased: "Notas.XLSX" passes. */
  lemma ExampleUpperExtension()
    ensures ValidarArchivoCsv(Upload(Some("Notas.XLSX"), Some(2048))) == Pass
  {
    ExtensionNotas();
    assert ".xlsx" == AllowedExtensions[1];
  }

  /** The extension of the upper-case example is the lower-case ".xlsx". */
  lemma ExtensionNotas()
    ensures Extension("Notas.XLSX") == ".xlsx"
  {
    LowerNotas();
    ExtensionIsLastSegment("Notas.XLSX");
    var low := Lower("Notas.XLSX");
    var seg := Extension("Notas.XLSX")[1..];
    assert low[5] == '.';
    assert |seg| == 4;
    assert seg == low[6..] == "xlsx";
    assert ".xlsx" == "." + "xlsx";
  }

  /** The lower-cased name of the upper-case example. */
  lemma LowerNotas()
    ensures Lower("Notas.XLSX") == "notas.xlsx"
  {
    var low := Lower("Notas.XLSX");
    assert low[0] == 'n' && low[1] == 'o' && low[2] == 't' && low[3] == 'a' && low[4] == 's';
    assert low[5] == '.' && low[6] == 'x' && low[7] == 'l' && low[8] == 's' && low[9] == 'x';
  }
}
