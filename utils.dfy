/** File-type validation (modules/utils.py) and the extension test that
    routes a file to the `.pptx` reader or to the legacy reader. */
module FileTypes {
  import opened Strings

  /** The two exceptions `validate_file_type` may raise. */
  datatype FileError =
    | FileNotFound(path: string)
    | InvalidFileType(ext: string, expected: seq<string>)

  datatype Result<T> = Ok(value: T) | Err(error: FileError)

  predicate IsSep(c: char) {
    c == '/' || c == '\\'
  }

  /** Index of the last character of `s` satisfying the test, or -1. */
  function LastSep(s: string): (r: int)
    ensures -1 <= r < |s|
    ensures r >= 0 ==> IsSep(s[r])
    ensures forall j :: r < j < |s| ==> !IsSep(s[j])
  {
    if |s| == 0 then -1 else if IsSep(s[|s| - 1]) then |s| - 1 else LastSep(s[..|s| - 1])
  }

  function LastDot(s: string): (r: int)
    ensures -1 <= r < |s|
    ensures r >= 0 ==> s[r] == '.'
    ensures forall j :: r < j < |s| ==> s[j] != '.'
  {
    if |s| == 0 then -1 else if s[|s| - 1] == '.' then |s| - 1 else LastDot(s[..|s| - 1])
  }

  /** `os.path.splitext(p)[1]` with Windows path separators ('\' and '/'):
      from the last '.' of the final path component, provided that component
      has a character other than '.' before it; otherwise "". */
  function Ext(p: string): (e: string)
    ensures e == "" || (e[0] == '.' && EndsWith(p, e))
    ensures forall j :: 0 <= j < |e| ==> !IsSep(e[j])
    ensures forall j :: 1 <= j < |e| ==> e[j] != '.'
  {
    var sepIndex := LastSep(p);
    var dotIndex := LastDot(p);
    if dotIndex > sepIndex && exists k :: sepIndex + 1 <= k < dotIndex && p[k] != '.'
    then p[dotIndex..]
    else ""
  }

  /** The extension compared by `validate_file_type`: lowercased, without its dot. */
  function ExtName(p: string): string {
    var e := Lower(Ext(p));
    if e == "" then "" else e[1..]
  }

  /** `e.lower().lstrip('.')` */
  function NormalizeExt(e: string): (r: string)
    ensures |r| == 0 || r[0] != '.'
  {
    var l := Lower(e);
    StripDots(l)
  }

  function StripDots(s: string): (r: string)
    ensures |r| <= |s| && r == s[|s| - |r|..]
    ensures |r| == 0 || r[0] != '.'
  {
    if |s| > 0 && s[0] == '.' then StripDots(s[1..]) else s
  }

  function NormalizeAll(exts: seq<string>): (r: seq<string>)
    ensures |r| == |exts|
    ensures forall i :: 0 <= i < |exts| ==> r[i] == NormalizeExt(exts[i])
  {
    seq(|exts|, i requires 0 <= i < |exts| => NormalizeExt(exts[i]))
  }

  /** `validate_file_type(file_path, valid_extensions, raise_exception)`;
      `isFile` is `os.path.isfile(file_path)`. */
  function ValidateFileType(path: string, isFile: bool, validExts: seq<string>, raiseException: bool): (r: Result<bool>)
    ensures !isFile ==> r == (if raiseException then Err(FileNotFound(path)) else Ok(false))
    ensures isFile && !raiseException ==> r == Ok(ExtName(path) in NormalizeAll(validExts))
    ensures isFile && raiseException ==>
      r == (if ExtName(path) in NormalizeAll(validExts) then Ok(true)
            else Err(InvalidFileType(Lower(Ext(path)), NormalizeAll(validExts))))
  {
    if !isFile then
      if raiseException then Err(FileNotFound(path)) else Ok(false)
    else
      var ext := Lower(Ext(path));
      var normalized := NormalizeAll(validExts);
      var isValid := (if ext == "" then "" else ext[1..]) in normalized;
      if !isValid && raiseException then Err(InvalidFileType(ext, normalized))
      else Ok(isValid)
  }

  /** Lowercasing a path never changes where its extension starts. */
  lemma {:induction false} ExtOfLower(p: string)
    ensures Ext(Lower(p)) == Lower(Ext(p))
  {
    LastSepLower(p);
    LastDotLower(p);
    var l := Lower(p);
    var sepIndex := LastSep(p);
    var dotIndex := LastDot(p);
    if dotIndex > sepIndex {
      assert (exists k :: sepIndex + 1 <= k < dotIndex && p[k] != '.') <==>
             (exists k :: sepIndex + 1 <= k < dotIndex && l[k] != '.');
      assert Lower(p[dotIndex..]) == l[dotIndex..];
    }
  }

  lemma {:induction false} LastSepLower(p: string)
    ensures LastSep(Lower(p)) == LastSep(p)
  {
    if |p| > 0 {
      assert Lower(p)[..|p| - 1] == Lower(p[..|p| - 1]);
      LastSepLower(p[..|p| - 1]);
    }
  }

  lemma {:induction false} LastDotLower(p: string)
    ensures LastDot(Lower(p)) == LastDot(p)
  {
    if |p| > 0 {
      assert Lower(p)[..|p| - 1] == Lower(p[..|p| - 1]);
      LastDotLower(p[..|p| - 1]);
    }
  }

  /** Two strings that are equal up to ASCII letter case. */
  predicate SameIgnoringCase(a: string, b: string) {
    Lower(a) == Lower(b)
  }

  /** The extension compared is the same for two paths that differ only in
      letter case. */
  lemma ExtNameIgnoresCase(p: string, q: string)
    requires SameIgnoringCase(p, q)
    ensures ExtName(p) == ExtName(q)
  {
    ExtOfLower(p);
    ExtOfLower(q);
    LowerIdempotent(Ext(p));
    LowerIdempotent(Ext(q));
  }

  lemma NormalizeIgnoresCase(a: string, b: string)
    requires SameIgnoringCase(a, b)
    ensures NormalizeExt(a) == NormalizeExt(b)
  {
  }

  /** Changing the letter case of the path or of any allowed extension never
      changes the verdict. */
  lemma ValidateIgnoresCase(p: string, q: string, isFile: bool, xs: seq<string>, ys: seq<string>, raiseException: bool)
    requires SameIgnoringCase(p, q) && |xs| == |ys|
    requires forall i :: 0 <= i < |xs| ==> SameIgnoringCase(xs[i], ys[i])
    ensures isFile ==> ValidateFileType(p, isFile, xs, raiseException) == ValidateFileType(q, isFile, ys, raiseException)
    ensures ValidateFileType(p, isFile, xs, raiseException).Ok? == ValidateFileType(q, isFile, ys, raiseException).Ok?
  {
    ExtNameIgnoresCase(p, q);
    ExtOfLower(p);
    ExtOfLower(q);
    LowerIdempotent(Ext(p));
    LowerIdempotent(Ext(q));
    assert NormalizeAll(xs) == NormalizeAll(ys);
  }

  /** Leading dots and letter case of an allowed extension do not matter:
      ".PPTX", "pptx" and "..pptx" are the same entry. */
  lemma NormalizeExtLeadingDot(e: string)
    ensures NormalizeExt("." + e) == NormalizeExt(e)
  {
    assert Lower("." + e) == "." + Lower(e);
    assert ("." + Lower(e))[1..] == Lower(e);
  }

  lemma LowerPptx()
    ensures Lower(".PPTX") == ".pptx" && Lower(".pptx") == ".pptx"
  {
    assert LowerChar('P') == 'p' && LowerChar('T') == 't' && LowerChar('X') == 'x';
    assert LowerChar('p') == 'p' && LowerChar('t') == 't' && LowerChar('x') == 'x';
    assert LowerChar('.') == '.';
  }

  lemma NormalizeExamples()
    ensures NormalizeExt(".PPTX") == "pptx"
    ensures NormalizeExt(".pptx") == "pptx"
  {
    LowerPptx();
    assert ".pptx"[1..] == "pptx";
    assert StripDots("pptx") == "pptx";
  }

  /** An extensionless file compares as "", so it is accepted only when the
      list has an entry that normalises to "". */
  lemma ExtensionlessFile(p: string, xs: seq<string>)
    requires Ext(p) == ""
    ensures ValidateFileType(p, true, xs, false) == Ok("" in NormalizeAll(xs))
  {
  }

  /** The router's test (`os.path.splitext(path.lower())[1] == '.pptx'`): it
      lowercases before taking the extension, yet selects exactly the paths
      whose extension, lowercased, is ".pptx". */
  function IsPptx(path: string): (b: bool)
    ensures b <==> Lower(Ext(path)) == ".pptx"
  {
    ExtOfLower(path);
    Ext(Lower(path)) == ".pptx"
  }

  /** The eight formats the front ends accept. */
  const SupportedFormats: seq<string> := [".ppt", ".pptx", ".pot", ".potx", ".pps", ".ppsx", ".pptm", ".pdf"]

  lemma PptxInSupported()
    ensures "pptx" in NormalizeAll(SupportedFormats)
  {
    NormalizeExamples();
    assert NormalizeAll(SupportedFormats)[1] == NormalizeExt(".pptx");
  }

  /** Every `.pptx` path that exists passes validation against the supported formats. */
  lemma PptxIsSupported(p: string)
    requires IsPptx(p)
    ensures ValidateFileType(p, true, SupportedFormats, false) == Ok(true)
  {
    ExtOfLower(p);
    LowerIdempotent(Ext(p));
    assert ExtName(p) == "pptx";
    PptxInSupported();
  }
}
