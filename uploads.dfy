/** The multer configuration of the signup form (the student-id document) and of
    the profile form (the photo): a file is accepted when both the extension of its
    original name and its declared type pass an unanchored test against the allowed
    alternatives, and when it is no larger than the limit. */
module Uploads {
  import opened Wrappers
  import opened Text
  import opened Http

  function LastIndexOf(s: string, c: char): (r: Option<nat>)
    ensures r.Some? ==> r.value < |s| && s[r.value] == c && forall j :: r.value < j < |s| ==> s[j] != c
    ensures r.None? ==> c !in s
  {
    if s == [] then None
    else if s[|s| - 1] == c then Some(|s| - 1)
    else LastIndexOf(s[..|s| - 1], c)
  }

  function DropTrailingSlashes(s: string): (r: string)
    ensures |r| <= |s| && r == s[..|r|]
    ensures r == [] || r[|r| - 1] != '/'
    ensures forall j :: |r| <= j < |s| ==> s[j] == '/'
  {
    if s == [] || s[|s| - 1] != '/' then s else DropTrailingSlashes(s[..|s| - 1])
  }

  /** The last path segment, trailing slashes ignored. */
  function Basename(path: string): (r: string)
    ensures '/' !in r
  {
    var t := DropTrailingSlashes(path);
    match LastIndexOf(t, '/')
    case Some(k) => t[k + 1..]
    case None => t
  }

  /** `path.extname` (POSIX): from the last `.` of the last segment to its end;
      empty when the segment has no `.`, starts with its only relevant `.`, or is
      `..`. */
  function Extname(path: string): (ext: string)
    ensures ext == "" || (ext[0] == '.' && '.' !in ext[1..] && '/' !in ext)
  {
    var base := Basename(path);
    match LastIndexOf(base, '.')
    case None => ""
    case Some(k) =>
      if k == 0 || base == ".." then ""
      else base[k..]
  }

  /** A name `stem.ext` whose stem is not empty has the extension `.ext`. */
  lemma {:induction false} ExtnameOfStemAndExt(stem: string, ext: string)
    requires stem != "" && '/' !in stem && '/' !in ext && '.' !in ext
    requires !(stem == "." && ext == "")
    ensures Extname(stem + "." + ext) == "." + ext
  {
    var name := stem + "." + ext;
    assert name[|name| - 1] != '/';
    assert DropTrailingSlashes(name) == name;
    assert '/' !in name by {
      forall j | 0 <= j < |name|
        ensures name[j] != '/'
      {
        if j < |stem| { assert name[j] == stem[j]; }
        else if j > |stem| { assert name[j] == ext[j - |stem| - 1]; }
      }
    }
    assert Basename(name) == name;
    assert name[|stem|] == '.';
    forall j | |stem| < j < |name|
      ensures name[j] != '.'
    {
      assert name[j] == ext[j - |stem| - 1];
    }
    assert LastIndexOf(name, '.') == Some(|stem|);
    if stem == "." {
      assert |name| > 2;
    } else if |stem| == 1 {
      assert stem == [stem[0]] && name[0] == stem[0];
    } else {
      assert |name| > 2;
    }
    assert name[|stem|..] == "." + ext;
  }

  /** A name without a slash is its own last segment. */
  lemma {:induction false} BasenameWithoutSlash(s: string)
    requires '/' !in s
    ensures Basename(s) == s
  {
    assert s == [] || s[|s| - 1] != '/';
  }

  /** A character that occurs only at the start is last found there. */
  lemma {:induction false} LastIndexOfOnlyAtStart(s: string, c: char)
    requires s != [] && s[0] == c && c !in s[1..]
    ensures LastIndexOf(s, c) == Some(0)
  {
  }

  /** A dot-file has no extension. */
  lemma ExtnameOfDotFile()
    ensures Extname(".png") == ""
  {
    BasenameWithoutSlash(".png");
    assert ".png"[1..] == "png";
    LastIndexOfOnlyAtStart(".png", '.');
  }

  /** A name without a dot has no extension. */
  lemma {:induction false} ExtnameWithoutDot(s: string)
    requires '/' !in s && '.' !in s
    ensures Extname(s) == ""
  {
    BasenameWithoutSlash(s);
  }

  /** The name `..` has no extension. */
  lemma ExtnameOfDotDot()
    ensures Extname("..") == ""
  {
    BasenameWithoutSlash("..");
  }

  /** `/a|b|c/.test(s)`: some alternative occurs somewhere in `s`. */
  predicate MatchesAlternative(s: string, alternatives: seq<string>) {
    exists k | 0 <= k < |alternatives| :: ContainsSubstring(s, alternatives[k])
  }

  datatype UploadConfig = UploadConfig(allowed: seq<string>, maxSize: nat, refusal: string)

  const DocumentUpload: UploadConfig :=
    UploadConfig(["jpeg", "jpg", "png", "pdf"], 5 * 1024 * 1024, "Only images and PDFs are allowed")
  const PhotoUpload: UploadConfig :=
    UploadConfig(["jpeg", "jpg", "png"], 2 * 1024 * 1024, "Only image files are allowed")
  const FileTooLargeMsg: string := "File too large"

  /** The `fileFilter` test; the extension is lower-cased, the type is not. */
  predicate TypeAccepted(f: UploadedFile, cfg: UploadConfig) {
    MatchesAlternative(Lower(Extname(f.originalName)), cfg.allowed) && MatchesAlternative(f.mimetype, cfg.allowed)
  }

  /** `upload.single(field)`: no file passes through; a file of a refused type, or
      one over the size limit, ends the request with the error. */
  function Receive(file: Option<UploadedFile>, cfg: UploadConfig): (r: Result<Option<UploadedFile>, string>)
    ensures r.Success? <==> file.None? || (TypeAccepted(file.value, cfg) && file.value.size <= cfg.maxSize)
    ensures r.Success? ==> r.value == file
    ensures file.Some? && !TypeAccepted(file.value, cfg) ==> r == Failure(cfg.refusal)
    ensures file.Some? && TypeAccepted(file.value, cfg) && file.value.size > cfg.maxSize ==> r == Failure(FileTooLargeMsg)
  {
    match file
    case None => Success(None)
    case Some(f) =>
      if !TypeAccepted(f, cfg) then Failure(cfg.refusal)
      else if f.size > cfg.maxSize then Failure(FileTooLargeMsg)
      else Success(file)
  }

  /** An accepted file has an extension: the empty string holds none of the
      alternatives. */
  lemma {:induction false} AcceptedHasExtension(f: UploadedFile, cfg: UploadConfig)
    requires forall k :: 0 <= k < |cfg.allowed| ==> cfg.allowed[k] != ""
    ensures TypeAccepted(f, cfg) ==> Extname(f.originalName) != ""
  {
    if Extname(f.originalName) == "" {
      assert Lower(Extname(f.originalName)) == "";
      forall k | 0 <= k < |cfg.allowed|
        ensures !ContainsSubstring("", cfg.allowed[k])
      {
      }
    }
  }

  /** Every photo the profile form accepts would also pass the signup form's
      type test. */
  lemma {:induction false} PhotoTypesAreDocumentTypes(f: UploadedFile)
    ensures TypeAccepted(f, PhotoUpload) ==> TypeAccepted(f, DocumentUpload)
  {
    if TypeAccepted(f, PhotoUpload) {
      var e := Lower(Extname(f.originalName));
      var k :| 0 <= k < 3 && ContainsSubstring(e, PhotoUpload.allowed[k]);
      assert DocumentUpload.allowed[k] == PhotoUpload.allowed[k];
      var m :| 0 <= m < 3 && ContainsSubstring(f.mimetype, PhotoUpload.allowed[m]);
      assert DocumentUpload.allowed[m] == PhotoUpload.allowed[m];
    }
  }

  lemma PngInPhpng()
    ensures ContainsSubstring(Lower("phpng"), "png")
  {
    var e := Lower("phpng");
    assert e[2] == 'p' && e[3] == 'n' && e[4] == 'g';
    assert e[2..5] == "png";
    assert OccursAt(e, "png", 2);
  }

  lemma PngInImagePng()
    ensures ContainsSubstring("image/png", "png")
  {
    assert "image/png"[6..9] == "png";
    assert OccursAt("image/png", "png", 6);
  }

  /** The test is not anchored: a name `stem.ext` passes the extension test as soon
      as one alternative occurs anywhere in `ext`. */
  lemma {:induction false} UnanchoredExtensionTest(f: UploadedFile, stem: string, ext: string, cfg: UploadConfig, k: nat)
    requires f.originalName == stem + "." + ext
    requires stem != "" && '/' !in stem && '/' !in ext && '.' !in ext && ext != ""
    requires k < |cfg.allowed| && ContainsSubstring(Lower(ext), cfg.allowed[k])
    requires MatchesAlternative(f.mimetype, cfg.allowed)
    ensures TypeAccepted(f, cfg)
  {
    ExtnameOfStemAndExt(stem, ext);
    LowerAppend(".", ext);
    var p := cfg.allowed[k];
    var i :| 0 <= i <= |Lower(ext)| - |p| && OccursAt(Lower(ext), p, i);
    OccursAfterPrefix(Lower("."), Lower(ext), p, i);
  }

  /** An instance: a photo named `shell.phpng` declared as `image/png` is accepted. */
  lemma PhpngPhotoAccepted()
    ensures TypeAccepted(UploadedFile("shell" + "." + "phpng", "image/png", "profile-1", 1), PhotoUpload)
  {
    PngInPhpng();
    PngInImagePng();
    assert PhotoUpload.allowed[2] == "png";
    UnanchoredExtensionTest(UploadedFile("shell" + "." + "phpng", "image/png", "profile-1", 1),
                            "shell", "phpng", PhotoUpload, 2);
  }
}
