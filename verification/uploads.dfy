/** The upload filter and the media-path conventions of the platform
    (AI-website/app.py: ALLOWED_EXTENSIONS, `allowed_file`, and the
    'uploads/' prefix that marks files the platform stored itself). */
module Uploads {
  import opened Basics
  import opened Text

  /** ALLOWED_EXTENSIONS. */
  const AllowedExtensions: set<string> := {"png", "jpg", "jpeg", "gif", "mp4", "webm"}

  /** The prefix of every media path the platform stored itself. */
  const UploadsPrefix: string := "uploads/"

  /** `allowed_file(filename)`: the lowercased text after the last dot is an
      allowed extension. */
  predicate AllowedFile(filename: string)
    ensures AllowedFile(filename) ==> '.' in filename && filename[|filename| - 1] != '.'
  {
    match Extension(filename)
    case None => false
    case Some(ext) => Lower(ext) in AllowedExtensions
  }

  /** The text after the last dot, `filename.rsplit('.', 1)[1]`. */
  function Extension(f: string): (r: Option<string>)
    ensures r.None? <==> '.' !in f
  {
    match LastDot(f)
    case None => None
    case Some(k) => Some(f[k + 1..])
  }

  /** The filter, stated through any dot that has no dot after it: the name
      is accepted exactly when the lowercased text after that dot is allowed. */
  lemma AllowedFileAt(f: string, k: nat)
    requires k < |f| && f[k] == '.' && '.' !in f[k + 1..]
    ensures Extension(f) == Some(f[k + 1..])
    ensures AllowedFile(f) <==> Lower(f[k + 1..]) in AllowedExtensions
  {
    var last := LastDot(f).value;
    NoDotAfter(f, k);
    NoDotAfter(f, last);
  }

  lemma NoDotAfter(f: string, k: nat)
    requires k < |f| && '.' !in f[k + 1..]
    ensures forall i :: k < i < |f| ==> f[i] != '.'
  {
    forall i | k < i < |f| ensures f[i] != '.' {
      assert f[k + 1..][i - k - 1] == f[i];
    }
  }

  lemma LowerChars(s: string)
    ensures Lower(Lower(s)) == Lower(s)
    ensures '.' in s <==> '.' in Lower(s)
  {
    assert forall i :: 0 <= i < |s| ==> (s[i] == '.' <==> Lower(s)[i] == '.');
  }

  lemma LowerSuffix(s: string, k: nat)
    requires k <= |s|
    ensures Lower(s)[k..] == Lower(s[k..])
  {
  }

  /** The filter ignores letter case: a name and its lowercase form are
      accepted or rejected together. */
  lemma AllowedFileCaseInsensitive(f: string)
    ensures AllowedFile(f) <==> AllowedFile(Lower(f))
  {
    var g := Lower(f);
    LowerChars(f);
    if '.' in f {
      var k := LastDot(f).value;
      var ext := f[k + 1..];
      assert g[k] == '.';
      LowerSuffix(f, k + 1);
      LowerChars(ext);
      assert '.' !in g[k + 1..];
      AllowedFileAt(f, k);
      AllowedFileAt(g, k);
    }
  }

  /** Names the filter rejects: no dot, an empty extension, a disallowed
      last extension behind an allowed one. */
  lemma AllowedFileRejects()
    ensures !AllowedFile("mp4")
    ensures !AllowedFile("a.")
    ensures !AllowedFile("photo.png.exe")
  {
    AllowedFileAt("a.", 1);
    assert Lower("") == "";
    AllowedFileAt("photo.png.exe", 9);
    assert "photo.png.exe"[10..] == "exe";
    assert Lower("exe") == "exe";
  }

  /** Names the filter accepts: upper case, several dots. */
  lemma AllowedFileAccepts()
    ensures AllowedFile("A.MP4")
    ensures AllowedFile("lesson.v2.webm")
  {
    AllowedFileAt("A.MP4", 1);
    assert "A.MP4"[2..] == "MP4";
    assert Lower("MP4") == "mp4";
    AllowedFileAt("lesson.v2.webm", 9);
    assert "lesson.v2.webm"[10..] == "webm";
    assert Lower("webm") == "webm";
  }

  /** A file field of a submitted form: the name the browser sent, and the
      name werkzeug's `secure_filename` turns it into (computed outside this
      model). */
  datatype Upload = Upload(filename: string, safeName: string)

  /** `file and file.filename`: a file was attached to the field. */
  predicate Supplied(f: Option<Upload>)
  {
    f.Some? && f.value.filename != []
  }

  /** A supplied file that passes `allowed_file`. */
  predicate Accepted(f: Option<Upload>)
  {
    Supplied(f) && AllowedFile(f.value.filename)
  }

  /** The path recorded for a saved upload, `f'uploads/{filename}'`. */
  function StoredPath(u: Upload): string
  {
    UploadsPrefix + u.safeName
  }

  /** `path and path.startswith('uploads/')`: the value names a file in the
      platform's own storage, which it may delete; anything else (a remote
      URL) is never deleted. */
  predicate Managed(path: Option<string>)
  {
    path.Some? && StartsWith(path.value, UploadsPrefix)
  }

  lemma StoredPathManaged(u: Upload)
    ensures Managed(Some(StoredPath(u)))
    ensures Strip(StoredPath(u)) != []
  {
    var p := StoredPath(u);
    assert p[..|UploadsPrefix|] == UploadsPrefix;
    StripEmptyIff(p);
    assert !IsSpace(p[0]);
  }
}
