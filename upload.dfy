/** Validation of the client's file name on upload (`allowed_file`). */
module Upload {
  import opened Options
  import opened Text

  /** `ALLOWED_EXTENSIONS`. */
  const AllowedExtensions: set<string> := {"png", "jpg", "jpeg", "gif"}

  /** `filename.rsplit('.', 1)[1]`: the text after the last dot, absent when there is no dot. */
  function Extension(name: string): (ext: Option<string>)
    ensures ext.None? <==> '.' !in name
    ensures ext.Some? ==> '.' !in ext.value && |ext.value| < |name|
    ensures ext.Some? ==> name == name[..|name| - |ext.value| - 1] + "." + ext.value
  {
    if '.' in name then
      var ext := AfterLast(name, '.');
      assert name == name[..|name| - |ext| - 1] + "." + ext;
      Some(ext)
    else None
  }

  /** `allowed_file`: a dot is present and the lower-cased extension is an allowed one. */
  function AllowedFile(name: string): (ok: bool)
    ensures '.' !in name ==> !ok
    ensures ok ==> Extension(name).Some? && Lower(Extension(name).value) in AllowedExtensions
  {
    '.' in name && Lower(AfterLast(name, '.')) in AllowedExtensions
  }

  /**
   * A name made of any stem, a dot and a dot-free extension is accepted exactly
   * when the lower-cased extension is allowed; together with "no dot, no
   * acceptance" this decides every name.
   */
  lemma AllowedFileOfSplit(stem: string, ext: string)
    requires '.' !in ext
    ensures Extension(stem + "." + ext) == Some(ext)
    ensures AllowedFile(stem + "." + ext) <==> Lower(ext) in AllowedExtensions
  {
    AfterLastOfJoin(stem, '.', ext);
    assert (stem + "." + ext)[|stem|] == '.';
  }

  /** Every name that holds a dot splits that way at its last dot. */
  lemma SplitAtLastDot(name: string)
    requires '.' in name
    ensures exists stem, ext :: '.' !in ext && name == stem + "." + ext && Extension(name) == Some(ext)
  {
    var ext := Extension(name).value;
    var stem := name[..|name| - |ext| - 1];
    assert '.' !in ext && name == stem + "." + ext;
  }

  /** The check ignores case: lower-casing the whole name does not change the verdict. */
  lemma {:induction false} AllowedFileIgnoresCase(name: string)
    ensures AllowedFile(Lower(name)) == AllowedFile(name)
  {
    var low := Lower(name);
    LastIndexOfLower(name, '.');
    assert ('.' in low) <==> ('.' in name) by {
      assert forall i :: 0 <= i < |name| ==> (low[i] == '.' <==> name[i] == '.');
    }
    if '.' in name {
      var k := LastIndexOf(name, '.') + 1;
      LowerSlice(name, k);
      LowerIdempotent(name[k..]);
    }
  }

  /** An upper-case extension is accepted. */
  lemma AcceptsUpperCase()
    ensures AllowedFile("cat.PNG")
  {
    assert "cat.PNG" == "cat" + "." + "PNG";
    AllowedFileOfSplit("cat", "PNG");
    assert "PNG"[1..] == "NG" && "NG"[1..] == "G" && "G"[1..] == [];
    assert Lower("PNG") == "png";
  }

  /** Only the text after the last dot counts. */
  lemma AcceptsLastExtension()
    ensures AllowedFile("a.b.jpeg")
  {
    assert "a.b.jpeg" == "a.b" + "." + "jpeg";
    AllowedFileOfSplit("a.b", "jpeg");
    assert "jpeg"[1..] == "peg" && "peg"[1..] == "eg" && "eg"[1..] == "g" && "g"[1..] == [];
    assert Lower("jpeg") == "jpeg";
  }

  /** Concrete rejections: no dot, an allowed extension before the last dot, nothing after it. */
  lemma AllowedFileRejects()
    ensures !AllowedFile("png") && !AllowedFile("photo.jpg.exe") && !AllowedFile("photo.")
  {
    assert "photo.jpg.exe" == "photo.jpg" + "." + "exe";
    AllowedFileOfSplit("photo.jpg", "exe");
    assert "exe"[1..] == "xe" && "xe"[1..] == "e" && "e"[1..] == [];
    assert Lower("exe") == "exe";
    assert "photo." == "photo" + "." + "";
    AllowedFileOfSplit("photo", "");
  }
}
