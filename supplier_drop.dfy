/** The drop target of the suppliers view: which importer a dropped file goes to, decided
    from its extension and then from its name. */
module SupplierDrop {
  import opened Wrappers
  import opened Text
  import opened SupplierImport

  /** The Windows directory separators. */
  predicate IsSeparator(c: char) {
    c == '\\' || c == '/'
  }

  predicate NoSeparator(s: string) {
    forall i :: 0 <= i < |s| ==> !IsSeparator(s[i])
  }

  /** `Path.GetFileName`: what follows the last directory separator. */
  function FileName(path: string): (r: string)
    ensures |r| <= |path| && r == path[|path| - |r|..]
    ensures NoSeparator(r)
    ensures |r| < |path| ==> IsSeparator(path[|path| - |r| - 1])
  {
    if path == [] then []
    else if IsSeparator(path[|path| - 1]) then []
    else
      var r := FileName(path[..|path| - 1]) + [path[|path| - 1]];
      assert path[..|path| - 1][|path| - |r|..] + [path[|path| - 1]] == path[|path| - |r|..];
      r
  }

  /** Position of the last `.` among the first `k` characters that no separator follows. */
  function LastDot(path: string, k: nat): (r: Option<nat>)
    requires k <= |path|
    ensures r.Some? ==> r.value < k && path[r.value] == '.'
    ensures r.Some? ==> forall j :: r.value < j < k ==> path[j] != '.' && !IsSeparator(path[j])
    ensures r.None? ==> forall j :: 0 <= j < k && path[j] == '.' ==> exists m :: j < m < k && IsSeparator(path[m])
  {
    if k == 0 then None
    else if path[k - 1] == '.' then Some(k - 1)
    else if IsSeparator(path[k - 1]) then None
    else LastDot(path, k - 1)
  }

  /** `Path.GetExtension`: from the last `.` of the file name, dot included; nothing when the
      name has no dot or ends with one. */
  function Extension(path: string): (r: string)
    ensures r == [] || (2 <= |r| <= |path| && r[0] == '.' && r == path[|path| - |r|..])
  {
    match LastDot(path, |path|)
    case None => []
    case Some(i) => if i == |path| - 1 then [] else path[i..]
  }

  /** A proper extension: a dot and at least one more character, none of them a dot or a
      separator. */
  predicate IsExtension(ext: string) {
    |ext| >= 2 && ext[0] == '.' && forall i :: 1 <= i < |ext| ==> ext[i] != '.' && !IsSeparator(ext[i])
  }

  /** The extension of `stem + ext` is `ext`, whatever the stem. */
  lemma ExtensionOf(stem: string, ext: string)
    requires IsExtension(ext)
    ensures Extension(stem + ext) == ext
  {
    var path := stem + ext;
    assert path[|stem|] == '.';
    assert forall j :: |stem| < j < |path| ==> path[j] == ext[j - |stem|];
    assert LastDot(path, |path|) == Some(|stem|);
    assert path[|stem|..] == ext;
  }

  /** A last character that is no separator ends the file name. */
  lemma FileNameStep(path: string)
    requires path != [] && !IsSeparator(path[|path| - 1])
    ensures FileName(path) == FileName(path[..|path| - 1]) + [path[|path| - 1]]
  {
  }

  /** The file name of `dir + name`, where `dir` is empty or ends with a separator. */
  lemma {:induction false} FileNameOf(dir: string, name: string)
    requires dir == [] || IsSeparator(dir[|dir| - 1])
    requires NoSeparator(name)
    ensures FileName(dir + name) == name
    decreases |name|
  {
    if name == [] {
      assert dir + name == dir;
    } else {
      var path, init, last := dir + name, name[..|name| - 1], name[|name| - 1];
      assert path[..|path| - 1] == dir + init;
      assert path[|path| - 1] == last && !IsSeparator(last);
      assert NoSeparator(init) by {
        forall k | 0 <= k < |init| ensures !IsSeparator(init[k]) {
          assert init[k] == name[k];
        }
      }
      FileNameOf(dir, init);
      FileNameStep(path);
      assert init + [last] == name;
    }
  }

  /** The kind detection of `OnDrop`: `.csv` (any case) is EET and `.txt` is ALSO; any other
      name goes to ALSO when it mentions "also", else to EET when it mentions "eet". */
  function DetectKind(path: string): Option<SupplierKind> {
    KindFor(LowerAscii(Extension(path)), LowerAscii(FileName(path)))
  }

  /** The decision on the lower-cased extension `ext` and file name `name`. */
  function KindFor(ext: string, name: string): Option<SupplierKind> {
    if ext == ".csv" then Some(Eet)
    else if ext == ".txt" then Some(Also)
    else if Contains(name, "also") then Some(Also)
    else if Contains(name, "eet") then Some(Eet)
    else None
  }

  /** For a file `stem + ext` in directory `dir`, the extension decides first, so a `.txt`
      file named after EET still goes to ALSO; otherwise the whole file name decides, "also"
      before "eet". */
  lemma DetectKindOf(dir: string, stem: string, ext: string)
    requires dir == [] || IsSeparator(dir[|dir| - 1])
    requires NoSeparator(stem) && IsExtension(ext)
    ensures DetectKind(dir + stem + ext) == KindFor(LowerAscii(ext), LowerAscii(stem + ext))
  {
    var name := stem + ext;
    var path := dir + stem + ext;
    assert path == (dir + stem) + ext == dir + name;
    ExtensionOf(dir + stem, ext);
    NoSeparatorJoin(stem, ext);
    FileNameOf(dir, name);
  }

  /** A stem and an extension without separators make a name without separators. */
  lemma NoSeparatorJoin(stem: string, ext: string)
    requires NoSeparator(stem) && IsExtension(ext)
    ensures NoSeparator(stem + ext)
  {
    forall i | 0 <= i < |stem + ext| ensures !IsSeparator((stem + ext)[i]) {
      if i >= |stem| {
        assert (stem + ext)[i] == ext[i - |stem|];
      }
    }
  }

  /** What a drop carries: whether it holds file-drop data, and the dropped paths. */
  datatype DropData = DropData(hasFileDrop: bool, paths: seq<string>)

  /** `OnDrop`: the import it starts (kind and path), if any. `fileExists` is `File.Exists`. */
  function OnDrop(data: DropData, fileExists: string -> bool): (r: Option<(SupplierKind, string)>)
    ensures r.Some? <==>
      && data.hasFileDrop && |data.paths| > 0
      && !Blank(data.paths[0]) && fileExists(data.paths[0])
      && DetectKind(data.paths[0]).Some?
    ensures r.Some? ==> r.value == (DetectKind(data.paths[0]).value, data.paths[0])
  {
    if !data.hasFileDrop then None
    else
      var path := if |data.paths| > 0 then Some(data.paths[0]) else None;
      if IsNullOrWhiteSpace(path) || !fileExists(path.value) then None
      else match DetectKind(path.value)
        case None => None
        case Some(kind) => Some((kind, path.value))
  }
}
