/**
 * The few `std::filesystem::path` operations the tool uses, on paths in
 * their generic form (components separated by `/`): the file name, its stem
 * and extension, and appending a file name to the output folder.
 */
module Paths {
  import opened Text

  /** The last index holding `c`, if any. */
  function LastIndexOf(s: string, c: char): (r: Option<nat>)
    ensures r.Some? ==> r.value < |s| && s[r.value] == c && forall j :: r.value < j < |s| ==> s[j] != c
    ensures r.None? ==> c !in s
  {
    if s == [] then None
    else if s[|s| - 1] == c then Some(|s| - 1)
    else LastIndexOf(s[..|s| - 1], c)
  }

  /** `path.filename()`: everything after the last separator. */
  function FileName(path: string): (name: string)
    ensures '/' !in name
    ensures EndsWith(path, name)
    ensures |name| == |path| || path[|path| - |name| - 1] == '/'
  {
    match LastIndexOf(path, '/')
    case None => path
    case Some(k) => path[k + 1..]
  }

  /**
   * Where `stem()` and `extension()` split a file name: at its last dot,
   * unless the name is `.` or `..`, has no dot, or its only dot leads it.
   */
  function ExtensionStart(name: string): (k: nat)
    ensures k <= |name|
    ensures k < |name| ==> 0 < k && name[k] == '.' && '.' !in name[k + 1..]
    ensures k == |name| ==> name == "." || name == ".." || forall j :: 0 < j < |name| ==> name[j] != '.'
    ensures name == "." || name == ".." ==> k == |name|
  {
    if name == "." || name == ".." then |name|
    else match LastIndexOf(name, '.')
      case None => |name|
      case Some(k) => if k == 0 then |name| else k
  }

  function Stem(name: string): string {
    name[..ExtensionStart(name)]
  }

  /** `extension()`: empty, or a dot followed by no further dot. */
  function Extension(name: string): string {
    name[ExtensionStart(name)..]
  }

  /** A file name is its stem followed by its extension. */
  lemma StemExtension(name: string)
    ensures Stem(name) + Extension(name) == name
    ensures Extension(name) == "" || (Extension(name)[0] == '.' && '.' !in Extension(name)[1..])
  {
    var k := ExtensionStart(name);
    assert name[..k] + name[k..] == name;
    if k < |name| {
      assert name[k..][1..] == name[k + 1..];
    }
  }

  /** `folder / name` for a relative `name`: a separator is added unless one is there. */
  function JoinPath(folder: string, name: string): (p: string)
    ensures EndsWith(p, name)
  {
    if folder == [] || folder[|folder| - 1] == '/' then folder + name
    else folder + "/" + name
  }

  /** A search for `c` is not affected by a suffix that holds no `c`. */
  lemma {:induction false} LastIndexOfSkips(a: string, b: string, c: char)
    requires c !in b
    ensures LastIndexOf(a + b, c) == LastIndexOf(a, c)
    decreases |b|
  {
    if b == [] {
      assert a + b == a;
    } else {
      var s := a + b;
      assert s[|s| - 1] == b[|b| - 1];
      assert s[..|s| - 1] == a + b[..|b| - 1];
      LastIndexOfSkips(a, b[..|b| - 1], c);
    }
  }

  /** Joining a plain name to the folder gives back that name as the file name. */
  lemma JoinPathFileName(folder: string, name: string)
    requires name != [] && '/' !in name
    ensures FileName(JoinPath(folder, name)) == name
  {
    if folder == [] {
      assert JoinPath(folder, name) == [] + name;
      LastIndexOfSkips([], name, '/');
    } else {
      var pre := if folder[|folder| - 1] == '/' then folder else folder + "/";
      assert JoinPath(folder, name) == pre + name;
      assert pre[|pre| - 1] == '/';
      LastIndexOfSkips(pre, name, '/');
      assert (pre + name)[|pre|..] == name;
    }
  }

  /** `m_generatedFolder / (stem + ".generated.h")`: where the glue header goes. */
  function GeneratedHeaderPath(folder: string, path: string): string {
    JoinPath(folder, Stem(FileName(path)) + ".generated.h")
  }

  /** `m_generatedFolder / (stem + ".gen")`: where the metadata file goes. */
  function GenPath(folder: string, path: string): string {
    JoinPath(folder, Stem(FileName(path)) + ".gen")
  }
}
