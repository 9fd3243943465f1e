// Path helpers of src-xpl/xpl_platform.c: resource extensions, separator
// rewriting into a fixed-size path buffer, and the resource search order.
// A path buffer is an array of characters holding a NUL-terminated string.

module Platform {
  import opened Strings

  /** The separator the engine uses in resource names. */
  const PathSep: char := '/'
  const Nul: char := 0 as char

  /** xpl_resource_extension: "" when there is no dot or the last dot is the
      first character, otherwise the text after the last dot. */
  function ResourceExtension(filename: string): (e: string)
    ensures '.' !in e && |e| < |filename| + 1
    ensures e != "" ==> exists i :: 0 < i < |filename| && filename[i] == '.' && e == filename[i + 1..]
  {
    var dot := LastIndexOf(filename, '.');
    if dot <= 0 then "" else filename[dot + 1..]
  }

  /** A dot-free extension after a non-empty stem is what comes back. */
  lemma ResourceExtensionOfStem(stem: string, ext: string)
    requires |stem| > 0 && '.' !in ext
    ensures ResourceExtension(stem + "." + ext) == ext
  {
    var f := stem + "." + ext;
    assert f[|stem| + 1..] == ext;
    LastIndexOfIs(f, '.', |stem|);
  }

  /** A name with no dot, or whose only dot leads it, has no extension. */
  lemma NoExtensionWithoutInnerDot(filename: string)
    requires forall i :: 0 < i < |filename| ==> filename[i] != '.'
    ensures ResourceExtension(filename) == ""
  {
  }

  /** The string held in a buffer: its characters before the first NUL. */
  function CString(a: seq<char>): (s: string)
    requires Nul in a
    ensures Nul !in s && |s| < |a| && a[|s|] == Nul && s == a[..|s|]
  {
    a[..IndexOf(a, Nul)]
  }

  /** What str_replace leaves in a buffer: before the first NUL every `find`
      becomes `replace`; the NUL and what follows it are untouched. */
  function ReplacedBeforeNul(a: seq<char>, find: char, replace: char): (r: seq<char>)
    requires Nul in a
    ensures |r| == |a|
  {
    var n := IndexOf(a, Nul);
    seq(|a|, i requires 0 <= i < |a| => if i < n && a[i] == find then replace else a[i])
  }

  /** Replacing by a non-NUL character keeps the string length and swaps every occurrence. */
  lemma ReplacedString(a: seq<char>, find: char, replace: char)
    requires Nul in a && replace != Nul
    ensures var r := ReplacedBeforeNul(a, find, replace);
      Nul in r && |CString(r)| == |CString(a)|
      && forall i :: 0 <= i < |CString(a)| ==>
           CString(r)[i] == (if CString(a)[i] == find then replace else CString(a)[i])
  {
    var r := ReplacedBeforeNul(a, find, replace);
    var n := IndexOf(a, Nul);
    assert r[n] == Nul;
    assert forall i :: 0 <= i < n ==> r[i] != Nul;
    assert IndexOf(r, Nul) == n;
  }

  /** str_replace: walks the string up to its NUL and swaps every `find` for `replace`. */
  method StrReplace(s: array<char>, find: char, replace: char)
    requires Nul in s[..]
    modifies s
    ensures s[..] == ReplacedBeforeNul(old(s[..]), find, replace)
  {
    ghost var n := IndexOf(s[..], Nul);
    var p := 0;
    while s[p] != Nul
      invariant 0 <= p <= n
      invariant forall i :: 0 <= i < p ==> s[i] == (if old(s[i]) == find then replace else old(s[i]))
      invariant forall i :: p <= i < s.Length ==> s[i] == old(s[i])
      decreases n - p
    {
      if s[p] == find {
        s[p] := replace;
      }
      p := p + 1;
    }
  }

  /** strncpy(out, src, n): the first n characters of src, NUL-padded to n. */
  function StrncpyResult(src: string, n: nat): (r: seq<char>)
    ensures |r| == n
  {
    seq(n, i requires 0 <= i < n => if i < |src| then src[i] else Nul)
  }

  method Strncpy(out: array<char>, src: string, n: nat)
    requires n <= out.Length
    modifies out
    ensures out[..n] == StrncpyResult(src, n)
    ensures out[n..] == old(out[n..])
  {
    var i := 0;
    while i < n
      invariant 0 <= i <= n
      invariant forall k :: 0 <= k < i ==> out[k] == StrncpyResult(src, n)[k]
      invariant forall k :: n <= k < out.Length ==> out[k] == old(out[k])
    {
      out[i] := if i < |src| then src[i] else Nul;
      i := i + 1;
    }
  }

  /** The buffer xpl_create_generic_path leaves: the first length-1 characters of
      the path with every OS separator turned into '/', NUL-padded, and a NUL
      in the last cell. */
  function GenericPathBuffer(pathIn: string, length: nat, osSep: char): (r: seq<char>)
    requires length > 0
    ensures |r| == length
  {
    seq(length, i requires 0 <= i < length =>
      if i < |pathIn| && i < length - 1 then (if pathIn[i] == osSep && osSep != PathSep then PathSep else pathIn[i])
      else Nul)
  }

  /** The string in the buffer is the truncated path with separators made generic,
      and the buffer is always terminated in its last cell. */
  lemma GenericPathString(pathIn: string, length: nat, osSep: char)
    requires length > 0 && Nul !in pathIn
    ensures var r := GenericPathBuffer(pathIn, length, osSep);
      r[length - 1] == Nul && Nul in r
      && CString(r) == seq(|Truncate(pathIn, length - 1)|, i requires 0 <= i < |Truncate(pathIn, length - 1)| =>
           if pathIn[i] == osSep then PathSep else pathIn[i])
  {
    var r := GenericPathBuffer(pathIn, length, osSep);
    var m := |Truncate(pathIn, length - 1)|;
    assert r[m] == Nul;
    assert forall i :: 0 <= i < m ==> r[i] != Nul;
    assert IndexOf(r, Nul) == m;
  }

  /** xpl_create_generic_path: strncpy, then (on a platform whose separator is
      not '/') str_replace, then a NUL at length-1. On such a platform a path
      of `length` characters or more leaves strncpy's copy unterminated, so
      the path must be shorter there. */
  method CreateGenericPath(pathOut: array<char>, pathIn: string, length: nat, osSep: char)
    requires 0 < length <= pathOut.Length && Nul !in pathIn
    requires osSep != PathSep ==> |pathIn| < length
    modifies pathOut
    ensures pathOut[..length] == GenericPathBuffer(pathIn, length, osSep)
    ensures pathOut[length..] == old(pathOut[length..])
  {
    Strncpy(pathOut, pathIn, length);
    ghost var copied := pathOut[..];
    if osSep != PathSep {
      assert pathOut[|pathIn|] == Nul;
      StrReplace(pathOut, osSep, PathSep);
    }
    ghost var replaced := pathOut[..];
    pathOut[length - 1] := Nul;
    assert pathOut[..length] == replaced[..length - 1] + [Nul];
    GenericPathSteps(copied, replaced, pathIn, length, osSep);
  }

  /** strncpy, the optional str_replace and the final NUL build the generic path buffer. */
  lemma GenericPathSteps(copied: seq<char>, replaced: seq<char>, pathIn: string, length: nat, osSep: char)
    requires 0 < length <= |copied| && Nul !in pathIn
    requires copied[..length] == StrncpyResult(pathIn, length)
    requires osSep != PathSep ==> |pathIn| < length && Nul in copied && replaced == ReplacedBeforeNul(copied, osSep, PathSep)
    requires osSep == PathSep ==> replaced == copied
    ensures replaced[..length - 1] + [Nul] == GenericPathBuffer(pathIn, length, osSep)
  {
    var g := GenericPathBuffer(pathIn, length, osSep);
    if osSep != PathSep {
      assert copied[|pathIn|] == Nul;
      assert forall i :: 0 <= i < |pathIn| ==> copied[i] != Nul;
      assert IndexOf(copied, Nul) == |pathIn|;
    }
    forall i | 0 <= i < length
      ensures (replaced[..length - 1] + [Nul])[i] == g[i]
    {
      if i < length - 1 {
        assert copied[i] == StrncpyResult(pathIn, length)[i];
      }
    }
  }

  /** Platform choices that shape a resource path: the OS separator and the
      root format (empty prefix for "%s", "<bundle>/" inside an app bundle). */
  datatype PlatformConfig = PlatformConfig(osSep: char, rootPrefix: string)

  const AppResourcePrefix: string := "resources/"
  const LibraryResourcePrefix: string := "xpl/"
  const DevResourcePrefix: string := "../resources/"

  /** format_resource_path: the generic path with separators turned back into
      the OS separator, put under the sub-format, then under the root format;
      each snprintf keeps at most length-1 characters. */
  function FormatResourcePath(pathIn: string, subPrefix: string, length: nat, cfg: PlatformConfig): (p: string)
    requires length > 0
    ensures |p| < length
  {
    var generic := Truncate(pathIn, length - 1);
    var native := seq(|generic|, i requires 0 <= i < |generic| =>
      if generic[i] == cfg.osSep || generic[i] == PathSep then cfg.osSep else generic[i]);
    var inner := Truncate(subPrefix + native, length - 1);
    Truncate(cfg.rootPrefix + inner, length - 1)
  }

  /** The outcome of xpl_resolve_resource: whether a candidate exists, and the
      path left in the output buffer. */
  datatype Resolution = Resolution(found: bool, path: string)

  function Candidates(pathIn: string, length: nat, cfg: PlatformConfig, dataPath: string): (c: seq<string>)
    requires length > 0
    ensures |c| == 4
  {
    [FormatResourcePath(pathIn, AppResourcePrefix, length, cfg),
     FormatResourcePath(pathIn, LibraryResourcePrefix, length, cfg),
     FormatResourcePath(pathIn, DevResourcePrefix, length, cfg),
     dataPath]
  }

  /** xpl_resolve_resource: tries the application, library, development and
      writable-data paths in that order and stops at the first that exists;
      when none does, the data path stays in the buffer. The data path and the
      existence test come from the operating system. */
  function ResolveResource(pathIn: string, length: nat, cfg: PlatformConfig, dataPath: string,
                           exists_: string -> bool): (r: Resolution)
    requires length > 0
    ensures var c := Candidates(pathIn, length, cfg, dataPath);
      r.found <==> exists i :: 0 <= i < 4 && exists_(c[i])
    ensures var c := Candidates(pathIn, length, cfg, dataPath);
      r.found ==> exists i :: (0 <= i < 4 && r.path == c[i] && exists_(c[i])
        && forall j :: 0 <= j < i ==> !exists_(c[j]))
    ensures !r.found ==> r.path == dataPath
  {
    var c := Candidates(pathIn, length, cfg, dataPath);
    if exists_(c[0]) then Resolution(true, c[0])
    else if exists_(c[1]) then Resolution(true, c[1])
    else if exists_(c[2]) then Resolution(true, c[2])
    else Resolution(exists_(c[3]), c[3])
  }
}
