// File-name extension helpers of src-xpl/xpl_file.c.

module File {
  import opened Strings

  /** xpl_file_extension: the text after the last '.'. With no dot at all the
      source steps past the end of an empty literal, so a dot is required. */
  function FileExtension(filename: string): (e: string)
    requires '.' in filename
    ensures exists i :: 0 <= i < |filename| && filename[i] == '.' && e == filename[i + 1..]
    ensures '.' !in e
    ensures |e| < |filename|
  {
    var i := LastIndexOf(filename, '.');
    filename[i + 1..]
  }

  /** A trailing dot gives the empty extension. */
  lemma TrailingDotIsEmpty(filename: string)
    requires |filename| > 0 && filename[|filename| - 1] == '.'
    ensures FileExtension(filename) == ""
  {
  }

  /** The extension together with the dot before it is a suffix of the name. */
  lemma ExtensionIsSuffix(filename: string)
    requires '.' in filename
    ensures var e := FileExtension(filename);
      filename[|filename| - |e| - 1..] == ['.'] + e
  {
  }

  /** xpl_file_has_extension: exact, case-sensitive comparison without the dot. */
  predicate HasExtension(filename: string, extension: string)
    requires '.' in filename
  {
    FileExtension(filename) == extension
  }

  /** Appending "." + ext to a dot-free extension makes HasExtension hold for
      that extension and no other. */
  lemma HasAppendedExtension(stem: string, ext: string, other: string)
    requires '.' !in ext
    ensures '.' in stem + "." + ext
    ensures HasExtension(stem + "." + ext, other) <==> other == ext
  {
    var f := stem + "." + ext;
    assert f[|stem|] == '.';
    var i := LastIndexOf(f, '.');
    assert i == |stem|;
    assert f[i + 1..] == ext;
  }
}
