// build/scripts/header_version_update.rb: after a successful build, bump the
// build number in _version.h (and the revision number for a release build)
// and clear the success flag until the next build completes. The source
// root and the configuration come from the environment; here the header is
// a TextFile and the configuration a parameter.

module HeaderVersion {
  import opened Strings
  import opened VersionDefines

  /** The names get_defines is asked for, in order. */
  const Keys: seq<string> := ["LAST_BUILD_SUCCEEDED", "VERSION_MAJOR", "VERSION_MINOR", "VERSION_REVISION", "VERSION_BUILD"]

  /** How the script ends: it raised (no success flag to downcase, or a
      version number without digits), it kept the header, or it wrote these
      lines. */
  datatype Outcome = Raised | Kept | Written(lines: seq<string>)

  /** success_str.downcase[0..0] == 't'. */
  predicate Succeeded(flag: string)
  {
    |flag| > 0 && LowerChar(flag[0]) == 't'
  }

  /** process_version_header on the lines of _version.h. */
  function HeaderUpdate(lines: seq<string>, configuration: string): Outcome
  {
    var flag := LastValue(lines, "LAST_BUILD_SUCCEEDED");
    if flag.None? then Raised
    else if !Succeeded(flag.value) then Kept
    else
      var bumped := ReplacedLines(lines, "VERSION_BUILD", Increment);
      if bumped.None? then Raised
      else
        var cleared := Cleared(lines);
        if Lower(configuration) != "release" then Written(cleared)
        else
          var revised := ReplacedLines(cleared, "VERSION_REVISION", Increment);
          if revised.None? then Raised else Written(revised.value)
  }

  /** process_version_header: read the header, give up unless the last build
      succeeded, rewrite the defines in place and write the header back. */
  method ProcessVersionHeader(header: TextFile, configuration: string) returns (outcome: Outcome)
    modifies header
    ensures outcome == HeaderUpdate(old(header.lines), configuration)
    ensures header.lines == if outcome.Written? then outcome.lines else old(header.lines)
  {
    var contents := header.Read();
    var defines := GetDefines(contents[..], Keys);
    assert FirstIndex(Keys, Keys[0]) == 0;
    var successStr := defines[0];
    if successStr.None? {
      return Raised;
    }
    if !Succeeded(successStr.value) {
      return Kept;
    }
    var raised := ReplaceDefine(contents, "VERSION_BUILD", Increment);
    if raised.Some? {
      return Raised;
    }
    ConstantNeverRaises(contents[..], "LAST_BUILD_SUCCEEDED", "false");
    raised := ReplaceDefine(contents, "LAST_BUILD_SUCCEEDED", Constant("false"));
    if Lower(configuration) == "release" {
      raised := ReplaceDefine(contents, "VERSION_REVISION", Increment);
      if raised.Some? {
        return Raised;
      }
    }
    header.Write(contents);
    outcome := Written(contents[..]);
  }

  /** The header is written only after a successful build; a failed one
      keeps it, and a missing flag raises. */
  lemma OnlyAfterSuccess(lines: seq<string>, configuration: string)
    ensures var flag := LastValue(lines, "LAST_BUILD_SUCCEEDED");
      && (HeaderUpdate(lines, configuration).Written? ==> flag.Some? && Succeeded(flag.value))
      && (HeaderUpdate(lines, configuration) == Kept <==> flag.Some? && !Succeeded(flag.value))
      && (flag.None? ==> HeaderUpdate(lines, configuration) == Raised)
  {
  }

  /** The names and constants the script writes are tokens. */
  lemma NamesAreTokens()
    ensures Token("LAST_BUILD_SUCCEEDED") && Token("VERSION_BUILD") && Token("VERSION_REVISION")
    ensures Token("VERSION_MAJOR") && Token("VERSION_MINOR") && Token("false")
  {
  }

  /** increment_version applied to a value get_defines may not have found. */
  function Bumped(v: Option<string>): Option<string>
  {
    if v.None? then None else IncrementVersion(v.value)
  }

  /** The lines after the first two rewrites, when the build number bumps. */
  function Cleared(lines: seq<string>): seq<string>
    requires ReplacedLines(lines, "VERSION_BUILD", Increment).Some?
  {
    var bumped := ReplacedLines(lines, "VERSION_BUILD", Increment).value;
    ConstantNeverRaises(bumped, "LAST_BUILD_SUCCEEDED", "false");
    ReplacedLines(bumped, "LAST_BUILD_SUCCEEDED", Constant("false")).value
  }

  /** The value of `key` after the build number and the flag are rewritten. */
  lemma ClearedValue(lines: seq<string>, key: string)
    requires Token(key) && ReplacedLines(lines, "VERSION_BUILD", Increment).Some?
    ensures LastValue(Cleared(lines), key)
      == if key == "LAST_BUILD_SUCCEEDED" then (if LastValue(lines, key).Some? then Some("false") else None)
         else if key == "VERSION_BUILD" then Bumped(LastValue(lines, key))
         else LastValue(lines, key)
  {
    var bumped := ReplacedLines(lines, "VERSION_BUILD", Increment).value;
    NamesAreTokens();
    LastValueAfterReplace(lines, "VERSION_BUILD", Increment, key);
    ConstantNeverRaises(bumped, "LAST_BUILD_SUCCEEDED", "false");
    LastValueAfterReplace(bumped, "LAST_BUILD_SUCCEEDED", Constant("false"), key);
  }

  /** The value of `key` in the header as written. */
  lemma WrittenValue(lines: seq<string>, configuration: string, key: string)
    requires HeaderUpdate(lines, configuration).Written? && Token(key)
    ensures LastValue(HeaderUpdate(lines, configuration).lines, key)
      == if key == "LAST_BUILD_SUCCEEDED" then Some("false")
         else if key == "VERSION_BUILD" then Bumped(LastValue(lines, key))
         else if key == "VERSION_REVISION" && Lower(configuration) == "release" then Bumped(LastValue(lines, key))
         else LastValue(lines, key)
  {
    var r := HeaderUpdate(lines, configuration).lines;
    assert LastValue(lines, "LAST_BUILD_SUCCEEDED").Some?;
    assert ReplacedLines(lines, "VERSION_BUILD", Increment).Some?;
    ClearedValue(lines, key);
    if Lower(configuration) == "release" {
      assert r == ReplacedLines(Cleared(lines), "VERSION_REVISION", Increment).value;
      NamesAreTokens();
      LastValueAfterReplace(Cleared(lines), "VERSION_REVISION", Increment, key);
    } else {
      assert r == Cleared(lines);
    }
  }

  /** What get_defines reads from the written header: the flag "false", the
      build number one up, the revision one up for a release build only, and
      the major and minor numbers as they were. */
  lemma WrittenVersions(lines: seq<string>, configuration: string)
    requires HeaderUpdate(lines, configuration).Written?
    ensures var r := HeaderUpdate(lines, configuration).lines;
      && LastValue(r, "LAST_BUILD_SUCCEEDED") == Some("false")
      && LastValue(r, "VERSION_BUILD") == Bumped(LastValue(lines, "VERSION_BUILD"))
      && LastValue(r, "VERSION_REVISION")
         == (if Lower(configuration) == "release" then Bumped(LastValue(lines, "VERSION_REVISION"))
             else LastValue(lines, "VERSION_REVISION"))
      && LastValue(r, "VERSION_MAJOR") == LastValue(lines, "VERSION_MAJOR")
      && LastValue(r, "VERSION_MINOR") == LastValue(lines, "VERSION_MINOR")
  {
    NamesAreTokens();
    WrittenValue(lines, configuration, "LAST_BUILD_SUCCEEDED");
    WrittenValue(lines, configuration, "VERSION_BUILD");
    WrittenValue(lines, configuration, "VERSION_REVISION");
    WrittenValue(lines, configuration, "VERSION_MAJOR");
    WrittenValue(lines, configuration, "VERSION_MINOR");
  }
}
