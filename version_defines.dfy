// The helpers build/scripts/header_version_update.rb and
// build/scripts/plist_version_update.rb share, each script carrying its own
// identical copy: reading `#define NAME VALUE` lines, collecting their values
// by name, rewriting the value of one name, and bumping a version number.
// A file is its list of lines, each with its line end, as File#each_line
// gives them.

module VersionDefines {
  import opened Strings

  datatype Option<T> = None | Some(value: T)

  /** Ruby's \s: space, tab, line feed, carriage return, form feed, vertical tab. */
  predicate IsSpace(c: char)
  {
    c == ' ' || c == '\t' || c == '\n' || c == '\r' || c as int == 12 || c as int == 11
  }

  /** What \S+ captures: a non-empty run without white space. */
  predicate Token(s: string)
  {
    |s| > 0 && forall i :: 0 <= i < |s| ==> !IsSpace(s[i])
  }

  /** The length of the run at the start of `s` of characters that are white
      space (`space`) or are not (`!space`). */
  function Run(s: string, space: bool): (n: nat)
    ensures n <= |s|
    ensures forall i :: 0 <= i < n ==> IsSpace(s[i]) == space
    ensures n < |s| ==> IsSpace(s[n]) != space
  {
    if |s| > 0 && IsSpace(s[0]) == space then 1 + Run(s[1..], space) else 0
  }

  /** A run of `x`, stopped by the first character of `y`, is all of `x`. */
  lemma {:induction false} RunOf(x: string, y: string, space: bool)
    requires forall i :: 0 <= i < |x| ==> IsSpace(x[i]) == space
    requires |y| == 0 || IsSpace(y[0]) != space
    ensures Run(x + y, space) == |x|
  {
    if |x| > 0 {
      assert (x + y)[0] == x[0];
      assert (x + y)[1..] == x[1..] + y;
      RunOf(x[1..], y, space);
    } else {
      assert x + y == y;
    }
  }

  /** The two captures of the define pattern. */
  datatype Define = Define(key: string, value: string)

  /** \s+(\S+)\s+(\S+) at the start of `s`: the runs are maximal, so each
      capture is the whole token. */
  function DefineAfter(s: string): (m: Option<Define>)
    ensures m.Some? ==> Token(m.value.key) && Token(m.value.value)
  {
    var a := Run(s, true);
    var k := Run(s[a..], false);
    var t := s[a + k..];
    var b := Run(t, true);
    var v := Run(t[b..], false);
    if a == 0 || k == 0 || b == 0 || v == 0 then None
    else Some(Define(s[a..a + k], t[b..b + v]))
  }

  /** /#define\s+(\S+)\s+(\S+)/.match(line): the leftmost "#define" that the
      rest of the pattern follows. */
  function MatchDefine(line: string): (m: Option<Define>)
    ensures m.Some? ==> Token(m.value.key) && Token(m.value.value)
  {
    if |line| < 7 then None
    else if line[..7] == "#define" && DefineAfter(line[7..]).Some? then DefineAfter(line[7..])
    else MatchDefine(line[1..])
  }

  /** The line "#define %s %s\n" that replace_define writes. */
  function DefineLine(key: string, value: string): string
  {
    "#define " + key + " " + value + "\n"
  }

  /** The text after "#define" in a written define line gives back its key and value. */
  lemma DefineAfterWritten(key: string, value: string)
    requires Token(key) && Token(value)
    ensures DefineAfter(" " + key + " " + value + "\n") == Some(Define(key, value))
  {
    var t := " " + (value + "\n");
    var s := " " + (key + t);
    WrittenSlices(key, value);
    SpaceThenToken(key + t);
    TokenThenSpace(key, t);
    SpaceThenToken(value + "\n");
    TokenThenSpace(value, "\n");
  }

  /** Where the key and the value sit in a written define. */
  lemma WrittenSlices(key: string, value: string)
    ensures var t := " " + (value + "\n"); var s := " " + (key + t);
      && s == " " + key + " " + value + "\n"
      && s[1..] == key + t && s[1..1 + |key|] == key && s[1 + |key|..] == t
      && t[1..] == value + "\n" && t[1..1 + |value|] == value
  {
    var t := " " + (value + "\n");
    var s := " " + (key + t);
    assert s[1..] == key + t;
    assert s[1 + |key|..] == t;
  }

  /** One space before a non-space character is a white-space run of one. */
  lemma SpaceThenToken(x: string)
    requires |x| > 0 && !IsSpace(x[0])
    ensures Run(" " + x, true) == 1
  {
    RunOf(" ", x, true);
  }

  /** A token before white space is a non-space run of its length. */
  lemma TokenThenSpace(x: string, y: string)
    requires Token(x) && |y| > 0 && IsSpace(y[0])
    ensures Run(x + y, false) == |x|
  {
    RunOf(x, y, false);
  }

  /** A written define line reads back as the key and value it was written with. */
  lemma DefineLineMatches(key: string, value: string)
    requires Token(key) && Token(value)
    ensures MatchDefine(DefineLine(key, value)) == Some(Define(key, value))
  {
    var line := DefineLine(key, value);
    var s := " " + key + " " + value + "\n";
    assert line == "#define" + s;
    assert line[..7] == "#define" && line[7..] == s;
    DefineAfterWritten(key, value);
  }

  /** Array#index: the first position of `k` in `keys`, or -1. */
  function FirstIndex(keys: seq<string>, k: string): (i: int)
    ensures -1 <= i < |keys|
    ensures i >= 0 ==> keys[i] == k && forall j :: 0 <= j < i ==> keys[j] != k
    ensures i == -1 ==> forall j :: 0 <= j < |keys| ==> keys[j] != k
  {
    if |keys| == 0 then -1
    else if keys[0] == k then 0
    else
      var i := FirstIndex(keys[1..], k);
      assert forall j :: 1 <= j < |keys| ==> keys[j] == keys[1..][j - 1];
      if i < 0 then -1 else i + 1
  }

  /** The value of the last define line for `key`: get_defines goes through
      the lines in order and each later one overwrites the slot. */
  function LastValue(lines: seq<string>, key: string): (v: Option<string>)
    ensures v.Some? ==> Token(v.value)
  {
    if |lines| == 0 then None
    else
      var m := MatchDefine(lines[|lines| - 1]);
      if m.Some? && m.value.key == key then Some(m.value.value)
      else LastValue(lines[..|lines| - 1], key)
  }

  /** A define line for `key` added at the end decides its value. */
  lemma LaterDefineWins(lines: seq<string>, key: string, value: string)
    requires Token(key) && Token(value)
    ensures LastValue(lines + [DefineLine(key, value)], key) == Some(value)
  {
    DefineLineMatches(key, value);
    var all := lines + [DefineLine(key, value)];
    assert all[|all| - 1] == DefineLine(key, value);
  }

  /** A key no line defines has no value. */
  lemma {:induction false} UndefinedHasNoValue(lines: seq<string>, key: string)
    requires forall i :: 0 <= i < |lines| ==> MatchDefine(lines[i]).None? || MatchDefine(lines[i]).value.key != key
    ensures LastValue(lines, key).None?
  {
    if |lines| > 0 {
      var init := lines[..|lines| - 1];
      assert forall i :: 0 <= i < |init| ==> init[i] == lines[i];
      UndefinedHasNoValue(init, key);
    }
  }

  /** get_defines, padded to one entry per key the way the script's multiple
      assignment reads the result: the slot of a key holds the value of its
      last define line, or nil; a key repeated in `keys` fills only its first
      slot (Array#index). */
  method GetDefines(data: seq<string>, keys: seq<string>) returns (results: seq<Option<string>>)
    ensures |results| == |keys|
    ensures forall j :: 0 <= j < |keys| ==>
      results[j] == (if FirstIndex(keys, keys[j]) == j then LastValue(data, keys[j]) else None)
  {
    results := seq(|keys|, _ => None);
    var i := 0;
    while i < |data|
      invariant 0 <= i <= |data| && |results| == |keys|
      invariant forall j :: 0 <= j < |keys| ==>
        results[j] == (if FirstIndex(keys, keys[j]) == j then LastValue(data[..i], keys[j]) else None)
    {
      var m := MatchDefine(data[i]);
      forall j | 0 <= j < |keys|
        ensures LastValue(data[..i + 1], keys[j])
          == if m.Some? && m.value.key == keys[j] then Some(m.value.value) else LastValue(data[..i], keys[j])
      {
        LastValueStep(data, i, keys[j]);
      }
      if m.Some? {
        var index := FirstIndex(keys, m.value.key);
        if index >= 0 {
          results := results[index := Some(m.value.value)];
        }
      }
      i := i + 1;
    }
    assert data[..i] == data;
  }

  /** One more line for get_defines: a define line for `key` replaces its
      value, any other line keeps it. */
  lemma LastValueStep(data: seq<string>, i: nat, key: string)
    requires i < |data|
    ensures var m := MatchDefine(data[i]);
      LastValue(data[..i + 1], key)
        == if m.Some? && m.value.key == key then Some(m.value.value) else LastValue(data[..i], key)
  {
    assert data[..i + 1][..i] == data[..i];
  }

  /** The position of the first digit of `s`, or |s|. */
  function FirstDigit(s: string): (p: nat)
    ensures p <= |s| && forall i :: 0 <= i < p ==> !IsDigit(s[i])
    ensures p < |s| ==> IsDigit(s[p])
  {
    if |s| == 0 || IsDigit(s[0]) then 0 else 1 + FirstDigit(s[1..])
  }

  /** The length of the run of non-digits that starts `s`. */
  function NonDigits(s: string): (n: nat)
    ensures n <= |s| && forall i :: 0 <= i < n ==> !IsDigit(s[i])
    ensures n < |s| ==> IsDigit(s[n])
  {
    if |s| == 0 || IsDigit(s[0]) then 0 else 1 + NonDigits(s[1..])
  }

  /** A string without digits is one run of non-digits. */
  lemma {:induction false} AllNonDigits(s: string)
    requires forall i :: 0 <= i < |s| ==> !IsDigit(s[i])
    ensures NonDigits(s) == |s|
  {
    if |s| > 0 {
      AllNonDigits(s[1..]);
    }
  }

  /** The number /(\d+)/ finds first in `s`, if any. */
  function FirstNumber(s: string): Option<nat>
  {
    var p := FirstDigit(s);
    if p == |s| then None else Some(DecimalValue(s[p..][..LeadingDigits(s[p..])]))
  }

  /** increment_version: /(\d+)(\D*)/ finds the first run of digits and the
      non-digits after it; the result is that number plus one followed by
      those non-digits. Anything before the digits or after the non-digits is
      dropped. A version without digits leaves the match nil and the script
      raises: None. */
  function IncrementVersion(version: string): (r: Option<string>)
    ensures r.None? <==> FirstNumber(version).None?
    ensures r.Some? ==> FirstNumber(r.value) == Some(FirstNumber(version).value + 1)
  {
    var p := FirstDigit(version);
    if p == |version| then None
    else
      var rest := version[p..];
      var d := LeadingDigits(rest);
      var tail := rest[d..];
      var n := DecimalString(DecimalValue(rest[..d]) + 1);
      var r := n + tail[..NonDigits(tail)];
      assert r[0] == n[0];
      LeadingDigitsOfNumber(n, tail[..NonDigits(tail)]);
      assert r[..|n|] == n;
      Some(r)
  }

  /** Incrementing a token gives a token: the digits, then characters of
      the token. */
  lemma IncrementedToken(version: string)
    requires Token(version) && IncrementVersion(version).Some?
    ensures Token(IncrementVersion(version).value)
  {
    var p := FirstDigit(version);
    var rest := version[p..];
    var d := LeadingDigits(rest);
    var tail := rest[d..];
    var n := DecimalString(DecimalValue(rest[..d]) + 1);
    var t := tail[..NonDigits(tail)];
    assert IncrementVersion(version) == Some(n + t);
    assert forall i :: 0 <= i < |t| ==> t[i] == version[p + d + i];
    DigitsThenToken(n, t);
  }

  /** Digits followed by characters that are not white space make a token. */
  lemma DigitsThenToken(n: string, t: string)
    requires |n| > 0 && forall i :: 0 <= i < |n| ==> IsDigit(n[i])
    requires forall i :: 0 <= i < |t| ==> !IsSpace(t[i])
    ensures Token(n + t)
  {
    forall i | 0 <= i < |n + t|
      ensures !IsSpace((n + t)[i])
    {
      if i >= |n| {
        assert (n + t)[i] == t[i - |n|];
      }
    }
  }

  /** A plain number with a suffix free of digits: the number goes up by one
      and the suffix is kept. */
  lemma IncrementKeepsSuffix(n: nat, suffix: string)
    requires forall i :: 0 <= i < |suffix| ==> !IsDigit(suffix[i])
    ensures IncrementVersion(DecimalString(n) + suffix) == Some(DecimalString(n + 1) + suffix)
  {
    var v := DecimalString(n) + suffix;
    var s := DecimalString(n);
    assert v[0] == s[0];
    assert FirstDigit(v) == 0;
    assert v[0..] == v;
    LeadingDigitsOfNumber(s, suffix);
    assert v[..|s|] == s && v[|s|..] == suffix;
    AllNonDigits(suffix);
    assert suffix[..|suffix|] == suffix;
  }

  /** The block replace_define is given: increment_version, or a constant. */
  datatype Rewrite = Increment | Constant(text: string)

  /** The block's value for the current value; None when increment_version raises. */
  function Rewritten(rw: Rewrite, current: string): Option<string>
  {
    match rw
    case Increment => IncrementVersion(current)
    case Constant(t) => Some(t)
  }

  /** One line of replace_define's map!: a define line for `key` is written
      anew with the rewritten value, any other line is kept. */
  function RewriteLine(line: string, key: string, rw: Rewrite): Option<string>
  {
    var m := MatchDefine(line);
    if m.Some? && m.value.key == key then
      var v := Rewritten(rw, m.value.value);
      if v.None? then None else Some(DefineLine(key, v.value))
    else Some(line)
  }

  /** replace_define over a list of lines; None when a rewrite raises. */
  function ReplacedLines(lines: seq<string>, key: string, rw: Rewrite): (r: Option<seq<string>>)
    ensures r.Some? ==> (|r.value| == |lines|
      && forall i :: 0 <= i < |lines| ==> RewriteLine(lines[i], key, rw) == Some(r.value[i]))
    ensures r.None? ==> exists i :: 0 <= i < |lines| && RewriteLine(lines[i], key, rw).None?
  {
    if |lines| == 0 then Some([])
    else
      var init := lines[..|lines| - 1];
      var p := ReplacedLines(init, key, rw);
      var last := RewriteLine(lines[|lines| - 1], key, rw);
      if p.None? then
        assert exists i :: 0 <= i < |lines| && RewriteLine(lines[i], key, rw).None? by {
          var i :| 0 <= i < |init| && RewriteLine(init[i], key, rw).None?;
          assert init[i] == lines[i];
        }
        None
      else if last.None? then None
      else
        assert forall i :: 0 <= i < |init| ==> init[i] == lines[i];
        Some(p.value + [last.value])
  }

  /** Only the define lines of `key` change; each becomes the define line of
      its rewritten value. */
  lemma ReplacedLinesAt(lines: seq<string>, key: string, rw: Rewrite, i: nat)
    requires ReplacedLines(lines, key, rw).Some? && i < |lines|
    ensures var m := MatchDefine(lines[i]); var r := ReplacedLines(lines, key, rw).value;
      if m.Some? && m.value.key == key then
        Rewritten(rw, m.value.value).Some? && r[i] == DefineLine(key, Rewritten(rw, m.value.value).value)
      else r[i] == lines[i]
  {
    var r := ReplacedLines(lines, key, rw).value;
    assert RewriteLine(lines[i], key, rw) == Some(r[i]);
  }

  /** Rewriting to a constant never raises. */
  lemma {:induction false} ConstantNeverRaises(lines: seq<string>, key: string, text: string)
    ensures ReplacedLines(lines, key, Constant(text)).Some?
  {
    if |lines| > 0 {
      ConstantNeverRaises(lines[..|lines| - 1], key, text);
    }
  }

  /** A rewrite that yields a token for every token. */
  predicate KeepsTokens(rw: Rewrite)
  {
    rw.Constant? ==> Token(rw.text)
  }

  /** After replace_define for `key`, every value get_defines reads is the
      old one, rewritten for `key` and untouched for any other name. */
  lemma {:induction false} LastValueAfterReplace(lines: seq<string>, key: string, rw: Rewrite, other: string)
    requires Token(key) && KeepsTokens(rw) && ReplacedLines(lines, key, rw).Some?
    ensures var r := ReplacedLines(lines, key, rw).value;
      && (other != key ==> LastValue(r, other) == LastValue(lines, other))
      && (LastValue(lines, key).Some? ==> LastValue(r, key) == Rewritten(rw, LastValue(lines, key).value))
      && (LastValue(lines, key).None? ==> LastValue(r, key).None?)
  {
    if |lines| > 0 {
      var r := ReplacedLines(lines, key, rw).value;
      var init := lines[..|lines| - 1];
      var last := lines[|lines| - 1];
      var p := ReplacedLines(init, key, rw);
      assert p.Some? && r == p.value + [r[|r| - 1]];
      assert r[..|r| - 1] == p.value;
      LastValueAfterReplace(init, key, rw, other);
      ReplacedLinesAt(lines, key, rw, |lines| - 1);
      var m := MatchDefine(last);
      if m.Some? && m.value.key == key {
        var v := Rewritten(rw, m.value.value).value;
        if rw.Increment? {
          IncrementedToken(m.value.value);
        }
        DefineLineMatches(key, v);
      }
    }
  }

  /** The text file a script reads with read_file and writes with write_file. */
  class TextFile {
    var lines: seq<string>

    constructor (lines: seq<string>)
      ensures this.lines == lines
    {
      this.lines := lines;
    }

    /** read_file: an array holding the lines. */
    method Read() returns (data: array<string>)
      ensures fresh(data) && data[..] == lines
    {
      data := new string[|lines|](i requires 0 <= i < |lines| reads this => lines[i]);
    }

    /** write_file: the file becomes the lines of `data`. */
    method Write(data: array<string>)
      modifies this
      ensures lines == old(data[..])
    {
      lines := data[..];
    }
  }

  /** replace_define, in place: map! rewrites the lines in order. When a
      rewrite raises at line k the lines before k are already rewritten and
      the rest are as they were; `raisedAt` is then Some(k). */
  method ReplaceDefine(data: array<string>, key: string, rw: Rewrite) returns (raisedAt: Option<nat>)
    modifies data
    ensures raisedAt.None? <==> ReplacedLines(old(data[..]), key, rw).Some?
    ensures raisedAt.None? ==> data[..] == ReplacedLines(old(data[..]), key, rw).value
    ensures raisedAt.Some? ==> var k := raisedAt.value;
      && k < data.Length
      && ReplacedLines(old(data[..k]), key, rw) == Some(data[..k])
      && RewriteLine(old(data[k]), key, rw).None?
      && data[k..] == old(data[k..])
  {
    ghost var before := data[..];
    var i := 0;
    while i < data.Length
      invariant 0 <= i <= data.Length
      invariant ReplacedLines(before[..i], key, rw) == Some(data[..i])
      invariant data[i..] == before[i..]
    {
      var ok := RewriteAt(data, key, rw, i, before);
      if !ok {
        return Some(i);
      }
      i := i + 1;
    }
    assert before[..i] == before;
    assert data[..i] == data[..];
    return None;
  }

  /** One step of replace_define's map!: line i is rewritten, or raises and
      is left as it was. */
  method RewriteAt(data: array<string>, key: string, rw: Rewrite, i: nat, ghost before: seq<string>) returns (ok: bool)
    requires i < data.Length == |before|
    requires ReplacedLines(before[..i], key, rw) == Some(data[..i]) && data[i..] == before[i..]
    modifies data
    ensures ok <==> RewriteLine(before[i], key, rw).Some?
    ensures ok ==> ReplacedLines(before[..i + 1], key, rw) == Some(data[..i + 1]) && data[i + 1..] == before[i + 1..]
    ensures !ok ==> ReplacedLines(before, key, rw).None? && data[..] == old(data[..])
  {
    assert data[i] == before[i];
    var line := RewriteLine(data[i], key, rw);
    ReplacedPrefix(before, key, rw, i);
    if line.None? {
      RaisingLine(before, key, rw, i);
      return false;
    }
    data[i] := line.value;
    assert data[..i + 1] == data[..i] + [line.value];
    assert data[i + 1..] == old(data[i + 1..]);
    return true;
  }

  /** Rewriting one more line extends the rewritten prefix by that line. */
  lemma ReplacedPrefix(lines: seq<string>, key: string, rw: Rewrite, i: nat)
    requires i < |lines|
    ensures var p := ReplacedLines(lines[..i], key, rw); var l := RewriteLine(lines[i], key, rw);
      ReplacedLines(lines[..i + 1], key, rw) == if p.None? || l.None? then None else Some(p.value + [l.value])
  {
    assert lines[..i + 1][..i] == lines[..i];
  }

  /** A line whose rewrite raises makes the whole rewrite raise. */
  lemma RaisingLine(lines: seq<string>, key: string, rw: Rewrite, i: nat)
    requires i < |lines| && RewriteLine(lines[i], key, rw).None?
    ensures ReplacedLines(lines, key, rw).None?
  {
  }
}
