// build/scripts/plist_version_update.rb: after a build, copy the version
// numbers of _version.h into the bundle's Info.plist (CFBundleVersion gets
// the build number, CFBundleShortVersionString the dotted four numbers) and
// set the success flag of _version.h. The file names come from the
// environment; here the two files are TextFiles.

module PlistVersion {
  import opened Strings
  import opened VersionDefines

  const OpenTag: string := "<string>"
  const CloseTag: string := "</string>"

  /** The text the key pattern looks for: `\s*<key>KEY</key>\n` is not
      anchored, so the leading spaces never matter. */
  function KeyTag(key: string): string
  {
    "<key>" + key + "</key>\n"
  }

  /** Whether the key pattern matches the line. */
  predicate KeyLine(line: string, key: string)
  {
    Contains(line, KeyTag(key))
  }

  /** Where `.` stops: the first line end, or the end of the text. */
  function SegmentEnd(s: string): (e: nat)
    ensures e <= |s| && '\n' !in s[..e]
    ensures e < |s| ==> s[e] == '\n'
  {
    var i := IndexOf(s, '\n');
    if i == -1 then |s| else i
  }

  /** The length of the run of non-'<' characters at the start of `s`: what
      the greedy [^<]+ takes (it crosses line ends). */
  function Untagged(s: string): (n: nat)
    ensures n <= |s| && forall k :: 0 <= k < n ==> s[k] != '<'
    ensures n < |s| ==> s[n] == '<'
  {
    if |s| > 0 && s[0] != '<' then 1 + Untagged(s[1..]) else 0
  }

  /** A run of `x`, stopped by a '<' or the end, is all of `x`. */
  lemma {:induction false} UntaggedOf(x: string, y: string)
    requires '<' !in x && (|y| == 0 || y[0] == '<')
    ensures Untagged(x + y) == |x|
  {
    if |x| > 0 {
      assert (x + y)[0] == x[0];
      assert (x + y)[1..] == x[1..] + y;
      UntaggedOf(x[1..], y);
    } else {
      assert x + y == y;
    }
  }

  /** Whether `<string>[^<]+</string>` matches at position i. */
  predicate SlotAt(line: string, i: nat)
  {
    OccursAt(line, OpenTag, i)
    && var n := Untagged(line[i + |OpenTag|..]);
    n > 0 && OccursAt(line, CloseTag, i + |OpenTag| + n)
  }

  /** The last position before `i` where the value pattern matches: the
      greedy `.*` in front of it backs off from the right. */
  function LastSlot(line: string, i: nat): (r: Option<nat>)
    ensures r.Some? ==> r.value < i && SlotAt(line, r.value)
  {
    if i == 0 then None
    else if SlotAt(line, i - 1) then Some(i - 1)
    else LastSlot(line, i - 1)
  }

  /** A match with no opening tag after it before `i` is the one LastSlot
      finds. */
  lemma {:induction false} LastSlotFrom(line: string, i: nat, p: nat)
    requires p < i && SlotAt(line, p)
    requires forall j :: p < j < i ==> !Opening(line, j)
    ensures LastSlot(line, i) == Some(p)
  {
    if p < i - 1 {
      OpeningOf(line, i - 1);
      LastSlotFrom(line, i - 1, p);
    }
  }

  /** The first two characters of the opening tag at `j`. */
  predicate Opening(line: string, j: nat)
  {
    j + 1 < |line| && line[j] == '<' && line[j + 1] == 's'
  }

  /** An opening tag starts with those two characters. */
  lemma OpeningOf(line: string, j: nat)
    ensures OccursAt(line, OpenTag, j) ==> Opening(line, j)
  {
    if OccursAt(line, OpenTag, j) {
      assert line[j..j + |OpenTag|][0] == OpenTag[0];
      assert line[j..j + |OpenTag|][1] == OpenTag[1];
    }
  }

  /** The two captures of `(.*<string>)[^<]+(</string>.*)`. */
  datatype Slot = Slot(open: string, close: string)

  /** The captures of a match at `i`: the line up to the value, and the
      closing tag with the rest of its line. */
  function SlotOf(line: string, i: nat): Slot
    requires SlotAt(line, i)
  {
    var c := i + |OpenTag| + Untagged(line[i + |OpenTag|..]);
    var rest := line[c + |CloseTag|..];
    Slot(line[..i + |OpenTag|], line[c..c + |CloseTag| + SegmentEnd(rest)])
  }

  /** The value pattern on a line: a match must lie in one segment between
      line ends, so the search tries the segments in order and takes the
      last match in the first segment that has one. */
  function ValueSlot(line: string): Option<Slot>
    decreases |line|
  {
    var e := SegmentEnd(line);
    var i := LastSlot(line, e);
    if i.Some? then Some(SlotOf(line, i.value))
    else if e == |line| then None
    else ValueSlot(line[e + 1..])
  }

  /** The line the value line becomes: `"%s%s%s\n" % [open, value, close]`;
      None when the pattern does not match and `match.captures` raises. */
  function Written(line: string, value: string): Option<string>
  {
    var s := ValueSlot(line);
    if s.None? then None else Some(s.value.open + value + s.value.close + "\n")
  }

  /** A value an Info.plist string element can hold on one line. */
  predicate Plain(v: string)
  {
    |v| > 0 && '<' !in v && '\n' !in v
  }

  /** A `<string>` line the way Info.plist writes one. */
  function Canon(indent: string, v: string): string
  {
    indent + OpenTag + v + CloseTag + "\n"
  }

  /** In a plain `<string>` line, the only '<' past the indent are the two
      tags. */
  lemma TagsOnly(indent: string, v: string, j: nat)
    requires Plain(v) && |indent| < j < |Canon(indent, v)| - 1
    ensures !Opening(Canon(indent, v), j)
  {
    var line := Canon(indent, v);
    var rest := OpenTag + v + CloseTag + "\n";
    assert line == indent + rest;
    var k := j - |indent|;
    assert line[j] == rest[k];
    assert line[j + 1] == rest[k + 1];
    if k < |OpenTag| {
      assert rest[k] == OpenTag[k];
      assert rest[k] != '<';
    } else if k < |OpenTag| + |v| {
      assert rest[k] == v[k - |OpenTag|];
    } else if k == |OpenTag| + |v| {
      assert rest[k + 1] == CloseTag[1];
    } else {
      assert rest[k] == CloseTag[k - |OpenTag| - |v|];
    }
  }

  /** A plain `<string>` line has its one line end at the end. */
  lemma CanonSegment(indent: string, v: string)
    requires '\n' !in indent && Plain(v)
    ensures SegmentEnd(Canon(indent, v)) == |Canon(indent, v)| - 1
  {
    var line := Canon(indent, v);
    assert line[..|line| - 1] == indent + OpenTag + v + CloseTag;
    assert line[|line| - 1] == '\n';
  }

  /** After the opening tag of a plain `<string>` line come the value and
      the closing tag. */
  lemma CanonValue(indent: string, v: string)
    requires Plain(v)
    ensures var line := Canon(indent, v); var p := |indent| + |OpenTag|;
      && line[p..] == v + (CloseTag + "\n")
      && Untagged(line[p..]) == |v|
  {
    var line := Canon(indent, v);
    assert line == (indent + OpenTag) + (v + (CloseTag + "\n"));
    UntaggedOf(v, CloseTag + "\n");
  }

  /** The value pattern matches a plain `<string>` line after its indent. */
  lemma CanonSlotAt(indent: string, v: string)
    requires Plain(v)
    ensures SlotAt(Canon(indent, v), |indent|)
  {
    var line := Canon(indent, v);
    var c := |indent| + |OpenTag| + |v|;
    CanonValue(indent, v);
    assert line[|indent|..|indent| + |OpenTag|] == OpenTag;
    assert line[c..c + |CloseTag|] == CloseTag;
  }

  /** The captures of that match: the indent with the opening tag, and the
      closing tag. */
  lemma CanonSlotOf(indent: string, v: string)
    requires Plain(v)
    ensures SlotAt(Canon(indent, v), |indent|)
    ensures SlotOf(Canon(indent, v), |indent|) == Slot(indent + OpenTag, CloseTag)
  {
    var line := Canon(indent, v);
    var c := |indent| + |OpenTag| + |v|;
    CanonSlotAt(indent, v);
    CanonValue(indent, v);
    assert line[c..c + |CloseTag|] == CloseTag;
    assert line[..|indent| + |OpenTag|] == indent + OpenTag;
    assert line[c + |CloseTag|..][0] == '\n';
  }

  /** The last match in a plain `<string>` line, searched from e (the
      position of its line end), is the one after its indent. */
  lemma CanonLastSlot(indent: string, v: string, e: nat)
    requires Plain(v) && e == |Canon(indent, v)| - 1
    ensures LastSlot(Canon(indent, v), e) == Some(|indent|)
  {
    CanonSlotAt(indent, v);
    NoOpeningAfterIndent(indent, v);
    LastSlotFrom(Canon(indent, v), e, |indent|);
  }

  /** TagsOnly for every position past the indent. */
  lemma NoOpeningAfterIndent(indent: string, v: string)
    requires Plain(v)
    ensures |indent| < |Canon(indent, v)| - 1
    ensures forall j :: |indent| < j < |Canon(indent, v)| - 1 ==> !Opening(Canon(indent, v), j)
  {
    forall j | |indent| < j < |Canon(indent, v)| - 1
      ensures !Opening(Canon(indent, v), j)
    {
      TagsOnly(indent, v, j);
    }
  }

  /** The value pattern reads a plain `<string>` line as its indent and
      opening tag, then the value, then the closing tag. */
  lemma CanonicalSlot(indent: string, v: string)
    requires '\n' !in indent && Plain(v)
    ensures ValueSlot(Canon(indent, v)) == Some(Slot(indent + OpenTag, CloseTag))
  {
    var e := |Canon(indent, v)| - 1;
    CanonSegment(indent, v);
    CanonLastSlot(indent, v, e);
    ValueSlotIn(Canon(indent, v), e, |indent|);
    CanonSlotOf(indent, v);
  }

  /** A match found in the first segment is the one the value pattern reads. */
  lemma ValueSlotIn(line: string, e: nat, p: nat)
    requires SegmentEnd(line) == e && LastSlot(line, e) == Some(p)
    ensures ValueSlot(line) == Some(SlotOf(line, p))
  {
  }

  /** Writing a value into a plain `<string>` line gives the plain line of
      that value, which reads back the same way. */
  lemma WrittenCanon(indent: string, v: string, w: string)
    requires '\n' !in indent && Plain(v)
    ensures Written(Canon(indent, v), w) == Some(Canon(indent, w))
  {
    CanonicalSlot(indent, v);
    assert indent + OpenTag + w + CloseTag + "\n" == Canon(indent, w);
  }

  /** Whether replace_plist_value's next_match is set after `lines`: a key
      line sets it, and the line after it clears it whatever that line is. */
  predicate Pending(lines: seq<string>, key: string)
    decreases |lines|
  {
    |lines| > 0 && !Pending(lines[..|lines| - 1], key) && KeyLine(lines[|lines| - 1], key)
  }

  /** The state of the map! block between lines: next_match and new_value. */
  datatype Scan = Scan(next: bool, value: string)

  /** The lines mapped so far, and the state. */
  datatype Pass = Pass(lines: seq<string>, scan: Scan)

  /** One line of replace_plist_value's map!. After a key line the value
      line is written anew; `threads` says whether the written line becomes
      new_value for the next key, as the script's reassignment makes it. */
  function PlistLine(line: string, key: string, sc: Scan, threads: bool): (r: Option<(string, Scan)>)
  {
    if sc.next then
      var w := Written(line, sc.value);
      if w.None? then None else Some((w.value, Scan(false, if threads then w.value else sc.value)))
    else Some((line, Scan(KeyLine(line, key), sc.value)))
  }

  /** replace_plist_value over `lines`; None when a value line does not
      match the value pattern. */
  function Scanned(lines: seq<string>, key: string, value: string, threads: bool): (r: Option<Pass>)
    ensures r.Some? ==> |r.value.lines| == |lines| && r.value.scan.next == Pending(lines, key)
    decreases |lines|
  {
    if |lines| == 0 then Some(Pass([], Scan(false, value)))
    else
      var p := Scanned(lines[..|lines| - 1], key, value, threads);
      if p.None? then None
      else
        var step := PlistLine(lines[|lines| - 1], key, p.value.scan, threads);
        if step.None? then None else Some(Pass(p.value.lines + [step.value.0], step.value.1))
  }

  /** The corrected replace_plist_value: every value line gets `value`. */
  function ReplacedValues(lines: seq<string>, key: string, value: string): Option<Pass>
  {
    Scanned(lines, key, value, false)
  }

  /** Line i of `lines` follows a key line and is rewritten. */
  predicate ValueLine(lines: seq<string>, key: string, i: nat)
    requires i <= |lines|
  {
    Pending(lines[..i], key)
  }

  /** Scanning one more line extends the scan of the prefix. */
  lemma ScannedStep(lines: seq<string>, key: string, value: string, threads: bool, i: nat)
    requires i < |lines|
    ensures var p := Scanned(lines[..i], key, value, threads);
      Scanned(lines[..i + 1], key, value, threads)
        == if p.None? then None
           else var step := PlistLine(lines[i], key, p.value.scan, threads);
             if step.None? then None else Some(Pass(p.value.lines + [step.value.0], step.value.1))
  {
    assert lines[..i + 1][..i] == lines[..i];
  }

  /** Line i of a prefix is a value line exactly when it is one of the
      whole list. */
  lemma ValueLinePrefix(lines: seq<string>, key: string, n: nat, i: nat)
    requires i <= n <= |lines|
    ensures ValueLine(lines[..n], key, i) == ValueLine(lines, key, i)
  {
    assert lines[..n][..i] == lines[..i];
  }

  /** Both versions of replace_plist_value raise exactly when a value line
      has no `<string>` element. */
  lemma {:induction false} ScanRaises(lines: seq<string>, key: string, value: string, threads: bool)
    ensures Scanned(lines, key, value, threads).None?
      <==> exists i :: 0 <= i < |lines| && ValueLine(lines, key, i) && ValueSlot(lines[i]).None?
  {
    if |lines| > 0 {
      var n := |lines| - 1;
      var init := lines[..n];
      ScanRaises(init, key, value, threads);
      ScannedStep(lines, key, value, threads, n);
      assert lines[..n + 1] == lines;
      var p := Scanned(init, key, value, threads);
      if p.None? {
        var i :| 0 <= i < n && ValueLine(init, key, i) && ValueSlot(init[i]).None?;
        ValueLinePrefix(lines, key, n, i);
        assert init[i] == lines[i];
        assert Scanned(lines, key, value, threads).None?;
        assert ValueLine(lines, key, i) && ValueSlot(lines[i]).None?;
      } else {
        LineRaises(lines[n], key, p.value.scan, threads);
        assert ValueLine(lines, key, n) == p.value.scan.next;
        if PlistLine(lines[n], key, p.value.scan, threads).None? {
          assert Scanned(lines, key, value, threads).None?;
          assert ValueLine(lines, key, n) && ValueSlot(lines[n]).None?;
        } else {
          assert Scanned(lines, key, value, threads).Some?;
          forall i | 0 <= i < |lines|
            ensures !(ValueLine(lines, key, i) && ValueSlot(lines[i]).None?)
          {
            if i < n {
              ValueLinePrefix(lines, key, n, i);
              assert init[i] == lines[i];
            }
          }
        }
      }
    }
  }

  /** One line raises exactly when it follows a key line and has no value slot. */
  lemma LineRaises(line: string, key: string, sc: Scan, threads: bool)
    ensures PlistLine(line, key, sc, threads).None? <==> sc.next && ValueSlot(line).None?
  {
  }

  /** Both versions keep every line that is not a value line. */
  lemma {:induction false} ScanKeeps(lines: seq<string>, key: string, value: string, threads: bool)
    requires Scanned(lines, key, value, threads).Some?
    ensures forall i :: 0 <= i < |lines| && !ValueLine(lines, key, i) ==>
      Scanned(lines, key, value, threads).value.lines[i] == lines[i]
  {
    if |lines| > 0 {
      var n := |lines| - 1;
      var init := lines[..n];
      ScannedStep(lines, key, value, threads, n);
      assert lines[..n + 1] == lines;
      ScanKeeps(init, key, value, threads);
      var p := Scanned(init, key, value, threads).value;
      var r := Scanned(lines, key, value, threads).value;
      assert r.lines == p.lines + [r.lines[n]];
      forall i | 0 <= i < |lines| && !ValueLine(lines, key, i)
        ensures r.lines[i] == lines[i]
      {
        if i < n {
          ValueLinePrefix(lines, key, n, i);
          assert r.lines[i] == p.lines[i] == init[i];
        }
      }
    }
  }

  /** The corrected replace_plist_value writes `value` into every value
      line and leaves new_value as it was. */
  lemma {:induction false} CorrectedLines(lines: seq<string>, key: string, value: string)
    requires ReplacedValues(lines, key, value).Some?
    ensures var r := ReplacedValues(lines, key, value).value;
      && r.scan.value == value
      && forall i :: 0 <= i < |lines| && ValueLine(lines, key, i) ==> Written(lines[i], value) == Some(r.lines[i])
  {
    if |lines| > 0 {
      var n := |lines| - 1;
      var init := lines[..n];
      ScannedStep(lines, key, value, false, n);
      assert lines[..n + 1] == lines;
      CorrectedLines(init, key, value);
      var p := ReplacedValues(init, key, value).value;
      var r := ReplacedValues(lines, key, value).value;
      CorrectedLine(lines[n], key, p.scan, value);
      assert r.lines == p.lines + [r.lines[n]];
      forall i | 0 <= i < |lines| && ValueLine(lines, key, i)
        ensures Written(lines[i], value) == Some(r.lines[i])
      {
        if i < n {
          ValueLinePrefix(lines, key, n, i);
          assert init[i] == lines[i] && r.lines[i] == p.lines[i];
          assert Written(init[i], value) == Some(p.lines[i]);
        } else {
          assert p.scan.next;
          assert r.lines[n] == PlistLine(lines[n], key, p.scan, false).value.0;
        }
      }
    }
  }

  /** One line of the corrected pass: new_value stays, and a value line
      gets it written in. */
  lemma CorrectedLine(line: string, key: string, sc: Scan, value: string)
    requires sc.value == value && PlistLine(line, key, sc, false).Some?
    ensures PlistLine(line, key, sc, false).value.1.value == value
    ensures sc.next ==> Written(line, value) == Some(PlistLine(line, key, sc, false).value.0)
  {
  }

  /** With at most one value line, the reassignment of new_value changes
      nothing: the script as written and the corrected one agree. */
  lemma {:induction false} ThreadsAgree(lines: seq<string>, key: string, value: string)
    requires forall i, j :: 0 <= i < j < |lines| && ValueLine(lines, key, i) ==> !ValueLine(lines, key, j)
    ensures var t := Scanned(lines, key, value, true); var f := ReplacedValues(lines, key, value);
      && t.Some? == f.Some?
      && (t.Some? ==> t.value.lines == f.value.lines)
      && (t.Some? && (forall i :: 0 <= i < |lines| ==> !ValueLine(lines, key, i)) ==> t.value.scan == f.value.scan)
  {
    if |lines| > 0 {
      var n := |lines| - 1;
      var init := lines[..n];
      forall i | 0 <= i < n
        ensures ValueLine(init, key, i) == ValueLine(lines, key, i)
      {
        ValueLinePrefix(lines, key, n, i);
      }
      ThreadsAgree(init, key, value);
      ScannedStep(lines, key, value, true, n);
      ScannedStep(lines, key, value, false, n);
      assert lines[..n + 1] == lines;
      assert ValueLine(lines, key, n) == Pending(init, key);
      var t := Scanned(init, key, value, true);
      var f := ReplacedValues(init, key, value);
      if t.Some? && ValueLine(lines, key, n) {
        assert forall i :: 0 <= i < |init| ==> !ValueLine(init, key, i);
        assert t.value.scan == f.value.scan;
      }
    }
  }

  /** A key line followed by its value line, scanned while next_match is
      clear: the key line stays and the value line is written. */
  lemma KeyPair(lines: seq<string>, key: string, value: string, threads: bool, x: string,
                out: seq<string>, v: string, w: string)
    requires Scanned(lines, key, value, threads) == Some(Pass(out, Scan(false, v)))
    requires Written(x, v) == Some(w)
    ensures Scanned(lines + [KeyTag(key), x], key, value, threads)
      == Some(Pass(out + [KeyTag(key), w], Scan(false, if threads then w else v)))
  {
    var all := lines + [KeyTag(key), x];
    var n := |lines|;
    assert OccursAt(KeyTag(key), KeyTag(key), 0);
    ScannedStep(all, key, value, threads, n);
    ScannedStep(all, key, value, threads, n + 1);
    assert all[..n] == lines && all[n] == KeyTag(key) && all[n + 1] == x;
    assert all[..n + 2] == all;
    assert out + [KeyTag(key)] + [w] == out + [KeyTag(key), w];
  }

  /** Two key lines, each followed by a value line. */
  lemma TwoPairs(key: string, value: string, threads: bool, x1: string, x2: string, y1: string, y2: string)
    requires Written(x1, value) == Some(y1)
    requires Written(x2, if threads then y1 else value) == Some(y2)
    ensures Scanned([KeyTag(key), x1, KeyTag(key), x2], key, value, threads)
      == Some(Pass([KeyTag(key), y1, KeyTag(key), y2], Scan(false, if threads then y2 else value)))
  {
    var k := KeyTag(key);
    var v1 := if threads then y1 else value;
    assert Scanned([], key, value, threads) == Some(Pass([], Scan(false, value)));
    KeyPair([], key, value, threads, x1, [], value, y1);
    assert [] + [k, x1] == [k, x1] && [] + [k, y1] == [k, y1];
    KeyPair([k, x1], key, value, threads, x2, [k, y1], v1, y2);
    assert [k, x1] + [k, x2] == [k, x1, k, x2];
    assert [k, y1] + [k, y2] == [k, y1, k, y2];
  }

  /** The script as written on an Info.plist that names the key twice: the
      whole first rewritten line, tags and all, becomes the second value. */
  lemma DuplicateKeyAsWritten(key: string, a: string, b: string, v1: string, v2: string, value: string)
    requires '\n' !in a && '\n' !in b && Plain(v1) && Plain(v2) && Plain(value)
    ensures var lines := [KeyTag(key), Canon(a, v1), KeyTag(key), Canon(b, v2)];
      && Scanned(lines, key, value, true)
         == Some(Pass([KeyTag(key), Canon(a, value), KeyTag(key), Canon(b, Canon(a, value))],
                      Scan(false, Canon(b, Canon(a, value)))))
      && Canon(b, Canon(a, value)) != Canon(b, value)
  {
    WrittenCanon(a, v1, value);
    WrittenCanon(b, v2, Canon(a, value));
    TwoPairs(key, value, true, Canon(a, v1), Canon(b, v2), Canon(a, value), Canon(b, Canon(a, value)));
    assert |Canon(b, Canon(a, value))| > |Canon(b, value)|;
  }

  /** The corrected replace_plist_value on the same Info.plist writes the
      value into both value lines. */
  lemma DuplicateKeyCorrected(key: string, a: string, b: string, v1: string, v2: string, value: string)
    requires '\n' !in a && '\n' !in b && Plain(v1) && Plain(v2) && Plain(value)
    ensures var lines := [KeyTag(key), Canon(a, v1), KeyTag(key), Canon(b, v2)];
      ReplacedValues(lines, key, value)
        == Some(Pass([KeyTag(key), Canon(a, value), KeyTag(key), Canon(b, value)], Scan(false, value)))
  {
    WrittenCanon(a, v1, value);
    WrittenCanon(b, v2, value);
    TwoPairs(key, value, false, Canon(a, v1), Canon(b, v2), Canon(a, value), Canon(b, value));
  }

  /** The corrected replace_plist_value, in place: map! rewrites the lines
      in order. When a value line does not match at line k the lines before
      k are already mapped and the rest are as they were; `raisedAt` is
      then Some(k). */
  method ReplacePlistValue(data: array<string>, key: string, newValue: string) returns (raisedAt: Option<nat>)
    modifies data
    ensures raisedAt.None? <==> ReplacedValues(old(data[..]), key, newValue).Some?
    ensures raisedAt.None? ==> data[..] == ReplacedValues(old(data[..]), key, newValue).value.lines
    ensures raisedAt.Some? ==> var k := raisedAt.value;
      && k < data.Length && ValueLine(old(data[..]), key, k) && ValueSlot(old(data[k])).None?
      && ReplacedValues(old(data[..k]), key, newValue) == Some(Pass(data[..k], Scan(true, newValue)))
      && data[k..] == old(data[k..])
  {
    ghost var before := data[..];
    var nextMatch := false;
    var i := 0;
    while i < data.Length
      invariant 0 <= i <= data.Length
      invariant ReplacedValues(before[..i], key, newValue) == Some(Pass(data[..i], Scan(nextMatch, newValue)))
      invariant data[i..] == before[i..]
    {
      var ok;
      ok, nextMatch := ScanAt(data, key, newValue, i, nextMatch, before);
      if !ok {
        return Some(i);
      }
      i := i + 1;
    }
    assert before[..i] == before;
    assert data[..i] == data[..];
    return None;
  }

  /** One step of replace_plist_value's map!: line i is a key line or any
      other line, kept, or the value line after a key line, rewritten; or
      it does not match and the step raises. */
  method ScanAt(data: array<string>, key: string, newValue: string, i: nat, nextMatch: bool, ghost before: seq<string>)
    returns (ok: bool, next: bool)
    requires i < data.Length == |before|
    requires ReplacedValues(before[..i], key, newValue) == Some(Pass(data[..i], Scan(nextMatch, newValue)))
    requires data[i..] == before[i..]
    modifies data
    ensures ok <==> !(nextMatch && ValueSlot(before[i]).None?)
    ensures ok ==> ReplacedValues(before[..i + 1], key, newValue) == Some(Pass(data[..i + 1], Scan(next, newValue)))
    ensures ok ==> data[i + 1..] == before[i + 1..]
    ensures !ok ==> ValueLine(before, key, i) && ReplacedValues(before, key, newValue).None?
    ensures !ok ==> data[..] == old(data[..])
  {
    assert data[i] == before[i];
    ScannedStep(before, key, newValue, false, i);
    assert ValueLine(before, key, i) == nextMatch;
    if nextMatch {
      var slot := ValueSlot(data[i]);
      if slot.None? {
        ScanRaises(before, key, newValue, false);
        return false, nextMatch;
      }
      data[i] := slot.value.open + newValue + slot.value.close + "\n";
      next := false;
    } else {
      next := KeyLine(data[i], key);
    }
    assert data[..i + 1] == data[..i] + [data[i]];
    assert data[i + 1..] == old(data[i + 1..]);
    return true, next;
  }

  /** The names get_defines is asked for, in order. */
  const VersionKeys: seq<string> := ["VERSION_MAJOR", "VERSION_MINOR", "VERSION_REVISION", "VERSION_BUILD"]

  /** nil.to_s, and how Array#join writes nil: the empty string. */
  function Text(v: Option<string>): string
  {
    if v.None? then "" else v.value
  }

  /** Array#join('.'). */
  function Dotted(parts: seq<string>): string
  {
    if |parts| == 0 then ""
    else if |parts| == 1 then parts[0]
    else parts[0] + "." + Dotted(parts[1..])
  }

  /** The fields of `s` between dots, empty ones included. */
  function DotFields(s: string): (f: seq<string>)
    ensures |f| >= 1
  {
    if |s| == 0 then [""]
    else if s[0] == '.' then [""] + DotFields(s[1..])
    else var g := DotFields(s[1..]); [[s[0]] + g[0]] + g[1..]
  }

  /** Text without a dot in front of `y` joins the first field of `y`. */
  lemma {:induction false} DotFieldsAfter(x: string, y: string)
    requires '.' !in x
    ensures var g := DotFields(y); DotFields(x + y) == [x + g[0]] + g[1..]
  {
    if |x| > 0 {
      assert (x + y)[0] == x[0] && (x + y)[1..] == x[1..] + y;
      DotFieldsAfter(x[1..], y);
      assert [x[0]] + (x[1..] + DotFields(y)[0]) == x + DotFields(y)[0];
    } else {
      assert x == [];
      var g := DotFields(y);
      assert x + y == y && x + g[0] == g[0];
      assert g == [g[0]] + g[1..];
    }
  }

  /** The dotted version splits back into its parts when none holds a dot. */
  lemma {:induction false} DottedFields(parts: seq<string>)
    requires |parts| >= 1 && forall i :: 0 <= i < |parts| ==> '.' !in parts[i]
    ensures DotFields(Dotted(parts)) == parts
  {
    if |parts| == 1 {
      DotFieldsAfter(parts[0], "");
      assert parts[0] + "" == parts[0];
      assert parts == [parts[0]];
    } else {
      var rest := Dotted(parts[1..]);
      DottedFields(parts[1..]);
      var tail := "." + rest;
      assert tail[1..] == rest;
      assert DotFields(tail) == [""] + parts[1..];
      assert Dotted(parts) == parts[0] + tail;
      DotFieldsAfter(parts[0], tail);
      assert parts[0] + "" == parts[0];
      assert parts == [parts[0]] + parts[1..];
    }
  }

  /** The four version numbers of _version.h, nil where a define is missing. */
  function Versions(version: seq<string>): seq<string>
  {
    [Text(LastValue(version, "VERSION_MAJOR")), Text(LastValue(version, "VERSION_MINOR")),
     Text(LastValue(version, "VERSION_REVISION")), Text(LastValue(version, "VERSION_BUILD"))]
  }

  /** cf_bundle_short_version_string: the four numbers joined with dots. */
  function ShortVersion(version: seq<string>): string
  {
    Dotted(Versions(version))
  }

  /** The short version reads back as the four numbers of _version.h. */
  lemma ShortVersionFields(version: seq<string>)
    requires forall i :: 0 <= i < 4 ==> '.' !in Versions(version)[i]
    ensures DotFields(ShortVersion(version)) == Versions(version)
  {
    DottedFields(Versions(version));
  }

  /** The success flag set: replace_define with the block yielding "true". */
  function Flagged(version: seq<string>): seq<string>
  {
    ConstantNeverRaises(version, "LAST_BUILD_SUCCEEDED", "true");
    ReplacedLines(version, "LAST_BUILD_SUCCEEDED", Constant("true")).value
  }

  /** The names the script writes and the flag value are tokens. */
  lemma FlagIsToken()
    ensures Token("LAST_BUILD_SUCCEEDED") && Token("true")
  {
  }

  /** After the flag is set get_defines reads "true" for it, if _version.h
      defines it, and every other value as it was. */
  lemma FlaggedValue(version: seq<string>, key: string)
    ensures LastValue(Flagged(version), key)
      == if key != "LAST_BUILD_SUCCEEDED" then LastValue(version, key)
         else if LastValue(version, key).Some? then Some("true") else None
  {
    FlagIsToken();
    ConstantNeverRaises(version, "LAST_BUILD_SUCCEEDED", "true");
    LastValueAfterReplace(version, "LAST_BUILD_SUCCEEDED", Constant("true"), key);
  }

  /** What the script leaves behind: nothing written when a value line does
      not match (the script raises before writing), or both files. */
  datatype PlistOutcome = Aborted | Updated(version: seq<string>, plist: seq<string>)

  /** process_version_header of plist_version_update.rb on the lines of
      _version.h and Info.plist. */
  function PlistUpdate(version: seq<string>, plist: seq<string>): PlistOutcome
  {
    var bundleVersion := Text(LastValue(version, "VERSION_BUILD"));
    var first := ReplacedValues(plist, "CFBundleVersion", bundleVersion);
    if first.None? then Aborted
    else
      var second := ReplacedValues(first.value.lines, "CFBundleShortVersionString", ShortVersion(version));
      if second.None? then Aborted
      else Updated(Flagged(version), second.value.lines)
  }

  /** The Info.plist as written: the value after each CFBundleVersion key
      holds the build number, then the value after each
      CFBundleShortVersionString key holds the short version, and every
      other line is kept. */
  lemma UpdatedPlist(version: seq<string>, plist: seq<string>)
    requires PlistUpdate(version, plist).Updated?
    ensures var build := Text(LastValue(version, "VERSION_BUILD"));
      var mid := ReplacedValues(plist, "CFBundleVersion", build).value.lines;
      var out := PlistUpdate(version, plist).plist;
      && |mid| == |plist| == |out|
      && (forall i :: 0 <= i < |plist| && ValueLine(plist, "CFBundleVersion", i) ==>
            Written(plist[i], build) == Some(mid[i]))
      && (forall i :: 0 <= i < |plist| && !ValueLine(plist, "CFBundleVersion", i) ==> mid[i] == plist[i])
      && (forall i :: 0 <= i < |mid| && ValueLine(mid, "CFBundleShortVersionString", i) ==>
            Written(mid[i], ShortVersion(version)) == Some(out[i]))
      && (forall i :: 0 <= i < |mid| && !ValueLine(mid, "CFBundleShortVersionString", i) ==> out[i] == mid[i])
  {
    var build := Text(LastValue(version, "VERSION_BUILD"));
    var mid := ReplacedValues(plist, "CFBundleVersion", build).value.lines;
    CorrectedLines(plist, "CFBundleVersion", build);
    ScanKeeps(plist, "CFBundleVersion", build, false);
    CorrectedLines(mid, "CFBundleShortVersionString", ShortVersion(version));
    ScanKeeps(mid, "CFBundleShortVersionString", ShortVersion(version), false);
  }

  /** get_defines on the version keys fills each slot with its key's value. */
  lemma VersionKeysDistinct()
    ensures forall j :: 0 <= j < 4 ==> FirstIndex(VersionKeys, VersionKeys[j]) == j
  {
    assert VersionKeys[0] != VersionKeys[1] && VersionKeys[0] != VersionKeys[2] && VersionKeys[0] != VersionKeys[3];
    assert VersionKeys[1] != VersionKeys[2] && VersionKeys[1] != VersionKeys[3];
    assert VersionKeys[2] != VersionKeys[3];
  }

  /** process_version_header: read _version.h, write the build number and
      the short version into Info.plist, then set the success flag in
      _version.h. Info.plist is written first, so when both names are the
      same file the header's lines win. */
  method ProcessPlistVersion(versionFile: TextFile, plistFile: TextFile) returns (outcome: PlistOutcome)
    modifies versionFile, plistFile
    ensures outcome == PlistUpdate(old(versionFile.lines), old(plistFile.lines))
    ensures outcome.Aborted? ==> versionFile.lines == old(versionFile.lines) && plistFile.lines == old(plistFile.lines)
    ensures outcome.Updated? ==> versionFile.lines == outcome.version
    ensures outcome.Updated? && plistFile != versionFile ==> plistFile.lines == outcome.plist
  {
    var versionContents := versionFile.Read();
    var defines := GetDefines(versionContents[..], VersionKeys);
    VersionKeysDistinct();
    var major, minor, revision, build := defines[0], defines[1], defines[2], defines[3];
    var cfBundleVersion := Text(build);
    var shortVersion := Dotted([Text(major), Text(minor), Text(revision), Text(build)]);
    assert shortVersion == ShortVersion(versionContents[..]);
    var plistContents := plistFile.Read();
    var raised := ReplacePlistValue(plistContents, "CFBundleVersion", cfBundleVersion);
    if raised.Some? {
      return Aborted;
    }
    raised := ReplacePlistValue(plistContents, "CFBundleShortVersionString", shortVersion);
    if raised.Some? {
      return Aborted;
    }
    plistFile.Write(plistContents);
    ConstantNeverRaises(versionContents[..], "LAST_BUILD_SUCCEEDED", "true");
    var flagRaised := ReplaceDefine(versionContents, "LAST_BUILD_SUCCEEDED", Constant("true"));
    versionFile.Write(versionContents);
    outcome := Updated(versionContents[..], plistContents[..]);
  }
}
