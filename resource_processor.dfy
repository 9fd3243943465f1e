// The resource pipeline of build/scripts/resource_processor.rb. Every input
// file goes to the first transformer that accepts it; the external encoder,
// the copies and the directory creation are recorded as actions rather than
// performed, and the file system is a snapshot mapping each existing path to
// its kind.

module ResourceProcessor {
  import opened Strings

  type Path = string

  datatype Kind = Regular | Directory

  /** File.exists? holds for the keys; File.directory? for the Directory ones. */
  type FileSystem = map<Path, Kind>

  /** The transformer classes that register themselves: WAV2AAC, Copy, Mkdir. */
  datatype Transformer = Wav2Aac | Copy | Mkdir

  /** What a transformer's process does: run afconvert, FileUtils.cp into a
      directory, or FileUtils.mkdir_p. */
  datatype Action = Encode(input: Path, target: Path) | CopyInto(input: Path, dir: Path) | MakeDirs(dir: Path)

  datatype Option<T> = None | Some(value: T)

  /** `p` with its trailing separators removed. */
  function TrimSeparators(p: Path): (t: Path)
    ensures |t| <= |p| && t == p[..|t|] && (|t| == 0 || t[|t| - 1] != '/')
    ensures forall i :: |t| <= i < |p| ==> p[i] == '/'
  {
    if |p| > 0 && p[|p| - 1] == '/' then TrimSeparators(p[..|p| - 1]) else p
  }

  /** File.basename: the last component, trailing separators ignored; a path
      of separators only is "/". */
  function Basename(p: Path): (b: Path)
    ensures b == "/" || '/' !in b
    ensures p != [] && p[|p| - 1] != '/' ==> b != [] && |b| <= |p| && p == p[..|p| - |b|] + b
  {
    var t := TrimSeparators(p);
    if t == [] then (if p == [] then [] else "/")
    else
      var b := t[LastIndexOf(t, '/') + 1..];
      assert t == t[..|t| - |b|] + b;
      b
  }

  /** The number of dots that start `s`. */
  function LeadingDots(s: string): (n: nat)
    ensures n <= |s| && forall i :: 0 <= i < n ==> s[i] == '.'
    ensures n < |s| ==> s[n] != '.'
  {
    if |s| > 0 && s[0] == '.' then 1 + LeadingDots(s[1..]) else 0
  }

  /** The extension of a file name: from its last dot, skipping the dots
      that start it; a dotfile or a name ending in a dot has none. */
  function NameExtension(b: string): (e: string)
    ensures e == [] || (|e| >= 2 && e[0] == '.')
    ensures |e| <= |b| && e == b[|b| - |e|..]
  {
    var k := LeadingDots(b);
    var t := b[k..];
    var i := LastIndexOf(t, '.');
    if i < 0 || i == |t| - 1 then []
    else
      assert t[i] == b[k + i];
      b[k + i..]
  }

  /** File.extname: the extension of the basename. */
  function Extname(p: Path): (e: string)
    ensures e == [] || (|e| >= 2 && e[0] == '.')
    ensures var b := Basename(p); |e| <= |b| && e == b[|b| - |e|..]
  {
    NameExtension(Basename(p))
  }

  /** `s` without its trailing "\n" and "\r\n" line ends (chomp with an empty argument). */
  function ChompLineEnds(s: string): (r: string)
    ensures |r| <= |s| && r == s[..|r|]
  {
    if |s| >= 2 && s[|s| - 2] == '\r' && s[|s| - 1] == '\n' then
      var r := ChompLineEnds(s[..|s| - 2]);
      assert s[..|s| - 2][..|r|] == s[..|r|];
      r
    else if |s| >= 1 && s[|s| - 1] == '\n' then
      var r := ChompLineEnds(s[..|s| - 1]);
      assert s[..|s| - 1][..|r|] == s[..|r|];
      r
    else s
  }

  /** String#chomp(suffix) for the suffixes used here: an empty one removes
      line ends, any other is removed when `s` ends with it. */
  function Chomp(s: string, suffix: string): (r: string)
    ensures |r| <= |s| && r == s[..|r|]
  {
    if suffix == [] then ChompLineEnds(s)
    else if |suffix| <= |s| && s[|s| - |suffix|..] == suffix then s[..|s| - |suffix|]
    else s
  }

  /** File.join of two parts: one separator between them. */
  function Join(dir: Path, name: Path): (r: Path)
    ensures |dir| > 0 && dir[|dir| - 1] == '/' && (|name| == 0 || name[0] != '/') ==> r == dir + name
    ensures (|dir| == 0 || dir[|dir| - 1] != '/') && |name| > 0 && name[0] != '/' ==> r == dir + "/" + name
  {
    var endsWith := |dir| > 0 && dir[|dir| - 1] == '/';
    var startsWith := |name| > 0 && name[0] == '/';
    if endsWith && startsWith then dir + name[1..]
    else if endsWith || startsWith then dir + name
    else dir + "/" + name
  }

  /** FileTransformer#target_filename. */
  function TargetFilename(input: Path, output: Path, newExtension: string): Path
  {
    Join(output, Chomp(Basename(input), Extname(input)) + newExtension)
  }

  /** The target is the basename minus its extension, plus the new one, in
      the output directory. */
  lemma TargetFilenameParts(input: Path, output: Path, newExtension: string)
    requires Extname(input) != []
    ensures var stem := Chomp(Basename(input), Extname(input));
      && Basename(input) == stem + Extname(input)
      && TargetFilename(input, output, newExtension) == Join(output, stem + newExtension)
  {
    ChompSuffix(Basename(input), Extname(input));
  }

  /** Chomp removes a suffix the string ends with, and nothing else. */
  lemma ChompSuffix(s: string, suffix: string)
    requires suffix != [] && |suffix| <= |s| && suffix == s[|s| - |suffix|..]
    ensures s == Chomp(s, suffix) + suffix
  {
    assert Chomp(s, suffix) == s[..|s| - |suffix|];
    assert s == s[..|s| - |suffix|] + s[|s| - |suffix|..];
  }

  /** The can_process? of each transformer class. FileTransformer first
      rejects a missing path or a directory. */
  predicate CanProcess(t: Transformer, fs: FileSystem, input: Path)
  {
    match t
    case Wav2Aac => input in fs && fs[input] != Directory && Lower(Extname(input)) == ".wav"
    case Copy => input in fs && fs[input] != Directory
    case Mkdir => input in fs && fs[input] == Directory
  }

  /** What each transformer's process does with an input. */
  function Processing(t: Transformer, input: Path, output: Path): Action
  {
    match t
    case Wav2Aac => Encode(input, TargetFilename(input, output, ".aac"))
    case Copy => CopyInto(input, output)
    case Mkdir => MakeDirs(output)
  }

  /** The position of the first transformer that accepts the input, or -1. */
  function FirstCapable(ts: seq<Transformer>, fs: FileSystem, input: Path): (k: int)
    ensures -1 <= k < |ts|
    ensures k >= 0 ==> CanProcess(ts[k], fs, input)
    ensures forall j :: 0 <= j < |ts| && (k < 0 || j < k) ==> !CanProcess(ts[j], fs, input)
  {
    if |ts| == 0 then -1
    else if CanProcess(ts[0], fs, input) then 0
    else
      var k := FirstCapable(ts[1..], fs, input);
      assert forall j :: 1 <= j < |ts| ==> ts[j] == ts[1..][j - 1];
      if k < 0 then -1 else k + 1
  }

  /** Processor#process_file: the first accepting transformer processes the
      input and the others are not asked; an input none accepts is skipped. */
  function Dispatch(ts: seq<Transformer>, fs: FileSystem, input: Path, output: Path): Option<Action>
  {
    var k := FirstCapable(ts, fs, input);
    if k < 0 then None else Some(Processing(ts[k], input, output))
  }

  /** The loop of process_file, with its break. */
  method ProcessFile(ts: seq<Transformer>, fs: FileSystem, input: Path, output: Path) returns (done: Option<Action>)
    ensures done == Dispatch(ts, fs, input, output)
  {
    done := None;
    var i := 0;
    while i < |ts|
      invariant 0 <= i <= |ts|
      invariant forall j :: 0 <= j < i ==> !CanProcess(ts[j], fs, input)
    {
      if CanProcess(ts[i], fs, input) {
        FirstCapableIs(ts, fs, input, i);
        done := Some(Processing(ts[i], input, output));
        return;
      }
      assert !CanProcess(ts[i], fs, input);
      i := i + 1;
    }
    FirstCapableIs(ts, fs, input, -1);
  }

  /** The first accepting transformer is the one FirstCapable names. */
  lemma FirstCapableIs(ts: seq<Transformer>, fs: FileSystem, input: Path, k: int)
    requires -1 <= k < |ts| && (k >= 0 ==> CanProcess(ts[k], fs, input))
    requires forall j :: 0 <= j < |ts| && (k < 0 || j < k) ==> !CanProcess(ts[j], fs, input)
    ensures FirstCapable(ts, fs, input) == k
  {
  }

  /** With WAV2AAC ahead of Copy, a regular file is encoded exactly when its
      extension is ".wav" in any case, and copied otherwise; a directory is
      left to Mkdir. */
  lemma WavBeforeCopy(fs: FileSystem, input: Path, output: Path)
    requires input in fs
    ensures var d := Dispatch([Wav2Aac, Copy, Mkdir], fs, input, output);
      && (fs[input] == Regular && Lower(Extname(input)) == ".wav" <==> d.Some? && d.value.Encode?)
      && (fs[input] == Regular && Lower(Extname(input)) != ".wav" <==> d == Some(CopyInto(input, output)))
      && (fs[input] == Directory <==> d == Some(MakeDirs(output)))
  {
    var ts := [Wav2Aac, Copy, Mkdir];
    var d := Dispatch(ts, fs, input, output);
    if fs[input] == Directory {
      FirstCapableIs(ts, fs, input, 2);
      assert d == Some(MakeDirs(output));
    } else if Lower(Extname(input)) == ".wav" {
      FirstCapableIs(ts, fs, input, 0);
      assert d == Some(Encode(input, TargetFilename(input, output, ".aac")));
    } else {
      FirstCapableIs(ts, fs, input, 1);
      assert d == Some(CopyInto(input, output));
    }
  }

  /** A processor: the expanded input files and the chosen transformers
      (Dir.glob is not part of this model; the files are given). */
  datatype Processor = Processor(files: seq<Path>, transformers: seq<Transformer>)

  /** What Processor#process does, in order: create the target unless it is
      an existing directory, then dispatch every file. */
  function Plan(p: Processor, fs: FileSystem, target: Path): seq<Action>
  {
    (if target in fs && fs[target] == Directory then [] else [MakeDirs(target)])
      + Dispatched(p.transformers, fs, p.files, target)
  }

  function Dispatched(ts: seq<Transformer>, fs: FileSystem, files: seq<Path>, target: Path): seq<Action>
  {
    if |files| == 0 then []
    else
      Emitted(Dispatch(ts, fs, files[0], target)) + Dispatched(ts, fs, files[1..], target)
  }

  /** The action a dispatch yields, if any. */
  function Emitted(d: Option<Action>): seq<Action>
  {
    if d.Some? then [d.value] else []
  }

  /** Dispatching a list of files is dispatching its parts in turn. */
  lemma {:induction false} DispatchedAppend(ts: seq<Transformer>, fs: FileSystem, a: seq<Path>, b: seq<Path>, target: Path)
    ensures Dispatched(ts, fs, a + b, target) == Dispatched(ts, fs, a, target) + Dispatched(ts, fs, b, target)
  {
    if |a| > 0 {
      assert (a + b)[0] == a[0];
      assert (a + b)[1..] == a[1..] + b;
      DispatchedAppend(ts, fs, a[1..], b, target);
    } else {
      assert a + b == b;
    }
  }

  lemma DispatchedNext(ts: seq<Transformer>, fs: FileSystem, files: seq<Path>, i: nat, target: Path)
    requires i < |files|
    ensures Dispatched(ts, fs, files[..i + 1], target) == Dispatched(ts, fs, files[..i], target) + Emitted(Dispatch(ts, fs, files[i], target))
  {
    DispatchedAppend(ts, fs, files[..i], [files[i]], target);
    assert files[..i + 1] == files[..i] + [files[i]];
    assert Dispatched(ts, fs, [files[i]], target) == Emitted(Dispatch(ts, fs, files[i], target)) by {
      assert [files[i]][1..] == [];
    }
  }

  /** Every file yields at most one action, and one exactly when some
      transformer accepts it. */
  lemma {:induction false} DispatchedOnePerAccepted(ts: seq<Transformer>, fs: FileSystem, files: seq<Path>, target: Path)
    ensures |Dispatched(ts, fs, files, target)| <= |files|
    ensures |Dispatched(ts, fs, files, target)| == |files| <==> forall i :: 0 <= i < |files| ==> FirstCapable(ts, fs, files[i]) >= 0
  {
    if |files| > 0 {
      var rest := files[1..];
      DispatchedOnePerAccepted(ts, fs, rest, target);
      var d := Dispatch(ts, fs, files[0], target);
      var n := |Dispatched(ts, fs, rest, target)|;
      assert |Dispatched(ts, fs, files, target)| == (if d.Some? then 1 else 0) + n;
      assert d.Some? <==> FirstCapable(ts, fs, files[0]) >= 0;
      assert (forall i :: 0 <= i < |files| ==> FirstCapable(ts, fs, files[i]) >= 0)
         <==> FirstCapable(ts, fs, files[0]) >= 0 && forall i :: 0 <= i < |rest| ==> FirstCapable(ts, fs, rest[i]) >= 0
      by {
        assert forall i :: 1 <= i < |files| ==> files[i] == rest[i - 1];
      }
    }
  }

  /** Processor#process. */
  method Process(p: Processor, fs: FileSystem, target: Path) returns (actions: seq<Action>)
    ensures actions == Plan(p, fs, target)
  {
    actions := if target in fs && fs[target] == Directory then [] else [MakeDirs(target)];
    ghost var first := actions;
    var i := 0;
    while i < |p.files|
      invariant 0 <= i <= |p.files|
      invariant actions == first + Dispatched(p.transformers, fs, p.files[..i], target)
    {
      ProcessStep(p.transformers, fs, p.files, i, target, first, actions);
      actions := ProcessInto(p.transformers, fs, p.files[i], target, actions);
      i := i + 1;
    }
    assert p.files[..i] == p.files;
  }

  /** One more file of the loop of Processor#process. */
  lemma ProcessStep(ts: seq<Transformer>, fs: FileSystem, files: seq<Path>, i: nat, target: Path, first: seq<Action>, actions: seq<Action>)
    requires i < |files| && actions == first + Dispatched(ts, fs, files[..i], target)
    ensures actions + Emitted(Dispatch(ts, fs, files[i], target)) == first + Dispatched(ts, fs, files[..i + 1], target)
  {
    DispatchedNext(ts, fs, files, i, target);
    Associative(first, Dispatched(ts, fs, files[..i], target), Emitted(Dispatch(ts, fs, files[i], target)));
  }

  /** Processor#process_r for one globbed path (a single source): the
      action process_file takes, if any, is added to the ones recorded so far. */
  method ProcessInto(ts: seq<Transformer>, fs: FileSystem, input: Path, target: Path, actions: seq<Action>)
    returns (next: seq<Action>)
    ensures next == actions + Emitted(Dispatch(ts, fs, input, target))
  {
    var d := ProcessFile(ts, fs, input, target);
    next := if d.Some? then actions + [d.value] else actions;
  }

  lemma Associative<T>(a: seq<T>, b: seq<T>, c: seq<T>)
    ensures a + b + c == a + (b + c)
  {
  }

  /** `s` without the spaces that start it. */
  function DropSpaces(s: string): (r: string)
    ensures |r| <= |s| && r == s[|s| - |r|..] && (|r| == 0 || r[0] != ' ')
  {
    if |s| > 0 && s[0] == ' ' then DropSpaces(s[1..]) else s
  }

  /** The text up to each comma, the comma itself dropped. */
  function CommaFields(s: string): (f: seq<string>)
    ensures |f| >= 1
  {
    if |s| == 0 then [[]]
    else if s[0] == ',' then [[]] + CommaFields(s[1..])
    else var g := CommaFields(s[1..]); [[s[0]] + g[0]] + g[1..]
  }

  /** Ruby drops the empty fields that end a split. */
  function DropTrailingEmpty(f: seq<string>): (r: seq<string>)
    ensures |r| <= |f| && r == f[..|r|] && (|r| == 0 || r[|r| - 1] != [])
    ensures forall i :: |r| <= i < |f| ==> f[i] == []
  {
    if |f| > 0 && f[|f| - 1] == [] then DropTrailingEmpty(f[..|f| - 1]) else f
  }

  /** Each field with its leading spaces dropped. */
  function Unspaced(f: seq<string>): (r: seq<string>)
    ensures |r| == |f| && forall i :: 0 <= i < |f| ==> r[i] == DropSpaces(f[i])
  {
    if |f| == 0 then [] else [DropSpaces(f[0])] + Unspaced(f[1..])
  }

  /** Ruby's a.split on a comma followed by any number of spaces: the fields
      at each comma, the spaces after a comma dropped, trailing empty fields
      removed. */
  function SplitList(a: string): seq<string>
  {
    var f := CommaFields(a);
    DropTrailingEmpty([f[0]] + Unspaced(f[1..]))
  }

  /** `names` written out with ", " between them. */
  function JoinList(names: seq<string>): string
  {
    if |names| == 0 then []
    else if |names| == 1 then names[0]
    else names[0] + ", " + JoinList(names[1..])
  }

  /** Text without a comma in front of y joins y's first field. */
  lemma {:induction false} FieldsAfter(x: string, y: string)
    requires ',' !in x
    ensures var g := CommaFields(y); CommaFields(x + y) == [x + g[0]] + g[1..]
  {
    if |x| > 0 {
      assert (x + y)[0] == x[0] && (x + y)[1..] == x[1..] + y;
      FieldsAfter(x[1..], y);
      assert [x[0]] + (x[1..] + CommaFields(y)[0]) == x + CommaFields(y)[0];
    } else {
      assert x == [];
      var g := CommaFields(y);
      assert x + y == y && x + g[0] == g[0];
      assert g == [g[0]] + g[1..];
    }
  }

  /** The raw fields of a joined list are the names, each after the first
      with the separating space in front. */
  lemma {:induction false} CommaFieldsOfJoin(names: seq<string>)
    requires |names| >= 1 && forall i :: 0 <= i < |names| ==> ',' !in names[i]
    ensures var f := CommaFields(JoinList(names));
      && |f| == |names| && f[0] == names[0]
      && forall i :: 1 <= i < |f| ==> f[i] == " " + names[i]
  {
    if |names| == 1 {
      FieldsAfter(names[0], []);
      assert names[0] + [] == names[0];
    } else {
      var rest := JoinList(names[1..]);
      CommaFieldsOfJoin(names[1..]);
      var g := CommaFields(rest);
      var spaced := " " + rest;
      FieldsAfter(" ", rest);
      assert CommaFields(spaced) == [" " + g[0]] + g[1..];
      var tail := "," + spaced;
      assert tail[1..] == spaced;
      assert CommaFields(tail) == [[]] + CommaFields(spaced);
      assert JoinList(names) == names[0] + tail;
      FieldsAfter(names[0], tail);
      var f := CommaFields(JoinList(names));
      assert names[0] + [] == names[0];
      assert f == [names[0]] + CommaFields(spaced);
      assert f == [names[0]] + ([" " + names[1]] + g[1..]);
      forall i | 1 <= i < |f|
        ensures f[i] == " " + names[i]
      {
        if i >= 2 {
          assert f[i] == g[i - 1];
        }
      }
    }
  }

  /** Dropping the separating spaces gives the names back. */
  lemma {:induction false} UnspacedNames(f: seq<string>, names: seq<string>)
    requires |f| == |names| && forall i :: 0 <= i < |f| ==> f[i] == " " + names[i]
    requires forall i :: 0 <= i < |names| ==> names[i] != [] && names[i][0] != ' '
    ensures Unspaced(f) == names
  {
    forall i | 0 <= i < |f|
      ensures DropSpaces(f[i]) == names[i]
    {
      assert f[i][1..] == names[i];
    }
  }

  lemma FirstAndRest<T>(s: seq<T>)
    requires |s| > 0
    ensures [s[0]] + s[1..] == s
  {
  }

  /** Splitting a list joined with ", " gives the names back, when none is
      empty, contains a comma or starts with a space. */
  lemma SplitJoinList(names: seq<string>)
    requires forall i :: 0 <= i < |names| ==> names[i] != [] && ',' !in names[i] && names[i][0] != ' '
    ensures SplitList(JoinList(names)) == names
  {
    if |names| == 0 {
      assert CommaFields([]) == [[]];
      assert [[]] + Unspaced([]) == [[]];
      assert DropTrailingEmpty([[]]) == DropTrailingEmpty([]);
    } else {
      CommaFieldsOfJoin(names);
      var f := CommaFields(JoinList(names));
      var tail := f[1..];
      assert |tail| == |names[1..]|;
      assert forall i :: 0 <= i < |tail| ==> tail[i] == " " + names[1..][i];
      UnspacedNames(tail, names[1..]);
      var raw := [f[0]] + Unspaced(tail);
      assert raw == [names[0]] + names[1..];
      FirstAndRest(names);
      assert names[|names| - 1] != [];
      assert DropTrailingEmpty(raw) == raw;
    }
  }

  /** const_get(name).new for the transformer classes; any other name raises. */
  function Resolve(name: string): Option<Transformer>
  {
    if name == "WAV2AAC" then Some(Wav2Aac)
    else if name == "Copy" then Some(Copy)
    else if name == "Mkdir" then Some(Mkdir)
    else None
  }

  /** The transformers named by a list, or None when a name is unknown. */
  function ResolveAll(names: seq<string>): (r: Option<seq<Transformer>>)
    ensures r.Some? ==> |r.value| == |names| && forall i :: 0 <= i < |names| ==> Resolve(names[i]) == Some(r.value[i])
    ensures r.None? ==> exists i :: 0 <= i < |names| && Resolve(names[i]).None?
  {
    if |names| == 0 then Some([])
    else
      var rest := ResolveAll(names[1..]);
      if Resolve(names[0]).None? then None
      else if rest.None? then
        assert exists i :: 1 <= i < |names| && Resolve(names[i]).None? by {
          var j :| 0 <= j < |names| - 1 && Resolve(names[1..][j]).None?;
          assert Resolve(names[j + 1]).None?;
        }
        None
      else Some([Resolve(names[0]).value] + rest.value)
  }

  /** The parser's state between arguments. */
  datatype ArgState = ArgState(inputs: seq<string>, transformers: seq<Transformer>, listNext: bool)

  /** What Args.process! ends with: the usage text, an aborted run (a name
      const_get could not resolve), or a processor to run. */
  datatype Invocation = Usage | Aborted | Run(output: Path, inputs: seq<string>, transformers: seq<Transformer>)

  /** One argument: "-t" announces a transformer list; a list argument
      resolves its names; anything else is an input. `resets` says whether
      the flag is cleared after a list, which the script as written never does. */
  function ArgStep(st: ArgState, a: string, resets: bool): Option<ArgState>
  {
    if a == "-t" then Some(st.(listNext := true))
    else if st.listNext then
      var ts := ResolveAll(SplitList(a));
      if ts.None? then None
      else Some(st.(transformers := st.transformers + ts.value, listNext := st.listNext && !resets))
    else Some(st.(inputs := st.inputs + [a]))
  }

  /** The argument loop; a failed lookup ends it through the rescue. */
  function ParseOthers(others: seq<string>, st: ArgState, resets: bool): Option<ArgState>
  {
    if |others| == 0 then Some(st)
    else
      var next := ArgStep(st, others[0], resets);
      if next.None? then None else ParseOthers(others[1..], next.value, resets)
  }

  /** Args.process!: the first argument is the output directory, the rest are
      parsed in order. Fewer than two arguments print the usage. */
  function ArgumentsWith(argv: seq<string>, resets: bool): Invocation
  {
    if |argv| < 2 then Usage
    else
      var r := ParseOthers(argv[1..], ArgState([], [], false), resets);
      if r.None? then Aborted else Run(argv[0], r.value.inputs, r.value.transformers)
  }

  /** The script as written: once "-t" is seen, every later argument is read
      as a transformer list. */
  function ArgumentsAsWritten(argv: seq<string>): Invocation
  {
    ArgumentsWith(argv, false)
  }

  /** The evidently intended reading: "-t" applies to the one argument after it. */
  function Arguments(argv: seq<string>): Invocation
  {
    ArgumentsWith(argv, true)
  }

  /** A list argument whose names all resolve appends their transformers. */
  lemma KnownList(st: ArgState, a: string, ts: seq<Transformer>, resets: bool)
    requires st.listNext && a != "-t" && ResolveAll(SplitList(a)) == Some(ts)
    ensures ArgStep(st, a, resets) == Some(st.(transformers := st.transformers + ts, listNext := !resets))
  {
  }

  /** A list argument with a name that does not resolve ends the parse. */
  lemma UnknownList(st: ArgState, a: string, resets: bool)
    requires st.listNext && a != "-t" && ResolveAll(SplitList(a)).None?
    ensures ArgStep(st, a, resets).None?
  {
  }

  /** As written, an argument after a transformer list is itself looked up
      as a list of transformer names, so a file name there aborts the run. */
  lemma ListThenFileAborts(output: Path, list: string, ts: seq<Transformer>, input: string)
    requires ResolveAll(SplitList(list)) == Some(ts) && list != "-t"
    requires ResolveAll(SplitList(input)).None? && input != "-t"
    ensures ArgumentsAsWritten([output, "-t", list, input]) == Aborted
  {
    var s0 := ArgState([], [], false);
    var s1 := ArgState([], [], true);
    var s2 := ArgState([], ts, true);
    assert ArgStep(s0, "-t", false) == Some(s1);
    KnownList(s1, list, ts, false);
    assert [] + ts == ts;
    UnknownList(s2, input, false);
    ParseFirst(input, [], s2, false);
    ParseFirst(list, [input], s1, false);
    ParseFirst("-t", [list, input], s0, false);
    assert [input] == [input] + [];
    assert [list, input] == [list] + [input];
    assert [output, "-t", list, input][1..] == ["-t"] + [list, input];
  }

  /** "WAV2AAC, Copy" lists the WAV2AAC and Copy transformers. */
  lemma ExampleList(list: string)
    requires list == "WAV2AAC, Copy"
    ensures ResolveAll(SplitList(list)) == Some([Wav2Aac, Copy])
  {
    var names := ["WAV2AAC", "Copy"];
    assert forall i :: 0 <= i < |names| ==> names[i] != [] && ',' !in names[i] && names[i][0] != ' ';
    assert JoinList(names) == list;
    SplitJoinList(names);
    assert Resolve("WAV2AAC") == Some(Wav2Aac) && Resolve("Copy") == Some(Copy);
    ResolveTwo(names[0], names[1]);
  }

  /** Two names that each resolve resolve together, in order. */
  lemma ResolveTwo(a: string, b: string)
    requires Resolve(a).Some? && Resolve(b).Some?
    ensures ResolveAll([a, b]) == Some([Resolve(a).value, Resolve(b).value])
  {
    assert [a, b][1..] == [b] && [b][1..] == [];
    var rb := [Resolve(b).value];
    assert rb + [] == rb;
    assert ResolveAll([b]) == Some(rb);
    assert ResolveAll([a, b]) == Some([Resolve(a).value] + rb);
    assert [Resolve(a).value] + rb == [Resolve(a).value, Resolve(b).value];
  }

  /** An argument without a comma is a list of itself. */
  lemma SplitSingle(a: string)
    requires a != [] && ',' !in a && a[0] != ' '
    ensures SplitList(a) == [a]
  {
    assert JoinList([a]) == a;
    SplitJoinList([a]);
  }

  /** A file name (no comma, not a transformer's name) is a list naming no
      transformer. */
  lemma FileNameIsNoList(input: string)
    requires input != [] && ',' !in input && input[0] != ' ' && Resolve(input).None?
    ensures ResolveAll(SplitList(input)).None?
  {
    SplitSingle(input);
  }

  /** "music/theme.wav" is a plain file name. */
  lemma ExampleFile(file: string)
    requires file == "music/theme.wav"
    ensures file != [] && ',' !in file && file[0] != ' ' && Resolve(file).None?
  {
  }

  /** A file name after the transformer list: the script as written aborts,
      the corrected parser runs the transformers on the file. */
  lemma InputAfterListAborts(list: string, file: string)
    requires list == "WAV2AAC, Copy" && file == "music/theme.wav"
    ensures ArgumentsAsWritten(["out", "-t", list, file]) == Aborted
    ensures Arguments(["out", "-t", list, file]) == Run("out", [file], [Wav2Aac, Copy])
  {
    ExampleList(list);
    ExampleFile(file);
    FileNameIsNoList(file);
    ListThenFileAborts("out", list, [Wav2Aac, Copy], file);
    ListArgumentThenInputs("out", list, [Wav2Aac, Copy], [file]);
    assert ["out", "-t", list] + [file] == ["out", "-t", list, file];
  }

  /** Without "-t" every argument after the output is an input, in order. */
  lemma {:induction false} PlainArgumentsAreInputs(others: seq<string>, st: ArgState, resets: bool)
    requires "-t" !in others && !st.listNext
    ensures ParseOthers(others, st, resets) == Some(st.(inputs := st.inputs + others))
  {
    if |others| > 0 {
      assert others[0] != "-t";
      assert "-t" !in others[1..];
      var st1 := st.(inputs := st.inputs + [others[0]]);
      assert ArgStep(st, others[0], resets) == Some(st1);
      assert ParseOthers(others, st, resets) == ParseOthers(others[1..], st1, resets);
      PlainArgumentsAreInputs(others[1..], st1, resets);
      assert st.inputs + [others[0]] + others[1..] == st.inputs + others;
    } else {
      assert st.inputs + others == st.inputs;
    }
  }

  /** With the flag cleared after its list, "-t" and a list argument whose
      names all resolve, followed by plain arguments, yields those
      transformers and inputs. */
  lemma ListArgumentThenInputs(output: Path, list: string, ts: seq<Transformer>, inputs: seq<string>)
    requires ResolveAll(SplitList(list)) == Some(ts) && "-t" !in inputs && list != "-t"
    ensures Arguments([output, "-t", list] + inputs) == Run(output, inputs, ts)
  {
    var s0 := ArgState([], [], false);
    var s1 := ArgState([], [], true);
    var st := ArgState([], ts, false);
    var done := ArgState(inputs, ts, false);
    var rest := [list] + inputs;
    assert ParseOthers(inputs, st, true) == Some(done) by {
      PlainArgumentsAreInputs(inputs, st, true);
      assert [] + inputs == inputs;
    }
    assert ParseOthers(rest, s1, true) == Some(done) by {
      KnownList(s1, list, ts, true);
      assert [] + ts == ts;
      ParseFirst(list, inputs, s1, true);
    }
    assert ParseOthers(["-t"] + rest, s0, true) == Some(done) by {
      assert ArgStep(s0, "-t", true) == Some(s1);
      ParseFirst("-t", rest, s0, true);
    }
    ArgvTail(output, "-t", list, inputs);
    ParsedArguments([output, "-t", list] + inputs, true, done);
  }

  /** The arguments after the output directory. */
  lemma ArgvTail(output: string, flag: string, list: string, inputs: seq<string>)
    ensures var argv := [output, flag, list] + inputs;
      |argv| >= 2 && argv[0] == output && argv[1..] == [flag] + ([list] + inputs)
  {
    var argv := [output, flag, list] + inputs;
    assert argv[1..] == [flag] + ([list] + inputs);
  }

  /** A parse that completes runs with what it collected. */
  lemma ParsedArguments(argv: seq<string>, resets: bool, r: ArgState)
    requires |argv| >= 2 && ParseOthers(argv[1..], ArgState([], [], false), resets) == Some(r)
    ensures ArgumentsWith(argv, resets) == Run(argv[0], r.inputs, r.transformers)
  {
  }

  /** The parse of a first argument followed by the rest. */
  lemma ParseFirst(a: string, rest: seq<string>, st: ArgState, resets: bool)
    ensures ParseOthers([a] + rest, st, resets)
         == (var n := ArgStep(st, a, resets); if n.None? then None else ParseOthers(rest, n.value, resets))
  {
    assert ([a] + rest)[1..] == rest;
  }

  /** The same for a list written out with ", " from names none of which is
      empty, contains a comma or starts with a space. */
  lemma ListThenInputs(output: Path, names: seq<string>, inputs: seq<string>)
    requires |names| > 0 && forall i :: 0 <= i < |names| ==> names[i] != [] && ',' !in names[i] && names[i][0] != ' '
    requires ResolveAll(names).Some? && "-t" !in inputs
    ensures Arguments([output, "-t", JoinList(names)] + inputs) == Run(output, inputs, ResolveAll(names).value)
  {
    SplitJoinList(names);
    NotFlag(names);
    ListArgumentThenInputs(output, JoinList(names), ResolveAll(names).value, inputs);
  }

  /** A list of transformer names is not the flag "-t". */
  lemma NotFlag(names: seq<string>)
    requires |names| > 0 && forall i :: 0 <= i < |names| ==> names[i] != [] && ',' !in names[i] && names[i][0] != ' '
    requires ResolveAll(names).Some?
    ensures JoinList(names) != "-t"
  {
    SplitSingle("-t");
    assert ResolveAll(SplitList("-t")).None?;
    SplitJoinList(names);
  }

  /** The argument loop of Args.process!, with the flag cleared after a list. */
  method ParseArguments(argv: seq<string>) returns (r: Invocation)
    ensures r == Arguments(argv)
  {
    if |argv| < 2 {
      return Usage;
    }
    var others := argv[1..];
    var st := ArgState([], [], false);
    var i := 0;
    while i < |others|
      invariant 0 <= i <= |others|
      invariant ParseOthers(others, ArgState([], [], false), true) == ParseOthers(others[i..], st, true)
    {
      assert others[i..][1..] == others[i + 1..];
      var next := ArgStep(st, others[i], true);
      if next.None? {
        return Aborted;
      }
      st := next.value;
      i := i + 1;
    }
    r := Run(argv[0], st.inputs, st.transformers);
  }
}
