/**
 * The manifest filter (pkg/allfiles).
 *
 * A manifest is a sequence of lines: "dir:" headers name the current
 * directory, and every other line under a header is either skipped (empty,
 * or starting with 'd') or is a file entry "flags size name". `Parser.Start`
 * scans the lines once, keeping the current directory, and emits the file
 * entries that pass the path, size and extension filters. The channel of the
 * source is the emitted sequence here; the scan is specified by `Trace`, the
 * state after reading the first n lines.
 */
module AllFiles {
  import Humanize
  import Extensions

  /** One file of the manifest: its directory, its name and its size in bytes. */
  datatype File = File(path: string, name: string, size: int) {

    /**
     * filepath.Join of directory and name, with "/" as separator and no
     * cleaning: the directory, a separator, then the name.
     */
    function FilePath(): (r: string)
      ensures |r| == |path| + 1 + |name|
      ensures r[..|path|] == path && r[|path|] == '/' && r[|path| + 1..] == name
    {
      path + "/" + name
    }

    /** The extension, lower-cased: filepath.Ext of the name, then strings.ToLower. */
    function Ext(): (r: string)
      ensures |r| == |RawExt(name)|
      ensures forall i :: 0 <= i < |r| ==> r[i] == LowerChar(RawExt(name)[i])
    {
      LowerAscii(RawExt(name))
    }
  }

  /** Two files of one directory have the same "/"-joined path only if they have the same name. */
  lemma FilePathInjective(f: File, g: File)
    requires f.path == g.path && f.FilePath() == g.FilePath()
    ensures f.name == g.name
  {
  }

  /**
   * filepath.Ext: the suffix from the last '.' of the last path element, or ""
   * when that element has no '.'.
   */
  function RawExt(s: string): (r: string)
    ensures |r| <= |s| && r == s[|s| - |r|..]
    ensures r != [] ==> r[0] == '.' && forall j :: 1 <= j < |r| ==> r[j] != '.' && r[j] != '/'
    decreases |s|
  {
    if s == [] then []
    else if s[|s| - 1] == '/' then []
    else if s[|s| - 1] == '.' then "."
    else
      var e := RawExt(s[..|s| - 1]);
      if e == [] then [] else e + [s[|s| - 1]]
  }

  /** No extension means every '.' of s lies before some '/'. */
  lemma {:induction false} NoExtMeansNoDotInLastElement(s: string)
    requires RawExt(s) == []
    ensures forall j :: 0 <= j < |s| && s[j] == '.' ==> '/' in s[j + 1..]
    decreases |s|
  {
    if s != [] && s[|s| - 1] != '/' {
      var init := s[..|s| - 1];
      NoExtMeansNoDotInLastElement(init);
      forall j | 0 <= j < |s| && s[j] == '.'
        ensures '/' in s[j + 1..]
      {
        assert j < |init| && init[j] == '.';
        var w :| w in init[j + 1..] && w == '/';
        assert init[j + 1..] <= s[j + 1..];
      }
    }
  }

  function LowerChar(c: char): char {
    if 'A' <= c <= 'Z' then (c as int - 'A' as int + 'a' as int) as char else c
  }

  lemma LowerCharIsNotUpper(c: char)
    ensures !('A' <= LowerChar(c) <= 'Z')
  {
  }

  /** strings.ToLower restricted to ASCII letters. */
  function LowerAscii(s: string): string {
    seq(|s|, i requires 0 <= i < |s| => LowerChar(s[i]))
  }

  /** A filter entry with an upper-case letter never equals a lower-cased extension. */
  lemma UpperCaseEntryNeverMatches(f: File, e: string, i: nat)
    requires i < |e| && 'A' <= e[i] <= 'Z'
    ensures f.Ext() != e
  {
    var x := f.Ext();
    if i < |x| {
      LowerCharIsNotUpper(RawExt(f.name)[i]);
    }
  }

  /** strings.HasPrefix(v, "."): an entry without a leading dot gets one. */
  function Dot(e: string): (r: string)
    ensures "." <= r
    ensures r == e <==> "." <= e
    ensures r != e ==> r == "." + e
  {
    if "." <= e then e else "." + e
  }

  /** The entries as the include and exclude extension lists store them, in order. */
  function Dotted(exts: seq<string>): (r: seq<string>)
    ensures |r| == |exts|
    ensures forall i :: 0 <= i < |exts| ==> r[i] == Dot(exts[i])
  {
    seq(|exts|, i requires 0 <= i < |exts| => Dot(exts[i]))
  }

  /** Dot-prefixed entries, such as the catalog's, are stored unchanged. */
  lemma DottedKeepsDotted(exts: seq<string>)
    requires forall i :: 0 <= i < |exts| ==> "." <= exts[i]
    ensures Dotted(exts) == exts
  {
  }

  /** Some prefix in the list starts the path (the early-return loops of validatePath). */
  function HasAnyPrefix(path: string, prefixes: seq<string>): (r: bool)
    ensures r <==> exists i :: 0 <= i < |prefixes| && prefixes[i] <= path
    decreases |prefixes|
  {
    if prefixes == [] then false
    else prefixes[0] <= path || HasAnyPrefix(path, prefixes[1..])
  }

  /** The first index of c in s (strings.Index), or -1. */
  function IndexOf(s: string, c: char): (r: int)
    ensures -1 <= r < |s|
    ensures 0 <= r ==> s[r] == c && c !in s[..r]
    ensures r < 0 ==> c !in s
    decreases |s|
  {
    if s == [] then -1
    else if s[0] == c then 0
    else
      var k := IndexOf(s[1..], c);
      assert s[1..][..(if k < 0 then 0 else k)] == s[1..(if k < 0 then 1 else k + 1)];
      if k < 0 then -1 else k + 1
  }

  /** The pieces joined back with single spaces. */
  function JoinSpaces(parts: seq<string>): string
    decreases |parts|
  {
    if parts == [] then ""
    else if |parts| == 1 then parts[0]
    else parts[0] + " " + JoinSpaces(parts[1..])
  }

  /**
   * strings.SplitN(s, " ", n) for n >= 1: cut at the first n - 1 spaces;
   * the last piece keeps any further spaces.
   */
  function SplitN(s: string, n: nat): (parts: seq<string>)
    requires n >= 1
    ensures 1 <= |parts| <= n
    ensures JoinSpaces(parts) == s
    ensures forall k :: 0 <= k < |parts| - 1 ==> ' ' !in parts[k]
    ensures |parts| < n ==> ' ' !in parts[|parts| - 1]
    decreases n
  {
    var i := IndexOf(s, ' ');
    if n == 1 || i < 0 then [s]
    else
      var tail := SplitN(s[i + 1..], n - 1);
      PrependPiece(s[..i], tail);
      assert s == s[..i] + " " + s[i + 1..];
      [s[..i]] + tail
  }

  /** Prepending a piece puts it and one space before the rejoined rest. */
  lemma PrependPiece(head: string, tail: seq<string>)
    requires |tail| >= 1
    ensures JoinSpaces([head] + tail) == head + " " + JoinSpaces(tail)
    ensures forall k :: 1 <= k < |tail| + 1 ==> ([head] + tail)[k] == tail[k - 1]
  {
    assert ([head] + tail)[1..] == tail;
  }

  /** The split is the inverse of joining two space-free fields and any name. */
  lemma SplitFields(flags: string, size: string, name: string)
    requires ' ' !in flags && ' ' !in size
    ensures SplitN(flags + " " + size + " " + name, 3) == [flags, size, name]
  {
    var s := flags + " " + size + " " + name;
    var rest := size + " " + name;
    assert s == flags + " " + rest;
    assert s[..|flags|] == flags && s[|flags|] == ' ';
    assert IndexOf(s, ' ') == |flags|;
    assert s[|flags| + 1..] == rest;
    assert rest[..|size|] == size && rest[|size|] == ' ';
    assert IndexOf(rest, ' ') == |size|;
    assert rest[|size| + 1..] == name;
    assert SplitN(rest, 2) == [size, name];
  }

  /** Why a scan ended before the end of the manifest. */
  datatype Halt =
    | MissingHeader  // a non-header line with no current directory: logged, channel closed
    | ShortLine      // a file entry with fewer than three fields: index out of range, a panic
    | BadSize        // a size ToBytes cannot parse: log.Fatal ends the process

  datatype Status = Running | Halted(cause: Halt)

  datatype LineResult = Entry(file: File) | Abort(cause: Halt)

  /**
   * parseLine: name after the second space, size from the second field. An
   * entry lies in the given directory and its size is what ToBytes reads from
   * the second field; the parse never reports a missing header.
   */
  function ParseLine(path: string, line: string, parseFloat: Humanize.FloatParser): (r: LineResult)
    ensures r.Abort? ==> r.cause != MissingHeader
    ensures r.Entry? ==> r.file.path == path
  {
    var parts := SplitN(line, 3);
    if |parts| < 3 then Abort(ShortLine)
    else match Humanize.ToBytes(parts[1], parseFloat)
      case Fatal => Abort(BadSize)
      case Bytes(n) => Entry(File(path, parts[2], n))
  }

  /** A well-formed entry yields its fields; the name keeps its spaces. */
  lemma ParseLineFields(path: string, flags: string, size: string, name: string, parseFloat: Humanize.FloatParser)
    requires ' ' !in flags && ' ' !in size
    ensures var r := ParseLine(path, flags + " " + size + " " + name, parseFloat);
      match Humanize.ToBytes(size, parseFloat)
      case Fatal => r == Abort(BadSize)
      case Bytes(n) => r == Entry(File(path, name, n))
  {
    SplitFields(flags, size, name);
  }

  predicate TwoSpaces(line: string) {
    exists i, j :: 0 <= i < j < |line| && line[i] == ' ' && line[j] == ' '
  }

  /** Only a line with at least two spaces has the three fields of an entry. */
  lemma ShortLineAborts(path: string, line: string, parseFloat: Humanize.FloatParser)
    ensures ParseLine(path, line, parseFloat) == Abort(ShortLine) <==> !TwoSpaces(line)
  {
    ThreeFieldsIffTwoSpaces(line);
  }

  /** A line splits into three fields exactly when it holds two spaces. */
  lemma ThreeFieldsIffTwoSpaces(line: string)
    ensures |SplitN(line, 3)| == 3 <==> TwoSpaces(line)
  {
    var a := IndexOf(line, ' ');
    if TwoSpaces(line) {
      var i, j :| 0 <= i < j < |line| && line[i] == ' ' && line[j] == ' ';
      assert line[..i + 1][i] == ' ';
      assert 0 <= a <= i;
      var rest := line[a + 1..];
      assert rest[j - a - 1] == ' ';
      assert IndexOf(rest, ' ') >= 0;
    }
    if a >= 0 {
      var rest := line[a + 1..];
      var b := IndexOf(rest, ' ');
      if b >= 0 {
        assert line[a + 1 + b] == rest[b];
        assert TwoSpaces(line);
      }
    }
  }

  predicate HasColonSuffix(line: string) {
    |line| > 0 && line[|line| - 1] == ':'
  }

  /** What one line does to the scan. */
  datatype Action = SetDir(dir: string) | Skip | Emit(file: File) | Stop(cause: Halt)

  /** The scan's state: current directory, files emitted so far, and whether it goes on. */
  datatype ScanState = ScanState(dir: string, emitted: seq<File>, status: Status)

  /** The indices at which flags holds, in increasing order. */
  function Where(flags: seq<bool>): seq<nat>
    decreases |flags|
  {
    if flags == [] then []
    else Where(flags[..|flags| - 1]) + (if flags[|flags| - 1] then [|flags| - 1] else [])
  }

  lemma {:induction false} WhereIsTrueIndices(flags: seq<bool>)
    ensures forall k :: 0 <= k < |Where(flags)| ==> Where(flags)[k] < |flags| && flags[Where(flags)[k]]
    ensures forall k, l :: 0 <= k < l < |Where(flags)| ==> Where(flags)[k] < Where(flags)[l]
    ensures forall i :: 0 <= i < |flags| && flags[i] ==> i in Where(flags)
    decreases |flags|
  {
    if flags != [] {
      var init := flags[..|flags| - 1];
      WhereIsTrueIndices(init);
      assert forall i :: 0 <= i < |init| ==> init[i] == flags[i];
    }
  }

  /** The items at which flags holds, in order. */
  function Select<T>(flags: seq<bool>, items: seq<T>): seq<T>
    requires |flags| == |items|
    decreases |flags|
  {
    if flags == [] then []
    else Select(flags[..|flags| - 1], items[..|items| - 1]) + (if flags[|flags| - 1] then [items[|items| - 1]] else [])
  }

  /** Selected item k is the item at the k-th true flag. */
  lemma {:induction false} SelectAtWhere<T>(flags: seq<bool>, items: seq<T>)
    requires |flags| == |items|
    ensures |Select(flags, items)| == |Where(flags)|
    ensures forall k :: 0 <= k < |Where(flags)| ==>
      Where(flags)[k] < |items| && Select(flags, items)[k] == items[Where(flags)[k]]
    decreases |flags|
  {
    if flags != [] {
      var fi, ii := flags[..|flags| - 1], items[..|items| - 1];
      SelectAtWhere(fi, ii);
      assert forall i :: 0 <= i < |ii| ==> ii[i] == items[i];
    }
  }

  class Parser {
    var filePath: string
    var includeExts: seq<string>
    var excludeExts: seq<string>
    var includePaths: seq<string>
    var excludePaths: seq<string>
    var minSize: int
    var maxSize: int

    /** NewAllFiles: empty filter lists and both size bounds 0. */
    constructor (filePath: string)
      ensures this.filePath == filePath
      ensures includeExts == [] && excludeExts == [] && includePaths == [] && excludePaths == []
      ensures minSize == 0 && maxSize == 0
    {
      this.filePath := filePath;
      includeExts, excludeExts, includePaths, excludePaths := [], [], [], [];
      minSize, maxSize := 0, 0;
    }

    method IncludeExts(exts: seq<string>)
      modifies this`includeExts
      ensures includeExts == old(includeExts) + Dotted(exts)
    {
      for i := 0 to |exts|
        invariant includeExts == old(includeExts) + Dotted(exts[..i])
      {
        var v := exts[i];
        if !("." <= v) {
          v := "." + v;
        }
        includeExts := includeExts + [v];
        assert Dotted(exts[..i + 1]) == Dotted(exts[..i]) + [Dot(exts[i])];
      }
      assert exts[..|exts|] == exts;
    }

    method ExcludeExts(exts: seq<string>)
      modifies this`excludeExts
      ensures excludeExts == old(excludeExts) + Dotted(exts)
    {
      for i := 0 to |exts|
        invariant excludeExts == old(excludeExts) + Dotted(exts[..i])
      {
        var v := exts[i];
        if !("." <= v) {
          v := "." + v;
        }
        excludeExts := excludeExts + [v];
        assert Dotted(exts[..i + 1]) == Dotted(exts[..i]) + [Dot(exts[i])];
      }
      assert exts[..|exts|] == exts;
    }

    /** The catalog's extensions of the given types join the include list. */
    method IncludeTypes(types: seq<string>)
      modifies this`includeExts
      ensures includeExts == old(includeExts) + Extensions.Expand(Extensions.ByTypes, types)
    {
      var exts := Extensions.Get(types);
      IncludeExts(exts);
      Extensions.CatalogIsWellFormed();
      Extensions.ExpandIsWellFormed(Extensions.ByTypes, types);
      DottedKeepsDotted(exts);
    }

    /** The catalog's extensions of the given types join the exclude list. */
    method ExcludeTypes(types: seq<string>)
      modifies this`excludeExts
      ensures excludeExts == old(excludeExts) + Extensions.Expand(Extensions.ByTypes, types)
    {
      var exts := Extensions.Get(types);
      ExcludeExts(exts);
      Extensions.CatalogIsWellFormed();
      Extensions.ExpandIsWellFormed(Extensions.ByTypes, types);
      DottedKeepsDotted(exts);
    }

    method IncludePaths(paths: seq<string>)
      modifies this`includePaths
      ensures includePaths == old(includePaths) + paths
    {
      includePaths := includePaths + paths;
    }

    method ExcludePaths(paths: seq<string>)
      modifies this`excludePaths
      ensures excludePaths == old(excludePaths) + paths
    {
      excludePaths := excludePaths + paths;
    }

    /** fatal: the size is malformed and log.Fatal ends the run. */
    method SetMinSize(size: string, parseFloat: Humanize.FloatParser) returns (fatal: bool)
      modifies this`minSize
      ensures fatal <==> Humanize.ToBytes(size, parseFloat).Fatal?
      ensures !fatal ==> minSize == Humanize.ToBytes(size, parseFloat).n
      ensures fatal ==> minSize == old(minSize)
    {
      var r := Humanize.ToBytes(size, parseFloat);
      fatal := r.Fatal?;
      if !fatal {
        minSize := r.n;
      }
    }

    /** fatal: the size is malformed and log.Fatal ends the run. */
    method SetMaxSize(size: string, parseFloat: Humanize.FloatParser) returns (fatal: bool)
      modifies this`maxSize
      ensures fatal <==> Humanize.ToBytes(size, parseFloat).Fatal?
      ensures !fatal ==> maxSize == Humanize.ToBytes(size, parseFloat).n
      ensures fatal ==> maxSize == old(maxSize)
    {
      var r := Humanize.ToBytes(size, parseFloat);
      fatal := r.Fatal?;
      if !fatal {
        maxSize := r.n;
      }
    }

    /** Exclusions win; with no inclusions every other path passes. */
    function ValidatePath(path: string): (r: bool)
      reads this
      ensures (exists i :: 0 <= i < |excludePaths| && excludePaths[i] <= path) ==> !r
      ensures includePaths == [] ==> (r <==> forall i :: 0 <= i < |excludePaths| ==> !(excludePaths[i] <= path))
      ensures r <==> (forall i :: 0 <= i < |excludePaths| ==> !(excludePaths[i] <= path))
                     && (includePaths == [] || exists i :: 0 <= i < |includePaths| && includePaths[i] <= path)
    {
      if HasAnyPrefix(path, excludePaths) then false
      else if |includePaths| == 0 then true
      else HasAnyPrefix(path, includePaths)
    }

    /** A non-empty include list decides alone; otherwise the exclude list denies. */
    function ValidateExt(ext: string): (r: bool)
      reads this
      ensures |includeExts| > 0 ==> (r <==> ext in includeExts)
      ensures |includeExts| == 0 ==> (r <==> ext !in excludeExts)
    {
      var included := |includeExts| > 0;
      var exts := if included then includeExts else excludeExts;
      if ext in exts then included else !included
    }

    /** Both size bounds are inclusive; a maximum of 0 means no maximum. */
    predicate SizeInRange(size: int)
      reads this
    {
      minSize <= size && (maxSize == 0 || size <= maxSize)
    }

    /**
     * A maximum given as "0" reads as 0 and then bounds no size from above,
     * which is what an absent maximum is meant to do.
     */
    lemma UnlimitedMaxSize(parseFloat: Humanize.FloatParser, size: int)
      requires maxSize == 0
      ensures Humanize.ToBytes("0", parseFloat) == Humanize.Bytes(0)
      ensures SizeInRange(size) <==> minSize <= size
    {
      assert Humanize.IsDigits("0");
    }

    /** One manifest line, under the current directory dir. */
    function Classify(parseFloat: Humanize.FloatParser, dir: string, line: string): (a: Action)
      reads this
      ensures a.SetDir? <==> HasColonSuffix(line)
      ensures a.SetDir? ==> a.dir + ":" == line
      ensures a == Stop(MissingHeader) <==> !HasColonSuffix(line) && dir == ""
      ensures !HasColonSuffix(line) && dir != "" && (line == "" || line[0] == 'd') ==> a == Skip
      ensures !HasColonSuffix(line) && dir != "" && !ValidatePath(dir) ==> a == Skip
      ensures a.Emit? <==>
        && !HasColonSuffix(line) && dir != "" && line != "" && line[0] != 'd' && ValidatePath(dir)
        && ParseLine(dir, line, parseFloat).Entry?
        && SizeInRange(ParseLine(dir, line, parseFloat).file.size)
        && ValidateExt(ParseLine(dir, line, parseFloat).file.Ext())
      ensures a.Emit? ==> a.file == ParseLine(dir, line, parseFloat).file && a.file.path == dir
      ensures a.Stop? && a.cause != MissingHeader ==>
        dir != "" && ValidatePath(dir) && ParseLine(dir, line, parseFloat) == Abort(a.cause)
      ensures (&& !HasColonSuffix(line) && dir != "" && line != "" && line[0] != 'd' && ValidatePath(dir)
               && ParseLine(dir, line, parseFloat).Abort?)
        ==> a == Stop(ParseLine(dir, line, parseFloat).cause)
    {
      if HasColonSuffix(line) then SetDir(line[..|line| - 1])
      else if dir == "" then Stop(MissingHeader)
      else if |line| == 0 || line[0] == 'd' then Skip
      else if !ValidatePath(dir) then Skip
      else match ParseLine(dir, line, parseFloat)
        case Abort(cause) => Stop(cause)
        case Entry(file) =>
          if file.size < minSize then Skip
          else if maxSize != 0 && file.size > maxSize then Skip
          else if !ValidateExt(file.Ext()) then Skip
          else Emit(file)
    }

    /** One step of the scan: the action of the line under the current directory. */
    function Advance(parseFloat: Humanize.FloatParser, s: ScanState, line: string): ScanState
      reads this
    {
      if !s.status.Running? then s
      else match Classify(parseFloat, s.dir, line)
        case SetDir(d) => s.(dir := d)
        case Skip => s
        case Emit(f) => s.(emitted := s.emitted + [f])
        case Stop(cause) => s.(status := Halted(cause))
    }

    /** The scan's state after reading the first n lines of the manifest. */
    function Trace(parseFloat: Humanize.FloatParser, lines: seq<string>, n: nat): ScanState
      requires n <= |lines|
      reads this
      decreases n
    {
      if n == 0 then ScanState("", [], Running)
      else Advance(parseFloat, Trace(parseFloat, lines, n - 1), lines[n - 1])
    }

    /**
     * A stopped scan stays as it is, a line adds at most one file to the end of
     * the output, and a stop keeps the output and the directory.
     */
    lemma AdvanceBounds(parseFloat: Humanize.FloatParser, s: ScanState, line: string)
      ensures !s.status.Running? ==> Advance(parseFloat, s, line) == s
      ensures s.emitted <= Advance(parseFloat, s, line).emitted
      ensures |Advance(parseFloat, s, line).emitted| <= |s.emitted| + 1
      ensures Advance(parseFloat, s, line).status.Halted? && s.status.Running? ==>
        Advance(parseFloat, s, line).emitted == s.emitted && Advance(parseFloat, s, line).dir == s.dir
    {
    }

    /**
     * The scan starts with no directory, nothing emitted and running; it emits
     * at most one file per line read and stops only after reading some line.
     */
    lemma {:induction false} TraceBounds(parseFloat: Humanize.FloatParser, lines: seq<string>, n: nat)
      requires n <= |lines|
      ensures Trace(parseFloat, lines, 0) == ScanState("", [], Running)
      ensures |Trace(parseFloat, lines, n).emitted| <= n
      ensures Trace(parseFloat, lines, n).status.Halted? ==> n > 0
      decreases n
    {
      if n > 0 {
        TraceBounds(parseFloat, lines, n - 1);
        AdvanceBounds(parseFloat, Trace(parseFloat, lines, n - 1), lines[n - 1]);
      }
    }

    /**
     * The body of Start's loop for one line, its tests in the source's order:
     * the action the line has on the scan.
     */
    method ScanLine(parseFloat: Humanize.FloatParser, relativePath: string, line: string) returns (a: Action)
      ensures a == Classify(parseFloat, relativePath, line)
    {
      if HasColonSuffix(line) {
        return SetDir(line[..|line| - 1]);
      }
      if relativePath == "" {
        return Stop(MissingHeader);
      }
      if |line| == 0 || line[0] == 'd' {
        return Skip;
      }
      if !ValidatePath(relativePath) {
        return Skip;
      }
      var parsed := ParseLine(relativePath, line, parseFloat);
      if parsed.Abort? {
        return Stop(parsed.cause);
      }
      var file := parsed.file;
      if file.size < minSize {
        return Skip;
      }
      if maxSize != 0 && file.size > maxSize {
        return Skip;
      }
      if !ValidateExt(file.Ext()) {
        return Skip;
      }
      return Emit(file);
    }

    /**
     * The scan loop of Start: the files it emits and how it ended (Running:
     * the manifest was read to the end). Opening the manifest is not modelled.
     */
    method Start(lines: seq<string>, parseFloat: Humanize.FloatParser) returns (files: seq<File>, status: Status)
      ensures files == Trace(parseFloat, lines, |lines|).emitted
      ensures status == Trace(parseFloat, lines, |lines|).status
    {
      var relativePath := "";
      files, status := [], Running;
      for i := 0 to |lines|
        invariant Trace(parseFloat, lines, i) == ScanState(relativePath, files, Running)
        invariant status == Running
      {
        var a := ScanLine(parseFloat, relativePath, lines[i]);
        assert Trace(parseFloat, lines, i + 1) == Advance(parseFloat, ScanState(relativePath, files, Running), lines[i]);
        match a
        case SetDir(d) =>
          relativePath := d;
        case Skip =>
        case Emit(file) =>
          files := files + [file];
        case Stop(cause) =>
          status := Halted(cause);
          HaltedIsFinal(parseFloat, lines, i + 1, |lines|);
          return;
      }
    }

    /** Once the scan has stopped, later lines change nothing. */
    lemma {:induction false} HaltedIsFinal(parseFloat: Humanize.FloatParser, lines: seq<string>, m: nat, n: nat)
      requires m <= n <= |lines|
      requires !Trace(parseFloat, lines, m).status.Running?
      ensures Trace(parseFloat, lines, n) == Trace(parseFloat, lines, m)
      decreases n
    {
      if n > m {
        HaltedIsFinal(parseFloat, lines, m, n - 1);
      }
    }

    /** Streaming: what has been emitted after m lines stays a prefix of the output. */
    lemma {:induction false} EmittedOnlyGrows(parseFloat: Humanize.FloatParser, lines: seq<string>, m: nat, n: nat)
      requires m <= n <= |lines|
      ensures Trace(parseFloat, lines, m).emitted <= Trace(parseFloat, lines, n).emitted
      decreases n
    {
      if n > m {
        EmittedOnlyGrows(parseFloat, lines, m, n - 1);
      }
    }

    /** Line i is read while the scan runs, and it emits a file. */
    ghost predicate EmitsAt(parseFloat: Humanize.FloatParser, lines: seq<string>, i: nat)
      requires i < |lines|
      reads this
    {
      var t := Trace(parseFloat, lines, i);
      t.status.Running? && Classify(parseFloat, t.dir, lines[i]).Emit?
    }

    /** Which of the first n lines emit. */
    ghost function EmitFlags(parseFloat: Humanize.FloatParser, lines: seq<string>, n: nat): (flags: seq<bool>)
      requires n <= |lines|
      reads this
      ensures |flags| == n && forall i :: 0 <= i < n ==> flags[i] == EmitsAt(parseFloat, lines, i)
    {
      seq(n, i requires 0 <= i < n && n <= |lines| reads this => EmitsAt(parseFloat, lines, i))
    }

    /** The indices of the lines that emit, in manifest order. */
    ghost function Origins(parseFloat: Humanize.FloatParser, lines: seq<string>, n: nat): seq<nat>
      requires n <= |lines|
      reads this
    {
      Where(EmitFlags(parseFloat, lines, n))
    }

    /** The origins strictly increase, and they are exactly the emitting lines. */
    lemma OriginsAreEmittingLines(parseFloat: Humanize.FloatParser, lines: seq<string>, n: nat)
      requires n <= |lines|
      ensures forall k :: 0 <= k < |Origins(parseFloat, lines, n)| ==>
        Origins(parseFloat, lines, n)[k] < n && EmitsAt(parseFloat, lines, Origins(parseFloat, lines, n)[k])
      ensures forall k, l :: 0 <= k < l < |Origins(parseFloat, lines, n)| ==>
        Origins(parseFloat, lines, n)[k] < Origins(parseFloat, lines, n)[l]
      ensures forall i :: 0 <= i < n && EmitsAt(parseFloat, lines, i) ==> i in Origins(parseFloat, lines, n)
    {
      WhereIsTrueIndices(EmitFlags(parseFloat, lines, n));
    }

    /** What each of the first n lines emits (a placeholder where it emits nothing). */
    ghost function EmitItems(parseFloat: Humanize.FloatParser, lines: seq<string>, n: nat): (items: seq<File>)
      requires n <= |lines|
      reads this
      ensures |items| == n
      ensures forall i :: 0 <= i < n && EmitsAt(parseFloat, lines, i) ==>
        Classify(parseFloat, Trace(parseFloat, lines, i).dir, lines[i]) == Emit(items[i])
    {
      seq(n, i requires 0 <= i < n && n <= |lines| reads this =>
        if EmitsAt(parseFloat, lines, i) then Classify(parseFloat, Trace(parseFloat, lines, i).dir, lines[i]).file
        else File("", "", 0))
    }

    /** Reading line i appends its file when it emits, and nothing otherwise. */
    lemma EmittedStep(parseFloat: Humanize.FloatParser, lines: seq<string>, i: nat)
      requires i < |lines|
      ensures Trace(parseFloat, lines, i + 1).emitted == Trace(parseFloat, lines, i).emitted +
        (if EmitsAt(parseFloat, lines, i) then [Classify(parseFloat, Trace(parseFloat, lines, i).dir, lines[i]).file] else [])
    {
      var prev := Trace(parseFloat, lines, i);
      if prev.status.Running? {
        var a := Classify(parseFloat, prev.dir, lines[i]);
        assert Trace(parseFloat, lines, i + 1) == Advance(parseFloat, prev, lines[i]);
        if !a.Emit? {
          assert Trace(parseFloat, lines, i + 1).emitted == prev.emitted;
        }
      }
    }

    /** The output is the emitting lines' files, selected in manifest order. */
    lemma {:induction false} EmittedIsSelection(parseFloat: Humanize.FloatParser, lines: seq<string>, n: nat)
      requires n <= |lines|
      ensures Trace(parseFloat, lines, n).emitted == Select(EmitFlags(parseFloat, lines, n), EmitItems(parseFloat, lines, n))
      decreases n
    {
      if n > 0 {
        EmittedIsSelection(parseFloat, lines, n - 1);
        EmittedStep(parseFloat, lines, n - 1);
        var flags, items := EmitFlags(parseFloat, lines, n), EmitItems(parseFloat, lines, n);
        assert flags[..n - 1] == EmitFlags(parseFloat, lines, n - 1);
        assert items[..n - 1] == EmitItems(parseFloat, lines, n - 1);
      }
    }

    /**
     * The output is the emitting lines' files, once each and in manifest order:
     * emitted file k is the file that line Origins[k] emits under the directory
     * current when it is read.
     */
    lemma EmittedAreOrderedLines(parseFloat: Humanize.FloatParser, lines: seq<string>, n: nat)
      requires n <= |lines|
      ensures |Origins(parseFloat, lines, n)| == |Trace(parseFloat, lines, n).emitted|
      ensures forall k :: 0 <= k < |Origins(parseFloat, lines, n)| ==>
        var i := Origins(parseFloat, lines, n)[k];
        i < n && Classify(parseFloat, Trace(parseFloat, lines, i).dir, lines[i]) == Emit(Trace(parseFloat, lines, n).emitted[k])
    {
      var flags, items := EmitFlags(parseFloat, lines, n), EmitItems(parseFloat, lines, n);
      EmittedIsSelection(parseFloat, lines, n);
      SelectAtWhere(flags, items);
      WhereIsTrueIndices(flags);
    }

    /** Every emitted file lies under a header and passes every filter. */
    lemma EmittedPassFilters(parseFloat: Humanize.FloatParser, lines: seq<string>, n: nat)
      requires n <= |lines|
      ensures forall k :: 0 <= k < |Trace(parseFloat, lines, n).emitted| ==>
        var f := Trace(parseFloat, lines, n).emitted[k];
        f.path != "" && ValidatePath(f.path) && SizeInRange(f.size) && ValidateExt(f.Ext())
    {
      EmittedAreOrderedLines(parseFloat, lines, n);
      var out, o := Trace(parseFloat, lines, n).emitted, Origins(parseFloat, lines, n);
      forall k | 0 <= k < |out|
        ensures out[k].path != "" && ValidatePath(out[k].path) && SizeInRange(out[k].size) && ValidateExt(out[k].Ext())
      {
        var i := o[k];
        var a := Classify(parseFloat, Trace(parseFloat, lines, i).dir, lines[i]);
        assert a == Emit(out[k]);
      }
    }

    /**
     * The path filter runs before the line is parsed: when every header names a
     * directory the path filter rejects, nothing is emitted and no size is
     * parsed, so the scan can only stop for want of a header.
     */
    lemma {:induction false} ExcludedTreesAreNeverParsed(parseFloat: Humanize.FloatParser, lines: seq<string>, n: nat)
      requires n <= |lines|
      requires forall i :: 0 <= i < |lines| && HasColonSuffix(lines[i]) ==>
        var d := lines[i][..|lines[i]| - 1]; d == "" || !ValidatePath(d)
      ensures Trace(parseFloat, lines, n).emitted == []
      ensures Trace(parseFloat, lines, n).status in {Running, Halted(MissingHeader)}
      ensures Trace(parseFloat, lines, n).dir == "" || !ValidatePath(Trace(parseFloat, lines, n).dir)
      decreases n
    {
      if n > 0 {
        ExcludedTreesAreNeverParsed(parseFloat, lines, n - 1);
      }
    }

    /**
     * A line that is not a header while no directory is set ends the scan with
     * nothing emitted: the first line, or a line after empty headers ":".
     */
    lemma {:induction false} HeaderlessLineStops(parseFloat: Humanize.FloatParser, lines: seq<string>, m: nat)
      requires m < |lines|
      requires forall i :: 0 <= i < m ==> lines[i] == ":"
      requires !HasColonSuffix(lines[m])
      ensures Trace(parseFloat, lines, |lines|) == ScanState("", [], Halted(MissingHeader))
    {
      EmptyHeadersKeepNoDirectory(parseFloat, lines, m);
      HaltedIsFinal(parseFloat, lines, m + 1, |lines|);
    }

    /**
     * A file line under a directory that passes the path filter, whose size is
     * malformed or which lacks its fields, ends the scan with that cause: the
     * output stays what it was before the line, and no later line is read.
     */
    lemma {:induction false} MalformedLineStops(parseFloat: Humanize.FloatParser, lines: seq<string>, m: nat)
      requires m < |lines|
      requires Trace(parseFloat, lines, m).status.Running?
      requires var dir, line := Trace(parseFloat, lines, m).dir, lines[m];
        && !HasColonSuffix(line) && dir != "" && line != "" && line[0] != 'd' && ValidatePath(dir)
        && ParseLine(dir, line, parseFloat).Abort?
      ensures var before := Trace(parseFloat, lines, m);
        Trace(parseFloat, lines, |lines|)
          == before.(status := Halted(ParseLine(before.dir, lines[m], parseFloat).cause))
    {
      var before := Trace(parseFloat, lines, m);
      var cause := ParseLine(before.dir, lines[m], parseFloat).cause;
      assert Classify(parseFloat, before.dir, lines[m]) == Stop(cause);
      assert Trace(parseFloat, lines, m + 1) == Advance(parseFloat, before, lines[m]);
      HaltedIsFinal(parseFloat, lines, m + 1, |lines|);
    }

    lemma {:induction false} EmptyHeadersKeepNoDirectory(parseFloat: Humanize.FloatParser, lines: seq<string>, m: nat)
      requires m <= |lines|
      requires forall i :: 0 <= i < m ==> lines[i] == ":"
      ensures Trace(parseFloat, lines, m) == ScanState("", [], Running)
      decreases m
    {
      if m > 0 {
        EmptyHeadersKeepNoDirectory(parseFloat, lines, m - 1);
      }
    }
  }
}
