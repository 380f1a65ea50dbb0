/**
 * CommandLineUtils: joining and splitting of command-line arguments, and
 * the choice of input files by extension.
 *
 * Paths are strings; a File is identified by its absolute path. The file
 * system (existence, directories, their listing, the file name of a path)
 * is a parameter.
 */
module CommandLine {

  import opened Outcomes

  /** The command line argument separator. */
  const SEPARATOR: string := ","

  // ---------------------------------------------------------------------
  // Joining
  // ---------------------------------------------------------------------

  /** The reference join: the parts with `sep` between consecutive parts. */
  function Join(parts: seq<string>, sep: string): string {
    if parts == [] then ""
    else if |parts| == 1 then parts[0]
    else Join(parts[..|parts| - 1], sep) + sep + parts[|parts| - 1]
  }

  /** A join starts with its first part. */
  lemma {:induction false} JoinStartsWithFirst(parts: seq<string>, sep: string)
    requires parts != []
    ensures |Join(parts, sep)| >= |parts[0]| && Join(parts, sep)[..|parts[0]|] == parts[0]
  {
    if |parts| > 1 {
      var t := parts[..|parts| - 1];
      JoinStartsWithFirst(t, sep);
      var j := Join(t, sep);
      assert Join(parts, sep) == j + sep + parts[|parts| - 1];
      assert (j + sep + parts[|parts| - 1])[..|parts[0]|] == j[..|parts[0]|];
    }
  }

  /** The arguments from the first non-empty one on. */
  function DropLeadingEmpty(args: seq<string>): (r: seq<string>)
    ensures r == [] || r[0] != ""
    ensures |r| <= |args| && r == args[|args| - |r|..]
  {
    if args == [] then []
    else if args[0] == "" then DropLeadingEmpty(args[1..])
    else args
  }

  /** The value of `result` in concatenate after the loop has seen `args`. */
  function Concatenated(args: seq<string>): string {
    if args == [] then ""
    else
      var prev := Concatenated(args[..|args| - 1]);
      (if prev != "" then prev + " " else prev) + args[|args| - 1]
  }

  lemma DropLeadingEmptyAppend(args: seq<string>, x: string)
    ensures DropLeadingEmpty(args + [x]) ==
      if DropLeadingEmpty(args) == [] then (if x == "" then [] else [x]) else DropLeadingEmpty(args) + [x]
  {
    if args != [] {
      assert (args + [x])[1..] == args[1..] + [x];
      if args[0] == "" {
        DropLeadingEmptyAppend(args[1..], x);
      }
    }
  }

  /**
   * concatenate puts a single space before every argument once the result
   * is non-empty: it is the arguments from the first non-empty one on,
   * joined by " ". Leading empty arguments add nothing, so with all
   * arguments non-empty it is exactly their join.
   */
  lemma {:induction false} ConcatenatedIsJoin(args: seq<string>)
    ensures Concatenated(args) == Join(DropLeadingEmpty(args), " ")
  {
    if args != [] {
      var t, x := args[..|args| - 1], args[|args| - 1];
      ConcatenatedIsJoin(t);
      assert args == t + [x];
      ConcatenatedStep(t, x);
    }
  }

  /** One more argument keeps concatenate equal to the join of the arguments from the first non-empty one. */
  lemma ConcatenatedStep(t: seq<string>, x: string)
    requires Concatenated(t) == Join(DropLeadingEmpty(t), " ")
    ensures Concatenated(t + [x]) == Join(DropLeadingEmpty(t + [x]), " ")
  {
    assert (t + [x])[..|t|] == t;
    DropLeadingEmptyAppend(t, x);
    var d := DropLeadingEmpty(t);
    var prev := Concatenated(t);
    assert Concatenated(t + [x]) == (if prev != "" then prev + " " else prev) + x;
    if d != [] {
      JoinStartsWithFirst(d, " ");
      assert prev != "";
      JoinSnoc(d, x, " ");
    }
  }

  /** Joining one more part appends the separator and the part. */
  lemma JoinSnoc(parts: seq<string>, x: string, sep: string)
    requires parts != []
    ensures Join(parts + [x], sep) == Join(parts, sep) + sep + x
  {
    assert (parts + [x])[..|parts|] == parts;
  }

  /** With every argument non-empty, concatenate is exactly their join by " ". */
  lemma ConcatenatedNonEmpty(args: seq<string>)
    requires forall i :: 0 <= i < |args| ==> args[i] != ""
    ensures Concatenated(args) == Join(args, " ")
  {
    ConcatenatedIsJoin(args);
  }

  /** A non-empty result starts with the first non-empty argument, so never with a space added by the loop. */
  lemma ConcatenatedStart(args: seq<string>)
    requires Concatenated(args) != ""
    ensures DropLeadingEmpty(args) != []
    ensures var first := DropLeadingEmpty(args)[0];
      |Concatenated(args)| >= |first| && Concatenated(args)[..|first|] == first
  {
    ConcatenatedIsJoin(args);
    JoinStartsWithFirst(DropLeadingEmpty(args), " ");
  }

  /** Only empty arguments are dropped: every non-empty one survives. */
  lemma {:induction false} NonEmptyNotDropped(args: seq<string>, i: nat)
    requires i < |args| && args[i] != ""
    ensures args[i] in DropLeadingEmpty(args)
  {
    if args[0] == "" {
      NonEmptyNotDropped(args[1..], i - 1);
    }
  }

  /** A possibly null argument as string concatenation writes it: a null argument is "null". */
  function Rendered(arg: Option<string>): string {
    match arg
    case None => "null"
    case Some(a) => a
  }

  /** Every argument rendered, in order. */
  function Rendering(args: seq<Option<string>>): (r: seq<string>)
    ensures |r| == |args| && forall i :: 0 <= i < |args| ==> r[i] == Rendered(args[i])
  {
    if args == [] then [] else Rendering(args[..|args| - 1]) + [Rendered(args[|args| - 1])]
  }

  /** A null argument is rendered "null", so it is never dropped as empty and never vanishes from the result. */
  lemma NullArgumentKept(args: seq<Option<string>>, i: nat)
    requires i < |args| && args[i].None?
    ensures Rendering(args)[i] == "null"
    ensures "null" in DropLeadingEmpty(Rendering(args))
  {
    NonEmptyNotDropped(Rendering(args), i);
  }

  /**
   * concatenate(ArrayList): null gives null; otherwise the arguments, a
   * null one written "null", separated by single spaces.
   */
  method ConcatenateList(args: Option<seq<Option<string>>>) returns (result: Option<string>)
    ensures args.None? <==> result.None?
    ensures args.Some? ==> result == Some(Join(DropLeadingEmpty(Rendering(args.value)), " "))
  {
    if args.None? {
      return None;
    }
    var list := args.value;
    var s := "";
    for i := 0 to |list|
      invariant s == Concatenated(Rendering(list[..i]))
    {
      assert list[..i + 1][..i] == list[..i];
      if s != "" {
        s := s + " ";
      }
      s := s + Rendered(list[i]);
    }
    assert list[..|list|] == list;
    ConcatenatedIsJoin(Rendering(list));
    return Some(s);
  }

  /** concatenate(String[]): the same rule over an array, which may be null. */
  method ConcatenateArray(args: array?<Option<string>>) returns (result: Option<string>)
    ensures args == null <==> result.None?
    ensures args != null ==> result == Some(Join(DropLeadingEmpty(Rendering(args[..])), " "))
  {
    if args == null {
      return None;
    }
    var s := "";
    for i := 0 to args.Length
      invariant s == Concatenated(Rendering(args[..i]))
    {
      assert args[..i + 1][..i] == args[..i];
      if s != "" {
        s := s + " ";
      }
      s := s + Rendered(args[i]);
    }
    assert args[..args.Length] == args[..];
    ConcatenatedIsJoin(Rendering(args[..]));
    return Some(s);
  }

  /** getCommandLineArgument(File): the absolute path in double quotes. */
  function QuoteArgument(path: string): (r: string)
    ensures |r| == |path| + 2 && r[0] == '"' && r[|r| - 1] == '"' && r[1..|r| - 1] == path
  {
    "\"" + path + "\""
  }

  /** Every path quoted, in order. */
  function Quoted(paths: seq<string>): (r: seq<string>)
    ensures |r| == |paths| && forall i :: 0 <= i < |paths| ==> r[i] == QuoteArgument(paths[i])
  {
    if paths == [] then [] else Quoted(paths[..|paths| - 1]) + [QuoteArgument(paths[|paths| - 1])]
  }

  /**
   * getCommandLineArgument(ArrayList<File>): the quoted paths separated by
   * SEPARATOR ("" for no file).
   */
  method GetCommandLineArgument(paths: seq<string>) returns (result: string)
    ensures result == Join(Quoted(paths), SEPARATOR)
  {
    result := "";
    for i := 0 to |paths|
      invariant result == Join(Quoted(paths[..i]), SEPARATOR)
      invariant result == "" <==> i == 0
    {
      assert paths[..i + 1][..i] == paths[..i];
      if result != "" {
        result := result + SEPARATOR;
      }
      result := result + QuoteArgument(paths[i]);
    }
    assert paths[..|paths|] == paths;
  }

  function Count(s: string, c: char): nat {
    if s == [] then 0 else Count(s[..|s| - 1], c) + (if s[|s| - 1] == c then 1 else 0)
  }

  lemma {:induction false} CountAppend(a: string, b: string, c: char)
    ensures Count(a + b, c) == Count(a, c) + Count(b, c)
  {
    if b != [] {
      CountAppend(a, b[..|b| - 1], c);
      assert (a + b)[..|a + b| - 1] == a + b[..|b| - 1];
    } else {
      assert a + b == a;
    }
  }

  /** Joining parts free of `c` with the one-character separator [c] puts exactly |parts| - 1 of them in. */
  lemma {:induction false} JoinSeparatorCount(parts: seq<string>, c: char)
    requires parts != []
    requires forall i :: 0 <= i < |parts| ==> Count(parts[i], c) == 0
    ensures Count(Join(parts, [c]), c) == |parts| - 1
  {
    if |parts| > 1 {
      var t := parts[..|parts| - 1];
      JoinSeparatorCount(t, c);
      CountAppend(Join(t, [c]) + [c], parts[|parts| - 1], c);
      CountAppend(Join(t, [c]), [c], c);
      assert Count([c], c) == 1 by {
        assert [c][..0] == [];
      }
    }
  }

  /** The list argument has one comma between consecutive files and no other, when no path holds a comma. */
  lemma CommandLineArgumentSeparators(paths: seq<string>)
    requires forall i :: 0 <= i < |paths| ==> Count(paths[i], ',') == 0
    ensures paths == [] ==> Join(Quoted(paths), SEPARATOR) == ""
    ensures paths != [] ==> Count(Join(Quoted(paths), SEPARATOR), ',') == |paths| - 1
  {
    if paths != [] {
      var q := Quoted(paths);
      forall i | 0 <= i < |q| ensures Count(q[i], ',') == 0 {
        QuoteCount(paths[i]);
      }
      JoinSeparatorCount(q, ',');
    }
  }

  /** Quoting a path adds no comma. */
  lemma QuoteCount(path: string)
    ensures Count(QuoteArgument(path), ',') == Count(path, ',')
  {
    assert QuoteArgument(path) == "\"" + path + "\"";
    CountAppend("\"" + path, "\"", ',');
    CountAppend("\"", path, ',');
    assert Count("\"", ',') == 0 by {
      assert ("\"")[..0] == [];
    }
  }

  // ---------------------------------------------------------------------
  // Splitting
  // ---------------------------------------------------------------------

  /** The pieces of `s` between its commas, empty ones included. */
  function Pieces(s: string): (r: seq<string>)
    ensures |r| >= 1
  {
    if s == [] then [""]
    else
      var prev := Pieces(s[..|s| - 1]);
      var c := s[|s| - 1];
      if c == ',' then prev + [""]
      else prev[..|prev| - 1] + [prev[|prev| - 1] + [c]]
  }

  /** The pieces without the empty pieces at the end. */
  function DropTrailingEmpty(ps: seq<string>): (r: seq<string>)
    ensures |r| <= |ps| && r == ps[..|r|]
    ensures r == [] || r[|r| - 1] != ""
  {
    if ps == [] then []
    else if ps[|ps| - 1] == "" then DropTrailingEmpty(ps[..|ps| - 1])
    else ps
  }

  /**
   * String.split(",") with its default limit: the input itself when it
   * holds no comma; otherwise its pieces, without the trailing empty ones.
   */
  function JavaSplit(s: string): seq<string> {
    if ',' !in s then [s] else DropTrailingEmpty(Pieces(s))
  }

  /** String.trim: without the leading and trailing characters up to U+0020. */
  function TrimStart(s: string): string {
    if s != [] && s[0] <= ' ' then TrimStart(s[1..]) else s
  }

  function TrimEnd(s: string): string {
    if s != [] && s[|s| - 1] <= ' ' then TrimEnd(s[..|s| - 1]) else s
  }

  function Trim(s: string): string {
    TrimEnd(TrimStart(s))
  }

  /** Neither end of `s` is a character up to U+0020. */
  predicate Trimmed(s: string) {
    s == [] || (s[0] > ' ' && s[|s| - 1] > ' ')
  }

  lemma {:induction false} TrimStartFacts(s: string)
    ensures TrimStart(s) == [] || TrimStart(s)[0] > ' '
    ensures |TrimStart(s)| <= |s| && TrimStart(s) == s[|s| - |TrimStart(s)|..]
  {
    if s != [] && s[0] <= ' ' {
      TrimStartFacts(s[1..]);
    }
  }

  lemma {:induction false} TrimEndFacts(s: string)
    ensures TrimEnd(s) == [] || TrimEnd(s)[|TrimEnd(s)| - 1] > ' '
    ensures |TrimEnd(s)| <= |s| && TrimEnd(s) == s[..|TrimEnd(s)|]
    ensures s == [] || s[0] > ' ' ==> TrimEnd(s) == [] || TrimEnd(s)[0] == s[0]
  {
    if s != [] && s[|s| - 1] <= ' ' {
      TrimEndFacts(s[..|s| - 1]);
    }
  }

  /**
   * trim leaves a string with no whitespace at either end, which is a
   * slice of the input; it changes exactly the strings that are not
   * already trimmed.
   */
  lemma TrimFacts(s: string)
    ensures Trimmed(Trim(s))
    ensures exists i, j :: 0 <= i <= j <= |s| && Trim(s) == s[i..j]
    ensures Trim(s) == s <==> Trimmed(s)
  {
    var a := TrimStart(s);
    TrimStartFacts(s);
    TrimEndFacts(a);
    var b := TrimEnd(a);
    var i := |s| - |a|;
    assert b == a[..|b|];
    assert b == s[i..i + |b|];
    if Trimmed(s) && s != [] {
      assert a == s;
      assert TrimEnd(s) == s;
    }
  }

  /** splitInput: the pieces of the input between commas, as String.split gives them, each trimmed. */
  method SplitInput(cliInput: string) returns (results: seq<string>)
    ensures |results| == |JavaSplit(cliInput)|
    ensures forall i :: 0 <= i < |results| ==> results[i] == Trim(JavaSplit(cliInput)[i])
  {
    var files := JavaSplit(cliInput);
    results := [];
    for i := 0 to |files|
      invariant |results| == i
      invariant forall j :: 0 <= j < i ==> results[j] == Trim(files[j])
    {
      results := results + [Trim(files[i])];
    }
  }

  lemma {:induction false} PiecesLast(a: string, x: string)
    requires ',' !in x
    ensures Pieces(a + SEPARATOR + x) == Pieces(a) + [x]
  {
    if x == [] {
      assert a + SEPARATOR + x == a + SEPARATOR;
      assert (a + SEPARATOR)[..|a|] == a;
    } else {
      var y := x[..|x| - 1];
      PiecesLast(a, y);
      assert (a + SEPARATOR + x)[..|a + SEPARATOR + x| - 1] == a + SEPARATOR + y;
      assert y + [x[|x| - 1]] == x;
    }
  }

  lemma {:induction false} PiecesOfCommaFree(x: string)
    requires ',' !in x
    ensures Pieces(x) == [x]
  {
    if x != [] {
      PiecesOfCommaFree(x[..|x| - 1]);
      assert x[..|x| - 1] + [x[|x| - 1]] == x;
    }
  }

  /** Cutting a join of comma-free parts at its commas gives the parts back. */
  lemma {:induction false} PiecesOfJoin(parts: seq<string>)
    requires parts != []
    requires forall i :: 0 <= i < |parts| ==> ',' !in parts[i]
    ensures Pieces(Join(parts, SEPARATOR)) == parts
  {
    if |parts| == 1 {
      PiecesOfCommaFree(parts[0]);
    } else {
      var t, x := parts[..|parts| - 1], parts[|parts| - 1];
      assert forall i :: 0 <= i < |t| ==> t[i] == parts[i];
      PiecesOfJoin(t);
      PiecesLast(Join(t, SEPARATOR), x);
      assert t + [x] == parts;
    }
  }

  /** The pieces of `s` put back together with commas are `s`, and no piece holds a comma. */
  lemma {:induction false} JoinOfPieces(s: string)
    ensures Join(Pieces(s), SEPARATOR) == s
    ensures forall i :: 0 <= i < |Pieces(s)| ==> ',' !in Pieces(s)[i]
  {
    if s != [] {
      JoinOfPieces(s[..|s| - 1]);
      PiecesStep(s);
    }
  }

  /** The pieces of `s` are comma-free and put back together with commas give `s`. */
  predicate PiecesRejoin(s: string) {
    && Join(Pieces(s), SEPARATOR) == s
    && forall i :: 0 <= i < |Pieces(s)| ==> ',' !in Pieces(s)[i]
  }

  /** One more character keeps the pieces comma-free and their join equal to the string. */
  lemma PiecesStep(s: string)
    requires s != [] && PiecesRejoin(s[..|s| - 1])
    ensures PiecesRejoin(s)
  {
    var t, c := s[..|s| - 1], s[|s| - 1];
    var prev := Pieces(t);
    assert s == t + [c];
    if c == ',' {
      assert Pieces(s) == prev + [""];
      JoinSnoc(prev, "", SEPARATOR);
    } else {
      assert Pieces(s) == prev[..|prev| - 1] + [prev[|prev| - 1] + [c]];
      JoinExtendLast(prev, c, SEPARATOR);
    }
  }

  /** Extending the last part of a join extends the join. */
  lemma JoinExtendLast(parts: seq<string>, c: char, sep: string)
    requires parts != []
    ensures Join(parts[..|parts| - 1] + [parts[|parts| - 1] + [c]], sep) == Join(parts, sep) + [c]
  {
    var k := |parts| - 1;
    var init, last := parts[..k], parts[k];
    var extended := init + [last + [c]];
    if k == 0 {
      assert extended == [last + [c]];
    } else {
      var j := Join(init, sep);
      assert Join(parts, sep) == j + sep + last;
      assert extended[..k] == init;
      assert Join(extended, sep) == j + sep + (last + [c]);
    }
  }

  lemma QuotedCommaFree(paths: seq<string>)
    requires forall i :: 0 <= i < |paths| ==> ',' !in paths[i]
    ensures forall i :: 0 <= i < |Quoted(paths)| ==> ',' !in Quoted(paths)[i] && Trim(Quoted(paths)[i]) == Quoted(paths)[i]
  {
    var q := Quoted(paths);
    forall i | 0 <= i < |q| ensures ',' !in q[i] && Trim(q[i]) == q[i] {
      assert q[i] == "\"" + paths[i] + "\"";
      TrimFacts(q[i]);
    }
  }

  lemma JoinHasSeparator(parts: seq<string>)
    requires |parts| > 1
    ensures ',' in Join(parts, SEPARATOR)
  {
    var t := parts[..|parts| - 1];
    var j := Join(t, SEPARATOR);
    assert Join(parts, SEPARATOR) == j + SEPARATOR + parts[|parts| - 1];
    assert Join(parts, SEPARATOR)[|j|] == ',';
  }

  /** String.split(",") of a join of comma-free parts, the last one non-empty, gives the parts back. */
  lemma JavaSplitOfJoin(parts: seq<string>)
    requires parts != [] && parts[|parts| - 1] != ""
    requires forall i :: 0 <= i < |parts| ==> ',' !in parts[i]
    ensures JavaSplit(Join(parts, SEPARATOR)) == parts
  {
    PiecesOfJoin(parts);
    if |parts| == 1 {
      assert Join(parts, SEPARATOR) == parts[0];
    } else {
      JoinHasSeparator(parts);
    }
  }

  /**
   * Splitting the list argument gives back the quoted paths, when there is
   * at least one path and none holds a comma.
   */
  lemma SplitArgumentRoundTrip(paths: seq<string>)
    requires paths != []
    requires forall i :: 0 <= i < |paths| ==> ',' !in paths[i]
    ensures var split := JavaSplit(Join(Quoted(paths), SEPARATOR));
      |split| == |paths| && forall i :: 0 <= i < |split| ==> Trim(split[i]) == QuoteArgument(paths[i])
  {
    QuotedCommaFree(paths);
    JavaSplitOfJoin(Quoted(paths));
  }

  // ---------------------------------------------------------------------
  // Choosing files by extension
  // ---------------------------------------------------------------------

  /** ASCII lower case, as String.toLowerCase does on ASCII letters. */
  function LowerChar(c: char): char {
    if 'A' <= c <= 'Z' then (c as int + 32) as char else c
  }

  function Lower(s: string): (r: string)
    ensures |r| == |s| && forall i :: 0 <= i < |s| ==> r[i] == LowerChar(s[i])
  {
    if s == [] then [] else Lower(s[..|s| - 1]) + [LowerChar(s[|s| - 1])]
  }

  predicate EndsWith(s: string, suffix: string) {
    |suffix| <= |s| && s[|s| - |suffix|..] == suffix
  }

  /** Some extension ends the lower-cased name. */
  predicate Accepted(name: string, extensions: seq<string>) {
    exists i :: 0 <= i < |extensions| && EndsWith(Lower(name), extensions[i])
  }

  /**
   * The extension loop with its break: the index of the first extension
   * ending the lower-cased name, if any.
   */
  method FirstMatchingExtension(name: string, extensions: seq<string>) returns (found: Option<nat>)
    ensures found.Some? ==> found.value < |extensions| && EndsWith(Lower(name), extensions[found.value])
    ensures found.Some? ==> forall j :: 0 <= j < found.value ==> !EndsWith(Lower(name), extensions[j])
    ensures found.None? <==> !Accepted(name, extensions)
  {
    var lower := Lower(name);
    for i := 0 to |extensions|
      invariant forall j :: 0 <= j < i ==> !EndsWith(lower, extensions[j])
    {
      if |extensions[i]| <= |lower| && lower[|lower| - |extensions[i]|..] == extensions[i] {
        return Some(i);
      }
    }
    return None;
  }

  /**
   * A lower-case name is its own lower case, so acceptance ignores the case
   * of ASCII letters: two names with the same lower case are accepted alike.
   */
  lemma AcceptedIgnoresCase(name: string, extensions: seq<string>)
    ensures Accepted(Lower(name), extensions) <==> Accepted(name, extensions)
    ensures forall other :: Lower(other) == Lower(name) ==> (Accepted(other, extensions) <==> Accepted(name, extensions))
  {
    assert Lower(Lower(name)) == Lower(name);
  }

  /** The file system a path list is checked against. */
  datatype FileSystem = FileSystem(
    fileExists: string -> bool,
    isDirectory: string -> bool,
    listFiles: string -> seq<string>,   // the absolute paths of a directory's children
    fileName: string -> string)         // Util.getFileName

  /** The name the extension rule reads: the file name of the path, or the path as given. */
  function NameOf(path: string, fs: FileSystem, byFileName: bool): string {
    if byFileName then fs.fileName(path) else path
  }

  /**
   * The paths an extension loop keeps, from the first on: an accepted path
   * is kept when it exists and stops everything when it does not.
   */
  function Collected(paths: seq<string>, extensions: seq<string>, fs: FileSystem, byFileName: bool): Result<seq<string>> {
    if paths == [] then Ok([])
    else if Accepted(NameOf(paths[0], fs, byFileName), extensions) then
      if fs.fileExists(paths[0]) then
        var rest :- Collected(paths[1..], extensions, fs, byFileName);
        Ok([paths[0]] + rest)
      else Err(FileNotFound(paths[0]))
    else Collected(paths[1..], extensions, fs, byFileName)
  }

  /** The accepted paths, in order. */
  function AcceptedPaths(paths: seq<string>, extensions: seq<string>, fs: FileSystem, byFileName: bool): seq<string> {
    if paths == [] then []
    else if Accepted(NameOf(paths[0], fs, byFileName), extensions) then
      [paths[0]] + AcceptedPaths(paths[1..], extensions, fs, byFileName)
    else AcceptedPaths(paths[1..], extensions, fs, byFileName)
  }

  /**
   * The loop succeeds exactly when every accepted path exists, and then
   * keeps the accepted paths in order; otherwise it reports an accepted
   * path that does not exist.
   */
  lemma {:induction false} CollectedFacts(paths: seq<string>, extensions: seq<string>, fs: FileSystem, byFileName: bool)
    ensures var r := Collected(paths, extensions, fs, byFileName);
      && (r.Ok? <==> forall i :: 0 <= i < |paths| && Accepted(NameOf(paths[i], fs, byFileName), extensions) ==> fs.fileExists(paths[i]))
      && (r.Ok? ==> r.value == AcceptedPaths(paths, extensions, fs, byFileName))
      && (r.Err? ==> r.error.FileNotFound? && r.error.name in paths && !fs.fileExists(r.error.name)
                     && Accepted(NameOf(r.error.name, fs, byFileName), extensions))
  {
    if paths != [] {
      var r := Collected(paths, extensions, fs, byFileName);
      var rest := Collected(paths[1..], extensions, fs, byFileName);
      CollectedFacts(paths[1..], extensions, fs, byFileName);
      AcceptedExistStep(paths, extensions, fs, byFileName);
      if !Accepted(NameOf(paths[0], fs, byFileName), extensions) {
        assert r == rest;
        assert AcceptedPaths(paths, extensions, fs, byFileName) == AcceptedPaths(paths[1..], extensions, fs, byFileName);
      } else if !fs.fileExists(paths[0]) {
        assert r == Err(FileNotFound(paths[0]));
      } else {
        assert r == if rest.Ok? then Ok([paths[0]] + rest.value) else rest;
        assert AcceptedPaths(paths, extensions, fs, byFileName) == [paths[0]] + AcceptedPaths(paths[1..], extensions, fs, byFileName);
      }
      if r.Err? && r != Err(FileNotFound(paths[0])) {
        assert r == rest;
        assert r.error.name in paths[1..];
      }
    }
  }

  /** Every accepted path of a list exists when the first one does (if accepted) and every accepted path after it does. */
  lemma AcceptedExistStep(paths: seq<string>, extensions: seq<string>, fs: FileSystem, byFileName: bool)
    requires paths != []
    ensures (forall i :: 0 <= i < |paths| && Accepted(NameOf(paths[i], fs, byFileName), extensions) ==> fs.fileExists(paths[i]))
      <==> (Accepted(NameOf(paths[0], fs, byFileName), extensions) ==> fs.fileExists(paths[0]))
           && (forall i :: 0 <= i < |paths[1..]| && Accepted(NameOf(paths[1..][i], fs, byFileName), extensions) ==> fs.fileExists(paths[1..][i]))
  {
    assert forall i :: 1 <= i < |paths| ==> paths[i] == paths[1..][i - 1];
  }

  /** The kept list prefixed to what the rest of the loop keeps. */
  function Prefixed(kept: seq<string>, rest: Result<seq<string>>): Result<seq<string>> {
    if rest.Ok? then Ok(kept + rest.value) else rest
  }

  /** One step of an extension loop over `paths`, at index `i` with `kept` so far. */
  lemma CollectedStep(paths: seq<string>, extensions: seq<string>, fs: FileSystem, byFileName: bool, i: nat,
                      kept: seq<string>)
    requires i < |paths|
    ensures var here := Prefixed(kept, Collected(paths[i..], extensions, fs, byFileName));
      if !Accepted(NameOf(paths[i], fs, byFileName), extensions) then
        here == Prefixed(kept, Collected(paths[i + 1..], extensions, fs, byFileName))
      else if fs.fileExists(paths[i]) then
        here == Prefixed(kept + [paths[i]], Collected(paths[i + 1..], extensions, fs, byFileName))
      else here == Err(FileNotFound(paths[i]))
  {
    assert paths[i..][1..] == paths[i + 1..];
    var rest := Collected(paths[i + 1..], extensions, fs, byFileName);
    if rest.Ok? {
      assert kept + ([paths[i]] + rest.value) == (kept + [paths[i]]) + rest.value;
    }
  }

  /** The loop over the children of a directory, or over a list of paths. */
  method CollectFiles(paths: seq<string>, extensions: seq<string>, fs: FileSystem, byFileName: bool)
    returns (r: Result<seq<string>>)
    ensures r == Collected(paths, extensions, fs, byFileName)
  {
    var result: seq<string> := [];
    assert paths[0..] == paths;
    var whole := Collected(paths, extensions, fs, byFileName);
    if whole.Ok? {
      assert [] + whole.value == whole.value;
    }
    for i := 0 to |paths|
      invariant Prefixed(result, Collected(paths[i..], extensions, fs, byFileName)) == whole
    {
      CollectedStep(paths, extensions, fs, byFileName, i, result);
      var matched := FirstMatchingExtension(NameOf(paths[i], fs, byFileName), extensions);
      if matched.Some? {
        if fs.fileExists(paths[i]) {
          result := result + [paths[i]];
        } else {
          return Err(FileNotFound(paths[i]));
        }
      }
    }
    assert paths[|paths|..] == [];
    assert result + [] == result;
    return Ok(result);
  }

  /** The files getFiles returns for the pieces of the option, or the path it reports missing. */
  function Files(files: seq<string>, extensions: seq<string>, fs: FileSystem): Result<seq<string>> {
    if |files| == 1 then
      var path := files[0];
      if !fs.fileExists(path) then Err(FileNotFound(path))
      else if fs.isDirectory(path) then Collected(fs.listFiles(path), extensions, fs, true)
      else if Accepted(fs.fileName(path), extensions) then Ok([path])
      else Ok([])
    else Collected(files, extensions, fs, false)
  }

  /**
   * getFiles: a single path is checked to exist and is either a directory,
   * whose children are chosen by their file names, or a file chosen by its
   * own; several paths are chosen by the paths as given, each accepted one
   * having to exist.
   */
  method GetFiles(optionInput: string, extensions: seq<string>, fs: FileSystem) returns (r: Result<seq<string>>)
    ensures r == Files(seq(|JavaSplit(optionInput)|, i requires 0 <= i < |JavaSplit(optionInput)| => Trim(JavaSplit(optionInput)[i])),
                       extensions, fs)
  {
    var files := SplitInput(optionInput);
    assert files == seq(|JavaSplit(optionInput)|, i requires 0 <= i < |JavaSplit(optionInput)| => Trim(JavaSplit(optionInput)[i]));
    if |files| == 1 {
      var testFile := files[0];
      if !fs.fileExists(testFile) {
        return Err(FileNotFound(testFile));
      }
      if fs.isDirectory(testFile) {
        r := CollectFiles(fs.listFiles(testFile), extensions, fs, true);
      } else {
        var matched := FirstMatchingExtension(fs.fileName(testFile), extensions);
        r := if matched.Some? then Ok([testFile]) else Ok([]);
      }
    } else {
      r := CollectFiles(files, extensions, fs, false);
    }
  }

  /** Of several listed paths, getFiles keeps the accepted ones, in order, when all of them exist. */
  lemma FilesOfList(files: seq<string>, extensions: seq<string>, fs: FileSystem)
    requires |files| != 1
    ensures var r := Files(files, extensions, fs);
      && (r.Ok? <==> forall i :: 0 <= i < |files| && Accepted(files[i], extensions) ==> fs.fileExists(files[i]))
      && (r.Ok? ==> r.value == AcceptedPaths(files, extensions, fs, false))
  {
    CollectedFacts(files, extensions, fs, false);
  }
}
