/** create_concat_file: the list that ffmpeg's concat demuxer reads, one `file '<path>'` line per
    downloaded segment, in download order. */
module Concat {
  import opened Wrappers
  import opened Text

  /** The list is always written to this file, in the working directory. */
  const ConcatFile: string := "segments.txt"

  /** What every line starts with. */
  const FilePrefix: string := "file '"

  /** The line written for one segment, given its absolute path. */
  function ConcatLine(path: string): (r: string) {
    FilePrefix + path + "'\n"
  }

  /** The text of the list for `files`: their lines one after the other. `abspath` stands for
      os.path.abspath, which depends on the working directory. */
  function ConcatText(files: seq<string>, abspath: string -> string): (r: string) {
    if files == [] then "" else ConcatLine(abspath(files[0])) + ConcatText(files[1..], abspath)
  }

  /** Writing one more file appends its line: what the loop of create_concat_file does. */
  lemma {:induction false} ConcatTextSnoc(files: seq<string>, f: string, abspath: string -> string)
    ensures ConcatText(files + [f], abspath) == ConcatText(files, abspath) + ConcatLine(abspath(f))
  {
    if files != [] {
      assert (files + [f])[1..] == files[1..] + [f];
      ConcatTextSnoc(files[1..], f, abspath);
    }
  }

  /** create_concat_file: the name of the list file and the text written to it. */
  method CreateConcatFile(segmentFiles: seq<string>, abspath: string -> string)
    returns (concatFile: string, contents: string)
    ensures concatFile == ConcatFile
    ensures contents == ConcatText(segmentFiles, abspath)
  {
    concatFile := ConcatFile;
    contents := "";
    for i := 0 to |segmentFiles|
      invariant contents == ConcatText(segmentFiles[..i], abspath)
    {
      ConcatTextSnoc(segmentFiles[..i], segmentFiles[i], abspath);
      assert segmentFiles[..i + 1] == segmentFiles[..i] + [segmentFiles[i]];
      contents := contents + ConcatLine(abspath(segmentFiles[i]));
    }
    assert segmentFiles[..|segmentFiles|] == segmentFiles;
  }

  // ---------------------------------------------------------------------------------------------
  // How ffmpeg's concat demuxer reads the list back.

  /** The directive that starts each line the writer produces, with the space after it. */
  const FileKeyword: string := "file "

  /** The path token of a `file` directive, as ffmpeg's concat demuxer reads it: outside single
      quotes a backslash takes the next character literally and a space or a tab ends the token;
      inside single quotes every character up to the next quote (or the end) is literal, and the
      quotes themselves are dropped. */
  function Unquote(s: string): (r: string)
    decreases |s|
  {
    if s == [] then []
    else if s[0] == '\\' && |s| >= 2 then [s[1]] + Unquote(s[2..])
    else if s[0] == '\'' then
      var j := IndexOf(s[1..], '\'');
      if j == |s| - 1 then s[1..] else s[1..j + 1] + Unquote(s[j + 2..])
    else if s[0] == ' ' || s[0] == '\t' then []
    else [s[0]] + Unquote(s[1..])
  }

  /** The path ffmpeg reads from one line of the list, without its newline. Only the form the
      writer produces, "file " and a token, is accepted. */
  function ParseLine(line: string): (r: Option<string>) {
    if StartsWith(line, FileKeyword) then Some(Unquote(line[|FileKeyword|..])) else None
  }

  /** libavformat's line reader ends a line at a newline, a carriage return or a NUL. */
  predicate IsLineEnd(c: char) {
    c == '\n' || c == '\r' || c == '\0'
  }

  /** No character of `s` ends a line. */
  predicate NoLineEnd(s: string) {
    '\n' !in s && '\r' !in s && '\0' !in s
  }

  /** The length of the first line of `s`, without its line end. */
  function LineLength(s: string): (n: nat)
    ensures n <= |s|
    ensures n < |s| ==> IsLineEnd(s[n])
  {
    if s == [] || IsLineEnd(s[0]) then 0 else 1 + LineLength(s[1..])
  }

  /** A line without line ends, followed by a line end, is the first line. */
  lemma {:induction false} LineLengthAt(line: string, rest: string)
    requires NoLineEnd(line) && rest != [] && IsLineEnd(rest[0])
    ensures LineLength(line + rest) == |line|
  {
    if line != [] {
      assert line[0] in line;
      assert (line + rest)[1..] == line[1..] + rest;
      LineLengthAt(line[1..], rest);
    } else {
      assert line + rest == rest;
    }
  }

  /** Reads a list back: every line must end with a line end and have the form of ConcatLine.
      A carriage return followed by a newline ends one line. */
  function ReadConcat(text: string): (r: Option<seq<string>>)
    decreases |text|
  {
    if text == [] then Some([])
    else
      var i := LineLength(text);
      if i == |text| then None
      else
        var next := if text[i] == '\r' && i + 1 < |text| && text[i + 1] == '\n' then i + 2 else i + 1;
        match ParseLine(text[..i])
        case None => None
        case Some(path) =>
          match ReadConcat(text[next..])
          case None => None
          case Some(paths) => Some([path] + paths)
  }

  /** Reading a line without line ends, then its newline, then more of the list: the line's
      path comes first. */
  lemma ReadConcatStep(line: string, rest: string)
    requires NoLineEnd(line) && ParseLine(line).Some? && ReadConcat(rest).Some?
    ensures ReadConcat(line + "\n" + rest) == Some([ParseLine(line).value] + ReadConcat(rest).value)
  {
    var text := line + "\n" + rest;
    assert text == line + ("\n" + rest);
    LineLengthAt(line, "\n" + rest);
    assert text[..|line|] == line;
    assert text[|line|] == '\n';
    assert text[|line| + 1..] == rest;
  }

  /** A quoted part without single quotes in it is read as it stands, and reading goes on
      after its closing quote. */
  lemma UnquoteQuoted(a: string, b: string)
    requires '\'' !in a
    ensures Unquote("'" + a + "'" + b) == a + Unquote(b)
  {
    var s := "'" + a + "'" + b;
    assert s[1..] == a + "'" + b;
    assert s[1..][..|a|] == a;
    IndexOfAt(s[1..], |a|, '\'');
    assert s[1..|a| + 1] == a;
    assert s[|a| + 2..] == b;
  }

  /** A backslash outside quotes makes the next character literal. */
  lemma UnquoteEscaped(c: char, b: string)
    ensures Unquote(['\\', c] + b) == [c] + Unquote(b)
  {
    assert (['\\', c] + b)[2..] == b;
  }

  // ---------------------------------------------------------------------------------------------
  // What ffmpeg reads from the list as written.

  /** The line as written, without its newline. */
  function WrittenLine(path: string): (r: string) {
    FilePrefix + path + "'"
  }

  /** The line of a path ends at its newline. */
  lemma ConcatLineSplit(path: string, rest: string)
    ensures ConcatLine(path) + rest == WrittenLine(path) + "\n" + rest
    ensures NoLineEnd(path) ==> NoLineEnd(WrittenLine(path))
  {
  }

  /** A line as written is read back as its path, when the path holds no single quote. */
  lemma ParseWrittenLine(path: string)
    requires '\'' !in path
    ensures ParseLine(WrittenLine(path)) == Some(path)
  {
    var line := WrittenLine(path);
    assert line[..|FileKeyword|] == FileKeyword;
    assert line[|FileKeyword|..] == "'" + path + "'" + "";
    UnquoteQuoted(path, "");
    assert Unquote("") == "";
    assert path + "" == path;
  }

  /** The absolute path of each file, in order. */
  function AbsPaths(files: seq<string>, abspath: string -> string): (paths: seq<string>)
    ensures |paths| == |files|
  {
    if files == [] then [] else [abspath(files[0])] + AbsPaths(files[1..], abspath)
  }

  /** The k-th path is the absolute path of the k-th file. */
  lemma {:induction false} AbsPathsAt(files: seq<string>, abspath: string -> string, k: nat)
    requires k < |files|
    ensures AbsPaths(files, abspath)[k] == abspath(files[k])
  {
    if k > 0 {
      AbsPathsAt(files[1..], abspath, k - 1);
    }
  }

  /** ffmpeg reads back the absolute path of every file, in order, as long as no path holds a
      newline, a carriage return, a NUL or a single quote. */
  lemma {:induction false} ReadConcatText(files: seq<string>, abspath: string -> string)
    requires forall k :: 0 <= k < |files| ==> NoLineEnd(abspath(files[k])) && '\'' !in abspath(files[k])
    ensures ReadConcat(ConcatText(files, abspath)) == Some(AbsPaths(files, abspath))
  {
    if files != [] {
      var path := abspath(files[0]);
      var rest := ConcatText(files[1..], abspath);
      ReadConcatText(files[1..], abspath);
      ConcatLineSplit(path, rest);
      ParseWrittenLine(path);
      ReadConcatStep(WrittenLine(path), rest);
    }
  }

  /** The line written for "/a'b" is read as the path "/ab": the quote inside the path closes
      the quoted run, and the closing quote opens a run that the line's end closes. */
  lemma MisreadLine()
    ensures ParseLine(WrittenLine("/a'b")) == Some("/ab")
  {
    var line := WrittenLine("/a'b");
    assert StartsWith(line, FileKeyword) by {
      assert line[..|FileKeyword|] == FileKeyword;
    }
    var token := line[|FileKeyword|..];
    assert token == "'" + "/a" + "'" + "b'";
    UnquoteQuoted("/a", "b'");
    assert Unquote("b'") == "b" by {
      assert "b'"[1..] == "'";
      assert Unquote("'") == [];
    }
    assert Unquote(token) == "/ab";
  }

  /** A single quote in a path ends the quoted token early: the list written for "/a'b" makes
      ffmpeg open "/ab". */
  lemma QuoteInPathMisread(f: string, abspath: string -> string)
    requires abspath(f) == "/a'b"
    ensures ReadConcat(ConcatText([f], abspath)) == Some(["/ab"])
  {
    var line := WrittenLine("/a'b");
    assert ConcatText([f], abspath) == line + "\n" + "" by {
      assert [f][1..] == [];
      ConcatLineSplit("/a'b", "");
    }
    MisreadLine();
    ReadConcatStep(line, "");
    assert ["/ab"] + [] == ["/ab"];
  }

  /** The line of a newline-free path holds one newline. */
  lemma CountLine(path: string, rest: string)
    requires '\n' !in path
    ensures CountChar(ConcatLine(path) + rest, '\n') == 1 + CountChar(rest, '\n')
  {
    var line := WrittenLine(path);
    ConcatLineSplit(path, rest);
    assert line + "\n" + rest == line + ("\n" + rest);
    CountFree(line, '\n');
    CountAppend(line, "\n" + rest, '\n');
    CountSkip("\n" + rest, '\n');
    assert ("\n" + rest)[1..] == rest;
  }

  /** There are exactly as many newlines as files: one line per file. */
  lemma {:induction false} ConcatLineCount(files: seq<string>, abspath: string -> string)
    requires forall k :: 0 <= k < |files| ==> '\n' !in abspath(files[k])
    ensures CountChar(ConcatText(files, abspath), '\n') == |files|
  {
    if files != [] {
      ConcatLineCount(files[1..], abspath);
      CountLine(abspath(files[0]), ConcatText(files[1..], abspath));
    }
  }

  // ---------------------------------------------------------------------------------------------
  // Quoting every path so that ffmpeg reads it back whatever it holds.

  /** A path quoted for the concat script: each run of the path between single quotes is put
      between single quotes, and each single quote of the path is written as \' between them. */
  function Quote(path: string): (r: string)
    decreases |path|
  {
    var i := IndexOf(path, '\'');
    if i == |path| then "'" + path + "'"
    else "'" + path[..i] + "'" + (['\\', '\''] + Quote(path[i + 1..]))
  }

  /** The line written for one segment when its path is quoted, without its newline. */
  function QuotedLine(path: string): (r: string) {
    FileKeyword + Quote(path)
  }

  /** The text of the list with every path quoted. */
  function QuotedConcatText(files: seq<string>, abspath: string -> string): (r: string) {
    if files == [] then "" else QuotedLine(abspath(files[0])) + "\n" + QuotedConcatText(files[1..], abspath)
  }

  /** For a path without single quotes the quoted line is the line create_concat_file writes. */
  lemma QuotedLineAgrees(path: string)
    requires '\'' !in path
    ensures QuotedLine(path) == WrittenLine(path)
  {
    assert IndexOf(path, '\'') == |path| by {
      IndexOfSpec(path, '\'');
    }
  }

  /** ffmpeg reads back every quoted path exactly. */
  lemma {:induction false} UnquoteQuote(path: string)
    ensures Unquote(Quote(path)) == path
    decreases |path|
  {
    var i := IndexOf(path, '\'');
    PrefixFree(path, '\'');
    if i == |path| {
      assert Quote(path) == "'" + path + "'" + "";
      UnquoteQuoted(path, "");
    } else {
      var rest := path[i + 1..];
      UnquoteQuote(rest);
      UnquoteQuoted(path[..i], ['\\', '\''] + Quote(rest));
      UnquoteEscaped('\'', Quote(rest));
      Reglue(path, i, '\'');
    }
  }

  /** Quoting adds no line end to a path. */
  lemma {:induction false} QuoteNoLineEnd(path: string)
    requires NoLineEnd(path)
    ensures NoLineEnd(Quote(path))
    decreases |path|
  {
    var i := IndexOf(path, '\'');
    if i < |path| {
      var rest := path[i + 1..];
      QuoteNoLineEnd(rest);
      assert NoLineEnd(path[..i]);
    }
  }

  /** A quoted line is read back as its path. */
  lemma ParseQuotedLine(path: string)
    ensures ParseLine(QuotedLine(path)) == Some(path)
  {
    var line := QuotedLine(path);
    assert line[..|FileKeyword|] == FileKeyword;
    assert line[|FileKeyword|..] == Quote(path);
    UnquoteQuote(path);
  }

  /** With every path quoted, ffmpeg reads back the absolute path of every file, in order, as
      long as no path holds a newline, a carriage return or a NUL. */
  lemma {:induction false} ReadQuotedConcatText(files: seq<string>, abspath: string -> string)
    requires forall k :: 0 <= k < |files| ==> NoLineEnd(abspath(files[k]))
    ensures ReadConcat(QuotedConcatText(files, abspath)) == Some(AbsPaths(files, abspath))
  {
    if files != [] {
      var path := abspath(files[0]);
      ReadQuotedConcatText(files[1..], abspath);
      QuoteNoLineEnd(path);
      ParseQuotedLine(path);
      ReadConcatStep(QuotedLine(path), QuotedConcatText(files[1..], abspath));
    }
  }

  /** No quoting helps a path that holds a carriage return: the line reader ends the line there,
      and the rest of the path is read as a line of its own, which is not a `file` directive.
      A quoted list with "/a\rb" is not read. */
  lemma CarriageReturnSplitsLine(f: string, abspath: string -> string)
    requires abspath(f) == "/a\rb"
    ensures ReadConcat(QuotedConcatText([f], abspath)) == None
  {
    var text := "file '/a" + "\rb'\n";
    assert Quote("/a\rb") == "'/a\rb'" by {
      IndexOfSpec("/a\rb", '\'');
    }
    assert QuotedConcatText([f], abspath) == text by {
      assert [f][1..] == [];
    }
    LineLengthAt("file '/a", "\rb'\n");
    assert text[8] == '\r' && text[9] == 'b';
    var rest := text[9..];
    assert rest == "b'" + "\n";
    LineLengthAt("b'", "\n");
    assert rest[..2] == "b'";
    assert !StartsWith("b'", FileKeyword);
  }
}
