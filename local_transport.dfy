/** The SDK's local transport (`Plasm\Transport\LocalTransport`): it runs
    the `plasmd` command line tool as a subprocess, turns the exit status into
    a mock receipt, and cleans the WASM module's own output out of the log
    text the tool prints. The subprocess and the clocks are parameters. */
module LocalTransport {
  import opened Wrappers
  import opened Strings
  import opened Numbers
  import opened PhpErrors
  import SdkReceipt
  import SdkResult
  import SdkManifest

  const ESC: char := '\U{001B}'
  const DEFAULT_PLASMD_PATH := "plasmd"
  const START_FAILED := "Failed to start plasmd process"

  // ---------------------------------------------------------------------
  // Removing ANSI colour codes: every `ESC [ [0-9;]* m`, in one pass.

  predicate IsSgrParam(c: char) { IsDigit(c) || c == ';' }

  /** The end of the run of parameter characters that starts at `i`. */
  function SgrParamsEnd(s: string, i: nat): (j: nat)
    requires i <= |s|
    ensures i <= j <= |s|
    ensures forall k :: i <= k < j ==> IsSgrParam(s[k])
    ensures j < |s| ==> !IsSgrParam(s[j])
    decreases |s| - i
  {
    if i < |s| && IsSgrParam(s[i]) then SgrParamsEnd(s, i + 1) else i
  }

  /** Length of the colour code at the start of `s`, 0 when there is none.
      A code is exactly `ESC`, `[`, parameter characters and `m`. */
  function SgrLength(s: string): (n: nat)
    ensures n <= |s|
    ensures n > 0 ==>
              && n >= 3 && s[0] == ESC && s[1] == '[' && s[n - 1] == 'm'
              && forall k :: 2 <= k < n - 1 ==> IsSgrParam(s[k])
    ensures |s| == 0 || s[0] != ESC ==> n == 0
  {
    if |s| >= 2 && s[0] == ESC && s[1] == '[' then
      var j := SgrParamsEnd(s, 2);
      if j < |s| && s[j] == 'm' then j + 1 else 0
    else 0
  }

  /** `preg_replace('/\x1b\[[0-9;]*m/', '', $output)`: matches are found
      left to right and removed; the text the removal brings together is
      not searched again. */
  function StripSgr(s: string): (r: string)
    ensures |r| <= |s|
    decreases |s|
  {
    if |s| == 0 then ""
    else
      var n := SgrLength(s);
      if n > 0 then StripSgr(s[n..]) else [s[0]] + StripSgr(s[1..])
  }

  /** Text without an escape character passes unchanged. */
  lemma {:induction false} StripSgrPlain(s: string)
    requires ESC !in s
    ensures StripSgr(s) == s
    decreases |s|
  {
    if |s| > 0 {
      assert s[0] != ESC;
      assert ESC !in s[1..] by { assert forall k :: 0 <= k < |s| - 1 ==> s[1..][k] == s[k + 1]; }
      StripSgrPlain(s[1..]);
    }
  }

  /** A colour code at the front disappears and the rest is processed as
      if it had not been there. */
  lemma StripSgrCode(params: string, rest: string)
    requires forall k :: 0 <= k < |params| ==> IsSgrParam(params[k])
    ensures StripSgr([ESC, '['] + params + "m" + rest) == StripSgr(rest)
  {
    var s := [ESC, '['] + params + "m" + rest;
    assert forall k :: 2 <= k < 2 + |params| ==> s[k] == params[k - 2];
    assert SgrParamsEnd(s, 2) == 2 + |params| by {
      SgrParamsEndOfRun(s, 2, 2 + |params|);
    }
    assert s[3 + |params|..] == rest;
  }

  lemma {:induction false} SgrParamsEndOfRun(s: string, i: nat, j: nat)
    requires i <= j < |s|
    requires forall k :: i <= k < j ==> IsSgrParam(s[k])
    requires !IsSgrParam(s[j])
    ensures SgrParamsEnd(s, i) == j
    decreases j - i
  {
    if i < j {
      SgrParamsEndOfRun(s, i + 1, j);
    }
  }

  /** Plain text before a colour code is kept as it is. */
  lemma {:induction false} StripSgrPrefix(t: string, rest: string)
    requires ESC !in t
    ensures StripSgr(t + rest) == t + StripSgr(rest)
    decreases |t|
  {
    if |t| > 0 {
      var s := t + rest;
      assert s[0] == t[0] && s[0] != ESC;
      assert SgrLength(s) == 0;
      assert s[1..] == t[1..] + rest;
      assert StripSgr(s) == [t[0]] + StripSgr(t[1..] + rest);
      assert ESC !in t[1..] by { assert forall k :: 0 <= k < |t| - 1 ==> t[1..][k] == t[k + 1]; }
      StripSgrPrefix(t[1..], rest);
      assert [t[0]] + (t[1..] + StripSgr(rest)) == t + StripSgr(rest);
    } else {
      assert t + rest == rest;
    }
  }

  /** One pass only: removing the inner code of `ESC [ ESC [0m m` leaves a
      new code, which stays. */
  lemma StripSgrSinglePass()
    ensures StripSgr([ESC, '[', ESC, '[', '0', 'm', 'm']) == [ESC, '[', 'm']
    ensures StripSgr([ESC, '[', 'm']) == []
  {
    var s: string := [ESC, '[', ESC, '[', '0', 'm', 'm'];
    assert SgrParamsEnd(s, 2) == 2;
    assert SgrLength(s) == 0;
    assert s[1..] == ['[', ESC, '[', '0', 'm', 'm'];
    assert SgrLength(s[1..]) == 0;
    assert s[1..][1..] == [ESC, '[', '0', 'm', 'm'];
    StripSgrCode("0", "m");
    assert [ESC, '['] + "0" + "m" + "m" == s[1..][1..];
    StripSgrPlain("m");
    var t: string := [ESC, '[', 'm'];
    StripSgrCode("", "");
    assert [ESC, '['] + "" + "m" + "" == t;
  }

  // ---------------------------------------------------------------------
  // Log timestamps: four digits, `-`, two digits, `-`, two digits, `T`.

  predicate TimestampAt(s: string, i: nat) {
    && i + 11 <= |s|
    && IsDigit(s[i]) && IsDigit(s[i + 1]) && IsDigit(s[i + 2]) && IsDigit(s[i + 3])
    && s[i + 4] == '-' && IsDigit(s[i + 5]) && IsDigit(s[i + 6])
    && s[i + 7] == '-' && IsDigit(s[i + 8]) && IsDigit(s[i + 9])
    && s[i + 10] == 'T'
  }

  /** No timestamp starts anywhere in `s`. */
  predicate NoTimestamp(s: string) {
    forall k :: 0 <= k <= |s| ==> !TimestampAt(s, k)
  }

  /** The leftmost timestamp at or after `i`. */
  function FirstTimestampFrom(s: string, i: nat): (r: Option<nat>)
    requires i <= |s|
    ensures r.Some? ==> i <= r.value <= |s| && TimestampAt(s, r.value)
    ensures r.Some? ==> forall k :: i <= k < r.value ==> !TimestampAt(s, k)
    ensures r.None? ==> forall k :: i <= k <= |s| ==> !TimestampAt(s, k)
    decreases |s| - i
  {
    if TimestampAt(s, i) then Some(i)
    else if i == |s| then None
    else FirstTimestampFrom(s, i + 1)
  }

  function FirstTimestamp(s: string): Option<nat>
  {
    FirstTimestampFrom(s, 0)
  }

  /** A timestamp inside a slice is a timestamp of the whole text. */
  lemma TimestampOfSlice(s: string, a: nat, b: nat, k: nat)
    requires a <= b <= |s|
    requires TimestampAt(s[a..b], k)
    ensures TimestampAt(s, a + k)
  {
    var t := s[a..b];
    assert forall j :: a + k <= j < a + k + 11 ==> t[j - a] == s[j];
  }

  /** A slice of text without timestamps has none either. */
  lemma NoTimestampSlice(s: string, a: nat, b: nat)
    requires a <= b <= |s|
    requires NoTimestamp(s)
    ensures NoTimestamp(s[a..b])
  {
    forall k | 0 <= k <= b - a ensures !TimestampAt(s[a..b], k) {
      if TimestampAt(s[a..b], k) {
        TimestampOfSlice(s, a, b, k);
      }
    }
  }

  /** The text before the first timestamp has no timestamp of its own: one
      would start before the first. */
  lemma NoTimestampBeforeFirst(line: string, i: nat)
    requires i <= |line|
    requires forall k :: 0 <= k < i ==> !TimestampAt(line, k)
    ensures NoTimestamp(line[..i])
  {
    forall k | 0 <= k <= i ensures !TimestampAt(line[..i], k) {
      if TimestampAt(line[..i], k) {
        TimestampOfSlice(line, 0, i, k);
      }
    }
  }

  // ---------------------------------------------------------------------
  // Keeping the module's output.

  /** The part of a line before its first timestamp; the whole line when
      it has none. */
  function BeforeTimestamp(line: string): (r: string)
    ensures |r| <= |line| && r == line[..|r|]
    ensures NoTimestamp(r)
    ensures |r| < |line| ==> TimestampAt(line, |r|)
  {
    match FirstTimestamp(line)
    case Some(i) =>
      NoTimestampBeforeFirst(line, i);
      line[..i]
    case None =>
      assert line[..|line|] == line;
      line
  }

  /** What one line contributes: the trimmed text before its first
      timestamp; an empty result means the line is dropped. */
  function LineContent(line: string): string
  {
    PhpTrim(BeforeTimestamp(line))
  }

  /** The contributions of the lines that give one, in order. */
  function KeptLines(lines: seq<string>): (kept: seq<string>)
    ensures |kept| <= |lines|
    ensures forall j :: 0 <= j < |kept| ==> kept[j] != ""
  {
    if |lines| == 0 then []
    else
      var c := LineContent(lines[|lines| - 1]);
      if c != "" then KeptLines(lines[..|lines| - 1]) + [c] else KeptLines(lines[..|lines| - 1])
  }

  /** Keeping one more line appends its contribution, if it gives one. */
  lemma KeptLinesStep(lines: seq<string>, k: nat)
    requires k < |lines|
    ensures KeptLines(lines[..k + 1])
            == KeptLines(lines[..k]) + (if LineContent(lines[k]) != "" then [LineContent(lines[k])] else [])
  {
    assert lines[..k + 1][..k] == lines[..k];
  }

  /** The text `extractWasmOutput` returns: colour codes removed, split on
      newlines, the kept lines joined with single newlines. */
  function ExtractedText(output: string): string
  {
    Join(KeptLines(Split(StripSgr(output), '\n')), "\n")
  }

  /** A line that starts with a timestamp is dropped: the explicit skip is
      the case where the text before the first timestamp is empty. */
  lemma LeadingTimestampDropped(line: string)
    requires TimestampAt(line, 0)
    ensures LineContent(line) == ""
  {
    assert FirstTimestamp(line) == Some(0);
  }

  /** Trimming keeps a text free of timestamps. */
  lemma TrimNoTimestamp(b: string)
    requires NoTimestamp(b)
    ensures NoTimestamp(PhpTrim(b))
  {
    var lead := LeadCount(b, IsPhpTrimChar);
    NoTimestampSlice(b, lead, lead + |PhpTrim(b)|);
  }

  /** Trimming keeps a text free of newlines. */
  lemma TrimNoNewline(b: string)
    requires '\n' !in b
    ensures '\n' !in PhpTrim(b)
  {
    var lead := LeadCount(b, IsPhpTrimChar);
    NoNewlineInSlice(b, lead, lead + |PhpTrim(b)|);
  }

  /** A contribution carries no timestamp, and no newline when its line
      had none. */
  lemma LineContentClean(line: string)
    ensures NoTimestamp(LineContent(line))
    ensures '\n' !in line ==> '\n' !in LineContent(line)
  {
    var b := BeforeTimestamp(line);
    TrimNoTimestamp(b);
    if '\n' !in line {
      NoNewlineInSlice(line, 0, |b|);
      TrimNoNewline(b);
    }
  }

  lemma NoNewlineInSlice(s: string, a: nat, b: nat)
    requires a <= b <= |s| && '\n' !in s
    ensures '\n' !in s[a..b]
  {
  }

  /** Every kept line is non-empty and free of timestamps and, when the
      input lines have no newline, of newlines. */
  lemma {:induction false} KeptLinesClean(lines: seq<string>)
    requires forall k :: 0 <= k < |lines| ==> '\n' !in lines[k]
    ensures forall j :: 0 <= j < |KeptLines(lines)| ==>
              && '\n' !in KeptLines(lines)[j]
              && NoTimestamp(KeptLines(lines)[j])
  {
    if |lines| > 0 {
      var init := lines[..|lines| - 1];
      var last := lines[|lines| - 1];
      assert forall k :: 0 <= k < |init| ==> init[k] == lines[k];
      KeptLinesClean(init);
      LineContentClean(last);
      var c := LineContent(last);
      var before := KeptLines(init);
      assert '\n' !in last;
      if c != "" {
        var kept := before + [c];
        assert KeptLines(lines) == kept;
        forall j | 0 <= j < |kept| ensures '\n' !in kept[j] && NoTimestamp(kept[j]) {
          if j < |before| {
            assert kept[j] == before[j];
          }
        }
      }
    }
  }

  /** Splitting the returned text on newlines gives back the kept lines,
      whenever there is at least one. */
  lemma ExtractedTextLines(output: string)
    requires KeptLines(Split(StripSgr(output), '\n')) != []
    ensures Split(ExtractedText(output), '\n') == KeptLines(Split(StripSgr(output), '\n'))
  {
    KeptLinesClean(Split(StripSgr(output), '\n'));
    SplitJoin(KeptLines(Split(StripSgr(output), '\n')), '\n');
  }

  /** A line in which the module's output runs into a log timestamp keeps
      only the output. */
  lemma EmbeddedTimestampExample()
    ensures LineContent("dlroW ,olleH2025-11-09T04:50:35") == "dlroW ,olleH"
  {
    var line := "dlroW ,olleH2025-11-09T04:50:35";
    ExampleFirstTimestamp();
    assert BeforeTimestamp(line) == line[..12];
    assert line[..12] == "dlroW ,olleH";
    ExampleUntrimmed();
  }

  lemma ExampleUntrimmed()
    ensures PhpTrim("dlroW ,olleH") == "dlroW ,olleH"
  {
    assert LeadCount("dlroW ,olleH", IsPhpTrimChar) == 0;
    assert TrimRight("dlroW ,olleH", IsPhpTrimChar) == "dlroW ,olleH";
  }

  /** A position that holds no digit starts no timestamp, so the search
      moves past it. */
  lemma SkipNonDigit(s: string, i: nat)
    requires i < |s| && !IsDigit(s[i])
    ensures FirstTimestampFrom(s, i) == FirstTimestampFrom(s, i + 1)
  {
  }

  lemma ExampleFirstTimestamp()
    ensures FirstTimestamp("dlroW ,olleH2025-11-09T04:50:35") == Some(12)
  {
    var line := "dlroW ,olleH2025-11-09T04:50:35";
    assert TimestampAt(line, 12);
    assert FirstTimestampFrom(line, 12) == Some(12);
    var i := 12;
    while i > 0
      invariant 0 <= i <= 12
      invariant FirstTimestampFrom(line, i) == Some(12)
    {
      i := i - 1;
      SkipNonDigit(line, i);
    }
  }

  /** `extractWasmOutput`: walks the lines in order, skips those that
      start with a timestamp, and collects the non-empty contributions. */
  method ExtractWasmOutput(output: string) returns (text: string)
    ensures text == ExtractedText(output)
  {
    var stripped := StripSgr(output);
    var lines := Split(stripped, '\n');
    var wasmLines: seq<string> := [];
    for k := 0 to |lines|
      invariant wasmLines == KeptLines(lines[..k])
    {
      var line := lines[k];
      KeptLinesStep(lines, k);
      if TimestampAt(line, 0) {
        LeadingTimestampDropped(line);
        continue;
      }
      match FirstTimestamp(line) {
        case Some(i) =>
          var content := PhpTrim(line[..i]);
          assert content == LineContent(line);
          if content != "" {
            wasmLines := wasmLines + [content];
          }
        case None =>
          var trimmed := PhpTrim(line);
          assert trimmed == LineContent(line);
          if trimmed != "" {
            wasmLines := wasmLines + [trimmed];
          }
      }
    }
    assert lines[..|lines|] == lines;
    text := Join(wasmLines, "\n");
  }

  // ---------------------------------------------------------------------
  // Quoting for the shell.

  /** The inside of `escapeshellarg`'s quotes: each `'` becomes `'\''`. */
  function QuoteBody(s: string): string
  {
    if |s| == 0 then ""
    else (if s[0] == '\'' then "'\\''" else [s[0]]) + QuoteBody(s[1..])
  }

  /** `escapeshellarg` on a POSIX system. */
  function EscapeShellArg(s: string): (quoted: string)
    ensures |quoted| >= 2 && quoted[0] == '\'' && quoted[|quoted| - 1] == '\''
  {
    "'" + QuoteBody(s) + "'"
  }

  /** How a POSIX shell reads one word: single quotes take everything up to
      the next `'` literally, a backslash outside quotes takes the next
      character literally, and an unquoted space ends the word. `None` is
      an unterminated quote or a trailing backslash. */
  function ReadWord(s: string, quoted: bool, acc: string): Option<(string, string)>
    decreases |s|
  {
    if |s| == 0 then (if quoted then None else Some((acc, "")))
    else if quoted then
      if s[0] == '\'' then ReadWord(s[1..], false, acc) else ReadWord(s[1..], true, acc + [s[0]])
    else if s[0] == ' ' then Some((acc, s))
    else if s[0] == '\'' then ReadWord(s[1..], true, acc)
    else if s[0] == '\\' then
      if |s| == 1 then None else ReadWord(s[2..], false, acc + [s[1]])
    else ReadWord(s[1..], false, acc + [s[0]])
  }

  lemma {:induction false} ReadQuoteBody(s: string, rest: string, acc: string)
    ensures ReadWord(QuoteBody(s) + "'" + rest, true, acc) == ReadWord(rest, false, acc + s)
    decreases |s|
  {
    if |s| == 0 {
      assert QuoteBody(s) + "'" + rest == "'" + rest;
      assert ("'" + rest)[1..] == rest;
      assert acc + s == acc;
    } else {
      var tail := QuoteBody(s[1..]) + "'" + rest;
      ReadQuoteBody(s[1..], rest, acc + [s[0]]);
      assert acc + [s[0]] + s[1..] == acc + s;
      if s[0] == '\'' {
        assert QuoteBody(s) + "'" + rest == "'\\''" + tail;
        ReadEscapedQuote(tail, acc);
      } else {
        var t := [s[0]] + tail;
        assert QuoteBody(s) + "'" + rest == t;
        assert t[1..] == tail;
      }
    }
  }

  /** Inside quotes, `'\''` closes the quote, reads an escaped `'` and
      opens the quote again. */
  lemma ReadEscapedQuote(tail: string, acc: string)
    ensures ReadWord("'\\''" + tail, true, acc) == ReadWord(tail, true, acc + ['\''])
  {
    var t := "'\\''" + tail;
    var u := "\\''" + tail;
    var v := "'" + tail;
    assert t[0] == '\'' && t[1..] == u;
    assert u[0] == '\\' && u[1] == '\'' && u[2..] == v;
    assert v[0] == '\'' && v[1..] == tail;
    assert ReadWord(t, true, acc) == ReadWord(u, false, acc);
    assert ReadWord(u, false, acc) == ReadWord(v, false, acc + ['\'']);
  }

  /** The shell reads an escaped argument back as exactly the original
      text, and the word ends where the quoting ends. */
  lemma EscapeShellArgReadBack(s: string, rest: string)
    requires rest == "" || rest[0] == ' '
    ensures ReadWord(EscapeShellArg(s) + rest, false, "") == Some((s, rest))
  {
    var t := EscapeShellArg(s) + rest;
    assert t[1..] == QuoteBody(s) + "'" + rest;
    ReadQuoteBody(s, rest, "");
    assert "" + s == s;
  }

  // ---------------------------------------------------------------------
  // Running the tool.

  /** What the operating system does with the command: whether it starts,
      what the merged output and the error pipe carry, and the exit status
      `proc_close` reports. */
  datatype Process = Process(started: bool, output: string, errors: string, exitStatus: int)

  /** The transport's actions on the subprocess and its pipes. */
  datatype PipeStep =
    | Open(command: string)
    | WriteStdin(data: string)
    | CloseStdin
    | ReadStdout
    | ReadStderr
    | CloseStdout
    | CloseStderr
    | CloseProcess

  /** Standard input is closed before either output pipe is read, and the
      process is closed last. */
  predicate StdinClosedBeforeReads(steps: seq<PipeStep>) {
    && |steps| > 0 && steps[|steps| - 1] == CloseProcess
    && forall k :: 0 <= k < |steps| && (steps[k].ReadStdout? || steps[k].ReadStderr?) ==> CloseStdin in steps[..k]
  }

  /** The steps of a run whose process started. */
  function StartedSteps(command: string, input: Option<string>): seq<PipeStep>
  {
    [Open(command)] + (if input.Some? then [WriteStdin(input.value)] else [])
      + [CloseStdin, ReadStdout, ReadStderr, CloseStdout, CloseStderr, CloseProcess]
  }

  /** A started run writes the input exactly when there is one, closes
      standard input before reading, and closes every pipe and then the
      process. */
  lemma StartedStepsProtocol(command: string, input: Option<string>)
    ensures StdinClosedBeforeReads(StartedSteps(command, input))
    ensures input.Some? ==> WriteStdin(input.value) in StartedSteps(command, input)
    ensures input.None? ==> forall k :: 0 <= k < |StartedSteps(command, input)| ==> !StartedSteps(command, input)[k].WriteStdin?
    ensures CloseStdout in StartedSteps(command, input) && CloseStderr in StartedSteps(command, input)
  {
    var steps := StartedSteps(command, input);
    var c := if input.Some? then 2 else 1;
    assert steps[c] == CloseStdin;
    forall k | 0 <= k < |steps| && (steps[k].ReadStdout? || steps[k].ReadStderr?) ensures CloseStdin in steps[..k] {
      assert c < k;
      assert steps[..k][c] == CloseStdin;
    }
  }

  datatype Transport = Transport(plasmdPath: string)
  {
    /** `plasmd run --quiet <wasm>`, both paths quoted, standard error
        merged into standard output. */
    function Command(wasmPath: string): string
    {
      EscapeShellArg(plasmdPath) + " run --quiet " + EscapeShellArg(wasmPath) + " 2>&1"
    }

    /** The shell reads the first word of the command as the tool's path,
        exactly, and the module path as the word after `run --quiet`. */
    lemma CommandWords(wasmPath: string)
      ensures ReadWord(Command(wasmPath), false, "")
                == Some((plasmdPath, " run --quiet " + EscapeShellArg(wasmPath) + " 2>&1"))
      ensures ReadWord(EscapeShellArg(wasmPath) + " 2>&1", false, "") == Some((wasmPath, " 2>&1"))
    {
      var tail := " run --quiet " + EscapeShellArg(wasmPath) + " 2>&1";
      assert Command(wasmPath) == EscapeShellArg(plasmdPath) + tail;
      EscapeShellArgReadBack(plasmdPath, tail);
      EscapeShellArgReadBack(wasmPath, " 2>&1");
    }

    /** `execute`, with the subprocess given as `proc` and the clocks as
        `wallTimeMs` and `now`: the returned result carries the extracted
        module output, the error pipe as captured and a mock receipt for the
        manifest's hash and the exit status. */
    method Execute(wasmPath: string, manifest: SdkManifest.Manifest, input: Option<string>,
                   proc: Process, wallTimeMs: int, now: int)
      returns (r: Result<SdkResult.Result, Thrown>, steps: seq<PipeStep>)
      ensures |steps| > 0 && steps[0] == Open(Command(wasmPath))
      ensures !proc.started ==> r == Err(RuntimeException(START_FAILED)) && steps == [Open(Command(wasmPath))]
      ensures proc.started ==> r.Ok?
      ensures proc.started ==>
                && r.value.stdout == ExtractedText(proc.output)
                && r.value.stderr == proc.errors
                && r.value.receipt == SdkReceipt.CreateMock(manifest.moduleHash, proc.exitStatus, wallTimeMs, now)
      ensures proc.started ==> steps == StartedSteps(Command(wasmPath), input)
    {
      steps := [Open(Command(wasmPath))];
      if !proc.started {
        return Err(RuntimeException(START_FAILED)), steps;
      }
      if input.Some? {
        steps := steps + [WriteStdin(input.value)];
      }
      ghost var begun := steps;
      assert begun == [Open(Command(wasmPath))] + (if input.Some? then [WriteStdin(input.value)] else []);
      steps := steps + [CloseStdin];
      steps := steps + [ReadStdout];
      var stdout := proc.output;
      steps := steps + [ReadStderr];
      var stderr := proc.errors;
      steps := steps + [CloseStdout, CloseStderr];
      steps := steps + [CloseProcess];
      assert steps == begun + [CloseStdin, ReadStdout, ReadStderr, CloseStdout, CloseStderr, CloseProcess];
      assert steps == StartedSteps(Command(wasmPath), input);
      var exitCode := proc.exitStatus;
      var receipt := SdkReceipt.CreateMock(manifest.moduleHash, exitCode, wallTimeMs, now);
      var actualStdout := ExtractWasmOutput(stdout);
      r := Ok(SdkResult.Result(actualStdout, stderr, receipt));
    }
  }

  /** A successful run reports success exactly when the tool exited with
      status 0, and its receipt is the local-execution mock. */
  lemma ExecutedReceiptIsLocal(moduleHash: string, proc: Process, wallTimeMs: int, now: int)
    ensures var res := SdkResult.Result(ExtractedText(proc.output), proc.errors,
                                         SdkReceipt.CreateMock(moduleHash, proc.exitStatus, wallTimeMs, now));
            && (res.IsSuccess() <==> proc.exitStatus == 0)
            && SdkReceipt.Verify(res.receipt, None) == Ok(true)
  {
  }
}
