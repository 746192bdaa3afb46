/** `download_youtube_audio` without the process itself: the downloader's
    output lines and exit code are inputs. Every output line becomes one log
    message (the stripped line), followed by a progress message when the line
    reports a percentage. */
module Download {
  import opened Text
  import opened ProgressLine
  import opened Messages

  /** What running the downloader produced: the lines it printed, then either
      an exception (raised when starting the process, `output` then empty, or
      while reading its output) or its exit code. */
  datatype ProcessRun = Raised(output: seq<string>, error: string) | Finished(output: seq<string>, returnCode: int)

  const DownloadingText: string := "Downloading audio from YouTube..."
  const ErrorDuringText: string := "\U{26A0}\U{FE0F} Error during download: "

  function ExitCodeText(code: int): string
  {
    "\U{26A0}\U{FE0F} Download error (code " + IntToString(code) + ")"
  }

  /** Exit code 0 is success, and so is 101, with which the downloader reports
      that it stopped at the `--max-downloads` limit. */
  predicate IsSuccessCode(code: int)
  {
    code == 0 || code == 101
  }

  /** The messages one output line produces. */
  function LineMessages(line: string): seq<Message>
  {
    [Log(Strip(line))] + match ParseProgress(line) {
      case Some(v) => [ProgressUpdate(v)]
      case None => []
    }
  }

  function OutputMessages(lines: seq<string>): seq<Message>
  {
    if lines == [] then [] else OutputMessages(lines[..|lines| - 1]) + LineMessages(lines[|lines| - 1])
  }

  /** Everything the download step puts on the queue. */
  function DownloadMessages(run: ProcessRun): seq<Message>
  {
    [Log(DownloadingText)] + (OutputMessages(run.output) + OutcomeMessages(run))
  }

  /** What is put after the output: the exception, or the exit code unless it
      is a success code. */
  function OutcomeMessages(run: ProcessRun): seq<Message>
  {
    match run
    case Raised(_, e) => [Log(ErrorDuringText + e)]
    case Finished(_, code) => if IsSuccessCode(code) then [] else [Log(ExitCodeText(code))]
  }

  predicate DownloadSucceeded(run: ProcessRun)
  {
    run.Finished? && IsSuccessCode(run.returnCode)
  }

  /** The body of the loop over the downloader's output. */
  method PutLine(q: MessageQueue, line: string)
    modifies q
    ensures q.items == old(q.items) + LineMessages(line)
  {
    var text := Strip(line);
    var progress := ParseProgress(line);
    q.Put(Log(text));
    match progress {
      case Some(v) =>
        q.Put(ProgressUpdate(v));
        AppendAssoc(old(q.items), [Log(text)], [ProgressUpdate(v)]);
      case None =>
        assert [Log(text)] + [] == [Log(text)];
    }
  }

  /** Streams the output into the queue, then classifies the exit code. */
  method DownloadAudio(q: MessageQueue, run: ProcessRun) returns (ok: bool)
    modifies q
    ensures q.items == old(q.items) + DownloadMessages(run)
    ensures ok == DownloadSucceeded(run)
  {
    q.Put(Log(DownloadingText));
    ghost var start := q.items;
    var lines := run.output;
    var i := 0;
    while i < |lines|
      invariant 0 <= i <= |lines|
      invariant q.items == start + OutputMessages(lines[..i])
    {
      PutLine(q, lines[i]);
      OutputMessagesSnoc(lines, i);
      AppendAssoc(start, OutputMessages(lines[..i]), LineMessages(lines[i]));
      i := i + 1;
    }
    assert lines[..i] == lines;
    match run {
      case Raised(_, e) =>
        q.Put(Log(ErrorDuringText + e));
        ok := false;
      case Finished(_, code) =>
        if IsSuccessCode(code) {
          assert q.items == q.items + [];
          ok := true;
        } else {
          q.Put(Log(ExitCodeText(code)));
          ok := false;
        }
    }
    AppendAssoc(start, OutputMessages(lines), OutcomeMessages(run));
    AppendAssoc(old(q.items), [Log(DownloadingText)], OutputMessages(lines) + OutcomeMessages(run));
  }

  /** The stream of the first `i + 1` lines extends that of the first `i`. */
  lemma OutputMessagesSnoc(lines: seq<string>, i: nat)
    requires i < |lines|
    ensures OutputMessages(lines[..i + 1]) == OutputMessages(lines[..i]) + LineMessages(lines[i])
  {
    assert lines[..i + 1][..i] == lines[..i];
  }

  // ---------------------------------------------------------------------------
  // Properties of the stream

  /** The messages of one line: its stripped text, then its percentage if it
      reports one. */
  lemma LineMessagesSpec(line: string, current: nat)
    ensures LogTexts(LineMessages(line)) == [Strip(line)]
    ensures LastProgress(LineMessages(line), current) ==
              match ParseProgress(line) { case Some(v) => v case None => current }
  {
    var log := Log(Strip(line));
    assert [log][..0] == [];
    match ParseProgress(line) {
      case Some(v) =>
        var two := [log, ProgressUpdate(v)];
        assert LineMessages(line) == two;
        assert two[..1] == [log];
      case None =>
        assert LineMessages(line) == [log];
    }
  }

  /** One log message per output line, in line order, each the stripped line. */
  lemma {:induction false} OutputLogsAreStrippedLines(lines: seq<string>)
    ensures |LogTexts(OutputMessages(lines))| == |lines|
    ensures forall i :: 0 <= i < |lines| ==> LogTexts(OutputMessages(lines))[i] == Strip(lines[i])
  {
    if lines != [] {
      var n := |lines| - 1;
      OutputLogsAreStrippedLines(lines[..n]);
      var prev := LogTexts(OutputMessages(lines[..n]));
      LogTextsAppend(OutputMessages(lines[..n]), LineMessages(lines[n]));
      LineMessagesSpec(lines[n], 0);
      assert LogTexts(OutputMessages(lines)) == prev + [Strip(lines[n])];
      forall i | 0 <= i < n ensures prev[i] == Strip(lines[i]) {
        assert lines[..n][i] == lines[i];
      }
    }
  }

  /** Number of output lines that report a percentage. */
  function ProgressLineCount(lines: seq<string>): (n: nat)
    ensures n <= |lines|
  {
    if lines == [] then 0
    else ProgressLineCount(lines[..|lines| - 1]) + if ParseProgress(lines[|lines| - 1]).Some? then 1 else 0
  }

  /** The stream holds one message per line plus one per line that reports a
      percentage, so never more than two per line. */
  lemma {:induction false} OutputMessagesCount(lines: seq<string>)
    ensures |OutputMessages(lines)| == |lines| + ProgressLineCount(lines)
    ensures |OutputMessages(lines)| <= 2 * |lines|
  {
    if lines != [] {
      OutputMessagesCount(lines[..|lines| - 1]);
    }
  }

  /** The value of the last line that reports a percentage, or `current`. */
  function LastReported(lines: seq<string>, current: nat): nat
  {
    if lines == [] then current
    else match ParseProgress(lines[|lines| - 1])
      case Some(v) => v
      case None => LastReported(lines[..|lines| - 1], current)
  }

  /** Once the stream is drained, the bar shows the percentage of the last line
      that reported one. */
  lemma {:induction false} OutputLastProgress(lines: seq<string>, current: nat)
    ensures LastProgress(OutputMessages(lines), current) == LastReported(lines, current)
  {
    if lines != [] {
      var n := |lines| - 1;
      OutputLastProgress(lines[..n], current);
      var prefix := OutputMessages(lines[..n]);
      LastProgressAppend(prefix, LineMessages(lines[n]), current);
      LineMessagesSpec(lines[n], LastProgress(prefix, current));
    }
  }

  /** The download succeeds exactly when the downloader exited with 0 or 101;
      a success adds nothing after the output, a failure ends the messages
      with its reason. */
  lemma DownloadOutcomeReported(run: ProcessRun)
    ensures DownloadSucceeded(run) <==> run.Finished? && (run.returnCode == 0 || run.returnCode == 101)
    ensures DownloadSucceeded(run) ==>
              DownloadMessages(run) == [Log(DownloadingText)] + OutputMessages(run.output)
    ensures run.Raised? ==>
              DownloadMessages(run)[|DownloadMessages(run)| - 1] == Log(ErrorDuringText + run.error)
    ensures run.Finished? && !DownloadSucceeded(run) ==>
              DownloadMessages(run)[|DownloadMessages(run)| - 1] == Log(ExitCodeText(run.returnCode))
  {
    if DownloadSucceeded(run) {
      assert OutputMessages(run.output) + [] == OutputMessages(run.output);
    }
  }

  /** An exception raised when starting the downloader leaves exactly two
      messages: the announcement and the error. */
  lemma SpawnFailureMessages(error: string)
    ensures DownloadMessages(Raised([], error)) == [Log(DownloadingText), Log(ErrorDuringText + error)]
    ensures !DownloadSucceeded(Raised([], error))
  {
  }
}
