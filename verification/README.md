# ytdownloader: a verified model of the downloader's logic

`ytdownloader.py` is a small desktop tool. You paste or drop a YouTube link and pick a folder. The tool then works in four steps:

1. It runs `yt-dlp` on a worker thread and streams the downloader's output into a message queue.
2. It picks the newest `.webm`/`.m4a` file of the folder.
3. It converts that file to an MP3 named after the sanitised title.
4. A polling callback on the UI thread drains the queue. Log lines go to the status box and progress values go to the progress bar.

This project models the deterministic part of that tool in Dafny and proves what it does:

- the filename sanitiser;
- the link validator, as a hand-written recogniser for its regular expression;
- the progress-line parser;
- the streaming loop and the exit-code check of the download;
- the newest-file choice and the title taken from it;
- the worker's sequencing of download, file choice and conversion, with every message it queues;
- the text handling of a drop;
- the queue-draining loop.

The program's shared state is modelled as classes whose methods update fields in place:

- `Messages.MessageQueue` holds the queue's items as a sequence.
- `StatusWindow.Window` holds the status text and the progress value.

The loops over the downloader's output and over the queue are methods with loop invariants. The worker's own steps are straight-line methods. Each method is proved against a specification function: `Download.DownloadMessages` for the download loop, `Messages.LogTexts`/`Lines`/`LastProgress` for the draining loop, and `Worker.WorkerMessages`/`ConversionMessages` for the worker. Lemmas then prove what those functions promise.

Modules, one per file:

| file | module | models |
|---|---|---|
| text.dfy | Text | the character classes used (`str.isspace`, ASCII `isalnum`/`\d`/`lower`), `strip`, `rstrip`, `str(int)` |
| sanitize.dfy | Sanitize | `sanitize_filename` |
| youtube_url.dfy | YoutubeUrl | `is_valid_youtube_url` |
| progress_line.dfy | ProgressLine | the `[download]` progress pattern |
| messages.dfy | Messages | the message queue and what a sequence of messages does to the window |
| download.dfy | Download | `download_youtube_audio` |
| latest_file.dfy | LatestFile | `find_latest_file` and `splitext(basename(...))[0]` |
| worker.dfy | Worker | `worker_thread` and `convert_to_mp3` |
| drop.dfy | Drop | the string handling of `on_drop` |
| status_window.dfy | StatusWindow | the draining loop of `process_queue` |

Conventions of the model:

- Progress values are whole tenths of a percent, so `42.5` is `425`.
- Creation times are integers.
- A folder listing is a sequence of `(name, isFile, ctime)` records, in the order the listing returns them.
- What the downloader does is an input of type `Download.ProcessRun`. It holds the lines the downloader printed, then either the exception raised (on start or while reading) or the exit code.
- The conversion's result is an input of type `Worker.ConversionOutcome`: success, or the text of the exception.

## Model

| member | source | states |
|---|---|---|
| Sanitize.SanitizeFilename | ytdownloader.py:13-14 | every character of the result is an ASCII letter or digit, a space, `_` or `-`; the result does not end in whitespace; it is a subsequence of the input |
| Sanitize.KeepAllowed | ytdownloader.py:14 | the filter keeps only allowed characters and keeps them in input order (a subsequence) |
| Sanitize.SanitizeKeepsAllowed | ytdownloader.py:14 | the result is a prefix of the filtered text, and what follows it there is spaces only: nothing allowed is lost except a trailing run of spaces |
| Sanitize.SanitizeIdempotent | ytdownloader.py:14 | sanitising twice gives the same name as sanitising once |
| Text.RStrip | ytdownloader.py:14 | `rstrip()` returns a prefix that does not end in whitespace, and everything it removed is whitespace |
| Text.StripSpec | ytdownloader.py:61 | states `Text.Strip`: `strip()` returns a slice of the line that neither starts nor ends with whitespace, and everything outside the slice is whitespace |
| YoutubeUrl.IsValidYoutubeUrl | ytdownloader.py:16-20 | the recogniser: an accepted link is never shorter than `youtu.be/` plus an 11-character id; `IsValidYoutubeUrlMatchesPattern` states exactly which strings it accepts |
| YoutubeUrl.IsValidYoutubeUrlMatchesPattern | ytdownloader.py:16-20 | the recogniser accepts a string exactly when it splits into an optional `http://`/`https://`, an optional `www.`, `youtube.com/watch?v=` or `youtu.be/`, 11 characters of `[A-Za-z0-9_-]`, then the end or `&` and any text without a newline, with `$` also matching before one final newline |
| YoutubeUrl.AcceptedMatchesPattern | ytdownloader.py:17-20 | every accepted string has the pattern's shape |
| YoutubeUrl.PatternAccepted | ytdownloader.py:17-20 | every string of the pattern's shape is accepted |
| YoutubeUrl.RejectsWrongIdLength | ytdownloader.py:17-20 | a link whose id has any length other than 11 (10 or 12, say), with nothing after it, is refused |
| ProgressLine.MatchAtIff | ytdownloader.py:58 | at one position, the matcher returns `v` exactly when `[download]`, one or more whitespace characters, 1 to 3 digits, `.`, one digit and `%` occur there with number `v` tenths |
| ProgressLine.ParseProgressSpec | ytdownloader.py:58-63 | a line yields no value exactly when the pattern occurs nowhere in it; otherwise the value is the number at the leftmost occurrence |
| ProgressLine.ParseProgress | ytdownloader.py:58-64 | a value, when there is one, is at most 9999 tenths (999.9 %), since nothing caps it at 100 |
| ProgressLine.ParsesTypicalLine | ytdownloader.py:58-64 | the downloader's line `[download]  42.5% of 3.20MiB` yields 425 tenths |
| Download.PutLine | ytdownloader.py:61-65 | one output line puts its stripped text, then its progress value if it has one |
| Download.DownloadAudio | ytdownloader.py:43-76 | the queue gains exactly the announcement, the messages of every output line in order, then the exception's or the bad exit code's message; the result is true exactly when the downloader exited with 0 or 101 |
| Download.LineMessagesSpec | ytdownloader.py:61-65 | states `Download.LineMessages`: a line's messages hold exactly one log text, the stripped line, and set the progress to the line's value, or leave it alone when it has none |
| Download.OutputLogsAreStrippedLines | ytdownloader.py:60-61 | the log texts of the stream are the stripped output lines, one per line, in line order |
| Download.OutputMessagesCount | ytdownloader.py:60-65 | the stream has one message per line plus one per line that reports a percentage, so at most two per line |
| Download.OutputLastProgress | ytdownloader.py:60-65 | after the stream, the progress value is that of the last line that reported one |
| Download.DownloadOutcomeReported | ytdownloader.py:67-76 | states `Download.IsSuccessCode` and the outcome: success is exactly exit code 0 or 101 and adds nothing after the output; a bad exit code or an exception ends the messages with its report |
| Download.SpawnFailureMessages | ytdownloader.py:52-57 | a downloader that cannot be started leaves exactly the announcement and the error, and the download fails |
| LatestFile.MaxIndex | ytdownloader.py:81 | the index `max` picks, when there is one, lies in the list and its item passes the filter; `MaxIndexSpec` states which item it is |
| LatestFile.QualifiesIgnoresCase | ytdownloader.py:80 | states `LatestFile.Qualifies`: the `.webm`/`.m4a` test ignores case, since a name qualifies exactly when its lower-cased form does, and a non-file never qualifies |
| LatestFile.MaxIndexSpec | ytdownloader.py:81 | `max` over the filtered items finds nothing exactly when nothing passes the filter; otherwise it finds an item with the largest key, and every earlier item that passes has a strictly smaller key |
| LatestFile.FindLatestFile | ytdownloader.py:78-81 | None exactly when no regular file's lower-cased name ends in `.webm` or `.m4a`; otherwise a listed, qualifying file with the latest creation time |
| LatestFile.FindLatestFileIsFirstLatest | ytdownloader.py:81 | among qualifying files with equal latest times, the first listed is the one returned |
| LatestFile.LastDot | ytdownloader.py:90 | the position of the last `.` of a name, or None when it has none |
| LatestFile.SplitExtRoot | ytdownloader.py:90 | the root is a prefix of the name; when shorter, a `.` follows it, no later `.` exists, and the root is not made of dots alone; the name is kept whole exactly when it has no `.` or only dots precede its last `.` |
| LatestFile.SplitExtRootOfAudioFile | ytdownloader.py:80-90 | a downloaded `<title>.webm` or `<title>.m4a` qualifies, and its title is recovered as `<title>` |
| Worker.Mp3NameSafe | ytdownloader.py:24-25 | the MP3's name is the sanitised title plus `.mp3` and contains no `/` |
| Worker.JoinPath | ytdownloader.py:26 | `os.path.join` with a relative name adds a `/` between folder and name exactly when the folder is non-empty and does not already end in `/` |
| Worker.JoinPathEndsWithName | ytdownloader.py:26 | the joined path is the folder, at most one added separator, then the name |
| Worker.Mp3PathInFolder | ytdownloader.py:24-26 | the MP3 is written directly in the chosen folder under its sanitised name |
| Worker.ConvertToMp3 | ytdownloader.py:22-41 | the queue gains the conversion announcement, then either the MP3's path or the exception's text |
| Worker.WorkerThread | ytdownloader.py:83-93 | the queue gains the download's messages, then the abort message, the no-file message or the conversion's messages for the newest audio file |
| Worker.WorkerOutcome | ytdownloader.py:84-93 | the last message is the abort exactly when the download failed; it is the no-file message exactly when the download succeeded and no audio file qualifies; otherwise it reports the conversion of a qualifying file with the latest time |
| Worker.ConversionAttemptedIff | ytdownloader.py:84-93 | the conversion starts exactly when the download succeeded and some audio file qualifies |
| Worker.ConvertsDownloadedSong | ytdownloader.py:22-26 | a successful download of `My Song.webm` into `/music` ends with the MP3 `/music/My Song.mp3` |
| Drop.Unwrap | ytdownloader.py:148-149 | one enclosing `{`...`}` pair is removed when both braces are present; otherwise the text is unchanged |
| Drop.FirstToken | ytdownloader.py:150 | `split()[0]` is absent exactly when the text is all whitespace; otherwise it is a whitespace-free token preceded only by whitespace and followed by whitespace or the end |
| Drop.DroppedLink | ytdownloader.py:146-150 | the dropped text yields the first token of its unwrapped form, or none when that is all whitespace |
| Drop.DroppedBareLink | ytdownloader.py:146-150 | a bare link is taken unchanged |
| Drop.DroppedBracedLink | ytdownloader.py:148-150 | a link wrapped in braces is taken without them |
| Drop.DroppedFirstOfMany | ytdownloader.py:150 | of several dropped items the first is taken |
| Messages.MessageQueue.Put | ytdownloader.py:61 | `put` appends the message at the back |
| Messages.MessageQueue.GetNowait | ytdownloader.py:118-120 | `get_nowait` removes and returns the front message, or reports empty and changes nothing |
| Messages.LogTextsHoldsExactlyTheLogs | ytdownloader.py:121-124 | the log receives the text of every non-progress message and nothing else |
| StatusWindow.Window.ProcessQueue | ytdownloader.py:117-127 | the queue ends empty; the status text gains every log text followed by a newline, in FIFO order; the progress value becomes that of the last progress message, or stays when there is none |
| StatusWindow.TwoPollsAsOne | ytdownloader.py:117-130 | draining in two polls, with messages added in between, leaves the window as one drain of everything would |

## Left out

- The Tk window: widgets, styling, dialogs, the enabling and disabling of controls, the folder browser and the 100 ms `root.after` re-polling. This covers `start_download_thread` (ytdownloader.py:95-116), the tail of `process_queue` (129-139), `browse_folder`, the rest of `on_drop` (151-152) and the UI setup. It is UI plumbing with no logic beyond toggles.
- Threads and `threading.active_count()` are not modelled. The model has the worker and the poller take turns on the queue; `StatusWindow.TwoPollsAsOne` states that splitting the drain changes nothing.
- Starting `yt-dlp` and reading its output are not modelled. The printed lines and the exit code, or the exception raised, are inputs (`Download.ProcessRun`). The command line, and the option that makes the downloader stop at exit code 101, belong to the external tool.
- The moviepy transcoding and `os.remove` are not modelled. Their result is the input `Worker.ConversionOutcome`.
- `os.listdir`, `os.path.isfile` and `os.path.getctime` are replaced by the input sequence of `(name, isFile, ctime)` records.
- Worker.WorkerThread and Worker.WorkerOutcome: a listing that raises is not modelled. `find_latest_file` (ytdownloader.py:79-81) runs outside any `try` at ytdownloader.py:88, so if the folder is removed during the download (`os.listdir` raises) or a listed file disappears before `os.path.getctime`, the exception ends `worker_thread` with no closing message on the queue. The model's listing always succeeds, so its promise that the last message is the abort, the no-file or the conversion message holds only for a listing that does.
- The progress bar: its mode changes, start and stop, and the values it is set to inside the worker (ytdownloader.py:29-30, 37, 40, 54-55, 72). The window's bar value set by `process_queue` is modelled.
- Float values: the progress value is an integer number of tenths, not the float `float(match.group(1))`.
- Characters are ASCII for `isalnum`, `\w`, `\d` and `lower()`. Python's Unicode breadth for those is not modelled. `str.isspace` and `\s` use Python's full whitespace set.
- `os.path.join` and `os.path.basename` are modelled with POSIX separators only. Windows drive and backslash rules are left out.
- The text of an exception (`{e}`) is an input string, not derived from an exception object.
- Messages are the two kinds the program puts: text, or a progress tuple. Any other kind of tuple cannot occur in the program and is not modelled.
- Drop.FirstToken: where `split()[0]` raises `IndexError` on an all-whitespace drop, the model returns None. The entry keeps its text either way, because the callback stops before changing it.
