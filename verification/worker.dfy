/** `worker_thread` and `convert_to_mp3`: download, pick the newest audio file
    of the folder, and convert it to an MP3 named after its sanitised title.

    What the conversion library does with the file is outside the model: its
    outcome (success, or the text of the exception it raised) is an input, and
    so are the folder listing after the download and the downloader's run. */
module Worker {
  import opened Text
  import opened Sanitize
  import opened Messages
  import opened Download
  import opened LatestFile

  /** How the conversion ended: the MP3 was written and the source removed, or
      one of those steps raised. */
  datatype ConversionOutcome = Converted | ConversionFailed(error: string)

  const Mp3Ext: string := ".mp3"
  const ConvertingText: string := "Converting audio to MP3..."
  const ConvertedText: string := "\U{2705} Converted to MP3: "
  const ConversionFailedText: string := "\U{274C} Conversion failed: "
  const AbortedText: string := "\U{274C} Download failed. Operation aborted."
  const NoAudioFileText: string := "\U{274C} No valid audio file found for conversion."

  /** `os.path.join(folder, name)` for a name that is not absolute, with the
      POSIX separator: a separator is inserted unless the folder is empty or
      already ends with one. */
  function JoinPath(folder: string, name: string): (r: string)
    requires name == [] || name[0] != '/'
    ensures r == folder + name || r == folder + "/" + name
    ensures r == folder + name <==> folder == [] || folder[|folder| - 1] == '/'
  {
    if folder == [] || folder[|folder| - 1] == '/' then folder + name else folder + "/" + name
  }

  /** The name of the MP3 written for a title. */
  function Mp3Name(title: string): string
  {
    SanitizeFilename(title) + Mp3Ext
  }

  /** Where the MP3 for a title goes. */
  function Mp3Path(folder: string, title: string): string
  {
    Mp3NameSafe(title);
    JoinPath(folder, Mp3Name(title))
  }

  /** Everything `convert_to_mp3` puts on the queue. */
  function ConversionMessages(folder: string, title: string, outcome: ConversionOutcome): seq<Message>
  {
    [Log(ConvertingText)] + match outcome {
      case Converted => [Log(ConvertedText + Mp3Path(folder, title))]
      case ConversionFailed(e) => [Log(ConversionFailedText + e)]
    }
  }

  /** The title `worker_thread` derives from the file it found. */
  function TitleOf(file: FileEntry): string
  {
    SplitExtRoot(file.name)
  }

  /** Everything `worker_thread` puts on the queue after the download's own
      messages. */
  function AfterDownloadMessages(folder: string, run: ProcessRun, entries: seq<FileEntry>,
                                 outcome: ConversionOutcome): seq<Message>
  {
    if !DownloadSucceeded(run) then [Log(AbortedText)]
    else match FindLatestFile(entries) {
      case None => [Log(NoAudioFileText)]
      case Some(file) => ConversionMessages(folder, TitleOf(file), outcome)
    }
  }

  /** Everything `worker_thread` puts on the queue. */
  function WorkerMessages(folder: string, run: ProcessRun, entries: seq<FileEntry>,
                          outcome: ConversionOutcome): seq<Message>
  {
    DownloadMessages(run) + AfterDownloadMessages(folder, run, entries, outcome)
  }

  /** Announces the conversion, then reports the MP3's path or the error. */
  method ConvertToMp3(q: MessageQueue, folder: string, title: string, outcome: ConversionOutcome)
    modifies q
    ensures q.items == old(q.items) + ConversionMessages(folder, title, outcome)
  {
    var path := Mp3Path(folder, title);
    q.Put(Log(ConvertingText));
    match outcome {
      case Converted =>
        q.Put(Log(ConvertedText + path));
        AppendAssoc(old(q.items), [Log(ConvertingText)], [Log(ConvertedText + path)]);
      case ConversionFailed(e) =>
        q.Put(Log(ConversionFailedText + e));
        AppendAssoc(old(q.items), [Log(ConvertingText)], [Log(ConversionFailedText + e)]);
    }
  }

  /** Downloads, then converts the newest audio file of the folder; stops with
      a message when the download failed or no audio file is there. `entries`
      is the folder's listing once the download has finished. */
  method WorkerThread(q: MessageQueue, folder: string, run: ProcessRun, entries: seq<FileEntry>,
                      outcome: ConversionOutcome)
    modifies q
    ensures q.items == old(q.items) + WorkerMessages(folder, run, entries, outcome)
  {
    var success := DownloadAudio(q, run);
    if !success {
      q.Put(Log(AbortedText));
    } else {
      var latest := FindLatestFile(entries);
      match latest {
        case None =>
          q.Put(Log(NoAudioFileText));
        case Some(file) =>
          var title := SplitExtRoot(file.name);
          ConvertToMp3(q, folder, title, outcome);
      }
    }
    AppendAssoc(old(q.items), DownloadMessages(run), AfterDownloadMessages(folder, run, entries, outcome));
  }

  // ---------------------------------------------------------------------------
  // Properties

  /** The MP3's name is the title kept to letters, digits, spaces, `_` and `-`,
      with trailing whitespace dropped, plus `.mp3`; it holds no separator. */
  lemma Mp3NameSafe(title: string)
    ensures var name := Mp3Name(title);
            && (forall i :: 0 <= i < |name| ==> name[i] != '/')
            && EndsWith(name, Mp3Ext)
            && name[..|name| - |Mp3Ext|] == SanitizeFilename(title)
  {
    var base := SanitizeFilename(title);
    var name := base + Mp3Ext;
    forall i | 0 <= i < |name| ensures name[i] != '/' {
      if i < |base| {
        assert Allowed(base[i]);
      } else {
        assert name[i] == Mp3Ext[i - |base|];
      }
    }
    assert name[|base|..] == Mp3Ext;
    assert name[..|base|] == base;
  }

  /** Joining puts `name` at the end, after the folder and at most one added
      separator. */
  lemma JoinPathEndsWithName(folder: string, name: string)
    requires name == [] || name[0] != '/'
    ensures var path := JoinPath(folder, name);
            && |path| >= |name|
            && path[|path| - |name|..] == name
            && (path[..|path| - |name|] == folder || path[..|path| - |name|] == folder + "/")
  {
    var path := JoinPath(folder, name);
    if path == folder + name {
      assert path[..|folder|] == folder;
      assert path[|folder|..] == name;
    } else {
      assert path == (folder + "/") + name;
      assert path[..|folder| + 1] == folder + "/";
      assert path[|folder| + 1..] == name;
    }
  }

  /** The MP3 lands directly in the chosen folder, under its sanitised name. */
  lemma Mp3PathInFolder(folder: string, title: string)
    ensures var path := Mp3Path(folder, title);
            var name := Mp3Name(title);
            && |path| >= |name|
            && path[|path| - |name|..] == name
            && (path[..|path| - |name|] == folder || path[..|path| - |name|] == folder + "/")
            && (forall i :: 0 <= i < |name| ==> name[i] != '/')
            && EndsWith(name, Mp3Ext)
  {
    Mp3NameSafe(title);
    JoinPathEndsWithName(folder, Mp3Name(title));
  }

  /** The closing texts differ from one another, whatever follows the
      conversion's prefixes. */
  lemma ClosingTextsDistinct(s: string)
    ensures AbortedText != NoAudioFileText
    ensures ConvertedText + s != AbortedText && ConvertedText + s != NoAudioFileText
    ensures ConversionFailedText + s != AbortedText && ConversionFailedText + s != NoAudioFileText
  {
    assert AbortedText[2] != NoAudioFileText[2];
    assert (ConvertedText + s)[0] == ConvertedText[0];
    assert (ConversionFailedText + s)[2] == ConversionFailedText[2];
  }

  /** The last message of a worker run is the last one put after the download. */
  lemma LastWorkerMessage(folder: string, run: ProcessRun, entries: seq<FileEntry>, outcome: ConversionOutcome)
    ensures var msgs := WorkerMessages(folder, run, entries, outcome);
            var tail := AfterDownloadMessages(folder, run, entries, outcome);
            msgs[|msgs| - 1] == tail[|tail| - 1]
  {
  }

  /** The last message of a worker run says how it ended: aborted exactly when
      the download failed, no file exactly when it succeeded but the folder
      holds no audio file, otherwise the conversion's result for the newest
      audio file. */
  lemma WorkerOutcome(folder: string, run: ProcessRun, entries: seq<FileEntry>, outcome: ConversionOutcome)
    ensures var msgs := WorkerMessages(folder, run, entries, outcome);
            var last := msgs[|msgs| - 1];
            && (last == Log(AbortedText) <==> !DownloadSucceeded(run))
            && (last == Log(NoAudioFileText) <==>
                  DownloadSucceeded(run) && forall e :: e in entries ==> !Qualifies(e))
            && (DownloadSucceeded(run) && FindLatestFile(entries).Some? ==>
                  var file := FindLatestFile(entries).value;
                  && file in entries && Qualifies(file)
                  && (forall e :: e in entries && Qualifies(e) ==> e.ctime <= file.ctime)
                  && last == match outcome {
                       case Converted => Log(ConvertedText + Mp3Path(folder, TitleOf(file)))
                       case ConversionFailed(err) => Log(ConversionFailedText + err)
                     })
  {
    LastWorkerMessage(folder, run, entries, outcome);
    if DownloadSucceeded(run) && FindLatestFile(entries).Some? {
      var file := FindLatestFile(entries).value;
      match outcome {
        case Converted => ClosingTextsDistinct(Mp3Path(folder, TitleOf(file)));
        case ConversionFailed(err) => ClosingTextsDistinct(err);
      }
    } else {
      ClosingTextsDistinct([]);
    }
  }

  /** The conversion is attempted, that is announced, exactly when the
      download succeeded and the folder holds an audio file. */
  lemma ConversionAttemptedIff(folder: string, run: ProcessRun, entries: seq<FileEntry>, outcome: ConversionOutcome)
    ensures AfterDownloadMessages(folder, run, entries, outcome)[0] == Log(ConvertingText) <==>
              DownloadSucceeded(run) && exists e :: e in entries && Qualifies(e)
  {
    assert ConvertingText[0] != AbortedText[0];
    assert ConvertingText[0] != NoAudioFileText[0];
  }

  /** A successful download of `My Song` as `My Song.webm` into `/music` ends
      with the MP3 `/music/My Song.mp3`. */
  lemma ConvertsDownloadedSong()
    ensures var msgs := WorkerMessages("/music", Finished([], 0), [FileEntry("My Song.webm", true, 5)], Converted);
            msgs[|msgs| - 1] == Log(ConvertedText + "/music/My Song.mp3")
  {
    var file := FileEntry("My Song.webm", true, 5);
    SongTitle();
    SongMp3Path();
    LastWorkerMessage("/music", Finished([], 0), [file], Converted);
    assert FindLatestFile([file]) == Some(file);
  }

  lemma SongTitle()
    ensures TitleOf(FileEntry("My Song.webm", true, 5)) == "My Song"
    ensures Qualifies(FileEntry("My Song.webm", true, 5))
  {
    assert "My Song"[0] != '.';
    SplitExtRootOfAudioFile("My Song", WebmExt);
    assert "My Song" + WebmExt == "My Song.webm";
  }

  lemma SongMp3Path()
    ensures Mp3Path("/music", "My Song") == "/music/My Song.mp3"
  {
    SanitizeSong();
    assert Mp3Name("My Song") == "My Song.mp3";
  }

  lemma SanitizeSong()
    ensures SanitizeFilename("My Song") == "My Song"
  {
    var title := "My Song";
    assert forall i :: 0 <= i < |title| ==> Allowed(title[i]);
    KeepAllowedOfAllowed(title);
    assert TrailStart(title, |title|) == |title|;
    assert title[..|title|] == title;
  }
}
