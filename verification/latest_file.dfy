/** `find_latest_file` and the title taken from its result.

    The folder listing is given as a sequence of entries in the order the
    directory listing returns them; each carries the entry's name, whether it
    is a regular file and its creation time. */
module LatestFile {
  import opened Text

  datatype FileEntry = FileEntry(name: string, isFile: bool, ctime: int)

  const WebmExt: string := ".webm"
  const M4aExt: string := ".m4a"

  /** The lower-cased name ends in `.webm` or `.m4a`. */
  predicate HasAudioExtension(name: string)
  {
    EndsWith(Lower(name), WebmExt) || EndsWith(Lower(name), M4aExt)
  }

  predicate Qualifies(e: FileEntry)
  {
    e.isFile && HasAudioExtension(e.name)
  }

  /** Index of the element `max(filter(ok, xs), key=key)` returns. `max` scans
      from the left and only replaces its candidate on a strictly larger key,
      so of several elements with the largest key the first one wins. */
  function MaxIndex<T>(xs: seq<T>, ok: T -> bool, key: T -> int): (r: Option<nat>)
    ensures r.Some? ==> r.value < |xs| && ok(xs[r.value])
  {
    if xs == [] then None
    else
      var n := |xs| - 1;
      var prev := MaxIndex(xs[..n], ok, key);
      if !ok(xs[n]) then prev
      else if prev.None? || key(xs[n]) > key(xs[prev.value]) then Some(n)
      else prev
  }

  /** MaxIndex finds nothing exactly when no element is `ok`; otherwise it
      points at an `ok` element with the largest key, and every `ok` element
      before it has a strictly smaller key. */
  lemma {:induction false} MaxIndexSpec<T>(xs: seq<T>, ok: T -> bool, key: T -> int)
    ensures MaxIndex(xs, ok, key).None? <==> forall j :: 0 <= j < |xs| ==> !ok(xs[j])
    ensures MaxIndex(xs, ok, key).Some? ==>
              var i := MaxIndex(xs, ok, key).value;
              && ok(xs[i])
              && (forall j :: 0 <= j < |xs| && ok(xs[j]) ==> key(xs[j]) <= key(xs[i]))
              && (forall j :: 0 <= j < i && ok(xs[j]) ==> key(xs[j]) < key(xs[i]))
  {
    if xs != [] {
      var n := |xs| - 1;
      var init := xs[..n];
      MaxIndexSpec(init, ok, key);
      assert forall j :: 0 <= j < n ==> init[j] == xs[j];
    }
  }

  /** The extension test ignores case: a name qualifies exactly when its
      lower-cased form does, and a directory never qualifies. */
  lemma QualifiesIgnoresCase(e: FileEntry)
    ensures Qualifies(e) <==> Qualifies(FileEntry(Lower(e.name), e.isFile, e.ctime))
    ensures !e.isFile ==> !Qualifies(e)
  {
    LowerIdempotent(e.name);
  }

  function CTime(e: FileEntry): int
  {
    e.ctime
  }

  /** None when no regular file has an audio extension; otherwise a
      qualifying entry whose creation time is the latest. */
  function FindLatestFile(entries: seq<FileEntry>): (r: Option<FileEntry>)
    ensures r.None? <==> forall e :: e in entries ==> !Qualifies(e)
    ensures r.Some? ==>
              && r.value in entries && Qualifies(r.value)
              && forall e :: e in entries && Qualifies(e) ==> e.ctime <= r.value.ctime
  {
    MaxIndexSpec(entries, Qualifies, CTime);
    match MaxIndex(entries, Qualifies, CTime)
    case None => None
    case Some(i) => Some(entries[i])
  }

  /** The entry found is the first qualifying one with the latest time. */
  lemma FindLatestFileIsFirstLatest(entries: seq<FileEntry>)
    requires FindLatestFile(entries).Some?
    ensures exists i :: 0 <= i < |entries| && entries[i] == FindLatestFile(entries).value
              && forall j :: 0 <= j < i && Qualifies(entries[j]) ==>
                   entries[j].ctime < entries[i].ctime
  {
    MaxIndexSpec(entries, Qualifies, CTime);
    var i := MaxIndex(entries, Qualifies, CTime).value;
    assert entries[i] == FindLatestFile(entries).value;
  }

  // ---------------------------------------------------------------------------
  // The title: `os.path.splitext(os.path.basename(path))[0]`

  /** Index of the last `.` in `s`. */
  function LastDot(s: string): (r: Option<nat>)
    ensures r.None? <==> forall i :: 0 <= i < |s| ==> s[i] != '.'
    ensures r.Some? ==> r.value < |s| && s[r.value] == '.'
                        && forall i :: r.value < i < |s| ==> s[i] != '.'
  {
    if s == [] then None
    else if s[|s| - 1] == '.' then Some(|s| - 1)
    else LastDot(s[..|s| - 1])
  }

  /** Root of `splitext` on a base name: everything before the last dot,
      unless only dots precede it (a leading-dot name has no extension). */
  function SplitExtRoot(name: string): (root: string)
    ensures root <= name
    ensures root != name ==>
              && name[|root|] == '.'
              && (forall i :: |root| < i < |name| ==> name[i] != '.')
              && exists i :: 0 <= i < |root| && root[i] != '.'
    ensures root == name <==>
              LastDot(name).None? || forall i :: 0 <= i < LastDot(name).value ==> name[i] == '.'
  {
    match LastDot(name)
    case None => name
    case Some(d) =>
      if exists i :: 0 <= i < d && name[i] != '.' then name[..d] else name
  }

  /** The title of a downloaded `<title>.webm` or `<title>.m4a` is `<title>`
      when the title is not made of dots alone. */
  lemma SplitExtRootOfAudioFile(title: string, ext: string)
    requires Lower(ext) == WebmExt || Lower(ext) == M4aExt
    requires exists i :: 0 <= i < |title| && title[i] != '.'
    ensures HasAudioExtension(title + ext)
    ensures SplitExtRoot(title + ext) == title
  {
    var name := title + ext;
    assert name[..|title|] == title;
    assert ext[0] == '.' && name[|title|] == '.' by {
      assert Lower(ext)[0] == '.';
    }
    forall i | |title| < i < |name| ensures name[i] != '.' {
      assert ToLower(ext[i - |title|]) == Lower(ext)[i - |title|] != '.';
    }
    assert LastDot(name) == Some(|title|);
    assert Lower(name)[|name| - |ext|..] == Lower(ext);
  }
}
