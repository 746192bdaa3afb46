/** `is_valid_youtube_url`: an anchored pattern match, written out as a
    recogniser that strips the optional scheme, the optional `www.`, one of the
    two path markers, then checks the 11-character video id and what follows.

    The pattern is matched with Python's `re.match` and ends in `$`, which in
    Python also matches just before a newline that ends the string; `.` matches
    any character except a newline. `\w` is taken as ASCII `[A-Za-z0-9_]`. */
module YoutubeUrl {
  import opened Text

  const Https: string := "https://"
  const Http: string := "http://"
  const Www: string := "www."
  const WatchMarker: string := "youtube.com/watch?v="
  const ShortMarker: string := "youtu.be/"
  const IdLength: nat := 11

  /** A character of `[\w\-]`. */
  predicate IsIdChar(c: char)
  {
    IsAlnum(c) || c == '_' || c == '-'
  }

  predicate NoNewline(s: string)
  {
    forall i :: 0 <= i < |s| ==> s[i] != '\n'
  }

  // ---------------------------------------------------------------------------
  // The recogniser

  function AfterScheme(s: string): string
  {
    if Https <= s then s[|Https|..] else if Http <= s then s[|Http|..] else s
  }

  function AfterWww(s: string): string
  {
    if Www <= s then s[|Www|..] else s
  }

  function AfterMarker(s: string): Option<string>
  {
    if WatchMarker <= s then Some(s[|WatchMarker|..])
    else if ShortMarker <= s then Some(s[|ShortMarker|..])
    else None
  }

  /** `(&.*)?$` on what follows the video id. */
  predicate TailOk(t: string)
  {
    || t == []
    || t == "\n"
    || (t[0] == '&' && NoNewline(if t[|t| - 1] == '\n' then t[1..|t| - 1] else t[1..]))
  }

  /** An accepted link is at least as long as `youtu.be/` and an id. */
  predicate IsValidYoutubeUrl(url: string)
    ensures IsValidYoutubeUrl(url) ==> |url| >= |ShortMarker| + IdLength
  {
    match AfterMarker(AfterWww(AfterScheme(url)))
    case None => false
    case Some(rest) =>
      && |rest| >= IdLength
      && (forall i :: 0 <= i < IdLength ==> IsIdChar(rest[i]))
      && TailOk(rest[IdLength..])
  }

  // ---------------------------------------------------------------------------
  // The pattern, as a language: every string that splits into its five parts

  predicate IsScheme(s: string) { s == [] || s == Http || s == Https }

  predicate IsWww(s: string) { s == [] || s == Www }

  predicate IsMarker(s: string) { s == WatchMarker || s == ShortMarker }

  predicate IsVideoId(s: string)
  {
    |s| == IdLength && forall i :: 0 <= i < |s| ==> IsIdChar(s[i])
  }

  /** Where `$` may match: the end, or before a final newline. */
  predicate IsEnd(e: string) { e == [] || e == "\n" }

  ghost predicate IsTail(t: string)
  {
    || IsEnd(t)
    || exists rest, e :: IsEnd(e) && NoNewline(rest) && t == "&" + rest + e
  }

  ghost predicate SplitsInto(url: string, scheme: string, www: string, marker: string, id: string, tail: string)
  {
    && IsScheme(scheme) && IsWww(www) && IsMarker(marker) && IsVideoId(id) && IsTail(tail)
    && url == scheme + www + marker + id + tail
  }

  ghost predicate MatchesPattern(url: string)
  {
    exists scheme, www, marker, id, tail :: SplitsInto(url, scheme, www, marker, id, tail)
  }

  // ---------------------------------------------------------------------------
  // The recogniser accepts exactly the pattern's language

  /** The three prefix strippers take apart a string built from the pattern's
      parts. No backtracking is needed: each optional part starts with a
      character the part after it cannot start with. */
  lemma AfterSchemeOf(scheme: string, s: string)
    requires IsScheme(scheme) && |s| > 0 && s[0] != 'h'
    ensures AfterScheme(scheme + s) == s
  {
    if scheme == [] {
      assert scheme + s == s;
      assert s[0] != Https[0] && s[0] != Http[0];
    } else if scheme == Http {
      assert (scheme + s)[4] != Https[4];
    }
    assert (scheme + s)[|scheme|..] == s;
  }

  lemma AfterWwwOf(www: string, s: string)
    requires IsWww(www) && |s| > 0 && s[0] != 'w'
    ensures AfterWww(www + s) == s
  {
    if www == [] {
      assert www + s == s;
      assert s[0] != Www[0];
    }
    assert (www + s)[|www|..] == s;
  }

  lemma AfterMarkerOf(marker: string, s: string)
    requires IsMarker(marker)
    ensures AfterMarker(marker + s) == Some(s)
  {
    if marker == ShortMarker {
      assert (marker + s)[5] != WatchMarker[5];
    }
    assert (marker + s)[|marker|..] == s;
  }

  lemma StripParts(scheme: string, www: string, marker: string, rest: string)
    requires IsScheme(scheme) && IsWww(www) && IsMarker(marker)
    ensures AfterMarker(AfterWww(AfterScheme(scheme + www + marker + rest))) == Some(rest)
  {
    var afterScheme := www + (marker + rest);
    AppendAssoc(scheme + www, marker, rest);
    AppendAssoc(scheme, www, marker + rest);
    StripWwwAndMarker(www, marker, rest);
    AfterSchemeOf(scheme, afterScheme);
  }

  lemma StripWwwAndMarker(www: string, marker: string, rest: string)
    requires IsWww(www) && IsMarker(marker)
    ensures |www + (marker + rest)| > 0 && (www + (marker + rest))[0] != 'h'
    ensures AfterMarker(AfterWww(www + (marker + rest))) == Some(rest)
  {
    var afterWww := marker + rest;
    assert afterWww[0] == marker[0] == 'y';
    if www != [] {
      assert (www + afterWww)[0] == 'w';
    }
    AfterWwwOf(www, afterWww);
    AfterMarkerOf(marker, rest);
  }

  lemma SchemeOf(s: string) returns (scheme: string)
    ensures IsScheme(scheme) && s == scheme + AfterScheme(s)
  {
    scheme := if Https <= s then Https else if Http <= s then Http else [];
  }

  lemma WwwOf(s: string) returns (www: string)
    ensures IsWww(www) && s == www + AfterWww(s)
  {
    www := if Www <= s then Www else [];
  }

  lemma MarkerOf(s: string) returns (marker: string)
    requires AfterMarker(s).Some?
    ensures IsMarker(marker) && s == marker + AfterMarker(s).value
  {
    marker := if WatchMarker <= s then WatchMarker else ShortMarker;
  }

  lemma TailOkToIsTail(t: string)
    requires TailOk(t)
    ensures IsTail(t)
  {
    if !IsEnd(t) {
      var last := t[|t| - 1] == '\n';
      var rest: string := if last then t[1..|t| - 1] else t[1..];
      var e: string := if last then "\n" else [];
      assert IsEnd(e) && NoNewline(rest);
      assert t == "&" + rest + e;
    }
  }

  lemma IsTailToTailOk(t: string)
    requires IsTail(t)
    ensures TailOk(t)
  {
    if !IsEnd(t) {
      var rest, e :| IsEnd(e) && NoNewline(rest) && t == "&" + rest + e;
      assert t[0] == '&' && t != "\n";
      if e == "\n" {
        assert t[|t| - 1] == '\n';
        assert t[1..|t| - 1] == rest;
      } else {
        assert t == "&" + rest;
        assert t[1..] == rest;
        if rest != [] {
          assert t[|t| - 1] == rest[|rest| - 1];
        }
        assert t[|t| - 1] != '\n';
        assert NoNewline(t[1..]);
      }
    }
  }

  lemma AcceptedMatchesPattern(url: string)
    requires IsValidYoutubeUrl(url)
    ensures MatchesPattern(url)
  {
    var scheme := SchemeOf(url);
    var afterScheme := AfterScheme(url);
    var www := WwwOf(afterScheme);
    var afterWww := AfterWww(afterScheme);
    var marker := MarkerOf(afterWww);
    var rest := AfterMarker(afterWww).value;
    var id, tail := IdAndTailOf(rest);
    assert url == scheme + (www + (marker + (id + tail)));
    AppendAssoc(scheme + www + marker, id, tail);
    AppendAssoc(scheme + www, marker, id + tail);
    AppendAssoc(scheme, www, marker + (id + tail));
    assert SplitsInto(url, scheme, www, marker, id, tail);
  }

  lemma IdAndTailOf(rest: string) returns (id: string, tail: string)
    requires |rest| >= IdLength
    requires forall i :: 0 <= i < IdLength ==> IsIdChar(rest[i])
    requires TailOk(rest[IdLength..])
    ensures IsVideoId(id) && IsTail(tail) && rest == id + tail
  {
    id, tail := rest[..IdLength], rest[IdLength..];
    TailOkToIsTail(tail);
  }

  lemma PatternAccepted(url: string)
    requires MatchesPattern(url)
    ensures IsValidYoutubeUrl(url)
  {
    var scheme, www, marker, id, tail :| SplitsInto(url, scheme, www, marker, id, tail);
    AppendAssoc(scheme + www + marker, id, tail);
    StripParts(scheme, www, marker, id + tail);
    assert (id + tail)[..IdLength] == id;
    assert (id + tail)[IdLength..] == tail;
    IsTailToTailOk(tail);
  }

  /** The recogniser accepts a string exactly when it has the pattern's shape. */
  lemma IsValidYoutubeUrlMatchesPattern(url: string)
    ensures IsValidYoutubeUrl(url) <==> MatchesPattern(url)
  {
    if IsValidYoutubeUrl(url) {
      AcceptedMatchesPattern(url);
    }
    if MatchesPattern(url) {
      PatternAccepted(url);
    }
  }

  /** A video id of any length other than 11, with nothing after it, is refused. */
  lemma RejectsWrongIdLength(scheme: string, www: string, marker: string, id: string)
    requires IsScheme(scheme) && IsWww(www) && IsMarker(marker)
    requires |id| != IdLength
    requires forall i :: 0 <= i < |id| ==> IsIdChar(id[i])
    ensures !IsValidYoutubeUrl(scheme + www + marker + id)
  {
    StripParts(scheme, www, marker, id);
    if |id| > IdLength {
      var tail := id[IdLength..];
      assert tail[0] == id[IdLength];
      assert IsIdChar(tail[0]);
      assert tail[0] != '&' && tail != "\n";
    }
  }
}
