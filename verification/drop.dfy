/** The text handling of `on_drop`: a drop source may wrap the dropped text in
    one pair of braces; the link is the first whitespace-delimited token. */
module Drop {
  import opened Text

  /** Removes one enclosing `{`...`}` pair, only when both are present. */
  function Unwrap(data: string): (r: string)
    ensures |data| >= 2 && data[0] == '{' && data[|data| - 1] == '}' ==> r == data[1..|data| - 1]
    ensures !(|data| > 0 && data[0] == '{' && data[|data| - 1] == '}') ==> r == data
  {
    if |data| > 0 && data[0] == '{' && data[|data| - 1] == '}' then data[1..|data| - 1] else data
  }

  /** `token` is the first whitespace-delimited token of `s`, found at `start`. */
  ghost predicate IsFirstTokenAt(s: string, start: nat, token: string)
  {
    && token != []
    && (forall i :: 0 <= i < |token| ==> !IsSpace(token[i]))
    && start + |token| <= |s|
    && (forall i :: 0 <= i < start ==> IsSpace(s[i]))
    && s[start..start + |token|] == token
    && (start + |token| == |s| || IsSpace(s[start + |token|]))
  }

  /** `s.split()[0]`; None where the list is empty (the callback then raises
      and the entry keeps its text). */
  function FirstToken(s: string): (r: Option<string>)
    ensures r.None? <==> forall i :: 0 <= i < |s| ==> IsSpace(s[i])
    ensures r.Some? ==> exists start: nat :: IsFirstTokenAt(s, start, r.value)
  {
    var start := SpanLen(s, 0, IsSpace);
    if start == |s| then None
    else
      var n := SpanLen(s, start, NotSpace);
      assert n > 0;
      assert IsFirstTokenAt(s, start, s[start..start + n]);
      Some(s[start..start + n])
  }

  /** The text `on_drop` puts into the link field, or None when the drop
      holds no token. */
  function DroppedLink(data: string): (r: Option<string>)
    ensures r.None? <==> forall i :: 0 <= i < |Unwrap(data)| ==> IsSpace(Unwrap(data)[i])
    ensures r.Some? ==> exists start: nat :: IsFirstTokenAt(Unwrap(data), start, r.value)
  {
    FirstToken(Unwrap(data))
  }

  /** A token that is preceded by whitespace only and ends at whitespace or at
      the end is the first token. */
  lemma FirstTokenOf(pre: string, token: string, post: string)
    requires forall i :: 0 <= i < |pre| ==> IsSpace(pre[i])
    requires token != [] && forall i :: 0 <= i < |token| ==> !IsSpace(token[i])
    requires post == [] || IsSpace(post[0])
    ensures FirstToken(pre + token + post) == Some(token)
  {
    var s := pre + token + post;
    assert !IsSpace(s[|pre|]);
    SpanLenExact(s, 0, |pre|, IsSpace);
    SpanLenExact(s, |pre|, |token|, NotSpace);
    assert s[|pre|..|pre| + |token|] == token;
  }

  /** A link dropped bare comes out unchanged. */
  lemma DroppedBareLink(link: string)
    requires link != [] && forall i :: 0 <= i < |link| ==> !IsSpace(link[i])
    requires link[0] != '{'
    ensures DroppedLink(link) == Some(link)
  {
    FirstTokenOf([], link, []);
    assert [] + link + [] == link;
  }

  /** A link wrapped in braces comes out without them. */
  lemma DroppedBracedLink(link: string)
    requires link != [] && forall i :: 0 <= i < |link| ==> !IsSpace(link[i])
    ensures DroppedLink("{" + link + "}") == Some(link)
  {
    var braced := "{" + link + "}";
    assert braced[1..|braced| - 1] == link;
    FirstTokenOf([], link, []);
    assert [] + link + [] == link;
  }

  /** Of several dropped items, the first one is taken. */
  lemma DroppedFirstOfMany(link: string, more: string)
    requires link != [] && forall i :: 0 <= i < |link| ==> !IsSpace(link[i])
    requires link[0] != '{'
    ensures DroppedLink(link + " " + more) == Some(link)
  {
    var spaced := link + " " + more;
    assert spaced[0] == link[0];
    FirstTokenOf([], link, " " + more);
    assert [] + link + (" " + more) == spaced;
  }
}
