/** The progress queue shared by the worker and the window: a FIFO of
    messages, each a line of text for the log or a tagged progress value
    (the tuple `("progress_update", percent)` of the program, here in tenths
    of a percent). */
module Messages {
  import opened Text

  datatype Message = Log(text: string) | ProgressUpdate(tenths: nat)

  /** `queue.Queue` with the two operations the program uses. */
  class MessageQueue {
    var items: seq<Message>

    constructor ()
      ensures items == []
    {
      items := [];
    }

    /** `put`: appends at the back. */
    method Put(m: Message)
      modifies this
      ensures items == old(items) + [m]
    {
      items := items + [m];
    }

    /** `get_nowait`: takes the front message, or None where the program
        raises `queue.Empty`. */
    method GetNowait() returns (m: Option<Message>)
      modifies this
      ensures old(items) == [] ==> m == None && items == []
      ensures old(items) != [] ==> m == Some(old(items)[0]) && items == old(items)[1..]
    {
      if items == [] {
        m := None;
      } else {
        m := Some(items[0]);
        items := items[1..];
      }
    }
  }

  /** The texts of the log messages, in queue order. */
  function LogTexts(msgs: seq<Message>): (r: seq<string>)
    ensures |r| <= |msgs|
  {
    if msgs == [] then []
    else
      var init := LogTexts(msgs[..|msgs| - 1]);
      match msgs[|msgs| - 1]
      case Log(t) => init + [t]
      case ProgressUpdate(_) => init
  }

  /** What the log widget shows for a run of texts: each one followed by a newline. */
  function Lines(texts: seq<string>): (r: string)
    ensures |r| >= |texts|
  {
    if texts == [] then [] else Lines(texts[..|texts| - 1]) + texts[|texts| - 1] + "\n"
  }

  /** The progress value after the messages: the last progress message's, or
      `current` when there is none. */
  function LastProgress(msgs: seq<Message>, current: nat): (p: nat)
    ensures p == current || exists i :: 0 <= i < |msgs| && msgs[i] == ProgressUpdate(p)
  {
    if msgs == [] then current
    else match msgs[|msgs| - 1]
      case ProgressUpdate(v) => v
      case Log(_) => LastProgress(msgs[..|msgs| - 1], current)
  }

  lemma {:induction false} LogTextsAppend(a: seq<Message>, b: seq<Message>)
    ensures LogTexts(a + b) == LogTexts(a) + LogTexts(b)
    decreases |b|
  {
    if b == [] {
      assert a + b == a;
    } else {
      var n := |b| - 1;
      assert (a + b)[..|a + b| - 1] == a + b[..n];
      LogTextsAppend(a, b[..n]);
    }
  }

  lemma {:induction false} LinesAppend(a: seq<string>, b: seq<string>)
    ensures Lines(a + b) == Lines(a) + Lines(b)
    decreases |b|
  {
    if b == [] {
      assert a + b == a;
    } else {
      var n := |b| - 1;
      assert (a + b)[..|a + b| - 1] == a + b[..n];
      LinesAppend(a, b[..n]);
    }
  }

  lemma {:induction false} LastProgressAppend(a: seq<Message>, b: seq<Message>, current: nat)
    ensures LastProgress(a + b, current) == LastProgress(b, LastProgress(a, current))
    decreases |b|
  {
    if b == [] {
      assert a + b == a;
    } else {
      var n := |b| - 1;
      assert (a + b)[..|a + b| - 1] == a + b[..n];
      LastProgressAppend(a, b[..n], current);
    }
  }

  /** The texts kept are those of the log messages and no others; none are kept
      exactly when every message is a progress message. */
  lemma {:induction false} LogTextsHoldsExactlyTheLogs(msgs: seq<Message>)
    ensures forall t :: t in LogTexts(msgs) <==> Log(t) in msgs
    ensures LogTexts(msgs) == [] <==> forall i :: 0 <= i < |msgs| ==> msgs[i].ProgressUpdate?
  {
    if msgs != [] {
      var n := |msgs| - 1;
      LogTextsHoldsExactlyTheLogs(msgs[..n]);
      assert msgs == msgs[..n] + [msgs[n]];
      assert forall m :: m in msgs <==> m in msgs[..n] || m == msgs[n];
    }
  }
}
