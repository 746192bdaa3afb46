/** The part of the window that `process_queue` updates: the text of the
    status log and the value of the progress bar (in tenths of a percent). */
module StatusWindow {
  import opened Text
  import opened Messages

  class Window {
    var statusText: string
    var progressTenths: nat

    constructor ()
      ensures statusText == [] && progressTenths == 0
    {
      statusText := [];
      progressTenths := 0;
    }

    /** Drains the queue without blocking: a progress message sets the bar's
        value, any other message is appended to the log followed by a newline. */
    method ProcessQueue(q: MessageQueue)
      modifies this, q
      ensures q.items == []
      ensures statusText == old(statusText) + Lines(LogTexts(old(q.items)))
      ensures progressTenths == LastProgress(old(q.items), old(progressTenths))
    {
      ghost var drained: seq<Message> := [];
      while true
        invariant old(q.items) == drained + q.items
        invariant statusText == old(statusText) + Lines(LogTexts(drained))
        invariant progressTenths == LastProgress(drained, old(progressTenths))
        decreases |q.items|
      {
        var m := q.GetNowait();
        match m {
          case None =>
            assert drained == old(q.items);
            return;
          case Some(msg) =>
            LogTextsAppend(drained, [msg]);
            LinesAppend(LogTexts(drained), LogTexts([msg]));
            LastProgressAppend(drained, [msg], old(progressTenths));
            match msg {
              case ProgressUpdate(v) =>
                assert LogTexts([msg]) == [];
                assert LogTexts(drained) + [] == LogTexts(drained);
                progressTenths := v;
              case Log(t) =>
                assert LogTexts([msg]) == [t];
                assert Lines([t]) == t + "\n" by {
                  assert [t][..0] == [];
                }
                AppendAssoc(old(statusText), Lines(LogTexts(drained)), t + "\n");
                statusText := statusText + (t + "\n");
            }
            drained := drained + [msg];
        }
      }
    }
  }

  /** Draining in two polls, with more messages put in between, leaves the
      window as draining everything at once would: the log keeps FIFO order
      across polls. */
  lemma TwoPollsAsOne(first: seq<Message>, second: seq<Message>, progress: nat)
    ensures Lines(LogTexts(first)) + Lines(LogTexts(second)) == Lines(LogTexts(first + second))
    ensures LastProgress(second, LastProgress(first, progress)) == LastProgress(first + second, progress)
  {
    LogTextsAppend(first, second);
    LinesAppend(LogTexts(first), LogTexts(second));
    LastProgressAppend(first, second, progress);
  }
}
