/** The results a viewer's page displays, as a fold over the frames it receives. */
module Viewer {
  import opened Common
  import opened VoteLog

  /** The page's `results` state. Rows stay in the order of the snapshot they came from. */
  datatype View = View(rows: seq<Row>, total: nat)

  const EMPTY_VIEW := View([], 0)

  /** handleSnapshot and handleVoteUpdate; a frame of another poll is ignored, and so is poll_closed here. */
  function Receive(view: View, poll: string, frame: Frame): View {
    if frame.poll != poll then view
    else
      match frame
      case Snapshot(_, rows, total) => View(rows, total)
      case VoteUpdate(_, option, count, newTotal) =>
        View(
          seq(|view.rows|, i requires 0 <= i < |view.rows| =>
            if view.rows[i].option == option then Row(option, count) else view.rows[i]),
          match newTotal case Some(t) => t case None => view.total + 1)
      case PollClosed(_) => view
  }

  function Fold(view: View, poll: string, frames: seq<Frame>): View {
    if frames == [] then view
    else Receive(Fold(view, poll, frames[..|frames| - 1]), poll, frames[|frames| - 1])
  }

  /** What each frame of the page's own poll does to each row: a snapshot replaces everything, an
      update sets the count of its option and the total, one more where it brings none. */
  lemma FramesOfThePoll(view: View, poll: string, frame: Frame)
    requires frame.poll == poll
    ensures frame.Snapshot? ==> Receive(view, poll, frame) == View(frame.rows, frame.total)
    ensures frame.VoteUpdate? ==>
      var after := Receive(view, poll, frame);
      && |after.rows| == |view.rows|
      && (forall i :: 0 <= i < |view.rows| ==>
            && after.rows[i].option == view.rows[i].option
            && after.rows[i].count
                 == if view.rows[i].option == frame.option then frame.count else view.rows[i].count)
      && (frame.newTotal.None? ==> after.total == view.total + 1)
      && (frame.newTotal.Some? ==> after.total == frame.newTotal.value)
  {
  }

  /** The frames that speak about the results of the poll. */
  function Relevant(frames: seq<Frame>, poll: string): (r: seq<Frame>)
    ensures forall f :: f in r <==> f in frames && f.poll == poll && !f.PollClosed?
  {
    if frames == [] then []
    else
      var last := frames[|frames| - 1];
      Relevant(frames[..|frames| - 1], poll) + (if last.poll == poll && !last.PollClosed? then [last] else [])
  }

  lemma FoldRelevant(view: View, poll: string, frames: seq<Frame>, last: Frame)
    ensures Receive(Fold(view, poll, frames), poll, last)
         == Fold(view, poll, frames + (if last.poll == poll && !last.PollClosed? then [last] else []))
  {
    assert (frames + [last])[..|frames|] == frames;
    assert frames + [] == frames;
  }

  /** The closing of the poll and the frames of other polls leave the results as they are: folding
      any frames is folding them without those. */
  lemma {:induction false} OnlyRelevantFramesShow(view: View, poll: string, frames: seq<Frame>)
    ensures Fold(view, poll, frames) == Fold(view, poll, Relevant(frames, poll))
  {
    if frames != [] {
      var front, last := frames[..|frames| - 1], frames[|frames| - 1];
      OnlyRelevantFramesShow(view, poll, front);
      FoldRelevant(view, poll, Relevant(front, poll), last);
      assert Fold(view, poll, frames) == Receive(Fold(view, poll, front), poll, last);
    }
  }

  lemma {:induction false} FoldConcat(view: View, poll: string, a: seq<Frame>, b: seq<Frame>)
    ensures Fold(view, poll, a + b) == Fold(Fold(view, poll, a), poll, b)
  {
    if b == [] {
      assert a + b == a;
    } else {
      assert (a + b)[..|a + b| - 1] == a + b[..|b| - 1];
      FoldConcat(view, poll, a, b[..|b| - 1]);
    }
  }

  // ----- bounds -----

  /** No count exceeds the votes stored for its option, and the total not the votes of the poll. */
  ghost predicate FrameBounded(frame: Frame, votes: seq<Vote>) {
    match frame
    case Snapshot(poll, rows, total) =>
      && (forall row :: row in rows ==> row.count <= Tally(votes, poll, row.option))
      && total <= |votes|
    case VoteUpdate(poll, option, count, newTotal) =>
      && count <= Tally(votes, poll, option)
      && newTotal.Some? && newTotal.value <= |votes|
    case PollClosed(_) => true
  }

  ghost predicate ViewBounded(view: View, poll: string, votes: seq<Vote>) {
    && (forall row :: row in view.rows ==> row.count <= Tally(votes, poll, row.option))
    && view.total <= |votes|
  }

  /** Before anything arrives the page shows nothing, or the poll's options with zero votes. */
  lemma FirstViewsAreBounded(opts: seq<string>, poll: string, votes: seq<Vote>)
    ensures ViewBounded(EMPTY_VIEW, poll, votes) && ViewBounded(View(Rows(map[], opts), 0), poll, votes)
  {
  }

  /** Whatever bounded frames arrive, in any order and any number of times, the view stays bounded. */
  lemma {:induction false} FoldBounded(view: View, poll: string, frames: seq<Frame>, votes: seq<Vote>)
    requires ViewBounded(view, poll, votes)
    requires forall f :: f in frames ==> FrameBounded(f, votes)
    ensures ViewBounded(Fold(view, poll, frames), poll, votes)
  {
    if frames != [] {
      var front, last := frames[..|frames| - 1], frames[|frames| - 1];
      FoldBounded(view, poll, front, votes);
      assert FrameBounded(last, votes);
    }
  }

  lemma FrameBoundedLater(frame: Frame, votes: seq<Vote>, more: seq<Vote>)
    requires FrameBounded(frame, votes) && votes <= more
    ensures FrameBounded(frame, more)
  {
    forall o ensures Tally(votes, frame.poll, o) <= Tally(more, frame.poll, o) {
      TallyMonotone(votes, more, frame.poll, o);
    }
  }
}
