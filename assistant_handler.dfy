/** The assistant session client of one bot (`AssistantHandler`): the table
    of group threads it reads, the per-thread in-progress flags, the message
    history, the streamed text turn, the image turn with its poll loop, and
    the history trim. What the provider and the clock answer is given as
    parameters; `sent` is what the turn hands to its send callback, in order. */
module Assistant {
  import opened Strings

  /** A `{group_id: thread_id}` dictionary object. The manager and every
      handler hold a reference to one; once the bots are registered they all
      hold the manager's. */
  class ThreadTable {
    var entries: map<int, string>

    constructor ()
      ensures entries == map[]
    {
      entries := map[];
    }
  }

  datatype Role = UserRole | AssistantRole

  /** `{"role": ..., "content": ...}` in `message_history`. */
  datatype Entry = Entry(role: Role, content: string)

  /** `threads.get(group_id)` read by `if not thread_id`: a missing or empty
      id is no thread. */
  function ThreadOf(entries: map<int, string>, g: int): Option<string> {
    if g in entries && entries[g] != [] then Some(entries[g]) else None
  }

  /** `_in_progress_runs.get(thread_id, False)`. */
  predicate Busy(flags: map<string, bool>, t: string) {
    t in flags && flags[t]
  }

  const BusyNotice: string := "\U{23F3} Estoy procesando una solicitud anterior. Por favor, espera un momento."

  /** The assistant entries for delivered chunks, in delivery order. */
  function Replies(chunks: seq<string>): seq<Entry> {
    if chunks == [] then [] else Replies(chunks[..|chunks| - 1]) + [Entry(AssistantRole, chunks[|chunks| - 1])]
  }

  lemma RepliesAppend(chunks: seq<string>, c: string)
    ensures Replies(chunks + [c]) == Replies(chunks) + [Entry(AssistantRole, c)]
  {
    assert (chunks + [c])[..|chunks|] == chunks;
  }

  // The streamed text turn.

  /** The stream loop's state: the text not delivered yet, and the pieces
      cut off so far, before stripping. */
  datatype Stream = Stream(buffer: string, pieces: seq<string>)

  /** One text delta: appended to the buffer, which is then cut once, at its
      first blank line (`buffer.split('\n\n', 1)`). */
  function Feed(st: Stream, delta: string): Stream {
    var b := st.buffer + delta;
    match FindFrom(b, "\n\n", 0)
    case Some(i) => Stream(b[i + 2..], st.pieces + [b[..i]])
    case None => Stream(b, st.pieces)
  }

  /** The loop over `event_handler.text_deltas`. */
  function FeedAll(deltas: seq<string>): Stream {
    if deltas == [] then Stream([], []) else Feed(FeedAll(deltas[..|deltas| - 1]), deltas[|deltas| - 1])
  }

  /** What goes out of a piece: its stripped text, unless that is empty. */
  function KeptOne(p: string): seq<string> {
    if Strip(p) != [] then [Strip(p)] else []
  }

  function Kept(pieces: seq<string>): seq<string> {
    if pieces == [] then [] else Kept(pieces[..|pieces| - 1]) + KeptOne(pieces[|pieces| - 1])
  }

  /** One delta into the buffer, split at the first blank line if there is one
      (`buffer.split('\n\n', 1)`); the paragraph before it comes out. */
  method SplitParagraph(buffer: string, delta: string, ghost pieces: seq<string>) returns (rest: string, paragraph: Option<string>)
    ensures Feed(Stream(buffer, pieces), delta) ==
      Stream(rest, if paragraph.Some? then pieces + [paragraph.value] else pieces)
  {
    rest := buffer + delta;
    paragraph := None;
    var cut := FindFrom(rest, "\n\n", 0);
    if cut.Some? {
      paragraph := Some(rest[..cut.value]);
      rest := rest[cut.value + 2..];
    }
  }

  /** Raising a flag and lowering it again is lowering it. */
  lemma FlagLowered(flags: map<string, bool>, t: string)
    ensures flags[t := true][t := false] == flags[t := false]
  {
  }

  lemma RepliesAfter(h: seq<Entry>, sent: seq<string>, c: string)
    ensures h + Replies(sent) + [Entry(AssistantRole, c)] == h + Replies(sent + [c])
  {
    RepliesAppend(sent, c);
  }

  lemma FeedStep(deltas: seq<string>, k: nat)
    requires k < |deltas|
    ensures FeedAll(deltas[..k + 1]) == Feed(FeedAll(deltas[..k]), deltas[k])
  {
    assert deltas[..k + 1][..k] == deltas[..k];
  }

  lemma KeptAppend(pieces: seq<string>, p: string)
    ensures Kept(pieces + [p]) == Kept(pieces) + KeptOne(p)
  {
    assert (pieces + [p])[..|pieces|] == pieces;
  }

  /** The chunks the streamed turn delivers: one per non-blank piece, then the
      stripped rest of the buffer when the stream ended without an error. */
  function Delivered(deltas: seq<string>, completes: bool): seq<string> {
    var st := FeedAll(deltas);
    Kept(st.pieces) + (if completes then KeptOne(st.buffer) else [])
  }

  /** The pieces put back together with the blank lines they were cut at. */
  function Joined(pieces: seq<string>): string {
    if pieces == [] then [] else Joined(pieces[..|pieces| - 1]) + pieces[|pieces| - 1] + "\n\n"
  }

  /** No text is lost: the deltas are the pieces, each followed by the blank
      line it was cut at, and then the buffer. */
  lemma {:induction false} StreamKeepsText(deltas: seq<string>)
    ensures Concat(deltas) == Joined(FeedAll(deltas).pieces) + FeedAll(deltas).buffer
  {
    if deltas != [] {
      var init, d := deltas[..|deltas| - 1], deltas[|deltas| - 1];
      assert deltas == init + [d];
      ConcatAppend(init, d);
      StreamKeepsText(init);
      FeedKeepsText(FeedAll(init), d);
    }
  }

  lemma FeedKeepsText(st: Stream, d: string)
    ensures Joined(Feed(st, d).pieces) + Feed(st, d).buffer == Joined(st.pieces) + st.buffer + d
  {
    var b := st.buffer + d;
    match FindFrom(b, "\n\n", 0)
    case Some(i) => CutKeepsText(st.pieces, b, i);
    case None =>
  }

  lemma CutKeepsText(pieces: seq<string>, b: string, i: nat)
    requires i + 2 <= |b| && b[i..i + 2] == "\n\n"
    ensures Joined(pieces + [b[..i]]) + b[i + 2..] == Joined(pieces) + b
  {
    assert (pieces + [b[..i]])[..|pieces|] == pieces;
    assert b == b[..i] + "\n\n" + b[i + 2..];
  }

  /** A piece ends at the first blank line of the buffer, so it holds none. */
  lemma {:induction false} PiecesHaveNoBreak(deltas: seq<string>)
    ensures forall p :: p in FeedAll(deltas).pieces ==> !Contains(p, "\n\n")
  {
    if deltas != [] {
      var init := deltas[..|deltas| - 1];
      PiecesHaveNoBreak(init);
      var b := FeedAll(init).buffer + deltas[|deltas| - 1];
      match FindFrom(b, "\n\n", 0)
      case Some(i) => HeadHasNoBreak(b, i);
      case None =>
    }
  }

  lemma HeadHasNoBreak(b: string, i: nat)
    requires FindFrom(b, "\n\n", 0) == Some(i)
    ensures !Contains(b[..i], "\n\n")
  {
    forall j | 0 <= j <= i ensures !OccursAt(b[..i], "\n\n", j) {
      if j + 2 <= i {
        assert b[..i][j..j + 2] == b[j..j + 2];
        assert !OccursAt(b, "\n\n", j);
      }
    }
  }

  /** At most one cut per delta. */
  lemma {:induction false} OneCutPerDelta(deltas: seq<string>)
    ensures |FeedAll(deltas).pieces| <= |deltas|
  {
    if deltas != [] {
      OneCutPerDelta(deltas[..|deltas| - 1]);
    }
  }

  lemma {:induction false} KeptStripped(pieces: seq<string>)
    ensures |Kept(pieces)| <= |pieces|
    ensures forall c :: c in Kept(pieces) ==> c != [] && Strip(c) == c
  {
    if pieces != [] {
      KeptStripped(pieces[..|pieces| - 1]);
      StripIdempotent(pieces[|pieces| - 1]);
    }
  }

  /** Every chunk delivered is stripped and non-empty, and there are at most
      one per delta and one for the flush. */
  lemma ChunksStripped(deltas: seq<string>, completes: bool)
    ensures forall c :: c in Delivered(deltas, completes) ==> c != [] && Strip(c) == c
    ensures |Delivered(deltas, completes)| <= |deltas| + 1
  {
    var st := FeedAll(deltas);
    KeptStripped(st.pieces);
    KeptStripped([st.buffer]);
    assert Kept([st.buffer]) == KeptOne(st.buffer);
    OneCutPerDelta(deltas);
  }

  lemma JoinedHasBreak(pieces: seq<string>, rest: string)
    requires pieces != []
    ensures Contains(Joined(pieces) + rest, "\n\n")
  {
    var s := Joined(pieces) + rest;
    var k := |Joined(pieces[..|pieces| - 1]) + pieces[|pieces| - 1]|;
    assert s[k..k + 2] == "\n\n";
    assert OccursAt(s, "\n\n", k);
  }

  /** A reply without a blank line goes out as one chunk, after the stream ends. */
  lemma UnbrokenReplyOneChunk(deltas: seq<string>)
    requires !Contains(Concat(deltas), "\n\n")
    ensures Delivered(deltas, true) == KeptOne(Concat(deltas))
    ensures Delivered(deltas, false) == []
  {
    StreamKeepsText(deltas);
    var st := FeedAll(deltas);
    if st.pieces != [] {
      JoinedHasBreak(st.pieces, st.buffer);
    }
    assert st.pieces == [] && Joined(st.pieces) == [];
    assert st.buffer == Concat(deltas);
    assert Kept(st.pieces) == [];
  }

  // The image turn's poll loop.

  datatype Status = Queued | Completed | Failed | Cancelled | Expired | OtherStatus(name: string)

  function StatusName(s: Status): string {
    match s
    case Queued => "queued"
    case Completed => "completed"
    case Failed => "failed"
    case Cancelled => "cancelled"
    case Expired => "expired"
    case OtherStatus(name) => name
  }

  /** The statuses that end the loop. */
  predicate Terminal(s: Status) {
    s.Completed? || s.Failed? || s.Cancelled? || s.Expired?
  }

  /** A status as the provider names it: each of the names the loop compares
      against is read as its own constructor, so `OtherStatus` never carries
      one of them. */
  function StatusOf(name: string): (s: Status)
    ensures StatusName(s) == name && Canonical(s)
  {
    if name == "queued" then Queued
    else if name == "completed" then Completed
    else if name == "failed" then Failed
    else if name == "cancelled" then Cancelled
    else if name == "expired" then Expired
    else OtherStatus(name)
  }

  predicate Canonical(s: Status) {
    s.OtherStatus? ==> s.name !in ["queued", "completed", "failed", "cancelled", "expired"]
  }

  /** On the statuses the provider can name, the constructors agree with the
      loop's string comparisons: reading a name back gives the status, the
      loop ends exactly on the four terminal names, and waits in the queue
      exactly on "queued". */
  lemma StatusNamesAgree(s: Status)
    requires Canonical(s)
    ensures StatusOf(StatusName(s)) == s
    ensures Terminal(s) <==> StatusName(s) in ["completed", "failed", "cancelled", "expired"]
    ensures s == Queued <==> StatusName(s) == "queued"
  {
  }

  /** One pass of the loop as the clock and the provider answer it: the
      seconds since the run was created, and the status fetched at the end of
      the pass (`None` when the fetch raised). */
  datatype Poll = Poll(elapsed: nat, fetched: Option<Status>)

  /** The loop variables: `run_status`, `max_wait_time`,
      `queued_message_sent` and `queued_time_start`. */
  datatype Waiting = Waiting(status: Status, maxWait: nat, queuedSent: bool, queuedStart: Option<nat>)

  function Start(first: Status): Waiting {
    Waiting(first, 120, false, None)
  }

  const QueuedNotice: string := "\U{1F504}" + " Tu solicitud est\U{E1} en cola. Esto puede tardar un momento debido a alta demanda..."
  const StillQueuedNotice: string := "\U{23F3}" + " Tu solicitud sigue en cola. A veces el procesamiento de im\U{E1}genes puede tardar un poco m\U{E1}s. Gracias por tu paciencia."
  const SlowNotice: string := "\U{26A0}" + "\U{FE0F} El an\U{E1}lisis est\U{E1} tomando m\U{E1}s tiempo del esperado. Puedo continuar esperando o puedes cancelar e intentarlo nuevamente. \U{BF}Quieres continuar esperando?"

  datatype Pass = Pass(next: Waiting, notices: seq<string>)

  /** The queued branch of a pass: the first queued pass sends the queued
      notice and starts the queue clock; a pass more than 30 seconds after
      that sends the still-queued notice and stops the clock for good. */
  function QueueCheck(w: Waiting, elapsed: nat): Pass {
    if w.status == Queued then
      var first := !w.queuedSent;
      var start := if first then Some(elapsed) else w.queuedStart;
      var n := if first then [QueuedNotice] else [];
      if start.Some? && elapsed - start.value > 30 then Pass(w.(queuedSent := true, queuedStart := None), n + [StillQueuedNotice])
      else Pass(w.(queuedSent := true, queuedStart := start), n)
    else Pass(w, [])
  }

  /** Past the deadline a pass sends the slow notice and moves the deadline a
      minute on. */
  function DeadlineCheck(q: Pass, elapsed: nat): Pass {
    if elapsed > q.next.maxWait then Pass(q.next.(maxWait := q.next.maxWait + 60), q.notices + [SlowNotice])
    else q
  }

  /** One pass: the queued branch, the deadline check, then the fetch. */
  function PollStep(w: Waiting, p: Poll): Pass {
    var t := DeadlineCheck(QueueCheck(w, p.elapsed), p.elapsed);
    Pass(t.next.(status := if p.fetched.Some? then p.fetched.value else t.next.status), t.notices)
  }

  datatype PollResult = PollResult(last: Waiting, notices: seq<string>, passes: nat)

  /** The loop: passes until the status is terminal or the script ends. When
      the script ends first, the run is still being waited for. */
  function PollRun(w: Waiting, polls: seq<Poll>): (r: PollResult)
    ensures r.passes <= |polls|
    decreases |polls|
  {
    if Terminal(w.status) || polls == [] then PollResult(w, [], 0)
    else
      var step := PollStep(w, polls[0]);
      var rest := PollRun(step.next, polls[1..]);
      PollResult(rest.last, step.notices + rest.notices, rest.passes + 1)
  }

  lemma NoticesDiffer()
    ensures QueuedNotice != StillQueuedNotice && QueuedNotice != SlowNotice && StillQueuedNotice != SlowNotice
  {
    assert QueuedNotice[0] == '\U{1F504}' && StillQueuedNotice[0] == '\U{23F3}' && SlowNotice[0] == '\U{26A0}';
  }

  /** The loop ends early only on a terminal status. */
  lemma {:induction false} EndsOnlyWhenTerminal(w: Waiting, polls: seq<Poll>)
    ensures var r := PollRun(w, polls); r.passes < |polls| ==> Terminal(r.last.status)
    ensures var r := PollRun(w, polls); Terminal(w.status) ==> r.passes == 0 && r.last == w
    decreases |polls|
  {
    if !Terminal(w.status) && polls != [] {
      EndsOnlyWhenTerminal(PollStep(w, polls[0]).next, polls[1..]);
    }
  }

  /** Fetches that fail change nothing about the status, so they never end
      the loop. */
  lemma {:induction false} FailedFetchesKeepWaiting(w: Waiting, polls: seq<Poll>)
    requires !Terminal(w.status)
    requires forall i :: 0 <= i < |polls| ==> polls[i].fetched.None?
    ensures PollRun(w, polls).passes == |polls| && PollRun(w, polls).last.status == w.status
    decreases |polls|
  {
    if polls != [] {
      FailedFetchesKeepWaiting(PollStep(w, polls[0]).next, polls[1..]);
    }
  }

  /** Each deadline notice extends the deadline by a minute; a deadline never
      ends the loop. */
  lemma {:induction false} DeadlineGrows(w: Waiting, polls: seq<Poll>)
    ensures var r := PollRun(w, polls); r.last.maxWait == w.maxWait + 60 * multiset(r.notices)[SlowNotice]
    decreases |polls|
  {
    NoticesDiffer();
    if !Terminal(w.status) && polls != [] {
      DeadlineGrows(PollStep(w, polls[0]).next, polls[1..]);
    }
  }

  /** The queued notice goes out at most once. */
  lemma {:induction false} QueuedNoticeOnce(w: Waiting, polls: seq<Poll>)
    ensures multiset(PollRun(w, polls).notices)[QueuedNotice] <= (if w.queuedSent then 0 else 1)
    decreases |polls|
  {
    NoticesDiffer();
    if !Terminal(w.status) && polls != [] {
      QueuedNoticeOnce(PollStep(w, polls[0]).next, polls[1..]);
    }
  }

  /** The still-queued notice goes out at most once. */
  lemma {:induction false} StillQueuedNoticeOnce(w: Waiting, polls: seq<Poll>)
    ensures multiset(PollRun(w, polls).notices)[StillQueuedNotice] <= (if w.queuedSent && w.queuedStart.None? then 0 else 1)
    decreases |polls|
  {
    NoticesDiffer();
    if !Terminal(w.status) && polls != [] {
      StillQueuedNoticeOnce(PollStep(w, polls[0]).next, polls[1..]);
    }
  }

  /** The still-queued notice follows the queued notice. */
  lemma {:induction false} StillQueuedAfterQueued(w: Waiting, polls: seq<Poll>)
    requires !w.queuedSent && w.queuedStart.None?
    ensures var n := multiset(PollRun(w, polls).notices); n[StillQueuedNotice] > 0 ==> n[QueuedNotice] > 0
    decreases |polls|
  {
    NoticesDiffer();
    if !Terminal(w.status) && polls != [] {
      var step := PollStep(w, polls[0]);
      if w.status != Queued {
        StillQueuedAfterQueued(step.next, polls[1..]);
      }
    }
  }

  /** Within the first 30 seconds nobody is told that the run is still queued. */
  lemma {:induction false} NoStillQueuedWithin30(w: Waiting, polls: seq<Poll>)
    requires forall i :: 0 <= i < |polls| ==> polls[i].elapsed <= 30
    ensures StillQueuedNotice !in PollRun(w, polls).notices
    decreases |polls|
  {
    NoticesDiffer();
    if !Terminal(w.status) && polls != [] {
      NoStillQueuedWithin30(PollStep(w, polls[0]).next, polls[1..]);
    }
  }

  /** The passes the loop makes, one per poll it consumes. */
  function Trace(w: Waiting, polls: seq<Poll>): (t: seq<Pass>)
    ensures |t| == PollRun(w, polls).passes
    decreases |polls|
  {
    if Terminal(w.status) || polls == [] then []
    else
      var step := PollStep(w, polls[0]);
      [step] + Trace(step.next, polls[1..])
  }

  /** Every notice of the passes, in the order they are sent. */
  function AllNotices(t: seq<Pass>): seq<string> {
    if t == [] then [] else t[0].notices + AllNotices(t[1..])
  }

  /** The loop's notices are those of its passes, pass by pass. */
  lemma {:induction false} TraceNotices(w: Waiting, polls: seq<Poll>)
    ensures AllNotices(Trace(w, polls)) == PollRun(w, polls).notices
    decreases |polls|
  {
    if !Terminal(w.status) && polls != [] {
      var step := PollStep(w, polls[0]);
      TraceNotices(step.next, polls[1..]);
      var t := Trace(w, polls);
      assert t[0] == step && t[1..] == Trace(step.next, polls[1..]);
    }
  }

  /** Some pass before pass `j` sent the queued notice, more than 30 seconds
      before pass `j`. */
  predicate QueuedEarlier(t: seq<Pass>, polls: seq<Poll>, j: nat) {
    exists i :: 0 <= i < j && i < |t| && j < |polls| && QueuedNotice in t[i].notices && polls[j].elapsed - polls[i].elapsed > 30
  }

  /** A pass sends the still-queued notice only more than 30 seconds after
      the pass that sent the queued notice, or, when the loop is entered with
      the queue clock running, more than 30 seconds after that clock's start. */
  lemma {:induction false} StillQueuedLater(w: Waiting, polls: seq<Poll>, j: nat)
    requires j < |Trace(w, polls)| && StillQueuedNotice in Trace(w, polls)[j].notices
    ensures j < |polls|
    ensures QueuedEarlier(Trace(w, polls), polls, j) || (w.queuedStart.Some? && polls[j].elapsed - w.queuedStart.value > 30)
    decreases |polls|
  {
    NoticesDiffer();
    var step := PollStep(w, polls[0]);
    var q := QueueCheck(w, polls[0].elapsed);
    var t := Trace(w, polls);
    var rest := Trace(step.next, polls[1..]);
    assert t == [step] + rest;
    assert step.notices == q.notices || step.notices == q.notices + [SlowNotice];
    if j == 0 {
      assert StillQueuedNotice in q.notices;
    } else {
      assert rest[j - 1] == t[j] && polls[1..][j - 1] == polls[j];
      StillQueuedLater(step.next, polls[1..], j - 1);
      if QueuedEarlier(rest, polls[1..], j - 1) {
        var i :| 0 <= i < j - 1 && i < |rest| && j - 1 < |polls[1..]| && QueuedNotice in rest[i].notices
          && polls[1..][j - 1].elapsed - polls[1..][i].elapsed > 30;
        assert t[i + 1] == rest[i] && polls[i + 1] == polls[1..][i];
      } else if w.status == Queued && !w.queuedSent {
        assert step.next.queuedStart == Some(polls[0].elapsed);
        assert QueuedNotice in t[0].notices;
      } else {
        assert step.next.queuedStart.Some? ==> step.next.queuedStart == w.queuedStart;
      }
    }
  }

  /** From the run's first status, every still-queued notice goes out more
      than 30 seconds after the queued notice was sent. */
  lemma StillQueuedAfterQueuedBy30(first: Status, polls: seq<Poll>, j: nat)
    requires j < |Trace(Start(first), polls)| && StillQueuedNotice in Trace(Start(first), polls)[j].notices
    ensures QueuedEarlier(Trace(Start(first), polls), polls, j)
  {
    StillQueuedLater(Start(first), polls, j);
  }

  /** What one pass sends, in terms of the loop variables it starts from:
      the queued notice on the first queued pass, the still-queued notice on
      a later queued pass more than 30 seconds after the queue clock
      started, and the slow notice whenever the deadline is passed. */
  lemma PassNotices(v: Waiting, p: Poll)
    ensures QueuedNotice in PollStep(v, p).notices <==> v.status == Queued && !v.queuedSent
    ensures StillQueuedNotice in PollStep(v, p).notices <==>
      v.status == Queued && v.queuedSent && v.queuedStart.Some? && p.elapsed - v.queuedStart.value > 30
    ensures SlowNotice in PollStep(v, p).notices <==> p.elapsed > v.maxWait
  {
    NoticesDiffer();
    var q := QueueCheck(v, p.elapsed);
    assert q.next.maxWait == v.maxWait;
    assert PollStep(v, p).notices == q.notices || PollStep(v, p).notices == q.notices + [SlowNotice];
  }

  /** The loop variables before pass `j`. */
  function StateBefore(w: Waiting, polls: seq<Poll>, j: nat): Waiting
    requires j <= |polls|
    decreases j
  {
    if j == 0 then w else StateBefore(PollStep(w, polls[0]).next, polls[1..], j - 1)
  }

  /** Pass `j` of the loop is one `PollStep` from the variables it starts
      from, and it is made only while the status is not terminal. */
  lemma {:induction false} TracePass(w: Waiting, polls: seq<Poll>, j: nat)
    requires j < |Trace(w, polls)|
    ensures j < |polls|
    ensures !Terminal(StateBefore(w, polls, j).status)
    ensures Trace(w, polls)[j] == PollStep(StateBefore(w, polls, j), polls[j])
    decreases j
  {
    var step := PollStep(w, polls[0]);
    var rest := Trace(step.next, polls[1..]);
    assert Trace(w, polls) == [step] + rest;
    if j > 0 {
      TracePass(step.next, polls[1..], j - 1);
      assert polls[1..][j - 1] == polls[j];
    }
  }

  /** Each pass of the loop sends exactly the notices its loop variables and
      clock reading call for. */
  lemma LoopNotices(w: Waiting, polls: seq<Poll>, j: nat)
    requires j < |Trace(w, polls)|
    ensures j < |polls|
    ensures var v := StateBefore(w, polls, j);
      QueuedNotice in Trace(w, polls)[j].notices <==> v.status == Queued && !v.queuedSent
    ensures var v := StateBefore(w, polls, j);
      StillQueuedNotice in Trace(w, polls)[j].notices <==>
        v.status == Queued && v.queuedSent && v.queuedStart.Some? && polls[j].elapsed - v.queuedStart.value > 30
    ensures var v := StateBefore(w, polls, j);
      SlowNotice in Trace(w, polls)[j].notices <==> polls[j].elapsed > v.maxWait
  {
    TracePass(w, polls, j);
    PassNotices(StateBefore(w, polls, j), polls[j]);
  }

  /** A run queued at first, still queued 10 seconds in, picked up at 35
      seconds and completed at 40: it is told once that it is queued and
      once that it is still queued, and never that it is slow. */
  lemma QueuedScriptExample()
    ensures PollRun(Start(Queued), [Poll(0, Some(Queued)), Poll(10, Some(Queued)), Poll(35, Some(OtherStatus("in_progress"))), Poll(40, Some(Completed))]).notices
      == [QueuedNotice, StillQueuedNotice]
  {
    var polls := [Poll(0, Some(Queued)), Poll(10, Some(Queued)), Poll(35, Some(OtherStatus("in_progress"))), Poll(40, Some(Completed))];
    var w1 := Waiting(Queued, 120, true, Some(0));
    var w3 := Waiting(OtherStatus("in_progress"), 120, true, None);
    assert PollStep(Start(Queued), polls[0]) == Pass(w1, [QueuedNotice]);
    assert PollStep(w1, polls[1]) == Pass(w1, []);
    assert PollStep(w1, polls[2]) == Pass(w3, [StillQueuedNotice]);
    assert PollStep(w3, polls[3]) == Pass(w3.(status := Completed), []);
    assert polls[1..][1..][1..][1..] == [];
  }

  /** The poll loop of `stream_image_response`, from the run's first status. */
  method WaitForRun(first: Status, polls: seq<Poll>) returns (w: Waiting, notices: seq<string>, passes: nat)
    ensures PollResult(w, notices, passes) == PollRun(Start(first), polls)
  {
    var runStatus := first;
    var maxWaitTime: nat := 120;
    var queuedMessageSent := false;
    var queuedTimeStart: Option<nat> := None;
    notices, passes := [], 0;
    while !Terminal(runStatus) && passes < |polls|
      invariant passes <= |polls|
      invariant var rest := PollRun(Waiting(runStatus, maxWaitTime, queuedMessageSent, queuedTimeStart), polls[passes..]);
        PollRun(Start(first), polls) == PollResult(rest.last, notices + rest.notices, passes + rest.passes)
      decreases |polls| - passes
    {
      ghost var before := Waiting(runStatus, maxWaitTime, queuedMessageSent, queuedTimeStart);
      var sentNow;
      runStatus, maxWaitTime, queuedMessageSent, queuedTimeStart, sentNow :=
        PollOnce(runStatus, maxWaitTime, queuedMessageSent, queuedTimeStart, polls[passes]);
      LoopStep(first, polls, passes, before, notices, PollStep(before, polls[passes]));
      notices := notices + sentNow;
      passes := passes + 1;
    }
    w := Waiting(runStatus, maxWaitTime, queuedMessageSent, queuedTimeStart);
  }

  /** One pass of the poll loop, on the loop's variables; `sent` are the
      notices it sends. */
  method PollOnce(runStatus: Status, maxWaitTime: nat, queuedMessageSent: bool, queuedTimeStart: Option<nat>, p: Poll)
    returns (status: Status, maxWait: nat, queuedSent: bool, queuedStart: Option<nat>, sent: seq<string>)
    ensures Pass(Waiting(status, maxWait, queuedSent, queuedStart), sent)
      == PollStep(Waiting(runStatus, maxWaitTime, queuedMessageSent, queuedTimeStart), p)
  {
    ghost var before := Waiting(runStatus, maxWaitTime, queuedMessageSent, queuedTimeStart);
    status, maxWait, queuedSent, queuedStart, sent := runStatus, maxWaitTime, queuedMessageSent, queuedTimeStart, [];
    var elapsedTime := p.elapsed;
    if status == Queued {
      if !queuedSent {
        sent := sent + [QueuedNotice];
        queuedSent := true;
        queuedStart := Some(elapsedTime);
      }
      if queuedStart.Some? && elapsedTime - queuedStart.value > 30 {
        sent := sent + [StillQueuedNotice];
        queuedStart := None;
      }
    }
    ghost var q := Pass(Waiting(status, maxWait, queuedSent, queuedStart), sent);
    assert q == QueueCheck(before, elapsedTime);
    if elapsedTime > maxWait {
      sent := sent + [SlowNotice];
      maxWait := maxWait + 60;
    }
    assert Pass(Waiting(status, maxWait, queuedSent, queuedStart), sent) == DeadlineCheck(q, elapsedTime);
    match p.fetched {
      case Some(fetched) => status := fetched;
      case None =>
    }
  }

  lemma LoopStep(first: Status, polls: seq<Poll>, k: nat, before: Waiting, earlier: seq<string>, step: Pass)
    requires k < |polls| && !Terminal(before.status) && step == PollStep(before, polls[k])
    requires var rest := PollRun(before, polls[k..]);
      PollRun(Start(first), polls) == PollResult(rest.last, earlier + rest.notices, k + rest.passes)
    ensures var rest := PollRun(step.next, polls[k + 1..]);
      PollRun(Start(first), polls) == PollResult(rest.last, earlier + step.notices + rest.notices, k + 1 + rest.passes)
  {
    var tail := polls[k..];
    assert tail[0] == polls[k] && tail[1..] == polls[k + 1..];
    var rest := PollRun(step.next, polls[k + 1..]);
    assert PollRun(before, tail) == PollResult(rest.last, step.notices + rest.notices, rest.passes + 1);
    assert earlier + (step.notices + rest.notices) == earlier + step.notices + rest.notices;
  }

  // What the turn extracts once the run has completed.

  datatype Content = TextContent(value: string) | OtherContent

  /** A message of the thread as `messages.list` returns it. */
  datatype ThreadMessage = ThreadMessage(role: Role, runId: Option<string>, content: seq<Content>)

  function TextsOf(items: seq<Content>): seq<string> {
    if items == [] then []
    else TextsOf(items[..|items| - 1]) + (if items[|items| - 1].TextContent? then [items[|items| - 1].value] else [])
  }

  /** The texts of the assistant messages of the run, in listing order. */
  function RunTexts(msgs: seq<ThreadMessage>, runId: string): seq<string> {
    if msgs == [] then [] else RunTexts(msgs[..|msgs| - 1], runId) + OwnTexts(msgs[|msgs| - 1], runId)
  }

  function OwnTexts(m: ThreadMessage, runId: string): seq<string> {
    if m.role == AssistantRole && m.runId == Some(runId) then TextsOf(m.content) else []
  }

  predicate FromRun(msgs: seq<ThreadMessage>, runId: string, i: int) {
    0 <= i < |msgs| && msgs[i].role == AssistantRole && msgs[i].runId == Some(runId)
  }

  lemma {:induction false} TextsOfExactly(items: seq<Content>, x: string)
    ensures x in TextsOf(items) <==> TextContent(x) in items
  {
    if items != [] {
      TextsOfExactly(items[..|items| - 1], x);
      assert items == items[..|items| - 1] + [items[|items| - 1]];
    }
  }

  /** A text is delivered exactly when it is a text item of an assistant
      message of this run. */
  lemma RunTextsExactly(msgs: seq<ThreadMessage>, runId: string, x: string)
    ensures x in RunTexts(msgs, runId) <==> exists i :: FromRun(msgs, runId, i) && TextContent(x) in msgs[i].content
  {
    if x in RunTexts(msgs, runId) {
      var i := RunTextsSound(msgs, runId, x);
    }
    if exists i :: FromRun(msgs, runId, i) && TextContent(x) in msgs[i].content {
      var i :| FromRun(msgs, runId, i) && TextContent(x) in msgs[i].content;
      RunTextsComplete(msgs, runId, i, x);
    }
  }

  lemma {:induction false} RunTextsSound(msgs: seq<ThreadMessage>, runId: string, x: string) returns (i: nat)
    requires x in RunTexts(msgs, runId)
    ensures FromRun(msgs, runId, i) && TextContent(x) in msgs[i].content
  {
    var n := |msgs| - 1;
    var init := msgs[..n];
    if x in RunTexts(init, runId) {
      i := RunTextsSound(init, runId, x);
      assert msgs[i] == init[i];
    } else {
      TextsOfExactly(msgs[n].content, x);
      i := n;
    }
  }

  lemma {:induction false} RunTextsComplete(msgs: seq<ThreadMessage>, runId: string, i: nat, x: string)
    requires FromRun(msgs, runId, i) && TextContent(x) in msgs[i].content
    ensures x in RunTexts(msgs, runId)
  {
    var n := |msgs| - 1;
    var init := msgs[..n];
    assert RunTexts(msgs, runId) == RunTexts(init, runId) + OwnTexts(msgs[n], runId);
    if i < n {
      assert init[i] == msgs[i];
      RunTextsComplete(init, runId, i, x);
    } else {
      TextsOfExactly(msgs[n].content, x);
      assert OwnTexts(msgs[n], runId) == TextsOf(msgs[n].content);
    }
  }

  /** The extraction loops of the completed branch. */
  method CollectReplies(msgs: seq<ThreadMessage>, runId: string) returns (texts: seq<string>)
    ensures texts == RunTexts(msgs, runId)
  {
    texts := [];
    for i := 0 to |msgs|
      invariant texts == RunTexts(msgs[..i], runId)
    {
      var msg := msgs[i];
      assert msgs[..i + 1][..i] == msgs[..i];
      if msg.role == AssistantRole && msg.runId == Some(runId) {
        ghost var before := texts;
        for j := 0 to |msg.content|
          invariant texts == before + TextsOf(msg.content[..j])
        {
          assert msg.content[..j + 1][..j] == msg.content[..j];
          if msg.content[j].TextContent? {
            texts := texts + [msg.content[j].value];
          }
        }
        assert msg.content[..|msg.content|] == msg.content;
      }
    }
    assert msgs[..|msgs|] == msgs;
  }

  // The image turn.

  const AnalysingNotice: string := "\U{1F50D} Estoy analizando la imagen. Esto puede tardar unos momentos..."
  const CannotProcessNotice: string := "\U{274C} No pude procesar la imagen. Por favor, intenta con otra imagen o consulta sin imagen."

  function UploadFailedNotice(error: string): string {
    "\U{26A0}\U{FE0F} No se pudo subir la imagen. Error: " + error
  }

  function NoReplyNotice(model: string): string {
    "\U{26A0}\U{FE0F} El asistente no gener\U{F3} una respuesta para la imagen. Modelo usado: " + model
  }

  function RunFailedNotice(status: Status, model: string): string {
    "\U{274C} El an\U{E1}lisis fall\U{F3} con estado: " + StatusName(status) + ". Modelo usado: " + model
  }

  function AnalysisErrorNotice(error: string): string {
    "Lo siento, ocurri\U{F3} un error al analizar la imagen: " + error
  }

  /** The history entry of the user's part of an image turn. */
  function ImageEntry(message: string, fileId: string): Entry {
    Entry(UserRole, message + " [IMAGEN adjuntada como archivo: " + fileId + "]")
  }

  /** What the provider does during an image turn, call by call. `error` is
      the text of the exception that ends a stage, when one does. */
  datatype ImageScript = ImageScript(
    model: Option<string>,               // assistants.retrieve: the model, None when it raised
    textPosted: bool,                    // messages.create with the text
    fileId: Option<string>,              // open and files.create: the file id, None when either raised
    fileAttached: bool,                  // messages.create with the image_file reference
    inlineAttached: bool,                // the base64 image_url fallback
    run: Option<(string, Status)>,       // runs.create: the run id and first status, None when it raised
    polls: seq<Poll>,                    // the poll loop's passes
    listed: Option<seq<ThreadMessage>>,  // messages.list, None when it raised
    error: string)

  /** `getattr(info, 'model', 'desconocido')`, or the default when the lookup raised. */
  function ModelName(model: Option<string>): string {
    if model.Some? then model.value else "desconocido"
  }

  /** What an image turn sends, what it adds to the history, and whether it is
      still waiting for the run when the poll script ends. */
  datatype ImageOutcome = ImageOutcome(sends: seq<string>, entries: seq<Entry>, pending: bool)

  function ImageTurn(message: string, sc: ImageScript): ImageOutcome {
    if !sc.textPosted || sc.fileId.None? then
      ImageOutcome([AnalysingNotice, UploadFailedNotice(sc.error)], [], false)
    else if !sc.fileAttached && !sc.inlineAttached then
      ImageOutcome([AnalysingNotice, CannotProcessNotice], [], false)
    else
      var user := [ImageEntry(message, sc.fileId.value)];
      match sc.run
      case None => ImageOutcome([AnalysingNotice, AnalysisErrorNotice(sc.error)], user, false)
      case Some((runId, first)) =>
        var a := Analysis(runId, first, sc);
        ImageOutcome([AnalysingNotice] + a.sends, user + a.entries, a.pending)
  }

  /** The turn from `runs.create` on: the poll loop, then what follows it. */
  function Analysis(runId: string, first: Status, sc: ImageScript): ImageOutcome {
    var r := PollRun(Start(first), sc.polls);
    if !Terminal(r.last.status) then ImageOutcome(r.notices, [], true)
    else
      var replies := if r.last.status == Completed && sc.listed.Some? then Replies(RunTexts(sc.listed.value, runId)) else [];
      ImageOutcome(r.notices + Closing(r.last.status, runId, ModelName(sc.model), sc.listed, sc.error), replies, false)
  }

  /** The messages sent after the loop, once the status is terminal. */
  function Closing(status: Status, runId: string, model: string, listed: Option<seq<ThreadMessage>>, error: string): seq<string> {
    if status != Completed then [RunFailedNotice(status, model)]
    else match listed
      case None => [AnalysisErrorNotice(error)]
      case Some(msgs) =>
        var texts := RunTexts(msgs, runId);
        if texts == [] then [NoReplyNotice(model)] else texts
  }

  /** Whether the user's message and image reached the thread. */
  predicate Attached(sc: ImageScript) {
    sc.textPosted && sc.fileId.Some? && (sc.fileAttached || sc.inlineAttached)
  }

  /** The turn is left waiting exactly when the run was created and the poll
      loop met no terminal status; every other path lowers the flag. */
  lemma ImagePendingIff(message: string, sc: ImageScript)
    ensures ImageTurn(message, sc).pending <==>
      Attached(sc) && sc.run.Some? && !Terminal(PollRun(Start(sc.run.value.1), sc.polls).last.status)
  {
  }

  /** The first message of every image turn is the "analysing" notice, and the
      history gains the user's entry exactly when the image was attached. */
  lemma ImageTurnShape(message: string, sc: ImageScript)
    ensures |ImageTurn(message, sc).sends| >= 1 && ImageTurn(message, sc).sends[0] == AnalysingNotice
    ensures |ImageTurn(message, sc).entries| > 0 <==> Attached(sc)
    ensures Attached(sc) ==> ImageTurn(message, sc).entries[0] == ImageEntry(message, sc.fileId.value)
  {
  }

  /** A failed upload, or an image no attachment form accepted, ends the turn
      after one notice and leaves the history alone. */
  lemma ImageNotAttached(message: string, sc: ImageScript)
    requires !Attached(sc)
    ensures var o := ImageTurn(message, sc);
      |o.sends| == 2 && o.entries == [] && !o.pending
    ensures sc.textPosted && sc.fileId.Some? ==> ImageTurn(message, sc).sends[1] == CannotProcessNotice
  {
  }

  /** On `completed`, the replies delivered after the loop's notices are the
      run's texts (which `RunTextsExactly` characterises), each recorded in the
      history; with none, one notice naming the model goes out instead. */
  lemma ImageRepliesDelivered(message: string, sc: ImageScript, runId: string, first: Status, msgs: seq<ThreadMessage>)
    requires Attached(sc) && sc.run == Some((runId, first)) && sc.listed == Some(msgs)
    requires PollRun(Start(first), sc.polls).last.status == Completed
    ensures var r := PollRun(Start(first), sc.polls);
      var texts := RunTexts(msgs, runId);
      var o := ImageTurn(message, sc);
      && o.sends == [AnalysingNotice] + r.notices + (if texts == [] then [NoReplyNotice(ModelName(sc.model))] else texts)
      && o.entries == [ImageEntry(message, sc.fileId.value)] + Replies(texts)
  {
  }

  /** Any other terminal status ends the turn with one notice naming it. */
  lemma ImageRunFailed(message: string, sc: ImageScript, runId: string, first: Status)
    requires Attached(sc) && sc.run == Some((runId, first))
    requires var s := PollRun(Start(first), sc.polls).last.status; Terminal(s) && s != Completed
    ensures var r := PollRun(Start(first), sc.polls);
      && ImageTurn(message, sc).sends == [AnalysingNotice] + r.notices + [RunFailedNotice(r.last.status, ModelName(sc.model))]
      && ImageTurn(message, sc).entries == [ImageEntry(message, sc.fileId.value)]
  {
  }

  // The history bound.

  const MaxMessages: nat := 20

  /** `message_history[-20:]` when the history is longer than 20. */
  function Trimmed(h: seq<Entry>): seq<Entry> {
    if |h| > MaxMessages then h[|h| - MaxMessages..] else h
  }

  /** The trimmed history is the history's last 20 entries, or all of it. */
  lemma TrimmedIsLast(h: seq<Entry>)
    ensures |Trimmed(h)| == if |h| <= MaxMessages then |h| else MaxMessages
    ensures h == h[..|h| - |Trimmed(h)|] + Trimmed(h)
  {
  }

  /** Trimming before more entries arrive ends in the same history as trimming after. */
  lemma TrimEarlyOrLate(h: seq<Entry>, more: seq<Entry>)
    ensures Trimmed(Trimmed(h) + more) == Trimmed(h + more)
  {
    if |h| > MaxMessages {
      var t := Trimmed(h);
      if |t + more| > MaxMessages {
        assert (t + more)[|t + more| - MaxMessages..] == (h + more)[|h + more| - MaxMessages..];
      }
    }
  }

  class AssistantHandler {
    var threads: ThreadTable
    var inProgress: map<string, bool>
    var history: seq<Entry>

    constructor ()
      ensures fresh(threads) && threads.entries == map[]
      ensures inProgress == map[] && history == []
    {
      threads := new ThreadTable();
      inProgress := map[];
      history := [];
    }

    /** `stream_response`: post the message, stream the reply and hand each
        paragraph to the callback. `posted` says whether the message was
        accepted; `deltas` are the text deltas that arrived and `completes`
        whether the stream then ended without an error. */
    method StreamResponse(g: int, message: string, posted: bool, deltas: seq<string>, completes: bool)
      returns (sent: seq<string>)
      modifies this
      ensures threads == old(threads)
      ensures ThreadOf(threads.entries, g).None? ==>
        sent == [] && inProgress == old(inProgress) && history == old(history)
      ensures ThreadOf(threads.entries, g).Some? && Busy(old(inProgress), ThreadOf(threads.entries, g).value) ==>
        sent == [BusyNotice] && inProgress == old(inProgress) && history == old(history)
      ensures ThreadOf(threads.entries, g).Some? && !Busy(old(inProgress), ThreadOf(threads.entries, g).value) ==>
        && inProgress == old(inProgress)[ThreadOf(threads.entries, g).value := false]
        && sent == (if posted then Delivered(deltas, completes) else [])
        && history == old(history) + (if posted then [Entry(UserRole, message)] + Replies(sent) else [])
    {
      sent := [];
      var found := ThreadOf(threads.entries, g);
      if found.None? {
        return;
      }
      var threadId := found.value;
      if Busy(inProgress, threadId) {
        sent := [BusyNotice];
        return;
      }
      sent := RunTextTurn(threadId, message, posted, deltas, completes);
    }

    /** The `try`/`finally` part of `stream_response`: the flag is raised, the
        message posted, the stream relayed, and the flag lowered again whether
        or not the post went through. */
    method RunTextTurn(threadId: string, message: string, posted: bool, deltas: seq<string>, completes: bool)
      returns (sent: seq<string>)
      modifies this
      ensures threads == old(threads)
      ensures inProgress == old(inProgress)[threadId := false]
      ensures posted ==> sent == Delivered(deltas, completes) && history == old(history) + [Entry(UserRole, message)] + Replies(sent)
      ensures !posted ==> sent == [] && history == old(history)
    {
      sent := [];
      inProgress := inProgress[threadId := true];
      if posted {
        history := history + [Entry(UserRole, message)];
        sent := RelayStream(deltas, completes);
      }
      inProgress := inProgress[threadId := false];
      FlagLowered(old(inProgress), threadId);
    }

    /** The `create_and_stream` block: each blank line that arrives ends a
        paragraph, which goes out stripped unless blank; the rest of the
        buffer goes out when the stream ends without an error. */
    method RelayStream(deltas: seq<string>, completes: bool) returns (sent: seq<string>)
      modifies this
      ensures sent == Delivered(deltas, completes)
      ensures history == old(history) + Replies(sent)
      ensures threads == old(threads) && inProgress == old(inProgress)
    {
      sent := [];
      var buffer := "";
      ghost var pieces: seq<string> := [];
      for k := 0 to |deltas|
        invariant FeedAll(deltas[..k]) == Stream(buffer, pieces)
        invariant sent == Kept(pieces) && history == old(history) + Replies(sent)
        invariant threads == old(threads) && inProgress == old(inProgress)
      {
        FeedStep(deltas, k);
        var paragraph;
        buffer, paragraph := SplitParagraph(buffer, deltas[k], pieces);
        if paragraph.Some? {
          KeptAppend(pieces, paragraph.value);
          var processedText := Strip(paragraph.value);
          if processedText != [] {
            RepliesAfter(old(history), sent, processedText);
            sent := sent + [processedText];
            Record(processedText);
          }
          pieces := pieces + [paragraph.value];
        }
      }
      assert deltas[..|deltas|] == deltas;
      if completes && Strip(buffer) != [] {
        var processedText := Strip(buffer);
        RepliesAfter(old(history), sent, processedText);
        sent := sent + [processedText];
        Record(processedText);
      }
    }

    /** `message_history.append` of one assistant reply. */
    method Record(text: string)
      modifies this
      ensures history == old(history) + [Entry(AssistantRole, text)]
      ensures threads == old(threads) && inProgress == old(inProgress)
    {
      history := history + [Entry(AssistantRole, text)];
    }

    /** `stream_image_response`: the same two early returns as a text turn;
        otherwise the flag is raised for the whole turn and lowered on every
        exit, unless the poll script ends while the run is still going. */
    method StreamImageResponse(g: int, message: string, sc: ImageScript) returns (sent: seq<string>)
      modifies this
      ensures threads == old(threads)
      ensures ThreadOf(threads.entries, g).None? ==>
        sent == [] && inProgress == old(inProgress) && history == old(history)
      ensures ThreadOf(threads.entries, g).Some? && Busy(old(inProgress), ThreadOf(threads.entries, g).value) ==>
        sent == [BusyNotice] && inProgress == old(inProgress) && history == old(history)
      ensures ThreadOf(threads.entries, g).Some? && !Busy(old(inProgress), ThreadOf(threads.entries, g).value) ==>
        && inProgress == old(inProgress)[ThreadOf(threads.entries, g).value := ImageTurn(message, sc).pending]
        && sent == ImageTurn(message, sc).sends
        && history == old(history) + ImageTurn(message, sc).entries
    {
      sent := [];
      var found := ThreadOf(threads.entries, g);
      if found.None? {
        return;
      }
      var threadId := found.value;
      if Busy(inProgress, threadId) {
        sent := [BusyNotice];
        return;
      }
      sent := RunImageTurn(threadId, message, sc);
    }

    /** The `try`/`finally` part of `stream_image_response`. */
    method RunImageTurn(threadId: string, message: string, sc: ImageScript) returns (sent: seq<string>)
      modifies this
      ensures threads == old(threads)
      ensures inProgress == old(inProgress)[threadId := ImageTurn(message, sc).pending]
      ensures sent == ImageTurn(message, sc).sends
      ensures history == old(history) + ImageTurn(message, sc).entries
    {
      ghost var flags := inProgress;
      inProgress := inProgress[threadId := true];
      sent := [AnalysingNotice];
      if !sc.textPosted || sc.fileId.None? {
        assert ImageTurn(message, sc) == ImageOutcome([AnalysingNotice, UploadFailedNotice(sc.error)], [], false);
        sent := sent + [UploadFailedNotice(sc.error)];
        inProgress := inProgress[threadId := false];
        FlagLowered(flags, threadId);
        return;
      }
      var fileId := sc.fileId.value;
      if !sc.fileAttached && !sc.inlineAttached {
        assert ImageTurn(message, sc) == ImageOutcome([AnalysingNotice, CannotProcessNotice], [], false);
        sent := sent + [CannotProcessNotice];
        inProgress := inProgress[threadId := false];
        FlagLowered(flags, threadId);
        return;
      }
      history := history + [ImageEntry(message, fileId)];
      if sc.run.None? {
        assert ImageTurn(message, sc) == ImageOutcome([AnalysingNotice, AnalysisErrorNotice(sc.error)], [ImageEntry(message, fileId)], false);
        sent := sent + [AnalysisErrorNotice(sc.error)];
        inProgress := inProgress[threadId := false];
        FlagLowered(flags, threadId);
        return;
      }
      var (runId, first) := sc.run.value;
      ghost var a := Analysis(runId, first, sc);
      assert ImageTurn(message, sc) == ImageOutcome([AnalysingNotice] + a.sends, [ImageEntry(message, fileId)] + a.entries, a.pending);
      var analysed := RunAnalysis(threadId, runId, first, sc);
      sent := sent + analysed;
      if !a.pending {
        FlagLowered(flags, threadId);
      }
    }

    /** From `runs.create` on; the flag is lowered once the status is
        terminal, and stays as it was while the run is still awaited. */
    method RunAnalysis(threadId: string, runId: string, first: Status, sc: ImageScript) returns (sent: seq<string>)
      modifies this
      ensures threads == old(threads)
      ensures inProgress == if Analysis(runId, first, sc).pending then old(inProgress) else old(inProgress)[threadId := false]
      ensures sent == Analysis(runId, first, sc).sends
      ensures history == old(history) + Analysis(runId, first, sc).entries
    {
      var w, notices, passes := WaitForRun(first, sc.polls);
      sent := notices;
      if !Terminal(w.status) {
        // the script ends while the loop is still polling
        return;
      }
      var closing := Conclude(w.status, runId, ModelName(sc.model), sc.listed, sc.error);
      sent := sent + closing;
      inProgress := inProgress[threadId := false];
    }

    /** What follows the poll loop once the status is terminal: the run's
        replies, each recorded in the history, or one notice. */
    method Conclude(status: Status, runId: string, modelName: string, listed: Option<seq<ThreadMessage>>, error: string)
      returns (sent: seq<string>)
      modifies this
      ensures threads == old(threads) && inProgress == old(inProgress)
      ensures sent == Closing(status, runId, modelName, listed, error)
      ensures history == old(history) + (if status == Completed && listed.Some? then Replies(RunTexts(listed.value, runId)) else [])
    {
      if status != Completed {
        sent := [RunFailedNotice(status, modelName)];
      } else if listed.None? {
        sent := [AnalysisErrorNotice(error)];
      } else {
        var assistantMessages := CollectReplies(listed.value, runId);
        if assistantMessages == [] {
          sent := [NoReplyNotice(modelName)];
        } else {
          sent := Deliver(assistantMessages);
        }
      }
    }

    /** The delivery loop: each reply is sent and recorded, in order. */
    method Deliver(texts: seq<string>) returns (sent: seq<string>)
      modifies this
      ensures threads == old(threads) && inProgress == old(inProgress)
      ensures sent == texts && history == old(history) + Replies(texts)
    {
      sent := [];
      for i := 0 to |texts|
        invariant sent == texts[..i]
        invariant history == old(history) + Replies(sent)
        invariant threads == old(threads) && inProgress == old(inProgress)
      {
        RepliesAfter(old(history), sent, texts[i]);
        assert texts[..i + 1] == sent + [texts[i]];
        sent := sent + [texts[i]];
        Record(texts[i]);
      }
      assert texts[..|texts|] == texts;
    }

    /** `trim_message_history`. */
    method TrimMessageHistory()
      modifies this
      ensures history == Trimmed(old(history))
      ensures threads == old(threads) && inProgress == old(inProgress)
    {
      if |history| > MaxMessages {
        history := history[|history| - MaxMessages..];
      }
    }
  }
}
