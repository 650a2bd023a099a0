/** `src/commands/agent-logs.ts`: the cursor that follows two append-only
    sources, one poll after the other. */
module AgentLogs {
  import opened Sorting
  import opened Text

  datatype Source = Audit | Messages

  /** An audit event or a message row; `id` tells it from every other one of
      its source, `ts` is its timestamp. */
  datatype Event = Event(source: Source, id: nat, ts: int, line: string)

  type Cursor = Option<int>

  datatype Write = Item(event: Event) | Transcript(messages: seq<Event>) | Terminal(status: string)

  /** What one poll finds: the events the two sources hold by now, what the
      two readers return of them, and the job's status, which the dump and
      then the loop each look up. `aborted` is the signal when the loop looks
      at it. */
  datatype Poll = Poll(
    aborted: bool, held: set<Event>, audit: seq<Event>, messages: seq<Event>,
    dumpStatus: Option<string>, loopStatus: Option<string>)

  predicate IsTerminal(status: Option<string>): (r: bool)
    ensures r ==> status.Some?
  {
    status.Some? && status.value in {"completed", "failed", "dead", "cancelled"}
  }

  predicate Above(cursor: Cursor, e: Event) {
    cursor.Some? ==> cursor.value < e.ts
  }

  predicate EarlierOrSame(a: Event, b: Event) {
    a.ts <= b.ts
  }

  // ------------------------------------------------------------ one poll

  function NewEvents(cursor: Cursor, events: seq<Event>): (r: seq<Event>)
    ensures forall e :: e in r <==> e in events && Above(cursor, e)
  {
    if events == [] then [] else
      var last := events[|events| - 1];
      NewEvents(cursor, events[..|events| - 1]) + if Above(cursor, last) then [last] else []
  }

  /** The merged timeline of a poll. */
  function Timeline(cursor: Cursor, poll: Poll): seq<Event> {
    Sort(NewEvents(cursor, poll.audit) + NewEvents(cursor, poll.messages), EarlierOrSame)
  }

  function MaxTs(cursor: Cursor, events: seq<Event>): Cursor {
    if events == [] then cursor else
      var before := MaxTs(cursor, events[..|events| - 1]);
      var last := events[|events| - 1];
      if before.None? || last.ts > before.value then Some(last.ts) else before
  }

  function Items(events: seq<Event>): seq<Write> {
    seq(|events|, i requires 0 <= i < |events| => Item(events[i]))
  }

  function Tail(cursor: Cursor, poll: Poll): seq<Write> {
    if poll.messages != [] && cursor == None && IsTerminal(poll.dumpStatus) then [Transcript(poll.messages)] else []
  }

  method PushNew(before: seq<Event>, cursor: Cursor, events: seq<Event>) returns (merged: seq<Event>)
    ensures merged == before + NewEvents(cursor, events)
  {
    merged := before;
    for i := 0 to |events|
      invariant merged == before + NewEvents(cursor, events[..i])
    {
      assert events[..i + 1][..i] == events[..i];
      var e := events[i];
      if cursor.Some? && e.ts <= cursor.value { continue; }
      merged := merged + [e];
    }
    assert events[..|events|] == events;
  }

  method WriteAll(cursor: Cursor, merged: seq<Event>) returns (out: seq<Write>, maxTs: Cursor)
    ensures out == Items(merged) && maxTs == MaxTs(cursor, merged)
  {
    out, maxTs := [], cursor;
    for i := 0 to |merged|
      invariant out == Items(merged[..i]) && maxTs == MaxTs(cursor, merged[..i])
    {
      assert merged[..i + 1][..i] == merged[..i];
      out := out + [Item(merged[i])];
      if maxTs.None? || merged[i].ts > maxTs.value { maxTs := Some(merged[i].ts); }
    }
    assert merged[..|merged|] == merged;
  }

  method DumpSince(cursor: Cursor, poll: Poll) returns (out: seq<Write>, maxTs: Cursor)
    ensures out == Items(Timeline(cursor, poll)) + Tail(cursor, poll)
    ensures maxTs == MaxTs(cursor, Timeline(cursor, poll))
  {
    hide Sort;
    hide IsTerminal;
    hide Items;
    hide NewEvents;
    hide MaxTs;
    var merged := PushNew([], cursor, poll.audit);
    merged := PushNew(merged, cursor, poll.messages);
    assert merged == NewEvents(cursor, poll.audit) + NewEvents(cursor, poll.messages);
    merged := Sort(merged, EarlierOrSame);
    out, maxTs := WriteAll(cursor, merged);
    if |poll.messages| > 0 && cursor.None? {
      if IsTerminal(poll.dumpStatus) {
        out := out + [Transcript(poll.messages)];
      }
    }
  }

  // ------------------------------------------------------------- the run

  datatype Log = Log(cursor: Cursor, out: seq<Write>, done: bool)

  function Dumped(log: Log, poll: Poll): Log {
    log.(cursor := MaxTs(log.cursor, Timeline(log.cursor, poll)),
         out := log.out + Items(Timeline(log.cursor, poll)) + Tail(log.cursor, poll))
  }

  /** The seeded render, then each round of the follow loop. */
  function After(since: Cursor, polls: seq<Poll>): Log {
    if polls == [] then Log(since, [], false) else
      var before, poll := After(since, polls[..|polls| - 1]), polls[|polls| - 1];
      if |polls| == 1 then Dumped(before, poll)
      else if before.done then before
      else if poll.aborted then before.(done := true)
      else
        var dumped := Dumped(before, poll);
        if IsTerminal(poll.loopStatus) then dumped.(out := dumped.out + [Terminal(poll.loopStatus.value)], done := true)
        else dumped
  }

  /** `runAgentLogs`, for as long as the polls given. */
  method RunAgentLogs(since: Cursor, polls: seq<Poll>, follow: bool) returns (out: seq<Write>)
    requires polls != []
    ensures out == After(since, if follow then polls else polls[..1]).out
  {
    hide *;
    var lastTs;
    out, lastTs := DumpSince(since, polls[0]);
    Seeded(since, polls);
    if !follow { return; }
    var k := 1;
    while k < |polls|
      invariant 1 <= k <= |polls|
      invariant After(since, polls[..k]) == Log(lastTs, out, false)
    {
      var poll := polls[k];
      Round(since, polls, k, Log(lastTs, out, false));
      if poll.aborted {
        StaysDone(since, polls, k + 1);
        return;
      }
      var more;
      more, lastTs := DumpSince(lastTs, poll);
      out := out + more;
      if IsTerminal(poll.loopStatus) {
        out := out + [Terminal(poll.loopStatus.value)];
        StaysDone(since, polls, k + 1);
        return;
      }
      k := k + 1;
    }
    assert polls[..k] == polls;
  }

  lemma Seeded(since: Cursor, polls: seq<Poll>)
    requires polls != []
    ensures var timeline := Timeline(since, polls[0]);
            After(since, polls[..1]) == Log(MaxTs(since, timeline), Items(timeline) + Tail(since, polls[0]), false)
  {
    hide Timeline;
    hide MaxTs;
    hide Items;
    hide Tail;
    assert polls[..1][..0] == [];
  }

  /** One round of the follow loop, from the log before it. */
  lemma Round(since: Cursor, polls: seq<Poll>, k: nat, log: Log)
    requires 1 <= k < |polls| && After(since, polls[..k]) == log && !log.done
    ensures var poll := polls[k];
            var timeline := Timeline(log.cursor, poll);
            var dumped := Log(MaxTs(log.cursor, timeline), log.out + (Items(timeline) + Tail(log.cursor, poll)), false);
            After(since, polls[..k + 1]) ==
            if poll.aborted then log.(done := true)
            else if IsTerminal(poll.loopStatus) then
              dumped.(out := dumped.out + [Terminal(poll.loopStatus.value)], done := true)
            else dumped
  {
    hide Timeline;
    hide MaxTs;
    hide Items;
    hide Tail;
    hide IsTerminal;
    assert polls[..k + 1][..k] == polls[..k];
  }

  lemma {:induction false} StaysDone(since: Cursor, polls: seq<Poll>, k: nat)
    requires 1 <= k <= |polls| && After(since, polls[..k]).done
    ensures After(since, polls) == After(since, polls[..k])
    decreases |polls| - k
  {
    hide Dumped;
    if k < |polls| {
      assert polls[..k + 1][..k] == polls[..k];
      StaysDone(since, polls, k + 1);
    } else {
      assert polls[..k] == polls;
    }
  }

  // ------------------------------------------------------- what is shown

  /** The events among the writes, in order. */
  function Shown(out: seq<Write>): seq<Event> {
    if out == [] then [] else
      var last := out[|out| - 1];
      Shown(out[..|out| - 1]) + if last.Item? then [last.event] else []
  }

  lemma {:induction false} ShownConcat(a: seq<Write>, b: seq<Write>)
    ensures Shown(a + b) == Shown(a) + Shown(b)
  {
    if b == [] {
      assert a + b == a;
    } else {
      assert (a + b)[..|a + b| - 1] == a + b[..|b| - 1];
      ShownConcat(a, b[..|b| - 1]);
    }
  }

  lemma {:induction false} ShownItems(events: seq<Event>)
    ensures Shown(Items(events)) == events
  {
    if events != [] {
      assert Items(events)[..|events| - 1] == Items(events[..|events| - 1]);
      ShownItems(events[..|events| - 1]);
    }
  }

  lemma ShownAfterDump(log: Log, poll: Poll)
    ensures Shown(Dumped(log, poll).out) == Shown(log.out) + Timeline(log.cursor, poll)
  {
    hide Timeline;
    hide Shown;
    hide Items;
    var timeline, tail := Timeline(log.cursor, poll), Tail(log.cursor, poll);
    ShownConcat(log.out + Items(timeline), tail);
    ShownConcat(log.out, Items(timeline));
    ShownItems(timeline);
    assert Shown(tail) == [] by {
      ShownOther(tail);
    }
  }

  lemma ShownOther(out: seq<Write>)
    requires |out| <= 1 && forall w :: w in out ==> !w.Item?
    ensures Shown(out) == []
  {
  }

  lemma ShownTerminal(out: seq<Write>, status: string)
    ensures Shown(out + [Terminal(status)]) == Shown(out)
  {
    ShownConcat(out, [Terminal(status)]);
    ShownOther([Terminal(status)]);
  }

  predicate NoRepeats(events: seq<Event>) {
    forall i, j :: 0 <= i < j < |events| ==> events[i] != events[j]
  }

  /** The audit reader and the transcript loader return, once each, some of
      the events held and at least every one above the cursor. */
  predicate Answers(cursor: Cursor, poll: Poll) {
    && NoRepeats(poll.audit + poll.messages)
    && (forall e :: e in poll.audit + poll.messages ==> e in poll.held)
    && (forall e :: e in poll.held && Above(cursor, e) ==> e in poll.audit + poll.messages)
  }

  /** Sources that only grow, read faithfully at every poll. */
  predicate Served(since: Cursor, polls: seq<Poll>) {
    && (forall k :: 0 <= k < |polls| ==> Answers(After(since, polls[..k]).cursor, polls[k]))
    && (forall j, k :: 0 <= j < k < |polls| ==> polls[j].held <= polls[k].held)
  }

  /** Poll `k` of the run really dumps. */
  predicate Dumps(since: Cursor, polls: seq<Poll>, k: nat)
    requires k < |polls|
  {
    k == 0 || (!After(since, polls[..k]).done && !polls[k].aborted)
  }

  /** Poll `k` dumps, is the first to see `e`, and has a cursor below it. */
  predicate SeenAbove(since: Cursor, polls: seq<Poll>, k: nat, e: Event)
    requires k < |polls|
  {
    && Dumps(since, polls, k) && e in polls[k].held
    && (forall j :: 0 <= j < k ==> e !in polls[j].held)
    && Above(After(since, polls[..k]).cursor, e)
  }

  predicate Chronological(events: seq<Event>) {
    forall i, j :: 0 <= i < j < |events| ==> events[i].ts <= events[j].ts
  }

  lemma {:induction false} NewEventsOnce(cursor: Cursor, events: seq<Event>)
    requires NoRepeats(events)
    ensures NoRepeats(NewEvents(cursor, events))
  {
    if events != [] {
      NewEventsOnce(cursor, events[..|events| - 1]);
    }
  }

  lemma SameElementsNoRepeats(a: seq<Event>, b: seq<Event>)
    requires multiset(a) == multiset(b) && NoRepeats(a)
    ensures NoRepeats(b)
    ensures forall e :: e in a <==> e in b
  {
    forall e ensures e in a <==> e in b {
      assert e in a <==> e in multiset(a);
      assert e in b <==> e in multiset(b);
    }
    forall i, j | 0 <= i < j < |b| ensures b[i] != b[j] {
      if b[i] == b[j] {
        assert b == b[..j] + [b[j]] + b[j + 1..];
        assert b[..j][i] == b[j];
        assert multiset(b)[b[j]] >= 2;
        OnceOnly(a, b[j]);
      }
    }
  }

  lemma {:induction false} OnceOnly(a: seq<Event>, e: Event)
    requires NoRepeats(a)
    ensures multiset(a)[e] <= 1
    ensures e !in a ==> multiset(a)[e] == 0
  {
    if a != [] {
      var init := a[..|a| - 1];
      assert a == init + [a[|a| - 1]];
      OnceOnly(init, e);
    }
  }

  predicate Apart(a: seq<Event>, b: seq<Event>) {
    forall i, j :: 0 <= i < |a| && 0 <= j < |b| ==> a[i] != b[j]
  }

  lemma RepeatsSplit(a: seq<Event>, b: seq<Event>)
    ensures NoRepeats(a + b) <==> NoRepeats(a) && NoRepeats(b) && Apart(a, b)
  {
    var both := a + b;
    assert forall i :: 0 <= i < |a| ==> both[i] == a[i];
    assert forall i :: 0 <= i < |b| ==> both[|a| + i] == b[i];
    if NoRepeats(both) {
      forall i, j | 0 <= i < j < |a| ensures a[i] != a[j] { assert both[i] != both[j]; }
      forall i, j | 0 <= i < j < |b| ensures b[i] != b[j] { assert both[|a| + i] != both[|a| + j]; }
      forall i, j | 0 <= i < |a| && 0 <= j < |b| ensures a[i] != b[j] { assert both[i] != both[|a| + j]; }
    }
  }

  /** A poll shows, in order and once each, the events held above its cursor. */
  lemma TimelineMeans(cursor: Cursor, poll: Poll)
    requires Answers(cursor, poll)
    ensures Chronological(Timeline(cursor, poll)) && NoRepeats(Timeline(cursor, poll))
    ensures forall e :: e in Timeline(cursor, poll) <==> e in poll.held && Above(cursor, e)
  {
    hide Sort;
    hide NewEvents;
    var a, m := NewEvents(cursor, poll.audit), NewEvents(cursor, poll.messages);
    RepeatsSplit(poll.audit, poll.messages);
    NewEventsOnce(cursor, poll.audit);
    NewEventsOnce(cursor, poll.messages);
    assert Apart(a, m) by {
      assert forall i :: 0 <= i < |a| ==> a[i] in poll.audit;
      assert forall i :: 0 <= i < |m| ==> m[i] in poll.messages;
    }
    RepeatsSplit(a, m);
    SortElements(a + m, EarlierOrSame);
    SortSorted(a + m, EarlierOrSame);
    SameElementsNoRepeats(a + m, Timeline(cursor, poll));
  }

  lemma {:induction false} MaxTsMeans(cursor: Cursor, events: seq<Event>)
    requires Chronological(events) && forall e :: e in events ==> Above(cursor, e)
    ensures MaxTs(cursor, events) == if events == [] then cursor else Some(events[|events| - 1].ts)
  {
    if |events| == 1 {
      assert events[0] in events;
    } else if |events| > 1 {
      assert events[|events| - 2].ts <= events[|events| - 1].ts;
      MaxTsMeans(cursor, events[..|events| - 1]);
    }
  }

  // ------------------------------------------------------------ the laws

  /** What holds after any number of polls. */
  ghost predicate Faithful(since: Cursor, polls: seq<Poll>) {
    var log := After(since, polls);
    var shown := Shown(log.out);
    && Chronological(shown) && NoRepeats(shown)
    && (forall e :: e in shown ==> !Above(log.cursor, e))
    && (forall e :: e in shown <==> exists k :: 0 <= k < |polls| && SeenAbove(since, polls, k, e))
    && (since.Some? ==> log.cursor.Some? && since.value <= log.cursor.value)
    && (forall k, e :: 0 <= k < |polls| && Dumps(since, polls, k) && e in polls[k].held ==> !Above(log.cursor, e))
  }

  /** The cursor after a poll is at or above everything held. */
  lemma CursorCovers(cursor: Cursor, poll: Poll)
    requires Answers(cursor, poll)
    ensures var after := MaxTs(cursor, Timeline(cursor, poll));
            && (forall e :: e in poll.held ==> !Above(after, e))
            && (forall e :: !Above(cursor, e) ==> !Above(after, e))
  {
    hide Timeline;
    hide MaxTs;
    var timeline := Timeline(cursor, poll);
    TimelineMeans(cursor, poll);
    MaxTsMeans(cursor, timeline);
    if timeline != [] {
      assert timeline[|timeline| - 1] in timeline;
      forall e | e in poll.held && Above(cursor, e) ensures e.ts <= timeline[|timeline| - 1].ts {
        var i :| 0 <= i < |timeline| && timeline[i] == e;
        assert i < |timeline| - 1 ==> timeline[i].ts <= timeline[|timeline| - 1].ts;
      }
    }
  }

  /** A poll that dumps follows only polls that dump. */
  lemma {:induction false} EarlierDump(since: Cursor, polls: seq<Poll>, k: nat, j: nat)
    requires j <= k < |polls| && Dumps(since, polls, k)
    ensures Dumps(since, polls, j)
  {
    hide Dumped;
    if j < k {
      assert polls[..k][..k - 1] == polls[..k - 1];
      assert Dumps(since, polls, k - 1);
      EarlierDump(since, polls, k - 1, j);
    }
  }

  lemma DumpsByPrefix(since: Cursor, polls: seq<Poll>, n: nat, k: nat)
    requires k < n <= |polls|
    ensures Dumps(since, polls[..n], k) == Dumps(since, polls, k)
  {
    hide After;
    assert polls[..n][..k] == polls[..k];
  }

  lemma SeenByPrefix(since: Cursor, polls: seq<Poll>, n: nat, k: nat, e: Event)
    requires k < n <= |polls|
    ensures SeenAbove(since, polls[..n], k, e) == SeenAbove(since, polls, k, e)
    ensures Dumps(since, polls[..n], k) == Dumps(since, polls, k)
  {
    hide After;
    assert polls[..n][..k] == polls[..k];
  }

  /** What the last poll shows is what it is the first to see, above its cursor. */
  lemma ShownIsNew(since: Cursor, polls: seq<Poll>, e: Event)
    requires polls != [] && Answers(After(since, polls[..|polls| - 1]).cursor, polls[|polls| - 1])
    requires Dumps(since, polls, |polls| - 1) && Faithful(since, polls[..|polls| - 1])
    ensures e in Timeline(After(since, polls[..|polls| - 1]).cursor, polls[|polls| - 1]) <==>
            SeenAbove(since, polls, |polls| - 1, e)
  {
    hide After;
    hide Timeline;
    hide Answers;
    var last := |polls| - 1;
    var before := After(since, polls[..last]);
    TimelineMeans(before.cursor, polls[last]);
    if e in polls[last].held && Above(before.cursor, e) {
      forall k | 0 <= k < last ensures e !in polls[k].held {
        EarlierDump(since, polls, last, k);
        SeenByPrefix(since, polls, last, k, e);
        assert polls[..last][k] == polls[k];
      }
    }
  }

  lemma DumpOrder(shown: seq<Event>, cursor: Cursor, timeline: seq<Event>)
    requires Chronological(shown) && NoRepeats(shown) && forall e :: e in shown ==> !Above(cursor, e)
    requires Chronological(timeline) && NoRepeats(timeline) && forall e :: e in timeline ==> Above(cursor, e)
    ensures Chronological(shown + timeline) && NoRepeats(shown + timeline)
  {
    assert forall i :: 0 <= i < |shown| ==> shown[i] in shown;
    assert forall i :: 0 <= i < |timeline| ==> timeline[i] in timeline;
    assert Apart(shown, timeline);
    RepeatsSplit(shown, timeline);
  }

  /** The log after all the polls, from the log before the last. */
  lemma LastPoll(since: Cursor, polls: seq<Poll>)
    requires polls != []
    ensures var before, after, poll := After(since, polls[..|polls| - 1]), After(since, polls), polls[|polls| - 1];
            if Dumps(since, polls, |polls| - 1) then
              && Shown(after.out) == Shown(before.out) + Timeline(before.cursor, poll)
              && after.cursor == MaxTs(before.cursor, Timeline(before.cursor, poll))
            else Shown(after.out) == Shown(before.out) && after.cursor == before.cursor
  {
    hide Timeline;
    hide MaxTs;
    hide Shown;
    hide IsTerminal;
    var before, poll := After(since, polls[..|polls| - 1]), polls[|polls| - 1];
    ShownAfterDump(before, poll);
    if poll.loopStatus.Some? {
      ShownTerminal(Dumped(before, poll).out, poll.loopStatus.value);
    }
  }

  lemma {:induction false} StaysFaithful(since: Cursor, polls: seq<Poll>)
    requires Served(since, polls)
    ensures Faithful(since, polls)
    decreases |polls|
  {
    hide After;
    hide Timeline;
    hide MaxTs;
    hide Shown;
    hide Answers;
    hide SeenAbove;
    hide Faithful;
    if polls == [] {
      NoPollsFaithful(since);
    } else {
      var last := |polls| - 1;
      var prev := polls[..last];
      assert forall k :: 0 <= k < last ==> prev[k] == polls[k] && prev[..k] == polls[..k];
      StaysFaithful(since, prev);
      FaithfulStep(since, polls);
    }
  }

  lemma NoPollsFaithful(since: Cursor)
    ensures Faithful(since, [])
  {
  }

  lemma FaithfulStep(since: Cursor, polls: seq<Poll>)
    requires polls != [] && Faithful(since, polls[..|polls| - 1])
    requires Answers(After(since, polls[..|polls| - 1]).cursor, polls[|polls| - 1])
    ensures Faithful(since, polls)
  {
    hide After;
    hide Timeline;
    hide MaxTs;
    hide Shown;
    hide Answers;
    hide SeenAbove;
    hide Dumps;
    var last := |polls| - 1;
    var prev, poll := polls[..last], polls[last];
    var before, after := After(since, prev), After(since, polls);
    LastPoll(since, polls);
    ShownFaithfully(since, polls);
    TimelineMeans(before.cursor, poll);
    CursorCovers(before.cursor, poll);
    forall k, e | 0 <= k < |polls| && Dumps(since, polls, k) && e in polls[k].held ensures !Above(after.cursor, e) {
      if k < last {
        SeenByPrefix(since, polls, last, k, e);
        assert prev[k] == polls[k];
      }
    }
    if Dumps(since, polls, last) {
      DumpOrder(Shown(before.out), before.cursor, Timeline(before.cursor, poll));
    }
    CursorGrows(before.cursor, Timeline(before.cursor, poll));
  }

  lemma {:induction false} CursorGrows(cursor: Cursor, events: seq<Event>)
    ensures cursor.Some? ==> MaxTs(cursor, events).Some? && cursor.value <= MaxTs(cursor, events).value
  {
    if events != [] {
      CursorGrows(cursor, events[..|events| - 1]);
    }
  }

  lemma ShownFaithfully(since: Cursor, polls: seq<Poll>)
    requires polls != [] && Faithful(since, polls[..|polls| - 1])
    requires Answers(After(since, polls[..|polls| - 1]).cursor, polls[|polls| - 1])
    ensures forall e :: e in Shown(After(since, polls).out) <==>
              exists k :: 0 <= k < |polls| && SeenAbove(since, polls, k, e)
  {
    hide After;
    hide Timeline;
    hide Shown;
    hide Answers;
    hide Faithful;
    var last := |polls| - 1;
    var before := After(since, polls[..last]);
    LastPoll(since, polls);
    ShownBefore(since, polls[..last]);
    forall e ensures e in Shown(After(since, polls).out) <==>
                     exists k :: 0 <= k < |polls| && SeenAbove(since, polls, k, e) {
      hide SeenAbove;
      if Dumps(since, polls, last) {
        ShownIsNew(since, polls, e);
      } else {
        NotDumped(since, polls, e);
      }
      forall k | 0 <= k < last ensures SeenAbove(since, polls[..last], k, e) == SeenAbove(since, polls, k, e) {
        SeenByPrefix(since, polls, last, k, e);
      }
    }
  }

  lemma NotDumped(since: Cursor, polls: seq<Poll>, e: Event)
    requires polls != [] && !Dumps(since, polls, |polls| - 1)
    ensures !SeenAbove(since, polls, |polls| - 1, e)
  {
  }

  lemma ShownBefore(since: Cursor, polls: seq<Poll>)
    requires Faithful(since, polls)
    ensures forall e :: e in Shown(After(since, polls).out) <==> exists k :: 0 <= k < |polls| && SeenAbove(since, polls, k, e)
  {
    hide After;
    hide SeenAbove;
    hide Shown;
  }

  /** Over any run of polls on sources that only grow, the lines written are
      in order of time, none is written twice, and an event is written
      exactly when the first poll to see it had its cursor below it. */
  lemma FollowsFaithfully(since: Cursor, polls: seq<Poll>)
    requires Served(since, polls)
    ensures var shown := Shown(After(since, polls).out);
            && Chronological(shown) && NoRepeats(shown)
            && (forall e :: e in shown <==> exists k :: 0 <= k < |polls| && SeenAbove(since, polls, k, e))
  {
    hide After;
    hide SeenAbove;
    hide Shown;
    StaysFaithful(since, polls);
  }

  /** An event that first appears at or below the cursor is never written. */
  lemma LateEventLost(since: Cursor, polls: seq<Poll>, k: nat, e: Event)
    requires Served(since, polls) && k < |polls| && Dumps(since, polls, k)
    requires e in polls[k].held && (forall j :: 0 <= j < k ==> e !in polls[j].held)
    requires !Above(After(since, polls[..k]).cursor, e)
    ensures e !in Shown(After(since, polls).out)
  {
    hide After;
    hide Shown;
    hide Dumps;
    hide Served;
    FollowsFaithfully(since, polls);
  }

  function Transcripts(out: seq<Write>): nat {
    if out == [] then 0 else
      Transcripts(out[..|out| - 1]) + if out[|out| - 1].Transcript? then 1 else 0
  }

  lemma {:induction false} TranscriptsConcat(a: seq<Write>, b: seq<Write>)
    ensures Transcripts(a + b) == Transcripts(a) + Transcripts(b)
  {
    if b == [] {
      assert a + b == a;
    } else {
      assert (a + b)[..|a + b| - 1] == a + b[..|b| - 1];
      TranscriptsConcat(a, b[..|b| - 1]);
    }
  }

  lemma {:induction false} TranscriptsInItems(events: seq<Event>)
    ensures Transcripts(Items(events)) == 0
  {
    if events != [] {
      assert Items(events)[..|events| - 1] == Items(events[..|events| - 1]);
      TranscriptsInItems(events[..|events| - 1]);
    }
  }

  /** Poll `k` is the first with anything to show, with no `--since`, and
      finds the job over. */
  predicate OverAtFirstSight(since: Cursor, polls: seq<Poll>, k: nat)
    requires k < |polls|
  {
    && Dumps(since, polls, k) && After(since, polls[..k]).cursor == None
    && polls[k].messages != [] && IsTerminal(polls[k].dumpStatus)
  }

  lemma LastTranscript(since: Cursor, polls: seq<Poll>)
    requires polls != []
    ensures Transcripts(After(since, polls).out) == Transcripts(After(since, polls[..|polls| - 1]).out) +
            if OverAtFirstSight(since, polls, |polls| - 1) then 1 else 0
  {
    hide Timeline;
    hide MaxTs;
    hide Transcripts;
    hide Items;
    hide IsTerminal;
    var before, poll := After(since, polls[..|polls| - 1]), polls[|polls| - 1];
    var items, tail := Items(Timeline(before.cursor, poll)), Tail(before.cursor, poll);
    TranscriptsConcat(before.out + items, tail);
    TranscriptsConcat(before.out, items);
    TranscriptsInItems(Timeline(before.cursor, poll));
    TranscriptsInTail(tail, poll.messages);
    if poll.loopStatus.Some? {
      TranscriptsConcat(before.out + items + tail, [Terminal(poll.loopStatus.value)]);
      TranscriptsInTail([Terminal(poll.loopStatus.value)], []);
    }
  }

  lemma TranscriptsInTail(tail: seq<Write>, messages: seq<Event>)
    requires tail == [] || tail == [Transcript(messages)] || (|tail| == 1 && tail[0].Terminal?)
    ensures Transcripts(tail) == if tail == [Transcript(messages)] then 1 else 0
  {
  }

  /** After a poll that had messages, the cursor is set. */
  lemma MessagesSetCursor(cursor: Cursor, poll: Poll)
    requires Answers(cursor, poll) && poll.messages != []
    ensures MaxTs(cursor, Timeline(cursor, poll)).Some?
  {
    hide MaxTs;
    hide Timeline;
    hide NoRepeats;
    var e := poll.messages[0];
    assert e in poll.audit + poll.messages;
    CursorCovers(cursor, poll);
  }

  /** The transcript is written at most once in a run, exactly when the first
      poll to see anything, without `--since`, sees messages of a finished job. */
  lemma {:induction false} TranscriptOnce(since: Cursor, polls: seq<Poll>)
    requires Served(since, polls)
    ensures Transcripts(After(since, polls).out) <= 1
    ensures Transcripts(After(since, polls).out) == 1 <==>
            exists k :: 0 <= k < |polls| && OverAtFirstSight(since, polls, k)
    ensures Transcripts(After(since, polls).out) == 1 ==> After(since, polls).cursor.Some?
    decreases |polls|
  {
    hide After;
    hide Transcripts;
    hide Answers;
    hide OverAtFirstSight;
    if polls == [] {
      NoPolls(since);
    } else {
      var last := |polls| - 1;
      var prev := polls[..last];
      assert forall k :: 0 <= k < last ==> prev[k] == polls[k] && prev[..k] == polls[..k];
      TranscriptOnce(since, prev);
      LastTranscript(since, polls);
      LastCursor(since, polls);
      forall k | 0 <= k < last ensures OverAtFirstSight(since, prev, k) == OverAtFirstSight(since, polls, k) {
        OverByPrefix(since, polls, last, k);
      }
    }
  }

  lemma OverByPrefix(since: Cursor, polls: seq<Poll>, n: nat, k: nat)
    requires k < n <= |polls|
    ensures OverAtFirstSight(since, polls[..n], k) == OverAtFirstSight(since, polls, k)
  {
    hide After;
    hide Dumps;
    hide IsTerminal;
    assert polls[..n][..k] == polls[..k] && polls[..n][k] == polls[k];
    DumpsByPrefix(since, polls, n, k);
  }

  /** A transcript is written without a cursor, and leaves one; a cursor stays. */
  lemma LastCursor(since: Cursor, polls: seq<Poll>)
    requires polls != [] && Answers(After(since, polls[..|polls| - 1]).cursor, polls[|polls| - 1])
    ensures var before, after := After(since, polls[..|polls| - 1]).cursor, After(since, polls).cursor;
            && (before.Some? ==> after.Some?)
            && (OverAtFirstSight(since, polls, |polls| - 1) ==> before == None && after.Some?)
  {
    hide After;
    hide Timeline;
    hide MaxTs;
    hide Dumps;
    hide Answers;
    hide IsTerminal;
    var last := |polls| - 1;
    var before := After(since, polls[..last]).cursor;
    LastPoll(since, polls);
    CursorGrows(before, Timeline(before, polls[last]));
    if OverAtFirstSight(since, polls, last) {
      MessagesSetCursor(before, polls[last]);
    }
  }

  lemma NoPolls(since: Cursor)
    ensures Transcripts(After(since, []).out) == 0
  {
  }

  // ----------------------------------------------------------- two runs

  lemma FirstPoll(since: Cursor, p: Poll, more: seq<Poll>)
    ensures ([p] + more)[..1] == [p] && ([p] + more)[..0] == []
    ensures After(since, [p]) == Dumped(Log(since, [], false), p)
  {
    assert [p][..0] == [];
  }

  /** Two events of the same instant, the second arriving after a poll has
      shown the first: it is never shown. */
  lemma SameInstantLost(a: Event, b: Event)
    requires a.source == Audit && b.source == Audit && a.id != b.id && a.ts == b.ts
    ensures var first := Poll(false, {a}, [a], [], None, None);
            var second := Poll(false, {a, b}, [a, b], [], None, None);
            Served(None, [first, second]) && b !in Shown(After(None, [first, second]).out)
  {
    hide Timeline;
    hide MaxTs;
    hide Shown;
    var first := Poll(false, {a}, [a], [], None, None);
    var second := Poll(false, {a, b}, [a, b], [], None, None);
    var polls := [first] + [second];
    assert polls == [first, second];
    FirstPoll(None, first, [second]);
    assert [a] + [] == [a] && [a, b] + [] == [a, b];
    assert Answers(None, first);
    TimelineMeans(None, first);
    var shown := Timeline(None, first);
    assert a in shown;
    assert forall e :: e in shown ==> e == a;
    MaxTsMeans(None, shown);
    assert shown[|shown| - 1] in shown;
    assert After(None, polls[..1]).cursor == Some(a.ts);
    assert Answers(Some(a.ts), second);
    assert Served(None, polls);
    LateEventLost(None, polls, 1, b);
  }

  /** A job that finishes between the two looks at its status: the run ends
      with the terminal line, and the transcript is never written. */
  lemma FinishedBetweenLooks(first: Poll, second: Poll)
    requires first.messages == [] && !IsTerminal(second.dumpStatus) && !second.aborted
    requires second.loopStatus == Some("completed")
    ensures var log := After(None, [first, second]);
            log.done && log.out != [] && log.out[|log.out| - 1] == Terminal("completed") && Transcripts(log.out) == 0
  {
    hide Timeline;
    hide MaxTs;
    hide Items;
    hide Transcripts;
    var polls := [first] + [second];
    assert polls == [first, second];
    FirstPoll(None, first, [second]);
    LastTranscript(None, polls);
    LastTranscript(None, [first]);
    assert polls[..|polls| - 1] == [first] && [first][..0] == [];
    NoPolls(None);
    assert !OverAtFirstSight(None, [first], 0);
  }
}
