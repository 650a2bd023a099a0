/** `src/commands/agent-logs.ts`: when a run ends, what ends it, where its
    cursor stands, and the order within one instant. */
module AgentLogsVerdict {
  import opened Sorting
  import opened Text
  import opened AgentLogs

  // ------------------------------------------------------------ the ending

  ghost predicate IsOver(status: Option<string>, name: string) {
    status == Some(name) && name in {"completed", "failed", "dead", "cancelled"}
  }

  /** A round of the loop that goes no further: aborted, or the job is over. */
  ghost predicate Stops(poll: Poll) {
    poll.aborted || exists name :: IsOver(poll.loopStatus, name)
  }

  /** Round `k` is the one that ends the run; the render before the loop does not count. */
  ghost predicate EndsAt(polls: seq<Poll>, k: int) {
    1 <= k < |polls| && Stops(polls[k]) && forall j :: 1 <= j < k ==> !Stops(polls[j])
  }

  ghost predicate NoTerminal(out: seq<Write>) {
    forall w :: w in out ==> !w.Terminal?
  }

  lemma IsOverIff(status: Option<string>)
    ensures IsTerminal(status) <==> exists name :: IsOver(status, name)
  {
    if IsTerminal(status) {
      assert IsOver(status, status.value);
    }
  }

  lemma EndsLater(polls: seq<Poll>, n: nat)
    requires |polls| == n + 1
    ensures (exists k :: EndsAt(polls, k)) <==> (exists k :: EndsAt(polls[..n], k)) || (n >= 1 && Stops(polls[n]))
    ensures forall k :: EndsAt(polls[..n], k) ==> EndsAt(polls, k)
  {
    hide Stops;
    forall k | EndsAt(polls[..n], k) ensures EndsAt(polls, k) {}
    if k :| EndsAt(polls, k) {
      if k < n { assert EndsAt(polls[..n], k); }
    }
    if n >= 1 && Stops(polls[n]) && !exists k :: EndsAt(polls[..n], k) {
      NoStopBefore(polls[..n], n);
      assert EndsAt(polls, n) by { assert forall j :: 1 <= j < n ==> polls[j] == polls[..n][j]; }
    }
  }

  lemma {:induction false} NoStopBefore(polls: seq<Poll>, n: nat)
    requires n <= |polls| && !exists k :: EndsAt(polls, k)
    ensures forall j :: 1 <= j < n ==> !Stops(polls[j])
  {
    hide Stops;
    if n > 1 {
      NoStopBefore(polls, n - 1);
      assert !EndsAt(polls, n - 1);
    }
  }

  lemma DumpIsNotTheEnd(log: Log, poll: Poll)
    requires NoTerminal(log.out)
    ensures NoTerminal(Dumped(log, poll).out) && Dumped(log, poll).done == log.done
  {
    hide Timeline;
    hide MaxTs;
    var items, tail := Items(Timeline(log.cursor, poll)), Tail(log.cursor, poll);
    assert NoTerminal(items) && NoTerminal(tail);
    assert forall w :: w in log.out + items + tail ==> w in log.out || w in items || w in tail;
  }

  /** The run goes on exactly as long as no round ends it, and until then no
      closing line is written. */
  lemma {:induction false} RunEndsIff(since: Cursor, polls: seq<Poll>)
    ensures After(since, polls).done <==> exists k :: EndsAt(polls, k)
    ensures !After(since, polls).done ==> NoTerminal(After(since, polls).out)
  {
    hide EndsAt;
    hide Dumped;
    if polls == [] {
      NeverEnds();
    } else {
      var n := |polls| - 1;
      RunEndsIff(since, polls[..n]);
      EndsLater(polls, n);
      IsOverIff(polls[n].loopStatus);
      if !After(since, polls[..n]).done {
        DumpIsNotTheEnd(After(since, polls[..n]), polls[n]);
      }
      if n == 0 { NeverEndsAtFirst(polls); }
    }
  }

  lemma NeverEnds()
    ensures !exists k :: EndsAt([], k)
  {
  }

  lemma NeverEndsAtFirst(polls: seq<Poll>)
    requires |polls| == 1
    ensures !exists k :: EndsAt(polls, k)
  {
  }

  /** After `before`, what the poll shows, and then a closing line. */
  ghost predicate ClosesWith(before: Log, poll: Poll, out: seq<Write>, name: string) {
    && IsOver(poll.loopStatus, name)
    && out == before.out + (Items(Timeline(before.cursor, poll)) + Tail(before.cursor, poll) + [Terminal(name)])
  }

  /** A round that ends the run writes, if it is aborted, nothing; else what is
      new and one closing line with the job's status. Nothing follows. */
  lemma EndsHow(since: Cursor, polls: seq<Poll>, k: nat)
    requires EndsAt(polls, k)
    ensures var before, out := After(since, polls[..k]), After(since, polls).out;
            && !before.done && NoTerminal(before.out)
            && (polls[k].aborted ==> out == before.out)
            && (!polls[k].aborted ==> exists name :: ClosesWith(before, polls[k], out, name))
  {
    hide Timeline;
    hide MaxTs;
    hide Items;
    hide Tail;
    var n := k + 1;
    RunEndsIff(since, polls[..k]);
    assert !exists j :: EndsAt(polls[..k], j) by {
      forall j ensures !EndsAt(polls[..k], j) {
        assert 1 <= j < k ==> !Stops(polls[j]) && polls[..k][j] == polls[j];
      }
    }
    assert polls[..n][..k] == polls[..k];
    IsOverIff(polls[k].loopStatus);
    StaysDone(since, polls, n);
    var before := After(since, polls[..k]);
    if !polls[k].aborted {
      var name := polls[k].loopStatus.value;
      assert IsOver(polls[k].loopStatus, name);
      var i, t := Items(Timeline(before.cursor, polls[k])), Tail(before.cursor, polls[k]);
      assert before.out + i + t + [Terminal(name)] == before.out + (i + t + [Terminal(name)]);
      assert ClosesWith(before, polls[k], After(since, polls).out, name);
    }
  }

  // ------------------------------------------------------------ the cursor

  ghost predicate IsLatest(since: Cursor, shown: seq<Event>, cursor: Cursor) {
    && (cursor.None? <==> since.None? && shown == [])
    && (cursor.Some? ==> cursor == since || exists e :: e in shown && e.ts == cursor.value)
    && (since.Some? ==> since.value <= cursor.value)
    && (forall e :: e in shown ==> cursor.Some? && e.ts <= cursor.value)
  }

  lemma {:induction false} MaxIsLatest(since: Cursor, shown: seq<Event>, cursor: Cursor, events: seq<Event>)
    requires IsLatest(since, shown, cursor)
    ensures IsLatest(since, shown + events, MaxTs(cursor, events))
  {
    if events == [] {
      assert shown + events == shown;
    } else {
      var n := |events| - 1;
      MaxIsLatest(since, shown, cursor, events[..n]);
      OneMoreShown(since, shown + events[..n], MaxTs(cursor, events[..n]), events[n]);
      assert shown + events == shown + events[..n] + [events[n]];
    }
  }

  lemma OneMoreShown(since: Cursor, shown: seq<Event>, cursor: Cursor, e: Event)
    requires IsLatest(since, shown, cursor)
    ensures IsLatest(since, shown + [e], if cursor.None? || e.ts > cursor.value then Some(e.ts) else cursor)
  {
    var all := shown + [e];
    assert e in all && forall x :: x in all <==> x in shown || x == e;
  }

  /** The cursor is the latest instant of what was asked for and what was shown. */
  lemma {:induction false} CursorIsLatest(since: Cursor, polls: seq<Poll>)
    ensures IsLatest(since, Shown(After(since, polls).out), After(since, polls).cursor)
  {
    hide IsLatest;
    hide Timeline;
    hide MaxTs;
    if polls == [] {
      NothingShown(since);
    } else {
      var n := |polls| - 1;
      CursorIsLatest(since, polls[..n]);
      var before := After(since, polls[..n]);
      LastPoll(since, polls);
      MaxIsLatest(since, Shown(before.out), before.cursor, Timeline(before.cursor, polls[n]));
    }
  }

  lemma NothingShown(since: Cursor)
    ensures IsLatest(since, Shown(After(since, []).out), After(since, []).cursor)
  {
  }

  // ----------------------------------------------------------- one instant

  /** The events of one instant, in order. */
  function Instant(events: seq<Event>, ts: int): seq<Event> {
    if events == [] then [] else (if events[0].ts == ts then [events[0]] else []) + Instant(events[1..], ts)
  }

  lemma {:induction false} InstantInsert(x: Event, s: seq<Event>, ts: int)
    ensures Instant(Insert(x, s, EarlierOrSame), ts) == Instant([x] + s, ts)
  {
    assert ([x] + s)[1..] == s;
    if s != [] && !EarlierOrSame(x, s[0]) {
      InstantInsert(x, s[1..], ts);
      assert ([x] + s[1..])[1..] == s[1..];
      var inserted := [s[0]] + Insert(x, s[1..], EarlierOrSame);
      assert inserted[1..] == Insert(x, s[1..], EarlierOrSame);
    }
  }

  lemma {:induction false} InstantSort(s: seq<Event>, ts: int)
    ensures Instant(Sort(s, EarlierOrSame), ts) == Instant(s, ts)
  {
    if s != [] {
      var rest := Sort(s[1..], EarlierOrSame);
      InstantSort(s[1..], ts);
      InstantInsert(s[0], rest, ts);
      assert ([s[0]] + rest)[1..] == rest;
    }
  }

  lemma {:induction false} InstantConcat(a: seq<Event>, b: seq<Event>, ts: int)
    ensures Instant(a + b, ts) == Instant(a, ts) + Instant(b, ts)
  {
    if a == [] {
      assert a + b == b;
    } else {
      assert (a + b)[1..] == a[1..] + b;
      InstantConcat(a[1..], b, ts);
    }
  }

  lemma {:induction false} InstantNew(cursor: Cursor, events: seq<Event>, ts: int)
    ensures Instant(NewEvents(cursor, events), ts) ==
            if cursor.Some? && ts <= cursor.value then [] else Instant(events, ts)
  {
    if events != [] {
      var n := |events| - 1;
      InstantNew(cursor, events[..n], ts);
      assert events == events[..n] + [events[n]];
      InstantConcat(events[..n], [events[n]], ts);
      InstantConcat(NewEvents(cursor, events[..n]), if Above(cursor, events[n]) then [events[n]] else [], ts);
      assert [events[n]][1..] == [];
    }
  }

  /** Of one instant above the cursor, a poll shows the audit events first and
      then the messages, each in the order its reader gave them. */
  lemma InstantOrder(cursor: Cursor, poll: Poll, ts: int)
    ensures Instant(Timeline(cursor, poll), ts) ==
            if cursor.Some? && ts <= cursor.value then [] else Instant(poll.audit, ts) + Instant(poll.messages, ts)
  {
    hide Instant;
    hide NewEvents;
    hide Sort;
    var a, m := NewEvents(cursor, poll.audit), NewEvents(cursor, poll.messages);
    InstantSort(a + m, ts);
    InstantConcat(a, m, ts);
    InstantNew(cursor, poll.audit, ts);
    InstantNew(cursor, poll.messages, ts);
  }
}
