/** The watch cursor: how the console polls a Hub event log that may be truncated or restarted, when
    it reports a sequence reset, and what the displayed snapshot covers. */
module WatchCursor {
  import opened Basics

  const WATCH_EVENT_LIMIT: nat := 10000

  /** One watch event; `sound` carries the checks of its decision. `origin` is the process run that
      recorded it: nobody reads it, but it tells apart two events of one sequence number. */
  datatype Event = Event(sequence: nat, origin: nat, sound: bool)

  // ---------------------------------------------------------------- validation

  ghost predicate ValidEvents(events: seq<Event>, after: nat, limit: nat) {
    && 1 <= limit <= 10000 && |events| <= limit
    && (forall i :: 0 <= i < |events| ==> events[i].sound && events[i].sequence > after)
    && (forall i :: 0 < i < |events| ==> events[i].sequence > events[i - 1].sequence)
  }

  /** What a read must answer: at most the limit, all of it sound and past the cursor, and every event
      numbered below all that follow. */
  lemma AnswerIff(events: seq<Event>, after: nat, limit: nat)
    ensures ValidEvents(events, after, limit) <==>
            && 0 < limit && limit < 10001 && |events| < limit + 1
            && (forall e :: e in events ==> e.sound && after < e.sequence)
            && (forall i, j :: 0 <= i < j < |events| ==> events[i].sequence < events[j].sequence)
  {
    if ValidEvents(events, after, limit) {
      forall i, j | 0 <= i < j < |events| ensures events[i].sequence < events[j].sequence {
        Ascends(events, i, j);
      }
    }
  }

  lemma {:induction false} Ascends(events: seq<Event>, i: nat, j: nat)
    requires forall k :: 0 < k < |events| ==> events[k].sequence > events[k - 1].sequence
    requires i < j < |events|
    ensures events[i].sequence < events[j].sequence
    decreases j
  {
    if i < j - 1 {
      Ascends(events, i, j - 1);
    }
  }

  method ValidateWatchEvents(events: seq<Event>, after: nat, limit: nat) returns (valid: bool)
    ensures valid <==> ValidEvents(events, after, limit)
  {
    if !(1 <= limit <= 10000) || |events| > limit {
      return false;
    }
    var prior := after;
    for i := 0 to |events|
      invariant prior == if i == 0 then after else events[i - 1].sequence
      invariant ValidEvents(events[..i], after, limit)
    {
      if events[i].sequence <= prior || !events[i].sound {
        return false;
      }
      prior := events[i].sequence;
      assert events[..i + 1] == events[..i] + [events[i]];
    }
    assert events[..|events|] == events;
    valid := true;
  }

  function Tail(events: seq<Event>): nat { if events == [] then 0 else events[|events| - 1].sequence }

  // ---------------------------------------------------------------- one poll

  datatype Fetch = Fetched(events: seq<Event>) | FetchFailed

  datatype Poll = PollFailed | Polled(events: seq<Event>, reset: bool)

  ghost predicate Acceptable(f: Fetch, after: nat, limit: nat) { f.Fetched? && ValidEvents(f.events, after, limit) }

  /** What a check of the log decides from its two reads; the second is made only when the first is
      empty past a nonzero cursor. */
  ghost function Decide(prior: nat, first: Fetch, baseline: Fetch, limit: nat): Poll {
    if !Acceptable(first, prior, limit) then PollFailed
    else if |first.events| > 0 || prior == 0 then Polled(first.events, false)
    else if !Acceptable(baseline, 0, limit) then PollFailed
    else if Tail(baseline.events) < prior then Polled(baseline.events, true)
    else Polled(first.events, false)
  }

  function NextCursor(prior: nat, poll: Poll): nat
    requires poll.Polled?
  {
    if |poll.events| > 0 then Tail(poll.events) else if poll.reset then 0 else prior
  }

  // ---------------------------------------------------------------- the Hub log

  /** One run of a Hub process is an epoch. It numbers what it records and retains the last of it;
      `history` is everything ever recorded in this line, retained or not. */
  datatype Hub = Hub(epoch: nat, sequence: nat, events: seq<Event>, retention: nat, history: seq<Event>)
  {
    ghost predicate WellFormed() {
      && retention > 0 && sequence == |history|
      && |events| == (if sequence <= retention then sequence else retention)
      && events == history[sequence - |events|..]
      && Numbered(history, epoch)
    }

    function Recorded(): Hub {
      var event := Event(sequence + 1, epoch, true);
      var more := events + [event];
      this.(sequence := sequence + 1,
            events := if |more| > retention then more[|more| - retention..] else more,
            history := history + [event])
    }

    /** A new process takes up the numbering and the retained events of the state it restores. */
    function Restored(newEpoch: nat): Hub { this.(epoch := newEpoch) }

    /** The most events one read returns. */
    function Page(limit: nat): nat { if limit < retention then limit else retention }

    function Watch(after: nat, limit: nat): seq<Event> { Take(After(events, after), Page(limit)) }

    /** The same process, later. */
    ghost predicate Before(later: Hub) {
      epoch == later.epoch && retention == later.retention && history <= later.history
    }
  }

  /** Events are numbered from one on, none of them by a later process. */
  ghost predicate Numbered(history: seq<Event>, epoch: nat) {
    forall i :: 0 <= i < |history| ==> history[i].sequence == i + 1 && history[i].sound && history[i].origin <= epoch
  }

  function After(events: seq<Event>, after: nat): seq<Event> {
    if events == [] then []
    else (if events[0].sequence > after then [events[0]] else []) + After(events[1..], after)
  }

  /** Recording and restoring keep the retained events the last ones of the history. */
  lemma HubSteps(h: Hub, newEpoch: nat)
    requires h.WellFormed() && h.epoch <= newEpoch
    ensures h.Recorded().WellFormed() && h.Before(h.Recorded()) && h.Restored(newEpoch).WellFormed()
  {
    RecordedKeepsLast(h);
    assert h.Restored(newEpoch).WellFormed();
  }

  lemma RecordedKeepsLast(h: Hub)
    requires h.WellFormed()
    ensures h.Recorded().WellFormed()
  {
    var event := Event(h.sequence + 1, h.epoch, true);
    KeepsLast(h.history, h.events, event, h.retention);
    NumberedMore(h.history, h.epoch);
    hide Numbered;
  }

  lemma NumberedMore(history: seq<Event>, epoch: nat)
    requires Numbered(history, epoch)
    ensures Numbered(history + [Event(|history| + 1, epoch, true)], epoch)
  {
  }

  /** Appending and dropping from the front keeps the last ones. */
  lemma KeepsLast<T>(all: seq<T>, last: seq<T>, x: T, bound: nat)
    requires bound > 0 && |last| == (if |all| <= bound then |all| else bound) && last == all[|all| - |last|..]
    ensures var more := last + [x];
            var kept := if |more| > bound then more[|more| - bound..] else more;
            && |kept| == (if |all| + 1 <= bound then |all| + 1 else bound)
            && kept == (all + [x])[|all| + 1 - |kept|..]
  {
    var more, whole, from := last + [x], all + [x], |all| - |last|;
    assert more == whole[from..];
    if |more| > bound {
      assert whole[from..][1..] == whole[from + 1..];
      assert |more| - bound == 1 && from + 1 == |all| + 1 - bound;
    }
  }

  /** Reading past a cursor drops a prefix of the log. */
  lemma {:induction false} AfterDrops(h: Hub, events: seq<Event>, after: nat)
    requires forall i :: 0 <= i < |events| ==> events[i].sequence == h.sequence - |events| + 1 + i
    ensures After(events, after) == events[Seen(h, |events|, after)..]
  {
    if events != [] {
      AfterDrops(h, events[1..], after);
      if events[0].sequence > after {
        assert Seen(h, |events| - 1, after) == 0 && Seen(h, |events|, after) == 0;
        assert [events[0]] + events[1..] == events;
      }
    }
  }

  /** How many of the last `n` events the cursor is past. */
  function Seen(h: Hub, n: nat, after: nat): (seen: nat)
    ensures seen <= n
  {
    var first := h.sequence - n + 1;
    if after < first then 0 else if after >= h.sequence then n else after - first + 1
  }

  /** The events a Hub still has to offer past a cursor. */
  function Remaining(h: Hub, cursor: nat): nat { |h.events| - Seen(h, |h.events|, cursor) }

  /** What a read returns: the next events after the cursor, up to a page. */
  lemma WatchMeans(h: Hub, cursor: nat, limit: nat)
    requires h.WellFormed() && 1 <= limit <= 10000
    ensures var read, seen := h.Watch(cursor, limit), Seen(h, |h.events|, cursor);
            && |read| == (if Remaining(h, cursor) <= h.Page(limit) then Remaining(h, cursor) else h.Page(limit))
            && read == h.events[seen..seen + |read|]
            && ValidEvents(read, cursor, limit)
            && (cursor < h.sequence <==> |read| > 0)
  {
    EventsNumbered(h);
    AfterDrops(h, h.events, cursor);
    var seen := Seen(h, |h.events|, cursor);
    TakeFrom(h.events, seen, h.Page(limit));
    SliceIsValid(h, seen, |h.Watch(cursor, limit)|, cursor, limit);
    hide Hub.WellFormed, After, ValidEvents, Take;
  }

  lemma TakeFrom<T>(s: seq<T>, from: nat, n: nat)
    requires from <= |s|
    ensures var taken := Take(s[from..], n);
            |taken| == (if |s| - from <= n then |s| - from else n) && taken == s[from..from + |taken|]
  {
  }

  lemma EventsNumbered(h: Hub)
    requires h.WellFormed()
    ensures h.retention > 0 && |h.events| <= h.sequence && (|h.events| == 0 <==> h.sequence == 0)
    ensures forall i :: 0 <= i < |h.events| ==> h.events[i].sequence == h.sequence - |h.events| + 1 + i
  {
  }

  /** Consecutive retained events past a cursor are a valid answer to a read. */
  lemma SliceIsValid(h: Hub, from: nat, n: nat, cursor: nat, limit: nat)
    requires h.WellFormed() && 1 <= limit <= 10000 && n <= limit && from + n <= |h.events|
    requires cursor < h.sequence - |h.events| + 1 + from || n == 0
    ensures ValidEvents(h.events[from..from + n], cursor, limit)
  {
    var skipped := h.sequence - |h.events|;
    var read := h.events[from..from + n];
    assert forall i :: 0 <= i < n ==> read[i] == h.history[skipped + from + i];
  }

  /** A read of a Hub within the limit returns everything past the cursor. */
  lemma WholeRead(h: Hub, cursor: nat, limit: nat)
    requires h.WellFormed() && 1 <= limit <= 10000 && h.retention <= limit
    ensures ValidEvents(h.Watch(cursor, limit), cursor, limit)
    ensures cursor < h.sequence <==> |h.Watch(cursor, limit)| > 0
    ensures cursor < h.sequence ==> Tail(h.Watch(cursor, limit)) == h.sequence
  {
    WatchMeans(h, cursor, limit);
  }

  // ---------------------------------------------------------------- resets

  ghost function PollHub(h: Hub, prior: nat, limit: nat): Poll {
    Decide(prior, Fetched(h.Watch(prior, limit)), Fetched(h.Watch(0, limit)), limit)
  }

  /** A reset is reported exactly when the Hub's tail is below the cursor, or when the cursor is at
      the tail of a log longer than one page. */
  lemma ResetIff(h: Hub, prior: nat, limit: nat)
    requires h.WellFormed() && 1 <= limit <= 10000
    ensures var poll := PollHub(h, prior, limit);
            && poll.Polled?
            && (poll.reset <==> h.sequence < prior || (h.sequence == prior > 0 && |h.events| > h.Page(limit)))
            && (poll.reset && |h.events| <= limit ==> NextCursor(prior, poll) == h.sequence)
  {
    WatchMeans(h, prior, limit);
    BaselineRead(h, limit);
    hide Hub.WellFormed, Hub.Watch, ValidEvents, Tail, Seen, Remaining;
  }

  /** A read from the start begins with the oldest retained event. */
  lemma BaselineRead(h: Hub, limit: nat)
    requires h.WellFormed() && 1 <= limit <= 10000
    ensures var read := h.Watch(0, limit);
            && ValidEvents(read, 0, limit) && (|read| == 0 <==> h.sequence == 0)
            && |read| == (if |h.events| <= h.Page(limit) then |h.events| else h.Page(limit))
            && Tail(read) == h.sequence - |h.events| + |read| && |h.events| <= h.sequence
            && h.Page(limit) <= limit && (|h.events| <= limit ==> |read| == |h.events|)
  {
    WatchMeans(h, 0, limit);
    TailOfRead(h, 0, limit);
    EventsNumbered(h);
    assert |h.events| <= h.retention;
    hide Hub.WellFormed, Hub.Watch, ValidEvents, Tail;
  }

  /** A read ends with the number of its last event. */
  lemma TailOfRead(h: Hub, cursor: nat, limit: nat)
    requires h.WellFormed() && 1 <= limit <= 10000
    ensures var read := h.Watch(cursor, limit);
            Tail(read) == if read == [] then 0 else h.sequence - |h.events| + Seen(h, |h.events|, cursor) + |read|
  {
    WatchMeans(h, cursor, limit);
    EventsNumbered(h);
    hide Hub.WellFormed, ValidEvents, Numbered, Hub.Watch;
    var read, seen := h.Watch(cursor, limit), Seen(h, |h.events|, cursor);
    if read != [] {
      assert read[|read| - 1] == h.events[seen + |read| - 1];
    }
  }

  /** For a Hub that keeps no more than a read can return, a reset means the log really is behind
      the cursor, and the cursor is rebased to its tail. */
  lemma ResetWithinLimit(h: Hub, prior: nat, limit: nat)
    requires h.WellFormed() && 1 <= limit <= 10000 && h.retention <= limit
    ensures var poll := PollHub(h, prior, limit);
            poll.Polled? && (poll.reset <==> h.sequence < prior) && (poll.reset ==> NextCursor(prior, poll) == h.sequence)
  {
    ResetIff(h, prior, limit);
  }

  // ---------------------------------------------------------------- progress

  ghost function Sync(h: Hub, cursor: nat, limit: nat): nat {
    if PollHub(h, cursor, limit).Polled? then NextCursor(cursor, PollHub(h, cursor, limit)) else cursor
  }

  ghost function Syncs(h: Hub, cursor: nat, limit: nat, n: nat): nat
    decreases n
  {
    if n == 0 then cursor else Syncs(h, Sync(h, cursor, limit), limit, n - 1)
  }

  /** A check past whose cursor there are events consumes one page of them, whatever the Hub does
      after that read, and never moves the cursor back. */
  lemma CheckAdvances(h: Hub, cursor: nat, baseline: Fetch, limit: nat)
    requires h.WellFormed() && 1 <= limit <= 10000 && cursor < h.sequence
    ensures var poll := Decide(cursor, Fetched(h.Watch(cursor, limit)), baseline, limit);
            && poll.Polled? && !poll.reset && cursor < NextCursor(cursor, poll) <= h.sequence
            && Remaining(h, NextCursor(cursor, poll)) ==
               if Remaining(h, cursor) <= h.Page(limit) then 0 else Remaining(h, cursor) - h.Page(limit)
  {
    WatchMeans(h, cursor, limit);
  }

  /** Without a restart, and for a Hub within the limit, a check of a log that may grow between its
      reads reports no reset, moves the cursor to what the first read saw, and never back. */
  lemma CheckOfGrowingHub(first: Hub, second: Hub, prior: nat, limit: nat)
    requires first.WellFormed() && second.WellFormed() && first.Before(second)
    requires 1 <= limit <= 10000 && first.retention <= limit && prior <= first.sequence
    ensures var poll := Decide(prior, Fetched(first.Watch(prior, limit)), Fetched(second.Watch(0, limit)), limit);
            poll.Polled? && !poll.reset && prior <= NextCursor(prior, poll) == first.sequence
  {
    WholeRead(first, prior, limit);
    WholeRead(second, 0, limit);
    assert first.sequence <= second.sequence;
    hide ValidEvents, Hub.Watch, Hub.WellFormed;
  }

  lemma CaughtUpIff(h: Hub, cursor: nat)
    requires h.WellFormed() && cursor <= h.sequence
    ensures Remaining(h, cursor) == 0 <==> cursor == h.sequence
  {
  }

  /** Without restarts and new events the cursor reaches the tail in as many checks as there are
      pages left, and not before. */
  lemma {:induction false} SyncsReachTail(h: Hub, cursor: nat, limit: nat, n: nat)
    requires h.WellFormed() && 1 <= limit <= 10000 && cursor <= h.sequence
    requires (n - 1) * h.Page(limit) < Remaining(h, cursor) <= n * h.Page(limit)
    ensures Syncs(h, cursor, limit, n) == h.sequence
    ensures n > 0 ==> Syncs(h, cursor, limit, n - 1) < h.sequence
    decreases n
  {
    hide Remaining, Decide;
    CaughtUpIff(h, cursor);
    if n > 0 {
      assert n * h.Page(limit) == (n - 1) * h.Page(limit) + h.Page(limit);
      PagesArePositive(h, limit, n);
      CheckAdvances(h, cursor, Fetched(h.Watch(0, limit)), limit);
      var next := Sync(h, cursor, limit);
      CaughtUpIff(h, next);
      if n > 1 {
        assert (n - 1) * h.Page(limit) == (n - 2) * h.Page(limit) + h.Page(limit);
        SyncsReachTail(h, next, limit, n - 1);
      }
    }
  }

  lemma PagesArePositive(h: Hub, limit: nat, n: nat)
    requires h.retention > 0 && limit > 0 && n > 0
    ensures (n - 1) * h.Page(limit) >= 0
  {
  }

  /** At the tail of a log within the limit, further checks change nothing. */
  lemma TailIsFixed(h: Hub, limit: nat)
    requires h.WellFormed() && 1 <= limit <= 10000 && h.retention <= limit
    ensures Sync(h, h.sequence, limit) == h.sequence
  {
    ResetIff(h, h.sequence, limit);
    WatchMeans(h, h.sequence, limit);
  }

  /** A Hub that has recorded `n` events in its first run and retains up to `retention` of them. */
  function Lined(n: nat, retention: nat): Hub
    requires n <= retention
  {
    var events := seq(n, i requires 0 <= i < n => Event(i + 1, 0, true));
    Hub(0, n, events, retention, events)
  }

  lemma LinedWellFormed(n: nat, retention: nat)
    requires n <= retention && 0 < retention
    ensures Lined(n, retention).WellFormed()
  {
    assert Lined(n, retention).history[0..] == Lined(n, retention).events;
  }

  /** A Hub configured to keep one event more than the console reads at once makes it report a reset
      that never happened, and move its cursor back. */
  lemma LongLogLooksReset()
    ensures var h := Lined(WATCH_EVENT_LIMIT + 1, WATCH_EVENT_LIMIT + 1);
            && h.WellFormed()
            && PollHub(h, h.sequence, WATCH_EVENT_LIMIT).Polled? && PollHub(h, h.sequence, WATCH_EVENT_LIMIT).reset
            && Sync(h, h.sequence, WATCH_EVENT_LIMIT) < h.sequence
  {
    var h := Lined(WATCH_EVENT_LIMIT + 1, WATCH_EVENT_LIMIT + 1);
    LinedWellFormed(WATCH_EVENT_LIMIT + 1, WATCH_EVENT_LIMIT + 1);
    ResetIff(h, h.sequence, WATCH_EVENT_LIMIT);
    WatchMeans(h, h.sequence, WATCH_EVENT_LIMIT);
    WatchMeans(h, 0, WATCH_EVENT_LIMIT);
  }

  // ---------------------------------------------------------------- the view model, on values

  /** What the console holds: its cursor, and the Hub as it was when the snapshot now shown or
      queued was queried. */
  datatype Client = Client(initialized: bool, cursor: nat, snapshot: Option<Hub>)

  ghost function Established(c: Client, initial: Fetch): Client {
    if Acceptable(initial, 0, WATCH_EVENT_LIMIT) then c.(initialized := true, cursor := Tail(initial.events))
    else c.(initialized := false, cursor := 0)
  }

  ghost function Refreshed(c: Client, answered: bool, queried: Hub): Client {
    if answered then c.(snapshot := Some(queried)) else c
  }

  /** The scope is loaded first and the cursor read after it. */
  ghost function Initialized(c: Client, answered: bool, queried: Hub, initial: Fetch): Client {
    if answered then Established(Refreshed(c, true, queried), initial) else c
  }

  /** A check with a cursor: only if both the log and the scope were read does anything move. */
  ghost function Consumed(c: Client, first: Fetch, baseline: Fetch, answered: bool, queried: Hub): (Client, bool) {
    var poll := Decide(c.cursor, first, baseline, WATCH_EVENT_LIMIT);
    if poll.Polled? && answered then (Client(true, NextCursor(c.cursor, poll), Some(queried)), poll.reset)
    else (c, false)
  }

  ghost function Synchronized(
    c: Client, initial: Fetch, first: Fetch, baseline: Fetch, answered: bool, queried: Hub): (Client, bool)
  {
    var start := if c.initialized then c else Established(c, initial);
    if start.initialized then Consumed(start, first, baseline, answered, queried)
    else (Refreshed(start, answered, queried), false)
  }

  // ---------------------------------------------------------------- the view model

  class WatchClient {
    var connected: bool
    var watchInitialized: bool
    var watchSequence: nat
    var lastRefreshSucceeded: bool
    /** The Hub as it was when the snapshot now shown or queued was queried. */
    ghost var snapshot: Option<Hub>

    constructor (source: bool)
      ensures connected == source && !watchInitialized && watchSequence == 0 && snapshot.None?
    {
      connected, watchInitialized, watchSequence, lastRefreshSucceeded := source, false, 0, false;
      snapshot := None;
    }

    ghost function View(): Client
      reads `watchInitialized, `watchSequence, `snapshot
    {
      Client(watchInitialized, watchSequence, snapshot)
    }

    method SetWatchCursor(sequence: nat)
      modifies `watchSequence, `watchInitialized
      ensures watchInitialized && watchSequence == sequence
    {
      watchSequence, watchInitialized := sequence, true;
    }

    method ResetWatchCursor()
      modifies `watchSequence, `watchInitialized
      ensures !watchInitialized && watchSequence == 0
    {
      watchSequence, watchInitialized := 0, false;
    }

    /** Queries the canonical scope; `answered` is whether the Hub gave a valid result. */
    method Refresh(answered: bool, ghost queried: Hub)
      modifies `lastRefreshSucceeded, `snapshot
      ensures connected ==> lastRefreshSucceeded == answered
      ensures !connected ==> lastRefreshSucceeded == old(lastRefreshSucceeded)
      ensures View() == if connected then Refreshed(old(View()), answered, queried) else old(View())
    {
      if !connected {
        return;
      }
      lastRefreshSucceeded := false;
      if answered {
        snapshot := Some(queried);
        lastRefreshSucceeded := true;
      }
    }

    method EstablishWatchCursor(initial: Fetch)
      modifies `watchSequence, `watchInitialized
      ensures View() == if connected then Established(old(View()), initial) else old(View())
    {
      if !connected {
        return;
      }
      if initial.Fetched? {
        var valid := ValidateWatchEvents(initial.events, 0, WATCH_EVENT_LIMIT);
        if valid {
          SetWatchCursor(Tail(initial.events));
          return;
        }
      }
      ResetWatchCursor();
    }

    /** Loads the scope, then reads the first cursor: what is recorded in between is in neither. */
    method Initialize(answered: bool, ghost queried: Hub, initial: Fetch)
      modifies `lastRefreshSucceeded, `snapshot, `watchSequence, `watchInitialized
      ensures View() == if connected then Initialized(old(View()), answered, queried, initial) else old(View())
    {
      Refresh(answered, queried);
      if lastRefreshSucceeded {
        EstablishWatchCursor(initial);
      }
    }

    /** Both reads of one check, the second only where it is needed. */
    method CheckLog(first: Fetch, baseline: Fetch) returns (poll: Poll)
      ensures poll == Decide(watchSequence, first, baseline, WATCH_EVENT_LIMIT)
    {
      if first.FetchFailed? {
        return PollFailed;
      }
      var valid := ValidateWatchEvents(first.events, watchSequence, WATCH_EVENT_LIMIT);
      if !valid {
        return PollFailed;
      }
      poll := Polled(first.events, false);
      if |first.events| == 0 && watchSequence > 0 {
        if baseline.FetchFailed? {
          return PollFailed;
        }
        valid := ValidateWatchEvents(baseline.events, 0, WATCH_EVENT_LIMIT);
        if !valid {
          return PollFailed;
        }
        if Tail(baseline.events) < watchSequence {
          poll := Polled(baseline.events, true);
        }
      }
    }

    /** The check itself, with an established cursor: a failed read or refresh leaves the cursor and
        the snapshot alone; otherwise the cursor moves after the snapshot was taken. */
    method ConsumeUpdates(first: Fetch, baseline: Fetch, answered: bool, ghost queried: Hub) returns (reset: bool)
      requires watchInitialized
      modifies `lastRefreshSucceeded, `snapshot, `watchSequence, `watchInitialized
      ensures (View(), reset) ==
              if connected then Consumed(old(View()), first, baseline, answered, queried) else (old(View()), false)
    {
      reset := false;
      if !connected {
        return;
      }
      var prior := watchSequence;
      var poll := CheckLog(first, baseline);
      if poll.PollFailed? {
        return;
      }
      Refresh(answered, queried);
      if !lastRefreshSucceeded {
        return;
      }
      SetWatchCursor(NextCursor(prior, poll));
      reset := poll.reset;
    }

    /** One synchronization. Without a cursor one is read first; if that fails the scope is still
        refreshed, and the cursor stays unset. */
    method SynchronizeUpdates(initial: Fetch, first: Fetch, baseline: Fetch, answered: bool, ghost queried: Hub)
      returns (reset: bool)
      modifies `lastRefreshSucceeded, `snapshot, `watchSequence, `watchInitialized
      ensures (View(), reset) ==
              if connected then Synchronized(old(View()), initial, first, baseline, answered, queried)
              else (old(View()), false)
    {
      reset := false;
      if !connected {
        return;
      }
      if !watchInitialized {
        EstablishWatchCursor(initial);
        if !watchInitialized {
          Refresh(answered, queried);
          return;
        }
      }
      reset := ConsumeUpdates(first, baseline, answered, queried);
    }
  }

  // ---------------------------------------------------------------- the Hub's process runs

  /** The live Hub and the state a new process would restore. */
  datatype World = World(hub: Hub, saved: Hub)
  {
    /** What is saved is a prefix of what is live: saving copies, restarting goes back. */
    ghost predicate WellFormed() {
      && hub.WellFormed() && saved.WellFormed()
      && saved.epoch <= hub.epoch && saved.retention == hub.retention && saved.history <= hub.history
    }
  }

  datatype HubAct = Record | Save | Restart

  function Act(w: World, act: HubAct): World {
    match act
    case Record => w.(hub := w.hub.Recorded())
    case Save => w.(saved := w.hub)
    case Restart => w.(hub := w.saved.Restored(w.hub.epoch + 1))
  }

  function Acts(w: World, acts: seq<HubAct>): World {
    if acts == [] then w else Act(Acts(w, acts[..|acts| - 1]), acts[|acts| - 1])
  }

  lemma {:induction false} ActsWellFormed(w: World, acts: seq<HubAct>)
    requires w.WellFormed()
    ensures Acts(w, acts).WellFormed() && Acts(w, acts).hub.retention == w.hub.retention
    ensures Restart !in acts ==> w.hub.Before(Acts(w, acts).hub)
  {
    if acts != [] {
      var n := |acts| - 1;
      ActsWellFormed(w, acts[..n]);
      ActWellFormed(Acts(w, acts[..n]), acts[n]);
      assert acts[n] in acts && forall a :: a in acts[..n] ==> a in acts;
      hide Hub.WellFormed;
    }
  }

  lemma ActWellFormed(w: World, act: HubAct)
    requires w.WellFormed()
    ensures Act(w, act).WellFormed() && Act(w, act).hub.retention == w.hub.retention
    ensures act != Restart ==> w.hub.Before(Act(w, act).hub)
  {
    HubSteps(w.hub, w.hub.epoch);
    HubSteps(w.saved, w.hub.epoch + 1);
    hide Hub.WellFormed;
  }

  // ---------------------------------------------------------------- runs of console and Hub

  /** `counted` is what the cursor stands for: the recorded history up to it, as it was read. */
  datatype System = System(world: World, client: Client, counted: seq<Event>, resets: nat)

  /** A synchronization, with what the Hub does between its requests and which of them fail. */
  datatype Round = Round(
    initialArrives: bool, early: seq<HubAct>, firstArrives: bool, middle: seq<HubAct>,
    baselineArrives: bool, late: seq<HubAct>, answered: bool)

  datatype Turn =
    | HubWorks(acts: seq<HubAct>)
    | Initialize(answered: bool, between: seq<HubAct>, arrives: bool)
    | RefreshScope(answered: bool)
    | Synchronize(round: Round)

  function Read(h: Hub, after: nat, arrives: bool): Fetch {
    if arrives then Fetched(h.Watch(after, WATCH_EVENT_LIMIT)) else FetchFailed
  }

  /** What a poll leaves the cursor standing for. */
  ghost function CountedBy(start: seq<Event>, poll: Poll, first: Hub, second: Hub): seq<Event> {
    if poll.PollFailed? then start
    else if poll.reset then Take(second.history, NextCursor(|start|, poll))
    else if |poll.events| > 0 then Take(first.history, NextCursor(|start|, poll))
    else start
  }

  ghost function Rounded(s: System, r: Round): System {
    var w1 := Acts(s.world, r.early);
    var w2 := Acts(w1, r.middle);
    var w3 := Acts(w2, r.late);
    var initial := Read(s.world.hub, 0, r.initialArrives);
    var start := if s.client.initialized then s.client else Established(s.client, initial);
    var counted := if s.client.initialized then s.counted else Take(s.world.hub.history, start.cursor);
    var first, baseline := Read(w1.hub, start.cursor, r.firstArrives), Read(w2.hub, 0, r.baselineArrives);
    var (client, reset) := Synchronized(s.client, initial, first, baseline, r.answered, w3.hub);
    var poll := Decide(start.cursor, first, baseline, WATCH_EVENT_LIMIT);
    System(w3, client,
           if start.initialized && r.answered then CountedBy(counted, poll, w1.hub, w2.hub) else counted,
           s.resets + if reset then 1 else 0)
  }

  ghost function Turned(s: System, t: Turn): System {
    match t
    case HubWorks(acts) => s.(world := Acts(s.world, acts))
    case RefreshScope(answered) => s.(client := Refreshed(s.client, answered, s.world.hub))
    case Initialize(answered, between, arrives) =>
      var later := Acts(s.world, between);
      var client := Initialized(s.client, answered, s.world.hub, Read(later.hub, 0, arrives));
      System(later, client, if answered then Take(later.hub.history, client.cursor) else s.counted, s.resets)
    case Synchronize(round) => Rounded(s, round)
  }

  ghost function Turns(s: System, turns: seq<Turn>): System {
    if turns == [] then s else Turned(Turns(s, turns[..|turns| - 1]), turns[|turns| - 1])
  }

  /** No process restarts during the turn. */
  predicate Calm(t: Turn) {
    match t
    case HubWorks(acts) => Restart !in acts
    case RefreshScope(_) => true
    case Initialize(_, between, _) => Restart !in between
    case Synchronize(r) => Restart !in r.early && Restart !in r.middle && Restart !in r.late
  }

  /** A synchronization in which every request arrives. */
  predicate Complete(t: Turn) {
    t.Synchronize? && t.round.initialArrives && t.round.firstArrives && t.round.baselineArrives && t.round.answered
  }

  /** The Hub keeps no more than one read returns, and the cursor counts a prefix of its history. */
  ghost predicate Inv(s: System) {
    && s.world.WellFormed() && s.world.hub.retention <= WATCH_EVENT_LIMIT
    && (s.client.initialized ==> |s.counted| == s.client.cursor && s.counted <= s.world.hub.history)
  }

  /** The snapshot was queried from a Hub that had recorded all the events the cursor counts: those
      very events, not others under the same numbers. */
  ghost predicate Covers(snapshot: Hub, counted: seq<Event>) { counted <= snapshot.history }

  ghost predicate Covered(s: System) {
    s.client.initialized && s.client.snapshot.Some? && Covers(s.client.snapshot.value, s.counted)
  }

  /** What a turn without restart keeps of the cursor and the coverage. */
  ghost predicate Onward(s: System, t: System) {
    && t.resets == s.resets
    && (s.client.initialized ==>
          t.client.initialized && s.client.cursor <= t.client.cursor && s.counted <= t.counted)
    && (Covered(s) ==> Covered(t))
  }

  /** An established cursor counts the whole history it was read from. */
  lemma EstablishedCounts(c: Client, h: Hub, arrives: bool)
    requires h.WellFormed() && h.retention <= WATCH_EVENT_LIMIT
    ensures var start := Established(c, Read(h, 0, arrives));
            && start.initialized == arrives && start.snapshot == c.snapshot
            && (arrives ==> start.cursor == h.sequence == |h.history| && Take(h.history, start.cursor) == h.history)
  {
    WholeRead(h, 0, WATCH_EVENT_LIMIT);
  }

  /** One check with a cursor, however the Hub grows during it and whatever fails. */
  lemma CheckOnward(counted: seq<Event>, h1: Hub, h2: Hub, firstArrives: bool, baselineArrives: bool)
    requires h1.WellFormed() && h2.WellFormed() && h1.Before(h2) && h1.retention <= WATCH_EVENT_LIMIT
    requires counted <= h1.history
    ensures var poll := Decide(|counted|, Read(h1, |counted|, firstArrives), Read(h2, 0, baselineArrives), WATCH_EVENT_LIMIT);
            && (poll.Polled? ==> !poll.reset && NextCursor(|counted|, poll) == |CountedBy(counted, poll, h1, h2)|)
            && counted <= CountedBy(counted, poll, h1, h2) <= h1.history
            && (firstArrives && baselineArrives ==> poll.Polled?)
  {
    WholeRead(h1, |counted|, WATCH_EVENT_LIMIT);
    WholeRead(h2, 0, WATCH_EVENT_LIMIT);
    assert h1.sequence <= h2.sequence;
    hide ValidEvents, Hub.Watch, Hub.WellFormed;
    assert Take(h1.history, h1.sequence) == h1.history;
  }

  /** The check of a round, from the cursor it starts with. */
  lemma ConsumedOnward(start: Client, counted: seq<Event>, h1: Hub, h2: Hub, h3: Hub, r: Round)
    requires h1.WellFormed() && h2.WellFormed() && h1.Before(h2) && h2.Before(h3) && h1.retention <= WATCH_EVENT_LIMIT
    requires start.initialized && |counted| == start.cursor && counted <= h1.history
    ensures var first, baseline := Read(h1, start.cursor, r.firstArrives), Read(h2, 0, r.baselineArrives);
            var poll := Decide(start.cursor, first, baseline, WATCH_EVENT_LIMIT);
            var (after, reset) := Consumed(start, first, baseline, r.answered, h3);
            var now := if r.answered then CountedBy(counted, poll, h1, h2) else counted;
            && !reset && after.initialized && after.cursor == |now| && counted <= now <= h3.history
            && (after.snapshot == Some(h3) || (now == counted && after == start))
            && (r.firstArrives && r.baselineArrives && r.answered ==> after.snapshot == Some(h3))
  {
    hide Decide, CountedBy, Read, NextCursor, Hub.WellFormed;
    CheckOnward(counted, h1, h2, r.firstArrives, r.baselineArrives);
    FailedCountsNothing(counted, h1, h2);
  }

  lemma FailedCountsNothing(counted: seq<Event>, h1: Hub, h2: Hub)
    ensures CountedBy(counted, PollFailed, h1, h2) == counted
  {
  }

  lemma RoundOnward(s: System, r: Round)
    requires Inv(s) && Calm(Synchronize(r))
    ensures Inv(Rounded(s, r)) && Onward(s, Rounded(s, r))
    ensures Complete(Synchronize(r)) ==> Covered(Rounded(s, r))
  {
    hide Hub.WellFormed, Decide, Acts, Established, Consumed, CountedBy;
    var w1 := Acts(s.world, r.early);
    var w2 := Acts(w1, r.middle);
    ActsWellFormed(s.world, r.early);
    ActsWellFormed(w1, r.middle);
    ActsWellFormed(w2, r.late);
    EstablishedCounts(s.client, s.world.hub, r.initialArrives);
    hide Read;
    var start := if s.client.initialized then s.client else Established(s.client, Read(s.world.hub, 0, r.initialArrives));
    var counted := if s.client.initialized then s.counted else Take(s.world.hub.history, start.cursor);
    if start.initialized {
      ConsumedOnward(start, counted, w1.hub, w2.hub, Acts(w2, r.late).hub, r);
    }
  }

  lemma TurnOnward(s: System, t: Turn)
    requires Inv(s) && Calm(t)
    ensures Inv(Turned(s, t)) && Turned(s, t).resets == s.resets
    ensures !t.Initialize? ==> Onward(s, Turned(s, t))
    ensures Complete(t) ==> Covered(Turned(s, t))
  {
    hide Hub.WellFormed, Decide, Acts, Established, Consumed, CountedBy, Rounded;
    match t
    case HubWorks(acts) => ActsWellFormed(s.world, acts);
    case RefreshScope(_) =>
    case Initialize(answered, between, arrives) =>
      ActsWellFormed(s.world, between);
      EstablishedCounts(Refreshed(s.client, true, s.world.hub), Acts(s.world, between).hub, arrives);
      hide Read;
    case Synchronize(r) => RoundOnward(s, r);
  }

  /** Over every run without a restart, of initializations, recordings, saves, refreshes and
      synchronizations of which any request may fail: no reset is reported. Once the console is
      initialized the cursor never goes back, and from the first complete synchronization on the
      snapshot covers every event up to the cursor. */
  lemma {:induction false} RunOnward(s: System, turns: seq<Turn>)
    requires Inv(s) && forall t :: t in turns ==> Calm(t)
    ensures Inv(Turns(s, turns)) && Turns(s, turns).resets == s.resets
    ensures (forall t :: t in turns ==> !t.Initialize?) ==> Onward(s, Turns(s, turns))
    ensures (forall t :: t in turns ==> !t.Initialize?) && (exists t :: t in turns && Complete(t)) ==>
      Covered(Turns(s, turns))
  {
    hide Inv, Covered, Turned, Calm, Complete;
    if turns != [] {
      var n := |turns| - 1;
      assert turns[n] in turns && forall t :: t in turns[..n] ==> t in turns;
      assert forall t :: t in turns ==> t in turns[..n] || t == turns[n];
      RunOnward(s, turns[..n]);
      TurnOnward(Turns(s, turns[..n]), turns[n]);
    }
  }

  /** A console just created and a Hub just started are where such runs begin. */
  lemma StartInv(retention: nat)
    requires 0 < retention <= WATCH_EVENT_LIMIT
    ensures var hub := Hub(0, 0, [], retention, []);
            Inv(System(World(hub, hub), Client(false, 0, None), [], 0))
  {
    LinedWellFormed(0, retention);
    assert Lined(0, retention) == Hub(0, 0, [], retention, []);
    hide Hub.WellFormed;
  }

  // ---------------------------------------------------------------- the first cursor

  function Records(acts: seq<HubAct>): nat {
    if acts == [] then 0
    else Records(acts[..|acts| - 1]) + if acts[|acts| - 1] == Record then 1 else 0
  }

  lemma {:induction false} ActsLength(w: World, acts: seq<HubAct>)
    requires w.WellFormed() && Restart !in acts
    ensures |Acts(w, acts).hub.history| == |w.hub.history| + Records(acts)
    ensures Records(acts) == 0 <==> Record !in acts
  {
    if acts != [] {
      var n := |acts| - 1;
      assert acts[n] in acts && forall a :: a in acts <==> a in acts[..n] || a == acts[n];
      ActsLength(w, acts[..n]);
      hide World.WellFormed;
    }
  }

  /** The first snapshot covers the first cursor exactly when the Hub recorded nothing between the
      two requests. */
  lemma InitialCoverageIff(s: System, between: seq<HubAct>)
    requires Inv(s) && Restart !in between
    ensures Covered(Turned(s, Initialize(true, between, true))) <==> Record !in between
  {
    var later := Acts(s.world, between);
    ActsWellFormed(s.world, between);
    ActsLength(s.world, between);
    EstablishedCounts(Refreshed(s.client, true, s.world.hub), later.hub, true);
    hide Hub.WellFormed, Acts, Established, Read;
    assert s.world.hub.history <= later.hub.history;
    if Record !in between {
      assert later.hub.history == s.world.hub.history;
    }
  }

  /** One event recorded in between is in the cursor and not in the snapshot. */
  lemma FirstCursorUncovered()
    ensures var hub := Hub(0, 0, [], 5, []);
            var s := System(World(hub, hub), Client(false, 0, None), [], 0);
            Inv(s) && !Covered(Turned(s, Initialize(true, [Record], true)))
  {
    var hub := Hub(0, 0, [], 5, []);
    var s := System(World(hub, hub), Client(false, 0, None), [], 0);
    StartInv(5);
    assert Record in [Record];
    InitialCoverageIff(s, [Record]);
  }

  // ---------------------------------------------------------------- restarts

  /** A restarted Hub continues the saved history with events of its own run. */
  lemma {:induction false} AfterRestart(w: World, acts: seq<HubAct>)
    requires w.WellFormed() && Restart !in acts
    ensures var h := Acts(Act(w, Restart), acts).hub;
            && h.WellFormed() && h.retention == w.hub.retention && h.epoch == w.hub.epoch + 1
            && w.saved.history <= h.history && |h.history| == |w.saved.history| + Records(acts)
            && forall i :: |w.saved.history| <= i < |h.history| ==> h.history[i].origin == w.hub.epoch + 1
    decreases |acts|
  {
    ActWellFormed(w, Restart);
    ActsWellFormed(Act(w, Restart), acts);
    ActsLength(Act(w, Restart), acts);
    if acts != [] {
      var n := |acts| - 1;
      assert forall a :: a in acts[..n] ==> a in acts;
      assert acts[n] in acts;
      AfterRestart(w, acts[..n]);
      ActsWellFormed(Act(w, Restart), acts[..n]);
      hide Hub.WellFormed;
    }
  }

  /** A restart keeps the events the cursor counts if and only if they had all been saved. What was
      lost is not made up for by recording as many others. */
  lemma RestartKeepsIff(w: World, counted: seq<Event>, acts: seq<HubAct>)
    requires w.WellFormed() && counted <= w.hub.history && Restart !in acts
    ensures Covers(Acts(Act(w, Restart), acts).hub, counted) <==> |counted| <= |w.saved.history|
  {
    AfterRestart(w, acts);
    var h, kept := Acts(Act(w, Restart), acts).hub, |w.saved.history|;
    if kept < |counted| <= |h.history| {
      assert counted[kept] == w.hub.history[kept] && h.history[kept].origin > counted[kept].origin;
    }
  }

  /** The check whose two reads see these states of the Hub reports a reset. */
  ghost predicate Reports(first: Hub, second: Hub, prior: nat) {
    var poll := Decide(prior, Read(first, prior, true), Read(second, 0, true), WATCH_EVENT_LIMIT);
    poll.Polled? && poll.reset
  }

  /** Two reads of one process: a reset is reported exactly when the second ends below the cursor. */
  lemma CheckNoticesIff(first: Hub, second: Hub, prior: nat)
    requires first.WellFormed() && second.WellFormed() && first.Before(second) && first.retention <= WATCH_EVENT_LIMIT
    ensures var poll := Decide(prior, Read(first, prior, true), Read(second, 0, true), WATCH_EVENT_LIMIT);
            && poll.Polled? && (poll.reset <==> second.sequence < prior)
            && (poll.reset ==> NextCursor(prior, poll) == second.sequence)
  {
    WholeRead(first, prior, WATCH_EVENT_LIMIT);
    WholeRead(second, 0, WATCH_EVENT_LIMIT);
    assert first.sequence <= second.sequence;
    hide ValidEvents, Hub.Watch, Hub.WellFormed;
  }

  /** Whatever was lost, a check reports a reset exactly when the log it finds still ends below the
      cursor: when fewer events were recorded since the restart than were lost by it. */
  lemma RestartNoticedIff(w: World, counted: seq<Event>, acts: seq<HubAct>, middle: seq<HubAct>)
    requires w.WellFormed() && counted <= w.hub.history && w.hub.retention <= WATCH_EVENT_LIMIT
    requires Restart !in acts && Restart !in middle
    ensures var now := Acts(Act(w, Restart), acts);
            Reports(now.hub, Acts(now, middle).hub, |counted|) <==>
            |w.saved.history| + Records(acts) + Records(middle) < |counted|
  {
    ActWellFormed(w, Restart);
    var now := Acts(Act(w, Restart), acts);
    ActsWellFormed(Act(w, Restart), acts);
    ActsLength(Act(w, Restart), acts);
    ActsWellFormed(now, middle);
    ActsLength(now, middle);
    CheckNoticesIff(now.hub, Acts(now, middle).hub, |counted|);
  }

  /** Five events counted, none saved, a restart, six others recorded: they are lost, and the next
      check reports nothing. */
  lemma SilentRestart()
    ensures var w := World(Lined(5, 10), Lined(0, 10));
            var acts := [Record, Record, Record, Record, Record, Record];
            var now := Acts(Act(w, Restart), acts);
            && w.WellFormed() && !Covers(now.hub, w.hub.history)
            && !Reports(now.hub, now.hub, 5)
  {
    var w := World(Lined(5, 10), Lined(0, 10));
    var acts := [Record, Record, Record, Record, Record, Record];
    hide Acts, Act, Reports, Covers, Records, Hub.WellFormed;
    LinedWellFormed(5, 10);
    LinedWellFormed(0, 10);
    SixRecords();
    RestartKeepsIff(w, w.hub.history, acts);
    RestartNoticedIff(w, w.hub.history, acts, []);
  }

  lemma SixRecords()
    ensures Records([Record, Record, Record, Record, Record, Record]) == 6
    ensures Restart !in [Record, Record, Record, Record, Record, Record]
  {
    var acts := [Record, Record, Record, Record, Record, Record];
    assert acts[..5][..4] == acts[..4] && acts[..4][..3] == acts[..3] && acts[..3][..2] == acts[..2];
    assert acts[..2][..1] == acts[..1] && acts[..1][..0] == [];
    assert Records(acts[..1]) == 1;
    assert Records(acts[..2]) == 2;
    assert Records(acts[..3]) == 3;
    assert Records(acts[..4]) == 4;
  }

  // ---------------------------------------------------------------- whole runs, by sequence numbers

  /** What remains of a run when only sequence numbers are kept: the cursor, if there is one, and the
      resets reported so far. */
  datatype Bookmark = Bookmark(cursor: Option<nat>, resets: nat)

  function BookmarkOf(s: System): Bookmark {
    Bookmark(if s.client.initialized then Some(s.client.cursor) else None, s.resets)
  }

  /** One synchronization: `tail0`, `tail1` and `tail2` are the last numbers recorded when the first
      cursor, the log past the cursor and the whole log are read. Nothing moves unless every request
      that is needed arrives; then the cursor goes on to the tail of the first read, back to that of
      the second one with a reset, or stays. */
  function Marked(b: Bookmark, r: Round, tail0: nat, tail1: nat, tail2: nat): Bookmark {
    var start := if b.cursor.Some? then b.cursor else if r.initialArrives then Some(tail0) else None;
    if start.None? || !r.answered || !r.firstArrives then b.(cursor := start)
    else if start.value < tail1 then b.(cursor := Some(tail1))
    else if start.value > 0 && !r.baselineArrives then b.(cursor := start)
    else if tail2 < start.value then Bookmark(Some(tail2), b.resets + 1)
    else b.(cursor := start)
  }

  function MarkedTurn(w: World, b: Bookmark, t: Turn): Bookmark {
    match t
    case HubWorks(_) => b
    case RefreshScope(_) => b
    case Initialize(answered, between, arrives) =>
      if answered then b.(cursor := if arrives then Some(Acts(w, between).hub.sequence) else None) else b
    case Synchronize(r) =>
      var w1 := Acts(w, r.early);
      Marked(b, r, w.hub.sequence, w1.hub.sequence, Acts(w1, r.middle).hub.sequence)
  }

  /** The Hub goes its way whatever the console does. */
  function WorldAfter(w: World, t: Turn): World {
    match t
    case HubWorks(acts) => Acts(w, acts)
    case RefreshScope(_) => w
    case Initialize(_, between, _) => Acts(w, between)
    case Synchronize(r) => Acts(Acts(Acts(w, r.early), r.middle), r.late)
  }

  function MarkedTurns(w: World, b: Bookmark, turns: seq<Turn>): (World, Bookmark) {
    if turns == [] then (w, b)
    else
      var (world, mark) := MarkedTurns(w, b, turns[..|turns| - 1]);
      (WorldAfter(world, turns[|turns| - 1]), MarkedTurn(world, mark, turns[|turns| - 1]))
  }

  /** A check by its two reads, of one process or of two. */
  lemma CheckMeans(prior: nat, h1: Hub, h2: Hub, firstArrives: bool, baselineArrives: bool)
    requires h1.WellFormed() && h2.WellFormed()
    requires h1.retention <= WATCH_EVENT_LIMIT && h2.retention <= WATCH_EVENT_LIMIT
    ensures var poll := Decide(prior, Read(h1, prior, firstArrives), Read(h2, 0, baselineArrives), WATCH_EVENT_LIMIT);
            && (poll.Polled? <==> firstArrives && (prior < h1.sequence || prior == 0 || baselineArrives))
            && (poll.Polled? ==>
                  && (poll.reset <==> h1.sequence <= prior && h2.sequence < prior)
                  && NextCursor(prior, poll) ==
                     if prior < h1.sequence then h1.sequence else if h2.sequence < prior then h2.sequence else prior)
  {
    WholeRead(h1, prior, WATCH_EVENT_LIMIT);
    WholeRead(h2, 0, WATCH_EVENT_LIMIT);
    TailOfRead(h2, 0, WATCH_EVENT_LIMIT);
    hide ValidEvents, Hub.Watch, Hub.WellFormed, Tail, Seen;
    assert h2.Watch(0, WATCH_EVENT_LIMIT) == [] ==> h2.sequence == 0;
  }

  /** A synchronization does to cursor and resets what the sequence numbers say, and takes a new
      snapshot exactly when it moves the cursor on or has none to move. */
  lemma RoundMeans(s: System, r: Round)
    requires s.world.WellFormed() && s.world.hub.retention <= WATCH_EVENT_LIMIT
    ensures BookmarkOf(Rounded(s, r)) == MarkedTurn(s.world, BookmarkOf(s), Synchronize(r))
    ensures r.initialArrives && r.firstArrives && r.baselineArrives && r.answered ==>
      Rounded(s, r).client.snapshot == Some(WorldAfter(s.world, Synchronize(r)).hub)
    ensures !r.answered ==> Rounded(s, r).client.snapshot == s.client.snapshot
  {
    hide Hub.WellFormed, Decide, Acts, CountedBy, Read;
    var w1 := Acts(s.world, r.early);
    var w2 := Acts(w1, r.middle);
    ActsWellFormed(s.world, r.early);
    ActsWellFormed(w1, r.middle);
    EstablishedCounts(s.client, s.world.hub, r.initialArrives);
    var start := if s.client.initialized then s.client else Established(s.client, Read(s.world.hub, 0, r.initialArrives));
    hide Established;
    if start.initialized {
      CheckMeans(start.cursor, w1.hub, w2.hub, r.firstArrives, r.baselineArrives);
    }
  }

  /** Over every run, with restarts anywhere and any request failing: cursor and reported resets are
      those of the sequence numbers. */
  lemma {:induction false} RunMeans(s: System, turns: seq<Turn>)
    requires s.world.WellFormed() && s.world.hub.retention <= WATCH_EVENT_LIMIT
    ensures var t := Turns(s, turns);
            && t.world.WellFormed() && t.world.hub.retention == s.world.hub.retention
            && (t.world, BookmarkOf(t)) == MarkedTurns(s.world, BookmarkOf(s), turns)
  {
    hide Rounded, Marked, Acts, World.WellFormed;
    if turns != [] {
      var n := |turns| - 1;
      RunMeans(s, turns[..n]);
      TurnMeans(Turns(s, turns[..n]), turns[n]);
    }
  }

  lemma TurnMeans(s: System, t: Turn)
    requires s.world.WellFormed() && s.world.hub.retention <= WATCH_EVENT_LIMIT
    ensures Turned(s, t).world == WorldAfter(s.world, t)
    ensures Turned(s, t).world.WellFormed() && Turned(s, t).world.hub.retention == s.world.hub.retention
    ensures BookmarkOf(Turned(s, t)) == MarkedTurn(s.world, BookmarkOf(s), t)
  {
    hide Hub.WellFormed, Decide, Acts, Consumed, CountedBy, Marked;
    match t
    case HubWorks(acts) => ActsWellFormed(s.world, acts);
    case RefreshScope(_) =>
    case Initialize(answered, between, arrives) =>
      ActsWellFormed(s.world, between);
      EstablishedCounts(Refreshed(s.client, true, s.world.hub), Acts(s.world, between).hub, arrives);
      hide Established, Read;
    case Synchronize(r) =>
      RoundMeans(s, r);
      ActsWellFormed(s.world, r.early);
      ActsWellFormed(Acts(s.world, r.early), r.middle);
      ActsWellFormed(Acts(Acts(s.world, r.early), r.middle), r.late);
      hide Synchronized, Established, Read;
  }

  /** With a cursor and every request answered, two reads of one process report a reset exactly when
      the log they find ends below the cursor, and then the cursor goes back to its end. Otherwise it
      goes on to the end the first read saw, or stays where no read has got to. */
  lemma SynchronizationReportsIff(s: System, r: Round)
    requires s.world.WellFormed() && s.world.hub.retention <= WATCH_EVENT_LIMIT && s.client.initialized
    requires r.firstArrives && r.baselineArrives && r.answered && Restart !in r.middle
    ensures var w1 := Acts(s.world, r.early);
            var first, second := w1.hub.sequence, Acts(w1, r.middle).hub.sequence;
            var t := Rounded(s, r);
            && first <= second && t.client.initialized
            && (t.resets == s.resets + 1 <==> second < s.client.cursor)
            && (t.resets == s.resets <==> s.client.cursor <= second)
            && t.client.cursor ==
               (if second < s.client.cursor then second else if first < s.client.cursor then s.client.cursor else first)
  {
    hide Rounded, Acts, Hub.WellFormed, Hub.Before;
    RoundMeans(s, r);
    var w1 := Acts(s.world, r.early);
    ActsWellFormed(s.world, r.early);
    ActsWellFormed(w1, r.middle);
    TailsAscend(w1.hub, Acts(w1, r.middle).hub);
  }

  lemma TailsAscend(h: Hub, later: Hub)
    requires h.WellFormed() && later.WellFormed() && h.Before(later)
    ensures h.sequence <= later.sequence
  {
    hide Numbered;
    assert |h.history| <= |later.history|;
  }

  /** A Hub restarted at three behind a cursor of five: the reset is reported, and the cursor rebased. */
  lemma ResetIsReported()
    ensures var s := System(World(Lined(3, 10), Lined(3, 10)), Client(true, 5, None), [], 0);
            var t := Rounded(s, Round(true, [], true, [], true, [], true));
            t.client.cursor == 3 && t.resets == 1
  {
    var s := System(World(Lined(3, 10), Lined(3, 10)), Client(true, 5, None), [], 0);
    LinedWellFormed(3, 10);
    hide Hub.WellFormed, Rounded;
    SynchronizationReportsIff(s, Round(true, [], true, [], true, [], true));
  }
}
