/** The event hub: a numbered event buffer of bounded length that subscribers poll by sequence number. */
module EventHub {
  import opened Options

  const MAX_EVENTS: nat := 512

  /** A history of events with their numbers, the first being number `first + 1`. */
  function Number<E>(events: seq<E>, first: nat): seq<(nat, E)> {
    seq(|events|, i requires 0 <= i < |events| => (first + 1 + i, events[i]))
  }

  /** The last `n` elements, or all of them when there are fewer. */
  function Last<T>(n: nat, s: seq<T>): (r: seq<T>)
    ensures |r| == if |s| < n then |s| else n
  {
    if |s| < n then s else s[|s| - n..]
  }

  /** The events numbered above `after`, oldest first. */
  function Above<E>(events: seq<(nat, E)>, after: nat): seq<(nat, E)> {
    if events == [] then []
    else (if events[0].0 > after then [events[0]] else []) + Above(events[1..], after)
  }

  class EventHub<E> {
    var nextSequence: nat
    var events: seq<(nat, E)>
    /** Every event ever pushed. */
    ghost var log: seq<E>

    /** The hub holds the last events of its log, under their positions in it. */
    ghost predicate Valid()
      reads this
    {
      nextSequence == |log| && events == Last(MAX_EVENTS, Number(log, 0))
    }

    constructor ()
      ensures Valid() && log == []
    {
      nextSequence, events, log := 0, [], [];
    }

    method Push(event: E)
      requires Valid()
      modifies this
      ensures Valid() && log == old(log) + [event]
    {
      hide Number, Last;
      NumberGrows(log, event);
      LastGrows(MAX_EVENTS, Number(log, 0), (|log| + 1, event));
      nextSequence := nextSequence + 1;
      var sequence := nextSequence;
      events := events + [(sequence, event)];
      var overflow := if |events| < MAX_EVENTS then 0 else |events| - MAX_EVENTS;
      if overflow > 0 {
        events := events[overflow..];
      }
      log := log + [event];
    }

    method EventsAfter(sequence: nat) returns (found: seq<(nat, E)>)
      requires Valid()
      ensures found == EventsSince(log, sequence)
    {
      found := [];
      var i := 0;
      while i < |events|
        invariant 0 <= i <= |events|
        invariant found + Above(events[i..], sequence) == Above(events, sequence)
      {
        ghost var rest := Above(events[i + 1..], sequence);
        assert events[i..][1..] == events[i + 1..];
        if events[i].0 > sequence {
          assert found + ([events[i]] + rest) == found + [events[i]] + rest;
          found := found + [events[i]];
        } else {
          assert [] + rest == rest;
        }
        i := i + 1;
      }
      assert found + [] == found;
      AboveSince(log, sequence);
    }

    method CurrentSequence() returns (sequence: nat)
      requires Valid()
      ensures sequence == |log|
    {
      sequence := nextSequence;
    }
  }

  lemma NumberGrows<E>(log: seq<E>, event: E)
    ensures Number(log + [event], 0) == Number(log, 0) + [(|log| + 1, event)]
  {
  }

  lemma LastGrows<T>(n: nat, s: seq<T>, x: T)
    ensures Last(n, s + [x]) == if |s| < n then Last(n, s) + [x] else (Last(n, s) + [x])[1..]
  {
    if |s| >= n {
      assert Last(n, s) + [x] == (s + [x])[|s| - n..];
    }
  }

  /** What a poll from `after` returns when `log` was pushed: the part of the log behind `after`, as far as it is retained. */
  function EventsSince<E>(log: seq<E>, after: nat): seq<(nat, E)> {
    var first := if |log| < after then |log| else if after + MAX_EVENTS < |log| then |log| - MAX_EVENTS else after;
    Number(log[first..], first)
  }

  lemma NumberTail<E>(events: seq<E>, first: nat)
    requires events != []
    ensures Number(events, first) == [(first + 1, events[0])] + Number(events[1..], first + 1)
    ensures Number(events, first)[0] == (first + 1, events[0]) && Number(events, first)[1..] == Number(events[1..], first + 1)
  {
  }

  lemma AboveStep<E>(events: seq<E>, first: nat, after: nat)
    requires events != []
    ensures Above(Number(events, first), after) ==
            (if first + 1 > after then [(first + 1, events[0])] else []) + Above(Number(events[1..], first + 1), after)
  {
    NumberTail(events, first);
    hide Number;
  }

  lemma {:induction false} AboveNumbered<E>(events: seq<E>, first: nat, after: nat)
    ensures Above(Number(events, first), after) ==
            if after <= first then Number(events, first)
            else if after < first + |events| then Number(events[after - first..], after)
            else []
  {
    if events == [] {
      NumberNone(events, first);
    } else {
      hide Number, Above;
      var rest := events[1..];
      NumberTail(events, first);
      AboveStep(events, first, after);
      AboveNumbered(rest, first + 1, after);
      if first < after < first + |events| {
        assert rest[after - (first + 1)..] == events[after - first..];
      }
      if first < after {
        assert [] + Above(Number(rest, first + 1), after) == Above(Number(rest, first + 1), after);
      }
    }
  }

  lemma NumberNone<E>(events: seq<E>, first: nat)
    requires events == []
    ensures Number(events, first) == []
  {
  }

  lemma AboveSince<E>(log: seq<E>, after: nat)
    ensures Above(Last(MAX_EVENTS, Number(log, 0)), after) == EventsSince(log, after)
  {
    var dropped := if |log| < MAX_EVENTS then 0 else |log| - MAX_EVENTS;
    assert Last(MAX_EVENTS, Number(log, 0)) == Number(log[dropped..], dropped);
    AboveNumbered(log[dropped..], dropped, after);
    if dropped < after < |log| {
      assert log[dropped..][after - dropped..] == log[after..];
    }
  }

  // ----- a subscriber that takes everything -----

  /** What happens around one subscriber: an event is pushed, or the subscriber polls. */
  datatype Step<E> = Pushed(event: E) | Polled

  function LogAfter<E>(log: seq<E>, steps: seq<Step<E>>): (r: seq<E>)
    ensures |log| <= |r| && r[..|log|] == log
    decreases |steps|
  {
    if steps == [] then log
    else
      match steps[0]
      case Pushed(e) => LogAfter(log + [e], steps[1..])
      case Polled => LogAfter(log, steps[1..])
  }

  /** Everything handed over to a subscriber that polls each time from the newest number of its previous poll. */
  function Received<E>(log: seq<E>, cursor: nat, steps: seq<Step<E>>): seq<(nat, E)>
    decreases |steps|
  {
    if steps == [] then []
    else
      match steps[0]
      case Pushed(e) => Received(log + [e], cursor, steps[1..])
      case Polled => EventsSince(log, cursor) + Received(log, |log|, steps[1..])
  }

  /** The newest number at the last poll. */
  function LastPolled<E>(log: seq<E>, cursor: nat, steps: seq<Step<E>>): (n: nat)
    requires cursor <= |log|
    ensures cursor <= n <= |LogAfter(log, steps)|
    decreases |steps|
  {
    if steps == [] then cursor
    else
      match steps[0]
      case Pushed(e) => LastPolled(log + [e], cursor, steps[1..])
      case Polled => LastPolled(log, |log|, steps[1..])
  }

  /** At most `MAX_EVENTS` events wait at every poll, `waiting` of them already there. */
  predicate KeepsUp<E>(waiting: nat, steps: seq<Step<E>>)
    decreases |steps|
  {
    if steps == [] then true
    else
      match steps[0]
      case Pushed(_) => KeepsUp(waiting + 1, steps[1..])
      case Polled => waiting <= MAX_EVENTS && KeepsUp(0, steps[1..])
  }

  lemma {:induction false} NeverTooMany<E>(log: seq<E>, cursor: nat, steps: seq<Step<E>>)
    requires cursor <= |log|
    ensures |Received(log, cursor, steps)| <= LastPolled(log, cursor, steps) - cursor
    decreases |steps|
  {
    if steps != [] {
      match steps[0] {
        case Pushed(e) => NeverTooMany(log + [e], cursor, steps[1..]);
        case Polled => NeverTooMany(log, |log|, steps[1..]);
      }
    }
  }

  lemma NumberConcat<E>(log: seq<E>, a: nat, b: nat, c: nat)
    requires a <= b <= c <= |log|
    ensures Number(log[a..b], a) + Number(log[b..c], b) == Number(log[a..c], a)
  {
  }

  /**
   The subscriber receives every event up to its last poll, each once, in order and under its own number,
   exactly when no more than `MAX_EVENTS` are pushed between polls.
   */
  lemma {:induction false} EachEventOnce<E>(log: seq<E>, cursor: nat, steps: seq<Step<E>>)
    requires cursor <= |log|
    ensures KeepsUp(|log| - cursor, steps) <==>
            Received(log, cursor, steps) == Number(LogAfter(log, steps)[cursor..LastPolled(log, cursor, steps)], cursor)
    decreases |steps|
  {
    hide Number;
    if steps == [] {
      NumberNothing(log, cursor);
    } else {
      match steps[0] {
        case Pushed(e) => EachEventOnce(log + [e], cursor, steps[1..]);
        case Polled =>
          var all, upTo := LogAfter(log, steps), LastPolled(log, |log|, steps[1..]);
          var rest := Received(log, |log|, steps[1..]);
          EachEventOnce(log, |log|, steps[1..]);
          NumberConcat(all, cursor, |log|, upTo);
          NumberLengths(all, cursor, upTo);
          if |log| - cursor <= MAX_EVENTS {
            SplitEqual(EventsSince(log, cursor), rest, Number(all[|log|..upTo], |log|));
            assert log[cursor..] == all[cursor..|log|];
          } else {
            NeverTooMany(log, |log|, steps[1..]);
            NumberLengths(log, |log| - MAX_EVENTS, |log|);
            assert log[|log| - MAX_EVENTS..] == log[|log| - MAX_EVENTS..|log|];
          }
      }
    }
  }

  lemma NumberNothing<E>(log: seq<E>, cursor: nat)
    requires cursor <= |log|
    ensures Number(log[cursor..cursor], cursor) == []
  {
  }

  lemma NumberLengths<E>(log: seq<E>, a: nat, b: nat)
    requires a <= b <= |log|
    ensures |Number(log[a..b], a)| == b - a
  {
  }

  lemma SplitEqual<T>(front: seq<T>, x: seq<T>, y: seq<T>)
    ensures front + x == front + y <==> x == y
  {
    if front + x == front + y {
      assert x == (front + x)[|front|..] == (front + y)[|front|..] == y;
    }
  }

  // ----- a subscription to one kind of event -----

  function Filter<E>(wanted: E -> bool, log: seq<E>): seq<E> {
    if log == [] then []
    else (if wanted(log[0]) then [log[0]] else []) + Filter(wanted, log[1..])
  }

  /** The first wanted event numbered above `cursor`, and the cursor after looking for it. */
  function FirstWanted<E>(wanted: E -> bool, events: seq<(nat, E)>, cursor: nat): (Option<E>, nat) {
    if events == [] then (None, cursor)
    else if wanted(events[0].1) then (Some(events[0].1), events[0].0)
    else FirstWanted(wanted, events[1..], events[0].0)
  }

  class Subscription<E> {
    const wanted: E -> bool
    var lastSequence: nat

    constructor (wanted: E -> bool)
      ensures this.wanted == wanted && lastSequence == 0
    {
      this.wanted, lastSequence := wanted, 0;
    }

    method Poll(hub: EventHub<E>) returns (found: Option<E>)
      requires hub.Valid()
      modifies this
      ensures (found, lastSequence) == FirstWanted(wanted, EventsSince(hub.log, old(lastSequence)), old(lastSequence))
    {
      var events := hub.EventsAfter(lastSequence);
      var i := 0;
      while i < |events|
        invariant 0 <= i <= |events|
        invariant FirstWanted(wanted, events[i..], lastSequence) == FirstWanted(wanted, events, old(lastSequence))
      {
        assert events[i..][1..] == events[i + 1..];
        lastSequence := events[i].0;
        if wanted(events[i].1) {
          return Some(events[i].1);
        }
        i := i + 1;
      }
      return None;
    }
  }

  lemma {:induction false} FirstWantedFound<E>(wanted: E -> bool, log: seq<E>, cursor: nat)
    requires cursor <= |log|
    ensures var (found, next) := FirstWanted(wanted, Number(log[cursor..], cursor), cursor);
            && cursor <= next <= |log|
            && Filter(wanted, log[cursor..next]) == (match found case Some(e) => [e] case None => [])
            && (found == None ==> next == |log|)
    decreases |log| - cursor
  {
    var numbered := Number(log[cursor..], cursor);
    if cursor < |log| {
      assert numbered[1..] == Number(log[cursor + 1..], cursor + 1);
      assert numbered[0] == (cursor + 1, log[cursor]);
      if wanted(log[cursor]) {
        assert log[cursor..cursor + 1] == [log[cursor]];
        assert [log[cursor]][1..] == [];
      } else {
        FirstWantedFound(wanted, log, cursor + 1);
        var next := FirstWanted(wanted, numbered, cursor).1;
        assert log[cursor..next][1..] == log[cursor + 1..next];
      }
    } else {
      assert log[cursor..cursor] == [];
    }
  }

  /** The oldest number still retained when a poll from `cursor` is answered, less one. */
  function Horizon<E>(log: seq<E>, cursor: nat): nat {
    if cursor + MAX_EVENTS < |log| then |log| - MAX_EVENTS else cursor
  }

  /** The wanted events returned by a run of polls, in order. */
  function Delivered<E>(wanted: E -> bool, log: seq<E>, cursor: nat, steps: seq<Step<E>>): seq<E>
    decreases |steps|
  {
    if steps == [] then []
    else
      match steps[0]
      case Pushed(e) => Delivered(wanted, log + [e], cursor, steps[1..])
      case Polled =>
        var (found, next) := FirstWanted(wanted, EventsSince(log, cursor), cursor);
        (match found case Some(e) => [e] case None => []) + Delivered(wanted, log, next, steps[1..])
  }

  function CursorAfter<E>(wanted: E -> bool, log: seq<E>, cursor: nat, steps: seq<Step<E>>): nat
    decreases |steps|
  {
    if steps == [] then cursor
    else
      match steps[0]
      case Pushed(e) => CursorAfter(wanted, log + [e], cursor, steps[1..])
      case Polled => CursorAfter(wanted, log, FirstWanted(wanted, EventsSince(log, cursor), cursor).1, steps[1..])
  }

  /** No wanted event has been dropped between the cursor and the horizon of any poll. */
  predicate NothingOverrun<E>(wanted: E -> bool, log: seq<E>, cursor: nat, steps: seq<Step<E>>)
    requires cursor <= |log|
    decreases |steps|
  {
    if steps == [] then true
    else
      match steps[0]
      case Pushed(e) => NothingOverrun(wanted, log + [e], cursor, steps[1..])
      case Polled =>
        && Filter(wanted, log[cursor..Horizon(log, cursor)]) == []
        && (PollAdvances(wanted, log, cursor);
            NothingOverrun(wanted, log, FirstWanted(wanted, EventsSince(log, cursor), cursor).1, steps[1..]))
  }

  /** One poll moves the cursor over the dropped events, over unwanted ones, and over at most one wanted event, which it returns. */
  lemma PollAdvances<E>(wanted: E -> bool, log: seq<E>, cursor: nat)
    requires cursor <= |log|
    ensures var (found, next) := FirstWanted(wanted, EventsSince(log, cursor), cursor);
            && cursor <= Horizon(log, cursor) <= next <= |log|
            && Filter(wanted, log[Horizon(log, cursor)..next]) == (match found case Some(e) => [e] case None => [])
            && (found == None ==> next == |log|)
  {
    var h := Horizon(log, cursor);
    FirstWantedFound(wanted, log, h);
    if h == |log| {
      assert log[h..] == [];
    } else {
      var numbered := Number(log[h..], h);
      assert numbered != [];
    }
  }

  lemma {:induction false} FilterConcat<E>(wanted: E -> bool, a: seq<E>, b: seq<E>)
    ensures Filter(wanted, a + b) == Filter(wanted, a) + Filter(wanted, b)
  {
    if a == [] {
      assert a + b == b;
      assert [] + Filter(wanted, b) == Filter(wanted, b);
    } else {
      var head := if wanted(a[0]) then [a[0]] else [];
      assert (a + b)[1..] == a[1..] + b && (a + b)[0] == a[0];
      assert Filter(wanted, a + b) == head + Filter(wanted, a[1..] + b);
      assert Filter(wanted, a) == head + Filter(wanted, a[1..]);
      hide Filter;
      FilterConcat(wanted, a[1..], b);
      assert head + (Filter(wanted, a[1..]) + Filter(wanted, b)) == (head + Filter(wanted, a[1..])) + Filter(wanted, b);
    }
  }

  lemma FilterParts<E>(wanted: E -> bool, log: seq<E>, a: nat, b: nat, c: nat)
    requires a <= b <= c <= |log|
    ensures Filter(wanted, log[a..c]) == Filter(wanted, log[a..b]) + Filter(wanted, log[b..c])
  {
    assert log[a..c] == log[a..b] + log[b..c];
    FilterConcat(wanted, log[a..b], log[b..c]);
  }

  lemma Accounts<T>(lost: seq<T>, one: seq<T>, got: seq<T>, due: seq<T>)
    requires |got| <= |due|
    ensures |one + got| <= |lost + (one + due)|
    ensures one + got == lost + (one + due) <==> lost == [] && got == due
  {
    if lost == [] {
      assert lost + (one + due) == one + due;
      SplitEqual(one, got, due);
    }
  }

  /** A subscription returns every wanted event behind its final cursor exactly when none was dropped ahead of its cursor. */
  lemma {:induction false} DeliveredUnlessOverrun<E>(wanted: E -> bool, log: seq<E>, cursor: nat, steps: seq<Step<E>>)
    requires cursor <= |log|
    ensures cursor <= CursorAfter(wanted, log, cursor, steps) <= |LogAfter(log, steps)|
    ensures var due := Filter(wanted, LogAfter(log, steps)[cursor..CursorAfter(wanted, log, cursor, steps)]);
            && |Delivered(wanted, log, cursor, steps)| <= |due|
            && (NothingOverrun(wanted, log, cursor, steps) <==> Delivered(wanted, log, cursor, steps) == due)
    decreases |steps|
  {
    hide FirstWanted, Filter, Horizon, EventsSince;
    if steps == [] {
      FilterNone(wanted, log, cursor);
    } else {
      match steps[0] {
        case Pushed(e) => DeliveredUnlessOverrun(wanted, log + [e], cursor, steps[1..]);
        case Polled =>
          var next := FirstWanted(wanted, EventsSince(log, cursor), cursor).1;
          PollAdvances(wanted, log, cursor);
          DeliveredUnlessOverrun(wanted, log, next, steps[1..]);
          var all, end := LogAfter(log, steps), CursorAfter(wanted, log, next, steps[1..]);
          DueAfterPoll(wanted, log, all, cursor, next, end, Delivered(wanted, log, next, steps[1..]));
      }
    }
  }

  lemma FilterNone<E>(wanted: E -> bool, log: seq<E>, cursor: nat)
    requires cursor <= |log|
    ensures Filter(wanted, log[cursor..cursor]) == []
  {
  }

  /** What is due over one poll and what follows it, against what is received. */
  lemma DueAfterPoll<E>(wanted: E -> bool, log: seq<E>, all: seq<E>, cursor: nat, next: nat, end: nat, got: seq<E>)
    requires cursor <= Horizon(log, cursor) <= next <= |log| && |log| <= |all| && all[..|log|] == log && next <= end <= |all|
    requires |got| <= |Filter(wanted, all[next..end])|
    ensures var one, due := Filter(wanted, log[Horizon(log, cursor)..next]), Filter(wanted, all[cursor..end]);
            && |one + got| <= |due|
            && (one + got == due <==>
                Filter(wanted, log[cursor..Horizon(log, cursor)]) == [] && got == Filter(wanted, all[next..end]))
  {
    hide Filter, Horizon;
    var h := Horizon(log, cursor);
    assert log[cursor..h] == all[cursor..h] && log[h..next] == all[h..next];
    FilterParts(wanted, all, cursor, h, end);
    FilterParts(wanted, all, h, next, end);
    Accounts(Filter(wanted, all[cursor..h]), Filter(wanted, all[h..next]), got, Filter(wanted, all[next..end]));
  }

  /**
   Counting pushes and polls only, with `handed` wanted events handed over before: whenever the subscription
   polls, the wanted events that are no longer retained have all had a poll of their own.
   */
  predicate KeepsPace<E>(wanted: E -> bool, log: seq<E>, handed: nat, steps: seq<Step<E>>)
    decreases |steps|
  {
    if steps == [] then true
    else
      match steps[0]
      case Pushed(e) => KeepsPace(wanted, log + [e], handed, steps[1..])
      case Polled =>
        && |Filter(wanted, log[..|log| - |Last(MAX_EVENTS, log)|])| <= handed
        && KeepsPace(wanted, log, if handed < |Filter(wanted, log)| then handed + 1 else handed, steps[1..])
  }

  /** What one poll does to the count, and when it loses something. */
  lemma PollCounts<E>(wanted: E -> bool, log: seq<E>, cursor: nat, next: nat)
    requires cursor <= |log| && next == FirstWanted(wanted, EventsSince(log, cursor), cursor).1 && next <= |log|
    ensures var handed := |Filter(wanted, log[..cursor])|;
            && (Filter(wanted, log[cursor..Horizon(log, cursor)]) == [] <==>
                |Filter(wanted, log[..|log| - |Last(MAX_EVENTS, log)|])| <= handed)
            && (Filter(wanted, log[cursor..Horizon(log, cursor)]) == [] ==>
                  |Filter(wanted, log[..next])| == if handed < |Filter(wanted, log)| then handed + 1 else handed)
  {
    PollAdvances(wanted, log, cursor);
    var h := Horizon(log, cursor);
    var gone := |log| - |Last(MAX_EVENTS, log)|;
    assert h == if gone < cursor then cursor else gone;
    assert log[0..cursor] == log[..cursor] && log[0..gone] == log[..gone] && log[0..h] == log[..h];
    assert log[0..next] == log[..next] && log[0..|log|] == log;
    hide FirstWanted, Filter, Horizon, EventsSince;
    FilterParts(wanted, log, 0, cursor, h);
    FilterParts(wanted, log, 0, h, next);
    FilterParts(wanted, log, 0, next, |log|);
    if gone < cursor {
      FilterParts(wanted, log, 0, gone, cursor);
    }
  }

  lemma {:induction false} PaceIsNoOverrun<E>(wanted: E -> bool, log: seq<E>, cursor: nat, steps: seq<Step<E>>)
    requires cursor <= |log|
    ensures KeepsPace(wanted, log, |Filter(wanted, log[..cursor])|, steps) <==> NothingOverrun(wanted, log, cursor, steps)
    decreases |steps|
  {
    hide FirstWanted, Filter, Horizon, EventsSince, Last;
    if steps != [] {
      match steps[0] {
        case Pushed(e) =>
          assert (log + [e])[..cursor] == log[..cursor];
          PaceIsNoOverrun(wanted, log + [e], cursor, steps[1..]);
        case Polled =>
          var next := FirstWanted(wanted, EventsSince(log, cursor), cursor).1;
          PollAdvances(wanted, log, cursor);
          PollCounts(wanted, log, cursor, next);
          PaceIsNoOverrun(wanted, log, next, steps[1..]);
          var lost := Filter(wanted, log[cursor..Horizon(log, cursor)]);
          assert NothingOverrun(wanted, log, cursor, steps) <==> lost == [] && NothingOverrun(wanted, log, next, steps[1..]);
      }
    }
  }

  /**
   A subscription never returns an event twice or out of order, and it returns every wanted event behind its
   final cursor if and only if it keeps pace: each poll hands over one event, and the wanted ones that have
   left the buffer at a poll number no more than those handed over before it.
   */
  lemma SubscriptionExact<E>(wanted: E -> bool, log: seq<E>, cursor: nat, steps: seq<Step<E>>)
    requires cursor <= |log|
    ensures cursor <= CursorAfter(wanted, log, cursor, steps) <= |LogAfter(log, steps)|
    ensures var due := Filter(wanted, LogAfter(log, steps)[cursor..CursorAfter(wanted, log, cursor, steps)]);
            && |Delivered(wanted, log, cursor, steps)| <= |due|
            && (KeepsPace(wanted, log, |Filter(wanted, log[..cursor])|, steps) <==> Delivered(wanted, log, cursor, steps) == due)
  {
    DeliveredUnlessOverrun(wanted, log, cursor, steps);
    PaceIsNoOverrun(wanted, log, cursor, steps);
  }

  /** Keeping within `MAX_EVENTS` of the cursor, rather than of the previous poll, loses nothing. */
  predicate StaysClose<E>(wanted: E -> bool, log: seq<E>, cursor: nat, steps: seq<Step<E>>)
    decreases |steps|
  {
    if steps == [] then true
    else
      match steps[0]
      case Pushed(e) => StaysClose(wanted, log + [e], cursor, steps[1..])
      case Polled =>
        && |log| <= cursor + MAX_EVENTS
        && StaysClose(wanted, log, FirstWanted(wanted, EventsSince(log, cursor), cursor).1, steps[1..])
  }

  lemma {:induction false} CloseLosesNothing<E>(wanted: E -> bool, log: seq<E>, cursor: nat, steps: seq<Step<E>>)
    requires cursor <= |log| && StaysClose(wanted, log, cursor, steps)
    ensures KeepsPace(wanted, log, |Filter(wanted, log[..cursor])|, steps)
    decreases |steps|
  {
    PaceIsNoOverrun(wanted, log, cursor, steps);
    if steps != [] {
      match steps[0] {
        case Pushed(e) =>
          CloseLosesNothing(wanted, log + [e], cursor, steps[1..]);
          PaceIsNoOverrun(wanted, log + [e], cursor, steps[1..]);
        case Polled =>
          PollAdvances(wanted, log, cursor);
          assert log[cursor..cursor] == [];
          var next := FirstWanted(wanted, EventsSince(log, cursor), cursor).1;
          CloseLosesNothing(wanted, log, next, steps[1..]);
          PaceIsNoOverrun(wanted, log, next, steps[1..]);
      }
    }
  }

  function PushAll<E>(events: seq<E>): seq<Step<E>> {
    seq(|events|, i requires 0 <= i < |events| => Pushed(events[i]))
  }

  lemma {:induction false} AfterPushes<E>(wanted: E -> bool, log: seq<E>, cursor: nat, waiting: nat, events: seq<E>, rest: seq<Step<E>>)
    requires cursor <= |log|
    ensures KeepsUp(waiting, PushAll(events) + rest) == KeepsUp(waiting + |events|, rest)
    ensures NothingOverrun(wanted, log, cursor, PushAll(events) + rest) == NothingOverrun(wanted, log + events, cursor, rest)
    decreases |events|
  {
    var steps := PushAll(events) + rest;
    if events == [] {
      assert steps == rest && log + events == log;
    } else {
      assert steps[0] == Pushed(events[0]) && steps[1..] == PushAll(events[1..]) + rest;
      assert log + events == (log + [events[0]]) + events[1..];
      AfterPushes(wanted, log + [events[0]], cursor, waiting + 1, events[1..], rest);
    }
  }

  /** A poll returns one event only: two full buffers of wanted events, a poll after each, overrun the subscription. */
  lemma OneAtATimeFallsBehind<E>(wanted: E -> bool, first: seq<E>, second: seq<E>)
    requires |first| == MAX_EVENTS && |second| == MAX_EVENTS
    requires forall i | 0 <= i < |first| :: wanted(first[i])
    ensures var steps := PushAll(first) + ([Polled] + (PushAll(second) + [Polled]));
            KeepsUp(0, steps) && !KeepsPace(wanted, [], 0, steps)
  {
    var end := PushAll(second) + [Polled];
    AfterPushes(wanted, [], 0, 0, first, [Polled] + end);
    assert [] + first == first && ([Polled] + end)[1..] == end;
    AfterPushes(wanted, first, 1, 0, second, [Polled]);
    assert FirstWanted(wanted, EventsSince(first, 0), 0) == (Some(first[0]), 1);
    var log := first + second;
    assert log[1..Horizon(log, 1)][0] == first[1];
    hide FirstWanted, EventsSince, PushAll;
    PaceIsNoOverrun(wanted, [], 0, PushAll(first) + ([Polled] + end));
  }
}
