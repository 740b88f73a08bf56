/**
 Mouse reports cut by an idle timeout: exactly which reports vanish without a trace, leaving
 the input after them framed as if the report had never been sent.
 */
module FramerMouse {
  import opened Options
  import opened Bytes
  import Utf8
  import opened TerminalTheme
  import opened RawInput
  import opened Framer
  import opened FramerSplit
  import opened FramerSafety

  /** A byte string the framer takes for one whole SGR mouse report. */
  predicate IsReport(isKey: KeyParser, r: bytes) {
    && SGR_START <= r
    && var e := ExtractOneEvent(isKey, r);
       e.Some? && e.value.event.Mouse? && e.value.consumed == |r|
  }

  /** Only digits and semicolons between `ESC [<` and the final byte. */
  predicate IsPlain(r: bytes) {
    forall i | 3 <= i < |r| - 1 :: IsSgrParameter(r[i])
  }

  /** The parts of a report the framer looks at. */
  ghost predicate HasReportShape(r: bytes) {
    && |r| >= 4
    && r[0] == ESC && r[1] == 0x5b && r[2] == 0x3c
    && (forall i | 3 <= i < |r| - 1 :: !IsMouseFinal(r[i]))
    && IsMouseFinal(r[|r| - 1])
    && ParseSgrMouse(r).Some?
    && Utf8.IsValid(r)
  }

  lemma ReportShape(isKey: KeyParser, r: bytes)
    requires IsReport(isKey, r)
    ensures HasReportShape(r)
  {
    hide ParseSgrMouse, ParseDefaultColorResponse;
    assert r[..3] == SGR_START;
    assert r[0] == SGR_START[0] && r[1] == SGR_START[1] && r[2] == SGR_START[2];
    assert !(PASTE_START <= r);
    assert r[..|r|] == r;
    assert FindCsiFinal(r, IsMouseFinal) == Some(|r|);
  }

  lemma ShapeLength(r: bytes)
    requires HasReportShape(r)
    ensures |r| >= 4
  {
    hide ParseSgrMouse, Utf8.IsValid;
  }

  lemma ReportPrefixIncomplete(isKey: KeyParser, r: bytes, k: nat)
    requires HasReportShape(r) && 3 <= k < |r|
    ensures ExtractOneEvent(isKey, r[..k]).None?
    ensures SGR_START <= r[..k]
  {
    hide ParseSgrMouse;
    var b := r[..k];
    assert forall i | 0 <= i < k :: b[i] == r[i];
    assert b[..3] == SGR_START;
    assert !(PASTE_START <= b);
    assert FindCsiFinal(b, IsMouseFinal).None?;
  }

  lemma FeedReportPrefix(isKey: KeyParser, s: State, r: bytes, k: nat)
    requires HasReportShape(r) && 3 <= k < |r|
    requires KeepsAll(s) && s.buffer == []
    ensures Feed(isKey, s, r[..k]) == Output(s.(buffer := r[..k]), [])
    ensures Drain(isKey, s.(buffer := r[..k])) == Output(s.(buffer := r[..k]), [])
  {
    hide ExtractOneEvent, HasReportShape;
    ReportPrefixIncomplete(isKey, r, k);
    assert s.buffer + r[..k] == r[..k];
    var t := s.(buffer := r[..k]);
    assert DrainStep(isKey, t) == Stop(t);
  }

  /** The timeout that cuts the report. */
  lemma CutReport(isKey: KeyParser, s: State, r: bytes, k: nat)
    requires HasReportShape(r) && 3 <= k < |r| && |r| <= MAX_DISCARDED_CONTROL_TAIL_BYTES
    requires KeepsAll(s) && s.buffer == r[..k]
    requires Drain(isKey, s) == Output(s, [])
    ensures var cut := Timeout(isKey, s);
            if forall i | 3 <= i < k :: IsSgrParameter(r[i]) then
              cut == Output(s.(buffer := [], discard := Some(OrphanedSgrMouseTail), discardedTail := k), [])
            else
              cut.chunks != [] || (KeepsAll(cut.state) && cut.state.buffer == [])
  {
    hide Drain, ExtractOneEvent, ParseSgrMouse;
    var b := s.buffer;
    assert forall i | 0 <= i < k :: b[i] == r[i];
    assert b[..3] == SGR_START;
    assert !IsIncompletePaste(b) && !IsIncompleteColorReply(b) && !IsIncompleteSchemeReport(b)
           && !IsIncompleteControlString(b);
    if forall i | 3 <= i < k :: IsSgrParameter(r[i]) {
      assert IsIncompleteSgrMouse(b);
    } else {
      assert !IsIncompleteSgrMouse(b);
      assert Settle(isKey, s) == Release(isKey, s);
    }
  }

  // ----- the discarded rest -----

  ghost predicate Discarding(s: State, rest: bytes) {
    && !s.loneEscape && s.buffer == [] && s.discard == Some(OrphanedSgrMouseTail)
    && rest != [] && s.discardedTail + |rest| <= MAX_DISCARDED_CONTROL_TAIL_BYTES
    && (forall i | 0 <= i < |rest| - 1 :: IsSgrParameter(rest[i]))
    && IsMouseFinal(rest[|rest| - 1])
  }

  /** The state once a discard has ended. */
  function Released(s: State): State {
    s.(discard := None, discardedTail := 0)
  }

  lemma DiscardTailFinds(data: bytes, discarded: nat, j: nat)
    requires j < |data| && discarded + j < MAX_DISCARDED_CONTROL_TAIL_BYTES
    requires forall i | 0 <= i < j :: IsSgrParameter(data[i])
    requires !IsSgrParameter(data[j])
    ensures DiscardOrphanTail(data, discarded)
            == TailDiscard(if IsMouseFinal(data[j]) then data[j + 1..] else data[j..], discarded, true)
  {
    var remaining := MAX_DISCARDED_CONTROL_TAIL_BYTES - discarded;
    var inspected := if |data| < remaining then |data| else remaining;
    var window := data[..inspected];
    assert forall i | 0 <= i <= j :: window[i] == data[i];
    assert FindFrom(window, 0, x => !IsSgrParameter(x)) == Some(j);
  }

  lemma DiscardTailAll(data: bytes, discarded: nat)
    requires discarded + |data| <= MAX_DISCARDED_CONTROL_TAIL_BYTES
    requires forall i | 0 <= i < |data| :: IsSgrParameter(data[i])
    ensures DiscardOrphanTail(data, discarded) == TailDiscard([], discarded + |data|, false)
  {
    assert data[..|data|] == data;
    assert FindFrom(data, 0, x => !IsSgrParameter(x)).None?;
  }

  lemma FeedDiscardingRound(isKey: KeyParser, s: State, data: bytes)
    requires !s.loneEscape && s.buffer == [] && s.discard == Some(OrphanedSgrMouseTail)
    ensures var t := DiscardOrphanTail(data, s.discardedTail);
            Feed(isKey, s, data) ==
            if t.done then Feed(isKey, Released(s), t.rest) else Output(s.(discardedTail := t.discarded), [])
  {
    hide ExtractOneEvent, DiscardOrphanTail;
    var t := DiscardOrphanTail(data, s.discardedTail);
    assert s.buffer + data == data && Released(s).buffer + t.rest == t.rest;
    if t.done {
      var u := Released(s).(buffer := t.rest);
      assert DrainStep(isKey, s.(buffer := data)) == Go(u, []);
      assert Then([], Drain(isKey, u)) == Drain(isKey, u);
    } else {
      assert DrainStep(isKey, s.(buffer := data)) == Stop(s.(discardedTail := t.discarded));
    }
  }

  /** Two ways of cutting one byte string. */
  lemma Aligned(data: bytes, later: bytes, rest: bytes, after: bytes)
    requires data + later == rest + after
    ensures |data| < |rest| ==> data == rest[..|data|] && later == rest[|data|..] + after
    ensures |data| >= |rest| ==> data[..|rest|] == rest && after == data[|rest|..] + later
  {
    var all := rest + after;
    if |data| < |rest| {
      assert data == (data + later)[..|data|] && all[..|data|] == rest[..|data|];
      assert later == (data + later)[|data|..] && all[|data|..] == rest[|data|..] + after;
    } else {
      assert data[..|rest|] == (data + later)[..|rest|] && all[..|rest|] == rest;
      assert after == all[|rest|..] && (data + later)[|rest|..] == data[|rest|..] + later;
    }
  }

  lemma FeedDiscarding(isKey: KeyParser, s: State, rest: bytes, data: bytes, later: bytes, after: bytes)
    requires Discarding(s, rest) && data + later == rest + after
    ensures |data| < |rest| ==>
              && Feed(isKey, s, data) == Output(s.(discardedTail := s.discardedTail + |data|), [])
              && later == rest[|data|..] + after
    ensures |data| >= |rest| ==>
              && Feed(isKey, s, data) == Feed(isKey, Released(s), data[|rest|..])
              && after == data[|rest|..] + later
  {
    hide Feed, DiscardOrphanTail;
    Aligned(data, later, rest, after);
    FeedDiscardingRound(isKey, s, data);
    if |data| < |rest| {
      assert forall i | 0 <= i < |data| :: data[i] == rest[i];
      DiscardTailAll(data, s.discardedTail);
    } else {
      assert forall i | 0 <= i < |rest| :: data[i] == data[..|rest|][i] == rest[i];
      DiscardTailFinds(data, s.discardedTail, |rest| - 1);
    }
  }

  lemma {:induction false} DiscardThenFeed(isKey: KeyParser, s: State, rest: bytes, tail: seq<bytes>, after: bytes)
    requires Discarding(s, rest) && Flatten(tail) == rest + after
    ensures FeedAll(isKey, s, tail) == Feed(isKey, Released(s), after)
    decreases |tail|
  {
    hide Feed;
    assert tail == [] ==> |rest + after| == 0;
    var data, later := tail[0], Flatten(tail[1..]);
    FeedDiscarding(isKey, s, rest, data, later, after);
    if |data| < |rest| {
      var t := s.(discardedTail := s.discardedTail + |data|);
      DiscardThenFeed(isKey, t, rest[|data|..], tail[1..], after);
      assert Then([], FeedAll(isKey, t, tail[1..])) == FeedAll(isKey, t, tail[1..]);
    } else {
      FeedAllFrom(isKey, Released(s), data[|rest|..], tail[1..]);
    }
  }

  lemma FeedAllFrom(isKey: KeyParser, s: State, first: bytes, rest: seq<bytes>)
    requires Streams(s)
    ensures Then(Feed(isKey, s, first).chunks, FeedAll(isKey, Feed(isKey, s, first).state, rest))
            == Feed(isKey, s, first + Flatten(rest))
  {
    hide Feed;
    SplitInvariance(isKey, s, [first] + rest);
    assert ([first] + rest)[1..] == rest;
  }

  // ----- the report cut inside -----

  predicate Continues(tail: seq<bytes>, rest: bytes, after: bytes) {
    tail != [] && Flatten(tail) == rest + after
  }

  /** However the rest of the report and the input after it arrive, the report leaves no trace. */
  ghost predicate Vanishes(isKey: KeyParser, s: State, r: bytes, k: nat)
    requires k <= |r|
  {
    var fed := Feed(isKey, s, r[..k]);
    var cut := Timeout(isKey, fed.state);
    && fed.chunks == [] && cut.chunks == []
    && forall tail, after | Continues(tail, r[k..], after) ::
         FeedAll(isKey, cut.state, tail) == Feed(isKey, Released(s), after)
  }

  /** Input that is fed to a framer at rest either comes out or stays in the buffer. */
  lemma SomethingRemains(isKey: KeyParser, s: State, data: bytes, t: State)
    requires KeepsAll(s) && s.buffer == [] && data != []
    requires KeepsAll(t) && t.buffer == []
    ensures Feed(isKey, s, data) != Feed(isKey, t, [])
  {
    hide DrainStep;
    assert s.buffer + data == data && t.buffer + [] == t.buffer;
    DrainKeepsAll(isKey, s.(buffer := data));
    DrainKeepsAll(isKey, t);
    var out, quiet := Feed(isKey, s, data), Feed(isKey, t, []);
    assert Flatten(out.chunks) + out.state.buffer != [];
    assert Flatten(quiet.chunks) + quiet.state.buffer == [];
  }

  lemma OneTail(rest: bytes)
    ensures Continues([rest], rest, []) && Flatten([rest]) == rest
  {
    assert Flatten([rest]) == rest + [] == rest;
  }

  lemma PlainRest(t: State, r: bytes, k: nat)
    requires HasReportShape(r) && IsPlain(r) && 3 <= k < |r| && |r| <= MAX_DISCARDED_CONTROL_TAIL_BYTES
    requires !t.loneEscape && t.buffer == [] && t.discard == Some(OrphanedSgrMouseTail) && t.discardedTail == k
    ensures Discarding(t, r[k..])
  {
    hide ParseSgrMouse;
    assert forall i | 0 <= i < |r| - k :: r[k..][i] == r[k + i];
  }

  lemma PlainReportVanishes(isKey: KeyParser, s: State, r: bytes, k: nat)
    requires HasReportShape(r) && IsPlain(r) && 3 <= k < |r| && |r| <= MAX_DISCARDED_CONTROL_TAIL_BYTES
    requires KeepsAll(s) && s.buffer == []
    ensures Vanishes(isKey, s, r, k)
  {
    hide Feed, Timeout, Drain, HasReportShape;
    FeedReportPrefix(isKey, s, r, k);
    var held := s.(buffer := r[..k]);
    CutReport(isKey, held, r, k);
    var t := s.(discard := Some(OrphanedSgrMouseTail), discardedTail := k);
    assert Timeout(isKey, held) == Output(t, []);
    PlainRest(t, r, k);
    forall tail, after | Continues(tail, r[k..], after)
      ensures FeedAll(isKey, t, tail) == Feed(isKey, Released(s), after)
    {
      DiscardThenFeed(isKey, t, r[k..], tail, after);
    }
  }

  lemma OddReportLeaks(isKey: KeyParser, s: State, r: bytes, k: nat)
    requires HasReportShape(r) && !IsPlain(r) && 3 <= k < |r| && |r| <= MAX_DISCARDED_CONTROL_TAIL_BYTES
    requires KeepsAll(s) && s.buffer == []
    ensures !Vanishes(isKey, s, r, k)
  {
    hide Feed, Timeout, ParseSgrMouse, FeedAll;
    FeedReportPrefix(isKey, s, r, k);
    var held := s.(buffer := r[..k]);
    CutReport(isKey, held, r, k);
    var cut := Timeout(isKey, held);
    if cut.chunks == [] {
      OneTail(r[k..]);
      SplitOne(isKey, cut.state, r[k..]);
      if forall i | 3 <= i < k :: IsSgrParameter(r[i]) {
        OddTailLeaks(isKey, cut.state, r, k);
        var j := FirstOdd(r, k);
        SomethingRemains(isKey, Released(cut.state), r[j..], Released(s));
      } else {
        SomethingRemains(isKey, cut.state, r[k..], Released(s));
      }
      assert FeedAll(isKey, cut.state, [r[k..]]) != Feed(isKey, Released(s), []);
    }
  }

  lemma SplitOne(isKey: KeyParser, s: State, data: bytes)
    ensures FeedAll(isKey, s, [data]) == Feed(isKey, s, data)
  {
    var first := Feed(isKey, s, data);
    assert first.chunks + [] == first.chunks;
  }

  /** The first parameter byte from `k` on that is neither a digit nor a semicolon. */
  function FirstOdd(r: bytes, k: nat): (j: nat)
    requires exists i :: k <= i < |r| - 1 && !IsSgrParameter(r[i])
    ensures k <= j < |r| - 1 && !IsSgrParameter(r[j])
    ensures forall i | k <= i < j :: IsSgrParameter(r[i])
    decreases |r| - k
  {
    if !IsSgrParameter(r[k]) then k else FirstOdd(r, k + 1)
  }

  lemma OddByte(r: bytes, k: nat)
    requires HasReportShape(r) && 3 <= k
    requires exists i :: k <= i < |r| - 1 && !IsSgrParameter(r[i])
    ensures !IsMouseFinal(r[FirstOdd(r, k)])
  {
    hide ParseSgrMouse, Utf8.IsValid;
  }

  lemma DiscardEndsAt(isKey: KeyParser, s: State, r: bytes, k: nat, j: nat)
    requires k <= j < |r| <= MAX_DISCARDED_CONTROL_TAIL_BYTES
    requires (forall i | k <= i < j :: IsSgrParameter(r[i])) && !IsSgrParameter(r[j]) && !IsMouseFinal(r[j])
    requires !s.loneEscape && s.buffer == [] && s.discard == Some(OrphanedSgrMouseTail) && s.discardedTail == k
    ensures Feed(isKey, s, r[k..]) == Feed(isKey, Released(s), r[j..])
  {
    hide Feed, DiscardOrphanTail, IsSgrParameter, IsMouseFinal;
    var data := r[k..];
    assert forall i | 0 <= i < |data| :: data[i] == r[k + i];
    FeedDiscardingRound(isKey, s, data);
    DiscardTailFinds(data, k, j - k);
    assert data[j - k..] == r[j..];
  }

  lemma OddTailLeaks(isKey: KeyParser, s: State, r: bytes, k: nat)
    requires HasReportShape(r) && 3 <= k < |r| && |r| <= MAX_DISCARDED_CONTROL_TAIL_BYTES
    requires exists i :: k <= i < |r| - 1 && !IsSgrParameter(r[i])
    requires !s.loneEscape && s.buffer == [] && s.discard == Some(OrphanedSgrMouseTail) && s.discardedTail == k
    ensures Feed(isKey, s, r[k..]) == Feed(isKey, Released(s), r[FirstOdd(r, k)..])
  {
    hide Feed, HasReportShape, IsSgrParameter, IsMouseFinal;
    OddByte(r, k);
    DiscardEndsAt(isKey, s, r, k, FirstOdd(r, k));
  }

  /**
   A mouse report of at most 128 bytes that a timeout cuts anywhere at or after `ESC [<` vanishes,
   with the input after it framed as by a framer that never saw it, if and only if its parameters
   are digits and semicolons only. The parser also accepts a sign and ignores further parameters,
   and such reports leak.
   */
  lemma CutReportVanishesIffPlain(isKey: KeyParser, s: State, r: bytes, k: nat)
    requires IsReport(isKey, r) && |r| <= MAX_DISCARDED_CONTROL_TAIL_BYTES
    requires 3 <= k < |r|
    requires KeepsAll(s) && s.buffer == []
    ensures Vanishes(isKey, s, r, k) <==> IsPlain(r)
  {
    hide Vanishes, HasReportShape, IsReport;
    ReportShape(isKey, r);
    if IsPlain(r) {
      PlainReportVanishes(isKey, s, r, k);
    } else {
      OddReportLeaks(isKey, s, r, k);
    }
  }

  // ----- the report cut after its ESC -----

  /** The ESC comes out as a key and the rest of the report leaves no trace. */
  ghost predicate OnlyEscapeEmitted(isKey: KeyParser, s: State, r: bytes)
    requires |r| >= 1
  {
    var fed := Feed(isKey, s, [ESC]);
    var cut := Timeout(isKey, fed.state);
    && fed.chunks == [] && cut.chunks == [[ESC]]
    && forall tail, after | Continues(tail, r[1..], after) ::
         FeedAll(isKey, cut.state, tail) == Feed(isKey, Unawaited(s), after)
  }

  function Unawaited(s: State): State {
    s.(repliesAwaited := 0, heldEscape := false)
  }

  lemma LoneEscapeReleased(isKey: KeyParser, s: State)
    requires KeepsAll(s) && s.buffer == [] && !(s.repliesAwaited > 0 && !s.heldEscape)
    ensures Feed(isKey, s, [ESC]) == Output(s.(buffer := [ESC]), [])
    ensures Timeout(isKey, s.(buffer := [ESC])) == Output(Unawaited(s).(loneEscape := true), [[ESC]])
  {
    assert s.buffer + [ESC] == [ESC];
    var t := s.(buffer := [ESC]);
    assert DrainStep(isKey, t) == Stop(t);
    assert Drain(isKey, t) == Output(t, []);
    assert !IsIncompletePaste([ESC]) && !IsIncompleteSgrMouse([ESC]) && !IsIncompleteSchemeReport([ESC]);
  }

  ghost predicate Watching(s: State, r: bytes) {
    && s.loneEscape && s.discard.None?
    && HasReportShape(r) && IsPlain(r) && |r| <= MAX_ORPHANED_SGR_MOUSE_TAIL_BYTES + 1
    && |s.buffer| < |r| - 1 && s.buffer == r[1..][..|s.buffer|]
  }

  /** A strict prefix of a watched-for tail is recognised as incomplete. */
  lemma TailBegun(r: bytes, to: nat)
    requires HasReportShape(r) && IsPlain(r) && 1 <= to < |r| && to <= MAX_ORPHANED_SGR_MOUSE_TAIL_BYTES + 1
    ensures IsIncompleteOrphan(r[1..to])
  {
    hide ParseSgrMouse, Utf8.IsValid, IsSgrParameter;
    var b := r[1..to];
    assert forall i | 0 <= i < |b| :: b[i] == r[i + 1];
    if |b| >= 2 { assert b[..2] == TAIL_START; }
  }

  /** The final byte of a report is where its tail's first final byte is found. */
  lemma TailFinal(r: bytes, b: bytes)
    requires HasReportShape(r) && |b| >= |r| - 1 && b[..|r| - 1] == r[1..]
    ensures TerminatorLen(b, OrphanedSgrMouseTail) == Some(|r| - 1) && IsMouseFinal(b[|r| - 2])
  {
    hide ParseSgrMouse, Utf8.IsValid;
    assert forall i | 0 <= i < |r| - 1 :: b[i] == b[..|r| - 1][i] == r[i + 1];
    assert !IsMouseFinal(0x5b) && !IsMouseFinal(0x3c);
    assert forall i | 0 <= i < |r| - 2 :: !IsMouseFinal(b[i]);
    assert IsMouseFinal(b[|r| - 2]);
    hide IsMouseFinal;
    assert FindFrom(b, 0, IsMouseFinal) == Some(|r| - 2);
  }

  /** The whole tail is recognised as complete. */
  lemma TailComplete(r: bytes, b: bytes)
    requires HasReportShape(r) && |r| <= MAX_ORPHANED_SGR_MOUSE_TAIL_BYTES + 1
    requires |b| >= |r| - 1 && b[..|r| - 1] == r[1..]
    ensures !IsIncompleteOrphan(b) && CompleteOrphanLen(b) == Some(|r| - 1)
  {
    hide ParseSgrMouse, Utf8.IsValid, TerminatorLen;
    TailFinal(r, b);
    assert [ESC] + r[1..] == r;
  }

  /** A strict prefix of a watched-for tail is recognised as incomplete, the whole tail as complete. */
  lemma WatchedTail(r: bytes, b: bytes)
    requires HasReportShape(r) && IsPlain(r) && |r| <= MAX_ORPHANED_SGR_MOUSE_TAIL_BYTES + 1
    ensures |b| < |r| - 1 && b == r[1..][..|b|] ==> IsIncompleteOrphan(b)
    ensures |b| >= |r| - 1 && b[..|r| - 1] == r[1..] ==> !IsIncompleteOrphan(b) && CompleteOrphanLen(b) == Some(|r| - 1)
  {
    hide HasReportShape, IsPlain, IsIncompleteOrphan, CompleteOrphanLen;
    ShapeLength(r);
    if |b| < |r| - 1 && b == r[1..][..|b|] {
      assert b == r[1..|b| + 1];
      TailBegun(r, |b| + 1);
    }
    if |b| >= |r| - 1 && b[..|r| - 1] == r[1..] {
      TailComplete(r, b);
    }
  }

  lemma WatchStep(isKey: KeyParser, s: State, r: bytes, data: bytes, later: bytes, after: bytes)
    requires Watching(s, r) && s.buffer + data + later == r[1..] + after
    ensures |s.buffer + data| < |r| - 1 ==>
              Feed(isKey, s, data) == Output(s.(buffer := s.buffer + data), []) && Watching(s.(buffer := s.buffer + data), r)
    ensures |s.buffer + data| >= |r| - 1 ==>
              var y := (s.buffer + data)[|r| - 1..];
              Feed(isKey, s, data) == Feed(isKey, s.(buffer := [], loneEscape := false), y) && after == y + later
  {
    hide Feed, HasReportShape, IsIncompleteOrphan, CompleteOrphanLen;
    var b := s.buffer + data;
    Aligned(b, later, r[1..], after);
    WatchedTail(r, b);
    FeedLone(isKey, s, data);
  }

  lemma FeedLone(isKey: KeyParser, s: State, data: bytes)
    requires s.loneEscape
    ensures var b := s.buffer + data;
            && (IsIncompleteOrphan(b) ==> Feed(isKey, s, data) == Output(s.(buffer := b), []))
            && (!IsIncompleteOrphan(b) && CompleteOrphanLen(b).Some? ==>
                  Feed(isKey, s, data) ==
                  Feed(isKey, s.(buffer := [], loneEscape := false), b[CompleteOrphanLen(b).value..]))
  {
    hide ExtractOneEvent, IsIncompleteOrphan, CompleteOrphanLen, DiscardOrphanTail, TerminatorLen;
    var b := s.buffer + data;
    var t := s.(buffer := b);
    if IsIncompleteOrphan(b) {
      assert DrainStep(isKey, t) == Stop(t);
    } else if CompleteOrphanLen(b).Some? {
      var y := b[CompleteOrphanLen(b).value..];
      var u := s.(buffer := y, loneEscape := false);
      assert DrainStep(isKey, t) == Go(u, []);
      assert [] + y == y;
      assert Then([], Drain(isKey, u)) == Drain(isKey, u);
    }
  }

  lemma {:induction false} WatchThenFeed(isKey: KeyParser, s: State, r: bytes, tail: seq<bytes>, after: bytes)
    requires Watching(s, r) && s.buffer + Flatten(tail) == r[1..] + after
    ensures FeedAll(isKey, s, tail) == Feed(isKey, s.(buffer := [], loneEscape := false), after)
    decreases |tail|
  {
    hide Feed, HasReportShape;
    assert tail != [] by { assert tail == [] ==> |s.buffer + Flatten(tail)| == |s.buffer|; }
    var data, later := tail[0], Flatten(tail[1..]);
    assert s.buffer + data + later == s.buffer + (data + later);
    WatchStep(isKey, s, r, data, later, after);
    if |s.buffer + data| < |r| - 1 {
      var t := s.(buffer := s.buffer + data);
      WatchThenFeed(isKey, t, r, tail[1..], after);
      assert Then([], FeedAll(isKey, t, tail[1..])) == FeedAll(isKey, t, tail[1..]);
    } else {
      FeedAllFrom(isKey, s.(buffer := [], loneEscape := false), (s.buffer + data)[|r| - 1..], tail[1..]);
    }
  }

  /** A watched-for tail that turns out not to be one is input like any other. */
  lemma WatchGivesUp(isKey: KeyParser, s: State, b: bytes)
    requires s.loneEscape && s.discard.None? && s.buffer == []
    requires !IsIncompleteOrphan(b) && CompleteOrphanLen(b).None?
    ensures Feed(isKey, s, b) == Feed(isKey, s.(loneEscape := false), b)
  {
    hide ExtractOneEvent, CompleteOrphanLen, IsIncompleteOrphan, DiscardOrphanTail;
    var t := s.(buffer := s.buffer + b);
    assert s.buffer + b == b;
    assert DrainStep(isKey, t) == DrainStep(isKey, t.(loneEscape := false)) by {
      assert DrainStep(isKey, t).Stop? ==> DrainStep(isKey, t).state == t.(loneEscape := false);
    }
  }

  /**
   A mouse report that a timeout cuts right after its ESC, no reply being awaited, costs only that
   ESC if and only if its parameters are digits and semicolons and its tail is at most 32 bytes.
   */
  lemma EscapeOnlyIffPlainAndShort(isKey: KeyParser, s: State, r: bytes)
    requires IsReport(isKey, r)
    requires KeepsAll(s) && s.buffer == [] && !(s.repliesAwaited > 0 && !s.heldEscape)
    ensures |r| >= 1
    ensures OnlyEscapeEmitted(isKey, s, r) <==> IsPlain(r) && |r| - 1 <= MAX_ORPHANED_SGR_MOUSE_TAIL_BYTES
  {
    hide Feed, Timeout, FeedAll, IsReport, ParseSgrMouse;
    ReportShape(isKey, r);
    LoneEscapeReleased(isKey, s);
    var t := Unawaited(s).(loneEscape := true);
    if IsPlain(r) && |r| - 1 <= MAX_ORPHANED_SGR_MOUSE_TAIL_BYTES {
      assert t.buffer == r[1..][..0];
      forall tail, after | Continues(tail, r[1..], after)
        ensures FeedAll(isKey, t, tail) == Feed(isKey, Unawaited(s), after)
      {
        assert t.buffer + Flatten(tail) == Flatten(tail);
        WatchThenFeed(isKey, t, r, tail, after);
      }
    } else {
      WatchedTailLeaks(isKey, s, r);
    }
  }

  /** What is read of a tail when it can no longer be one: all of it, or up to the first odd byte. */
  function TailCut(r: bytes): (cut: nat)
    requires HasReportShape(r)
    ensures 4 <= cut <= |r|
  {
    if IsPlain(r) then |r| else FirstOdd(r, 3) + 1
  }

  lemma TailCutGivesUp(r: bytes)
    requires HasReportShape(r) && !(IsPlain(r) && |r| - 1 <= MAX_ORPHANED_SGR_MOUSE_TAIL_BYTES)
    ensures !IsIncompleteOrphan(r[1..TailCut(r)]) && CompleteOrphanLen(r[1..TailCut(r)]).None?
  {
    hide ParseSgrMouse, Utf8.IsValid, FirstOdd, IsSgrParameter;
    var cut := TailCut(r);
    var b := r[1..cut];
    assert forall i | 0 <= i < |b| :: b[i] == r[i + 1];
    if IsPlain(r) {
      assert b[..|r| - 1] == r[1..];
      TailFinal(r, b);
    } else {
      assert !IsSgrParameter(b[cut - 2]);
      assert forall i | 0 <= i < |b| :: !IsMouseFinal(b[i]);
    }
  }

  lemma WatchedTailLeaks(isKey: KeyParser, s: State, r: bytes)
    requires HasReportShape(r) && !(IsPlain(r) && |r| - 1 <= MAX_ORPHANED_SGR_MOUSE_TAIL_BYTES)
    requires KeepsAll(s) && s.buffer == []
    ensures |r| >= 1
    ensures exists tail ::
              Continues(tail, r[1..], []) &&
              FeedAll(isKey, Unawaited(s).(loneEscape := true), tail) != Feed(isKey, Unawaited(s), [])
  {
    hide Feed, FeedAll, HasReportShape, IsPlain, IsIncompleteOrphan, CompleteOrphanLen;
    var t := Unawaited(s).(loneEscape := true);
    var cut := TailCut(r);
    var b, c := r[1..cut], r[cut..];
    TailCutGivesUp(r);
    WatchGivesUp(isKey, t, b);
    var tail := [b, c];
    TwoParts(b, c);
    assert b + c == r[1..];
    FeedAllTwo(isKey, t, b, c);
    FeedAllTwo(isKey, Unawaited(s), b, c);
    SplitInvariance(isKey, Unawaited(s), tail);
    SomethingRemains(isKey, Unawaited(s), r[1..], Unawaited(s));
  }

  lemma TwoParts(b: bytes, c: bytes)
    ensures Flatten([b, c]) == b + c && Continues([b, c], b + c, [])
  {
    assert [b, c][1..] == [c] && Flatten([c]) == c + [] == c;
    assert b + c + [] == b + c;
  }

  lemma FeedAllTwo(isKey: KeyParser, s: State, b: bytes, c: bytes)
    ensures FeedAll(isKey, s, [b, c]) ==
            Then(Feed(isKey, s, b).chunks, FeedAll(isKey, Feed(isKey, s, b).state, [c]))
  {
    assert [b, c][1..] == [c];
  }
}
