/**
 What every interleaving of reads, timeouts and colour queries keeps: no byte is invented,
 repeated or reordered, discarding is bounded, and a timeout leaves only input that is
 still worth waiting for.
 */
module FramerSafety {
  import opened Bytes
  import Utf8
  import opened RawInput
  import opened Framer

  /** `a` is obtained from `b` by deleting bytes. */
  ghost predicate IsSubsequence(a: bytes, b: bytes)
    decreases |b|
  {
    a == [] ||
    (b != [] && ((a[0] == b[0] && IsSubsequence(a[1..], b[1..])) || IsSubsequence(a, b[1..])))
  }

  lemma {:induction false} SubsequencePrefix(c: bytes, a: bytes, b: bytes)
    requires IsSubsequence(a, b)
    ensures IsSubsequence(c + a, c + b)
    decreases |c|
  {
    if c == [] {
      assert c + a == a && c + b == b;
    } else {
      SubsequencePrefix(c[1..], a, b);
      assert (c + a)[1..] == c[1..] + a && (c + b)[1..] == c[1..] + b;
    }
  }

  lemma {:induction false} SubsequenceDrop(a: bytes, d: bytes, b: bytes)
    requires IsSubsequence(a, b)
    ensures IsSubsequence(a, d + b)
    decreases |d|
  {
    if d == [] {
      assert d + b == b;
    } else {
      SubsequenceDrop(a, d[1..], b);
      assert (d + b)[1..] == d[1..] + b;
    }
  }

  lemma {:induction false} SubsequenceAppend(a: bytes, b: bytes, x: bytes)
    requires IsSubsequence(a, b)
    ensures IsSubsequence(a + x, b + x)
    decreases |b|
  {
    if a == [] {
      assert a + x == x;
      SubsequencePrefix(x, [], []);
      assert x + [] == x;
      SubsequenceDrop(x, b, x);
    } else {
      assert (a + x)[1..] == a[1..] + x && (b + x)[1..] == b[1..] + x;
      if a[0] == b[0] && IsSubsequence(a[1..], b[1..]) {
        SubsequenceAppend(a[1..], b[1..], x);
      } else {
        SubsequenceAppend(a, b[1..], x);
      }
    }
  }

  lemma {:induction false} SubsequenceTransitive(a: bytes, b: bytes, c: bytes)
    requires IsSubsequence(a, b) && IsSubsequence(b, c)
    ensures IsSubsequence(a, c)
    decreases |b| + |c|
  {
    if a != [] {
      if b[0] == c[0] && IsSubsequence(b[1..], c[1..]) {
        if a[0] == b[0] && IsSubsequence(a[1..], b[1..]) {
          SubsequenceTransitive(a[1..], b[1..], c[1..]);
        } else {
          SubsequenceTransitive(a, b[1..], c[1..]);
        }
      } else {
        SubsequenceTransitive(a, b, c[1..]);
      }
    }
  }

  lemma {:induction false} SubsequenceLength(a: bytes, b: bytes)
    requires IsSubsequence(a, b)
    ensures |a| <= |b|
    decreases |b|
  {
    if a != [] {
      if a[0] == b[0] && IsSubsequence(a[1..], b[1..]) {
        SubsequenceLength(a[1..], b[1..]);
      } else {
        SubsequenceLength(a, b[1..]);
      }
    }
  }

  /** Emitted bytes, then a dropped stretch, then what stays buffered. */
  ghost predicate Conserves(before: bytes, chunks: seq<bytes>, after: bytes) {
    IsSubsequence(Flatten(chunks) + after, before)
  }

  lemma DropsFront(before: bytes, n: nat)
    requires n <= |before|
    ensures Conserves(before, [], before[n..])
  {
    var after := before[n..];
    assert before == before[..n] + after;
    SubsequencePrefix(after, [], []);
    assert after + [] == after;
    SubsequenceDrop(after, before[..n], after);
    assert Flatten([]) + after == after;
  }

  lemma EmitsFront(before: bytes, n: nat)
    requires n <= |before|
    ensures Conserves(before, [before[..n]], before[n..])
  {
    assert Flatten([before[..n]]) == before[..n] + [] == before[..n];
    assert before[..n] + before[n..] == before;
    SubsequencePrefix(before, [], []);
    assert before + [] == before;
  }

  lemma ConservesThen(a: bytes, chunks: seq<bytes>, b: bytes, chunks': seq<bytes>, c: bytes)
    requires Conserves(a, chunks, b) && Conserves(b, chunks', c)
    ensures Conserves(a, chunks + chunks', c)
  {
    FlattenConcat(chunks, chunks');
    SubsequencePrefix(Flatten(chunks), Flatten(chunks') + c, b);
    assert Flatten(chunks) + (Flatten(chunks') + c) == Flatten(chunks + chunks') + c;
    SubsequenceTransitive(Flatten(chunks + chunks') + c, Flatten(chunks) + b, a);
  }

  lemma ConservesMore(before: bytes, chunks: seq<bytes>, after: bytes, later: bytes)
    requires Conserves(before, chunks, after)
    ensures Conserves(before + later, chunks, after + later)
  {
    SubsequenceAppend(Flatten(chunks) + after, before, later);
    assert Flatten(chunks) + after + later == Flatten(chunks) + (after + later);
  }

  lemma StepConserves(isKey: KeyParser, s: State)
    ensures var step := DrainStep(isKey, s);
            Conserves(s.buffer, if step.Go? then step.emitted else [], step.state.buffer)
  {
    hide ExtractOneEvent, TerminatorLen, CompleteOrphanLen, IsIncompleteOrphan, DiscardOrphanTail, Conserves;
    var step := DrainStep(isKey, s);
    if step.Go? && step.emitted != [] {
      EmitsFront(s.buffer, ExtractOneEvent(isKey, s.buffer).value.consumed);
    } else {
      var n := |s.buffer| - |step.state.buffer|;
      assert step.state.buffer == s.buffer[n..];
      DropsFront(s.buffer, n);
    }
  }

  lemma {:induction false} DrainConserves(isKey: KeyParser, s: State)
    ensures Conserves(s.buffer, Drain(isKey, s).chunks, Drain(isKey, s).state.buffer)
    decreases |s.buffer|, s.discard.Some?
  {
    hide DrainStep;
    StepConserves(isKey, s);
    match DrainStep(isKey, s) {
      case Stop(_) =>
      case Go(t, emitted) =>
        DrainConserves(isKey, t);
        ConservesThen(s.buffer, emitted, t.buffer, Drain(isKey, t).chunks, Drain(isKey, t).state.buffer);
    }
  }

  /** Releasing emits all of the buffer, or nothing while keeping or dropping all of it. */
  lemma ReleaseShape(isKey: KeyParser, s: State)
    requires s.buffer != []
    ensures var out := Release(isKey, s);
            || (out.chunks == [s.buffer] && out.state.buffer == [])
            || (out.chunks == [] && (out.state.buffer == [] || out.state.buffer == s.buffer))
  {
    hide Utf8.IsValid, Utf8.IsIncompleteScalar;
  }

  /** Settling without releasing emits nothing and keeps some end of the buffer. */
  lemma SettleShape(isKey: KeyParser, s: State)
    ensures var out := Settle(isKey, s);
            || (s.buffer != [] && out == Release(isKey, s))
            || (out.chunks == [] && exists n: nat :: n <= |s.buffer| && out.state.buffer == s.buffer[n..])
  {
    hide TerminatorLen, CompleteOrphanLen, IsIncompleteSgrMouse, IsIncompletePaste, IsIncompleteColorReply,
      IsIncompleteSchemeReport, IsIncompleteControlString, IsPlausibleTail, Release, Introduces;
    var b := s.buffer;
    assert b[0..] == b && b[|b|..] == [];
    assert EndsInEscape(b) ==> b[|b| - 1..] == [ESC];
    assert CompleteOrphanLen(b).Some? ==> b[CompleteOrphanLen(b).value..] == b[CompleteOrphanLen(b).value..];
  }

  lemma SettleConserves(isKey: KeyParser, s: State)
    ensures Conserves(s.buffer, Settle(isKey, s).chunks, Settle(isKey, s).state.buffer)
  {
    hide Settle, Release, Conserves;
    var b, out := s.buffer, Settle(isKey, s);
    SettleShape(isKey, s);
    assert b[0..] == b && b[|b|..] == [] && b[..|b|] == b;
    DropsFront(b, 0);
    DropsFront(b, |b|);
    EmitsFront(b, |b|);
    if b != [] && out == Release(isKey, s) {
      ReleaseShape(isKey, s);
    } else {
      var n: nat :| n <= |b| && out.state.buffer == b[n..];
      DropsFront(b, n);
    }
  }

  lemma ApplyConserves(isKey: KeyParser, s: State, op: Op)
    ensures Conserves(s.buffer + Received(op), Apply(isKey, s, op).chunks, Apply(isKey, s, op).state.buffer)
  {
    match op {
      case Input(data) =>
        DrainConserves(isKey, s.(buffer := s.buffer + data));
      case Idle =>
        assert s.buffer + Received(op) == s.buffer;
        DrainConserves(isKey, s);
        var drained := Drain(isKey, s);
        SettleConserves(isKey, drained.state);
        var settled := Settle(isKey, drained.state);
        ConservesThen(s.buffer, drained.chunks, drained.state.buffer, settled.chunks, settled.state.buffer);
      case _ =>
        assert s.buffer + Received(op) == s.buffer == s.buffer[0..];
        DropsFront(s.buffer, 0);
    }
  }

  /**
   In every interleaving, the bytes emitted followed by the bytes still buffered are the bytes
   received with some deleted: nothing is invented, duplicated or reordered.
   */
  lemma {:induction false} Conservation(isKey: KeyParser, s: State, ops: seq<Op>)
    ensures var out := Run(isKey, s, ops);
            IsSubsequence(Flatten(out.chunks) + out.state.buffer, s.buffer + Pushed(ops))
    decreases |ops|
  {
    hide Apply, Conserves;
    ConservesMeans(s.buffer + Pushed(ops), Run(isKey, s, ops).chunks, Run(isKey, s, ops).state.buffer);
    if ops == [] {
      assert s.buffer + Pushed(ops) == s.buffer == s.buffer[0..];
      DropsFront(s.buffer, 0);
    } else {
      var first := Apply(isKey, s, ops[0]);
      var rest := Run(isKey, first.state, ops[1..]);
      ApplyConserves(isKey, s, ops[0]);
      Conservation(isKey, first.state, ops[1..]);
      ConservesMeans(first.state.buffer + Pushed(ops[1..]), rest.chunks, rest.state.buffer);
      hide IsSubsequence, Flatten;
      ConservesMore(s.buffer + Received(ops[0]), first.chunks, first.state.buffer, Pushed(ops[1..]));
      ConservesThen(s.buffer + Received(ops[0]) + Pushed(ops[1..]), first.chunks, first.state.buffer + Pushed(ops[1..]),
                    rest.chunks, rest.state.buffer);
      Associative(s.buffer, Received(ops[0]), Pushed(ops[1..]));
    }
  }

  lemma ConservesMeans(before: bytes, chunks: seq<bytes>, after: bytes)
    ensures Conserves(before, chunks, after) <==> IsSubsequence(Flatten(chunks) + after, before)
  {
  }

  // ----- nothing is lost while nothing times out -----

  ghost predicate KeepsAll(s: State) {
    !s.loneEscape && s.discard.None?
  }

  /** Nothing buffered, nothing being discarded or watched for. */
  ghost predicate AtRest(s: State) {
    KeepsAll(s) && s.buffer == []
  }

  lemma StepKeepsAll(isKey: KeyParser, s: State)
    requires KeepsAll(s)
    ensures var step := DrainStep(isKey, s);
            && KeepsAll(step.state)
            && (step.Stop? ==> step.state == s)
            && (step.Go? ==> |step.emitted| == 1 && step.emitted[0] + step.state.buffer == s.buffer)
  {
    hide ExtractOneEvent, TerminatorLen, CompleteOrphanLen, IsIncompleteOrphan, DiscardOrphanTail;
  }

  lemma {:induction false} DrainKeepsAll(isKey: KeyParser, s: State)
    requires KeepsAll(s)
    ensures var out := Drain(isKey, s);
            Flatten(out.chunks) + out.state.buffer == s.buffer && KeepsAll(out.state)
    decreases |s.buffer|
  {
    hide DrainStep;
    StepKeepsAll(isKey, s);
    match DrainStep(isKey, s) {
      case Stop(_) =>
      case Go(t, emitted) =>
        DrainKeepsAll(isKey, t);
        FlattenOne(emitted[0], Drain(isKey, t), emitted);
    }
  }

  lemma FlattenOne(chunk: bytes, rest: Output, emitted: seq<bytes>)
    requires emitted == [chunk]
    ensures Flatten(emitted + rest.chunks) + rest.state.buffer == chunk + (Flatten(rest.chunks) + rest.state.buffer)
  {
    assert (emitted + rest.chunks)[1..] == rest.chunks;
  }

  lemma ApplyKeepsAll(isKey: KeyParser, s: State, op: Op)
    requires KeepsAll(s) && op != Idle
    ensures var out := Apply(isKey, s, op);
            Flatten(out.chunks) + out.state.buffer == s.buffer + Received(op) && KeepsAll(out.state)
  {
    if op.Input? {
      DrainKeepsAll(isKey, s.(buffer := s.buffer + op.data));
    }
  }

  /** A framer that never times out accounts for every byte it was given. */
  lemma {:induction false} LosslessUntilTimeout(isKey: KeyParser, s: State, ops: seq<Op>)
    requires KeepsAll(s)
    requires Idle !in ops
    ensures var out := Run(isKey, s, ops);
            Flatten(out.chunks) + out.state.buffer == s.buffer + Pushed(ops)
    decreases |ops|
  {
    hide Apply, Flatten;
    if ops == [] {
      NothingYet(s.buffer);
    } else {
      var op, first := ops[0], Apply(isKey, s, ops[0]);
      ApplyKeepsAll(isKey, s, op);
      LosslessUntilTimeout(isKey, first.state, ops[1..]);
      JoinAccounts(s.buffer + Received(op), first, Run(isKey, first.state, ops[1..]), Pushed(ops[1..]));
      Associative(s.buffer, Received(op), Pushed(ops[1..]));
    }
  }

  lemma NothingYet(b: bytes)
    ensures Flatten([]) + b == b + []
  {
  }

  lemma Associative(a: bytes, b: bytes, c: bytes)
    ensures a + b + c == a + (b + c)
  {
  }

  lemma JoinAccounts(before: bytes, first: Output, rest: Output, later: bytes)
    requires Flatten(first.chunks) + first.state.buffer == before
    requires Flatten(rest.chunks) + rest.state.buffer == first.state.buffer + later
    ensures Flatten(first.chunks + rest.chunks) + rest.state.buffer == before + later
  {
    FlattenConcat(first.chunks, rest.chunks);
    var emitted := Flatten(first.chunks);
    assert emitted + Flatten(rest.chunks) + rest.state.buffer == emitted + (Flatten(rest.chunks) + rest.state.buffer);
    assert emitted + (first.state.buffer + later) == emitted + first.state.buffer + later;
  }

  // ----- discarding is bounded -----

  ghost predicate DiscardBounded(s: State) {
    s.discard.Some? ==> s.discardedTail <= MAX_DISCARDED_CONTROL_TAIL_BYTES
  }

  lemma {:induction false} DrainBounded(isKey: KeyParser, s: State)
    requires DiscardBounded(s)
    ensures DiscardBounded(Drain(isKey, s).state)
    decreases |s.buffer|, s.discard.Some?
  {
    match DrainStep(isKey, s) {
      case Stop(_) =>
      case Go(t, _) => DrainBounded(isKey, t);
    }
  }

  lemma SettleBounded(isKey: KeyParser, s: State)
    requires DiscardBounded(s)
    ensures DiscardBounded(Settle(isKey, s).state)
  {
  }

  lemma ApplyBounded(isKey: KeyParser, s: State, op: Op)
    requires DiscardBounded(s)
    ensures DiscardBounded(Apply(isKey, s, op).state)
  {
    match op {
      case Input(data) => DrainBounded(isKey, s.(buffer := s.buffer + data));
      case Idle =>
        DrainBounded(isKey, s);
        SettleBounded(isKey, Drain(isKey, s).state);
      case _ =>
    }
  }

  /** Whenever a discard is in progress, at most 128 bytes have been counted against it. */
  lemma {:induction false} DiscardStaysBounded(isKey: KeyParser, s: State, ops: seq<Op>)
    requires DiscardBounded(s)
    ensures DiscardBounded(Run(isKey, s, ops).state)
    decreases |ops|
  {
    hide Apply;
    if ops != [] {
      ApplyBounded(isKey, s, ops[0]);
      DiscardStaysBounded(isKey, Apply(isKey, s, ops[0]).state, ops[1..]);
    }
  }

  // ----- what a timeout leaves behind -----

  /** The kinds of input a timeout may leave in the buffer. */
  ghost predicate WorthWaitingFor(s: State) {
    || s.buffer == []
    || (s.discard.Some? && s.buffer == [ESC])
    || (s.discard.None? &&
        (|| IsIncompletePaste(s.buffer)
         || IsIncompleteColorReply(s.buffer)
         || (s.buffer == [ESC] && s.repliesAwaited > 0 && s.heldEscape)
         || Utf8.IsIncompleteScalar(s.buffer)
         || (s.buffer[0] == ESC && Utf8.IsIncompleteScalar(s.buffer[1..]))))
  }

  /** Draining stops with a lone Escape pending only in front of a mouse tail that may still complete. */
  lemma {:induction false} LoneEscapeAfterDrain(isKey: KeyParser, s: State)
    ensures var t := Drain(isKey, s).state; t.loneEscape ==> IsIncompleteOrphan(t.buffer)
    decreases |s.buffer|, s.discard.Some?
  {
    match DrainStep(isKey, s) {
      case Stop(_) =>
      case Go(t, _) => LoneEscapeAfterDrain(isKey, t);
    }
  }

  lemma ReleaseResidue(isKey: KeyParser, s: State)
    requires s.buffer != [] && s.discard.None?
    ensures WorthWaitingFor(Release(isKey, s).state)
  {
  }

  /** A tail that may still complete is not complete. */
  lemma IncompleteNotComplete(b: bytes)
    requires IsIncompleteOrphan(b)
    ensures CompleteOrphanLen(b).None?
  {
    assert forall i | 0 <= i < |b| :: !IsMouseFinal(b[i]);
  }

  lemma SettleResidue(isKey: KeyParser, s: State)
    requires s.loneEscape ==> IsIncompleteOrphan(s.buffer)
    ensures WorthWaitingFor(Settle(isKey, s).state)
  {
    hide IsIncompleteOrphan, CompleteOrphanLen, TerminatorLen, IsPlausibleTail, Release, IsIncompleteSgrMouse, IsIncompletePaste,
      IsIncompleteColorReply, IsIncompleteSchemeReport, IsIncompleteControlString, Utf8.IsIncompleteScalar, Introduces;
    if s.loneEscape { IncompleteNotComplete(s.buffer); }
    if s.discard.None? && s.buffer != [] { ReleaseResidue(isKey, s); }
  }

  /** After a timeout, from any state, the buffer holds nothing or input still worth waiting for. */
  lemma FlushResidue(isKey: KeyParser, s: State)
    ensures WorthWaitingFor(Timeout(isKey, s).state)
  {
    LoneEscapeAfterDrain(isKey, s);
    SettleResidue(isKey, Drain(isKey, s).state);
  }
}
