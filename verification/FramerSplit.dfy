/**
 Split invariance: however a stream is cut into reads, the framer emits the same chunks
 and ends in the same state.
 */
module FramerSplit {
  import opened Options
  import opened Bytes
  import opened RawInput
  import opened Framer

  /** No orphaned mouse tail is being watched for or discarded, so the buffer keeps all undecided bytes. */
  predicate Streams(s: State) {
    !s.loneEscape && s.discard != Some(OrphanedSgrMouseTail)
  }

  function More(s: State, x: bytes): State {
    s.(buffer := s.buffer + x)
  }

  lemma StepExtends(isKey: KeyParser, s: State, x: bytes)
    requires Streams(s)
    ensures DrainStep(isKey, s).Stop? ==> DrainStep(isKey, s).state == s
    ensures Streams(DrainStep(isKey, s).state)
    ensures var step := DrainStep(isKey, s);
            step.Go? ==> DrainStep(isKey, More(s, x)) == step.(state := More(step.state, x))
  {
    hide ExtractOneEvent, TerminatorLen;
    var step := DrainStep(isKey, s);
    if step.Go? {
      if s.discard.Some? {
        TerminatorExtends(s.buffer, x, s.discard.value);
        SliceExtends(s.buffer, x, TerminatorLen(s.buffer, s.discard.value).value);
      } else {
        ExtractExtends(isKey, s.buffer, x);
        SliceExtends(s.buffer, x, ExtractOneEvent(isKey, s.buffer).value.consumed);
      }
    }
  }

  /** Draining what is there and then the rest is draining everything at once. */
  lemma {:induction false} DrainSplits(isKey: KeyParser, s: State, x: bytes)
    requires Streams(s)
    ensures Streams(Drain(isKey, s).state)
    ensures Drain(isKey, More(s, x)) ==
            Then(Drain(isKey, s).chunks, Drain(isKey, More(Drain(isKey, s).state, x)))
    decreases |s.buffer|, s.discard.Some?
  {
    StepExtends(isKey, s, x);
    match DrainStep(isKey, s) {
      case Stop(_) =>
        assert Then([], Drain(isKey, More(s, x))) == Drain(isKey, More(s, x));
      case Go(t, emitted) =>
        DrainSplits(isKey, t, x);
        ThenAssociative(emitted, Drain(isKey, t).chunks, Drain(isKey, More(Drain(isKey, t).state, x)));
    }
  }

  /**
   Any sequence of reads gives the chunks and the final state of one read of the whole,
   for every state with no lone Escape just flushed and no mouse tail being discarded;
   in particular for a framer that has never been flushed.
   */
  lemma {:induction false} SplitInvariance(isKey: KeyParser, s: State, pieces: seq<bytes>)
    requires Streams(s) && pieces != []
    ensures FeedAll(isKey, s, pieces) == Feed(isKey, s, Flatten(pieces))
    decreases |pieces|
  {
    hide Feed;
    var (first, rest) := (Feed(isKey, s, pieces[0]), pieces[1..]);
    if rest == [] {
      assert pieces[0] + [] == pieces[0] && first.chunks + [] == first.chunks;
    } else {
      FeedStreams(isKey, s, pieces[0]);
      SplitInvariance(isKey, first.state, rest);
      FeedCut(isKey, s, pieces[0], Flatten(rest));
    }
  }

  lemma FeedStreams(isKey: KeyParser, s: State, data: bytes)
    requires Streams(s)
    ensures Streams(Feed(isKey, s, data).state)
  {
    hide Drain;
    DrainSplits(isKey, More(s, data), []);
  }

  /** Two ways of cutting the same stream cannot be told apart. */
  lemma SplitsAgree(isKey: KeyParser, pieces: seq<bytes>, pieces': seq<bytes>)
    requires Flatten(pieces) == Flatten(pieces')
    ensures FeedAll(isKey, FRESH, pieces) == FeedAll(isKey, FRESH, pieces')
  {
    EmptyFeed(isKey);
    if pieces != [] { SplitInvariance(isKey, FRESH, pieces); }
    if pieces' != [] { SplitInvariance(isKey, FRESH, pieces'); }
  }

  lemma EmptyFeed(isKey: KeyParser)
    ensures Feed(isKey, FRESH, []) == Output(FRESH, [])
  {
    assert FRESH.buffer + [] == FRESH.buffer;
  }

  // ----- runs -----

  lemma {:induction false} RunConcat(isKey: KeyParser, s: State, a: seq<Op>, b: seq<Op>)
    ensures Run(isKey, s, a + b) == Then(Run(isKey, s, a).chunks, Run(isKey, Run(isKey, s, a).state, b))
    decreases |a|
  {
    hide Apply;
    if a == [] {
      assert a + b == b;
      assert Then([], Run(isKey, s, b)) == Run(isKey, s, b);
    } else {
      assert (a + b)[0] == a[0] && (a + b)[1..] == a[1..] + b;
      var first := Apply(isKey, s, a[0]);
      RunConcat(isKey, first.state, a[1..], b);
      ThenAssociative(first.chunks, Run(isKey, first.state, a[1..]).chunks, Run(isKey, Run(isKey, s, a).state, b));
    }
  }

  lemma {:induction false} PushedConcat(a: seq<Op>, b: seq<Op>)
    ensures Pushed(a + b) == Pushed(a) + Pushed(b)
  {
    if a == [] {
      assert a + b == b;
    } else {
      assert (a + b)[1..] == a[1..] + b;
      PushedConcat(a[1..], b);
    }
  }

  lemma RunOne(isKey: KeyParser, s: State, data: bytes)
    ensures Run(isKey, s, [Input(data)]) == Feed(isKey, s, data)
  {
    hide Feed;
    var out := Feed(isKey, s, data);
    assert [Input(data)][1..] == [];
    assert out.chunks + [] == out.chunks;
  }

  lemma FeedCut(isKey: KeyParser, s: State, d1: bytes, d2: bytes)
    requires Streams(s)
    ensures Feed(isKey, s, d1 + d2) == Then(Feed(isKey, s, d1).chunks, Feed(isKey, Feed(isKey, s, d1).state, d2))
  {
    hide Drain;
    DrainSplits(isKey, More(s, d1), d2);
    assert s.buffer + d1 + d2 == s.buffer + (d1 + d2);
    assert More(More(s, d1), d2) == More(s, d1 + d2);
  }

  /** A read within a run may be cut where the framer does not mind. */
  lemma LongRead(isKey: KeyParser, s: State, head: seq<Op>, d1: bytes, d2: bytes, tail: seq<Op>)
    requires var t := Run(isKey, s, head).state;
             Feed(isKey, t, d1 + d2) == Then(Feed(isKey, t, d1).chunks, Feed(isKey, Feed(isKey, t, d1).state, d2))
    ensures var mid := Run(isKey, s, head + [Input(d1)]);
            Run(isKey, s, head + [Input(d1 + d2)] + tail) == Then(mid.chunks, Run(isKey, mid.state, [Input(d2)] + tail))
  {
    hide Run, Feed;
    var t := Run(isKey, s, head).state;
    var u := Feed(isKey, t, d1).state;
    RunConcat(isKey, s, head, [Input(d1)]);
    RunOne(isKey, t, d1);
    RunConcat(isKey, s, head + [Input(d1 + d2)], tail);
    RunConcat(isKey, s, head, [Input(d1 + d2)]);
    RunOne(isKey, t, d1 + d2);
    RunConcat(isKey, u, [Input(d2)], tail);
    RunOne(isKey, u, d2);
    var v := Feed(isKey, u, d2);
    ThenAssociative(Run(isKey, s, head).chunks + Feed(isKey, t, d1).chunks, v.chunks, Run(isKey, v.state, tail));
    assert Run(isKey, s, head).chunks + (Feed(isKey, t, d1).chunks + v.chunks)
           == Run(isKey, s, head).chunks + Feed(isKey, t, d1).chunks + v.chunks;
  }
}
