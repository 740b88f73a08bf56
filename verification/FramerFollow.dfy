/**
 Following one string of input through a run: an automaton says how far each operation takes it, and
 whatever a single operation keeps between the automaton and the framer holds over every run.
 */
module FramerFollow {
  import opened Options
  import opened Bytes
  import opened RawInput
  import opened Framer
  import opened FramerSafety

  function Follow<F>(advance: (F, Op) -> F, fate: F, ops: seq<Op>): F
    decreases |ops|
  {
    if ops == [] then fate else Follow(advance, advance(fate, ops[0]), ops[1..])
  }

  lemma {:induction false} FollowConcat<F>(advance: (F, Op) -> F, fate: F, a: seq<Op>, b: seq<Op>)
    ensures Follow(advance, fate, a + b) == Follow(advance, Follow(advance, fate, a), b)
    decreases |a|
  {
    if a == [] {
      assert a + b == b;
    } else {
      assert (a + b)[1..] == a[1..] + b;
      FollowConcat(advance, advance(fate, a[0]), a[1..], b);
    }
  }

  lemma FollowOne<F>(advance: (F, Op) -> F, fate: F, op: Op)
    ensures Follow(advance, fate, [op]) == advance(fate, op)
  {
    assert [op][1..] == [];
  }

  lemma FollowCons<F>(advance: (F, Op) -> F, fate: F, op: Op, rest: seq<Op>)
    ensures Follow(advance, fate, [op] + rest) == Follow(advance, advance(fate, op), rest)
  {
    assert ([op] + rest)[1..] == rest;
  }

  /** `read` says how much of `r` has been read, None when it no longer matters; the operation brings what comes next. */
  ghost predicate Brings<F>(r: bytes, read: F -> Option<nat>, fate: F, op: Op) {
    match read(fate)
    case None => true
    case Some(got) => got + |Received(op)| <= |r| && r[got..got + |Received(op)|] == Received(op)
  }

  /** The automaton counts the bytes it is brought. */
  ghost predicate Counts<F(!new)>(r: bytes, advance: (F, Op) -> F, read: F -> Option<nat>) {
    forall fate, op | Brings(r, read, fate, op) && read(advance(fate, op)).Some? ::
      read(fate).Some? && read(advance(fate, op)).value == read(fate).value + |Received(op)|
  }

  /** One operation keeps state, chunks emitted so far and fate in the relation `goes`. */
  ghost predicate Keeps<F(!new)>(isKey: KeyParser, r: bytes, advance: (F, Op) -> F, read: F -> Option<nat>,
                                 goes: (State, seq<bytes>, F) -> bool) {
    forall s, chunks, fate, op | goes(s, chunks, fate) && Brings(r, read, fate, op) ::
      goes(Apply(isKey, s, op).state, chunks + Apply(isKey, s, op).chunks, advance(fate, op))
  }

  lemma BringsNext<F>(r: bytes, read: F -> Option<nat>, fate: F, op: Op, later: bytes)
    requires read(fate).Some? ==> read(fate).value <= |r| && r[read(fate).value..] == Received(op) + later
    ensures Brings(r, read, fate, op)
    ensures read(fate).Some? ==> r[read(fate).value + |Received(op)|..] == later
  {
    if read(fate).Some? {
      var got, data := read(fate).value, Received(op);
      assert r[got..][..|data|] == data == r[got..got + |data|];
      assert r[got..][|data|..] == later == r[got + |data|..];
    }
  }

  /** Over a run that brings what is left of `r` up to `later`. */
  lemma {:induction false} FollowRun<F(!new)>(isKey: KeyParser, r: bytes, advance: (F, Op) -> F, read: F -> Option<nat>,
                                              goes: (State, seq<bytes>, F) -> bool,
                                              s: State, chunks: seq<bytes>, fate: F, ops: seq<Op>, later: bytes)
    requires Counts(r, advance, read) && Keeps(isKey, r, advance, read, goes)
    requires goes(s, chunks, fate)
    requires read(fate).Some? ==> read(fate).value <= |r| && r[read(fate).value..] == Pushed(ops) + later
    ensures var (out, end) := (Run(isKey, s, ops), Follow(advance, fate, ops));
            goes(out.state, chunks + out.chunks, end) && (read(end).Some? ==> read(end).value == |r| - |later|)
    decreases |ops|
  {
    hide Apply, Brings;
    if ops == [] {
      assert chunks + [] == chunks && [] + later == later;
    } else {
      var first := Apply(isKey, s, ops[0]);
      var next := advance(fate, ops[0]);
      Associative(Received(ops[0]), Pushed(ops[1..]), later);
      BringsNext(r, read, fate, ops[0], Pushed(ops[1..]) + later);
      assert goes(first.state, chunks + first.chunks, next);
      hide Counts, Keeps;
      FollowRun(isKey, r, advance, read, goes, first.state, chunks + first.chunks, next, ops[1..], later);
      ThenAssociative(chunks, first.chunks, Run(isKey, first.state, ops[1..]));
    }
  }
}
