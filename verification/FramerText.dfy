/**
 Text survival: typed or pasted-as-keys text reaches the pane scalar by scalar, whatever
 the reads cut in two and whenever the idle timeout fires.
 */
module FramerText {
  import opened Options
  import opened Bytes
  import Utf8
  import opened RawInput
  import opened Framer
  import opened FramerSafety

  /** A text as the list of its encoded scalars, none of them ESC, each one a key. */
  ghost predicate IsText(isKey: KeyParser, text: seq<bytes>) {
    forall c | c in text :: Utf8.IsScalar(c) && c != [ESC] && isKey(c)
  }

  /** The buffer holds a strict prefix of the next scalar of `text`; `coming` is what is still to be read. */
  ghost predicate Pending(s: State, text: seq<bytes>, coming: bytes) {
    && KeepsAll(s)
    && s.buffer + coming == Flatten(text)
    && (s.buffer == [] || (text != [] && |s.buffer| < |text[0]|))
  }

  lemma ScalarWidth(c: bytes)
    requires Utf8.IsScalar(c) && c != [ESC]
    ensures |c| >= 1 && c[0] != ESC && Utf8.CharWidth(c[0]) == |c| && Utf8.IsValid(c)
  {
    Utf8.ScalarIsValid(c);
    assert |c| == 1 ==> c == [c[0]];
  }

  lemma PrefixOfScalar(b: bytes, c: bytes)
    requires Utf8.IsScalar(c) && c != [ESC] && b != [] && |b| < |c| && b <= c
    ensures Utf8.IsIncompleteScalar(b) && !Utf8.IsValid(b) && b[0] != ESC && Utf8.CharWidth(b[0]) > |b|
  {
    ScalarWidth(c);
    assert forall i | 0 <= i < |b| :: b[i] == c[i];
    Utf8.ScalarIsValid(b);
  }

  lemma TextHead(isKey: KeyParser, text: seq<bytes>)
    requires IsText(isKey, text) && text != []
    ensures Utf8.IsScalar(text[0]) && text[0] != [ESC] && isKey(text[0]) && |text[0]| >= 1
    ensures IsText(isKey, text[1..])
  {
    var c := text[0];
    assert c in text;
    assert Utf8.IsScalar(c) && |c| >= 1;
    hide Utf8.IsScalar;
    assert forall x | x in text[1..] :: x in text;
  }

  lemma ScalarIsKey(isKey: KeyParser, b: bytes, c: bytes)
    requires Utf8.IsScalar(c) && c != [ESC] && isKey(c) && c <= b
    ensures ExtractOneEvent(isKey, b) == Some(Extracted(Key, |c|))
  {
    hide Utf8.IsScalar, Utf8.IsValid;
    ScalarWidth(c);
    assert b[0] == c[0] && b[..|c|] == c;
  }

  lemma PartOfScalar(isKey: KeyParser, b: bytes, c: bytes)
    requires Utf8.IsScalar(c) && c != [ESC] && b <= c && |b| < |c|
    ensures ExtractOneEvent(isKey, b).None?
  {
    hide Utf8.IsScalar, Utf8.IsValid, Utf8.IsIncompleteScalar;
    if b != [] {
      PrefixOfScalar(b, c);
    }
  }

  lemma FirstScalar(isKey: KeyParser, b: bytes, coming: bytes, text: seq<bytes>)
    requires IsText(isKey, text) && text != []
    requires b + coming == Flatten(text)
    ensures |b| < |text[0]| ==> ExtractOneEvent(isKey, b).None?
    ensures |b| >= |text[0]| ==> b[..|text[0]|] == text[0]
    ensures |b| >= |text[0]| ==> ExtractOneEvent(isKey, b) == Some(Extracted(Key, |text[0]|))
    ensures |b| >= |text[0]| ==> b[|text[0]|..] + coming == Flatten(text[1..])
  {
    hide ExtractOneEvent, IsText, Utf8.IsScalar;
    var c := text[0];
    TextHead(isKey, text);
    Cut(b, coming, c, Flatten(text[1..]));
    if |b| < |c| {
      PartOfScalar(isKey, b, c);
    } else {
      ScalarIsKey(isKey, b, c);
    }
  }

  /** Two ways of cutting one byte string. */
  lemma Cut(b: bytes, coming: bytes, c: bytes, rest: bytes)
    requires b + coming == c + rest
    ensures |b| < |c| ==> b <= c
    ensures |b| >= |c| ==> c <= b && b[..|c|] == c && b[|c|..] + coming == rest
  {
    if |b| < |c| {
      assert b == (b + coming)[..|b|] && (c + rest)[..|b|] == c[..|b|];
    } else {
      assert b[..|c|] == (b + coming)[..|c|] && (c + rest)[..|c|] == c;
      assert (b + coming)[|c|..] == b[|c|..] + coming && (c + rest)[|c|..] == rest;
    }
  }

  /** One round of the drain loop takes the next scalar, or stops in the middle of it. */
  lemma TextStep(isKey: KeyParser, s: State, coming: bytes, text: seq<bytes>)
    requires IsText(isKey, text) && text != [] && KeepsAll(s)
    requires s.buffer + coming == Flatten(text)
    ensures |s.buffer| < |text[0]| ==> DrainStep(isKey, s) == Stop(s) && Pending(s, text, coming)
    ensures |s.buffer| >= |text[0]| ==>
              var t := NoteEvent(s, Key).(buffer := s.buffer[|text[0]|..]);
              && DrainStep(isKey, s) == Go(t, [text[0]]) && |t.buffer| < |s.buffer|
              && KeepsAll(t) && t.buffer + coming == Flatten(text[1..])
  {
    hide ExtractOneEvent, IsText, Flatten;
    TextHead(isKey, text);
    FirstScalar(isKey, s.buffer, coming, text);
  }

  lemma TextDrained(isKey: KeyParser, s: State, coming: bytes)
    requires KeepsAll(s) && s.buffer + coming == []
    ensures Drain(isKey, s) == Output(s, []) && Pending(s, [], coming)
  {
    assert s.buffer == [] && coming == [];
    assert DrainStep(isKey, s) == Stop(s);
    assert [] + [] == Flatten([]);
  }

  lemma {:induction false} DrainText(isKey: KeyParser, s: State, coming: bytes, text: seq<bytes>) returns (k: nat)
    requires IsText(isKey, text) && KeepsAll(s)
    requires s.buffer + coming == Flatten(text)
    ensures k <= |text| && Drain(isKey, s).chunks == text[..k]
    ensures Pending(Drain(isKey, s).state, text[k..], coming)
    decreases |s.buffer|
  {
    hide DrainStep, IsText, Pending, KeepsAll, NoteEvent;
    if text == [] {
      k := 0;
      TextDrained(isKey, s, coming);
    } else {
      TextStep(isKey, s, coming, text);
      if |s.buffer| < |text[0]| {
        k := 0;
        assert text[0..] == text;
      } else {
        TextHead(isKey, text);
        var rest := DrainText(isKey, NoteEvent(s, Key).(buffer := s.buffer[|text[0]|..]), coming, text[1..]);
        k := rest + 1;
        assert text[..k] == [text[0]] + text[1..][..rest];
        assert text[k..] == text[1..][rest..];
      }
    }
  }

  lemma SettleText(isKey: KeyParser, s: State, coming: bytes, text: seq<bytes>)
    requires IsText(isKey, text) && Pending(s, text, coming)
    ensures Settle(isKey, s) == Output(s, [])
  {
    if s.buffer != [] {
      var c := text[0];
      assert (s.buffer + coming)[..|s.buffer|] == s.buffer;
      assert Flatten(text)[..|s.buffer|] == c[..|s.buffer|];
      PrefixOfScalar(s.buffer, c);
    }
  }

  lemma ApplyText(isKey: KeyParser, s: State, op: Op, later: bytes, text: seq<bytes>) returns (k: nat)
    requires IsText(isKey, text) && Pending(s, text, Received(op) + later)
    ensures k <= |text| && Apply(isKey, s, op).chunks == text[..k]
    ensures Pending(Apply(isKey, s, op).state, text[k..], later)
  {
    assert s.buffer + Received(op) + later == s.buffer + (Received(op) + later);
    match op {
      case Input(data) =>
        k := DrainText(isKey, s.(buffer := s.buffer + data), later, text);
      case Idle =>
        assert Received(op) + later == later;
        k := DrainText(isKey, s, later, text);
        var drained := Drain(isKey, s);
        SettleText(isKey, drained.state, later, text[k..]);
        assert drained.chunks + [] == drained.chunks;
      case _ =>
        k := 0;
        assert Received(op) + later == later && text[0..] == text;
    }
  }

  lemma FlattenAtLeast(isKey: KeyParser, text: seq<bytes>)
    requires IsText(isKey, text)
    ensures text != [] ==> |Flatten(text)| >= |text[0]| >= 1
  {
    if text != [] { TextHead(isKey, text); }
  }

  lemma NothingLeft(isKey: KeyParser, s: State, text: seq<bytes>)
    requires IsText(isKey, text) && Pending(s, text, [])
    ensures text == [] && s.buffer == []
  {
    hide IsText;
    FlattenAtLeast(isKey, text);
    assert s.buffer + [] == s.buffer;
  }

  lemma TextTail(isKey: KeyParser, text: seq<bytes>, k: nat)
    requires IsText(isKey, text) && k <= |text|
    ensures IsText(isKey, text[k..])
  {
    hide Utf8.IsScalar;
    assert forall x | x in text[k..] :: x in text;
  }

  lemma {:induction false} RunText(isKey: KeyParser, s: State, ops: seq<Op>, text: seq<bytes>)
    requires IsText(isKey, text) && Pending(s, text, Pushed(ops))
    ensures Run(isKey, s, ops).chunks == text
    ensures Pending(Run(isKey, s, ops).state, [], [])
    decreases |ops|
  {
    hide Apply, IsText, Pending;
    if ops == [] {
      NothingLeft(isKey, s, text);
    } else {
      var k := ApplyText(isKey, s, ops[0], Pushed(ops[1..]), text);
      TextTail(isKey, text, k);
      RunText(isKey, Apply(isKey, s, ops[0]).state, ops[1..], text[k..]);
      assert text == text[..k] + text[k..];
    }
  }

  /**
   For any text whose scalars are keys other than ESC, any cutting of its bytes into reads,
   with timeouts and colour queries interleaved anywhere, emits exactly the scalars, in order,
   and leaves nothing behind.
   */
  lemma TextSurvives(isKey: KeyParser, s: State, text: seq<bytes>, ops: seq<Op>)
    requires IsText(isKey, text)
    requires KeepsAll(s) && s.buffer == []
    requires Pushed(ops) == Flatten(text)
    ensures Run(isKey, s, ops).chunks == text
    ensures Run(isKey, s, ops).state.buffer == []
  {
    assert s.buffer + Pushed(ops) == Flatten(text);
    RunText(isKey, s, ops, text);
    var t := Run(isKey, s, ops).state;
    assert t.buffer + [] == t.buffer;
  }

  /** The key parser takes every single scalar for a key; a lone ESC is treated apart. */
  ghost predicate AcceptsEveryScalar(isKey: KeyParser) {
    forall c: bytes | Utf8.IsScalar(c) && c != [ESC] :: isKey(c)
  }

  /** Any valid UTF-8 byte string without ESC comes out whole, one chunk per scalar, under any reads and timeouts. */
  lemma Utf8TextSurvives(isKey: KeyParser, b: bytes, ops: seq<Op>)
    requires AcceptsEveryScalar(isKey)
    requires Utf8.IsValid(b) && ESC !in b
    requires Pushed(ops) == b
    ensures Run(isKey, FRESH, ops).chunks == Utf8.Scalars(b)
    ensures Flatten(Run(isKey, FRESH, ops).chunks) == b
    ensures Run(isKey, FRESH, ops).state.buffer == []
  {
    hide Run;
    var text := Utf8.Scalars(b);
    forall c | c in text
      ensures c != [ESC]
    {
      FlattenContains(text, c);
      assert c == [ESC] ==> ESC in c;
    }
    TextSurvives(isKey, FRESH, text, ops);
  }

  lemma {:induction false} FlattenContains(parts: seq<bytes>, part: bytes)
    requires part in parts
    ensures forall x | x in part :: x in Flatten(parts)
    decreases |parts|
  {
    if part != parts[0] {
      FlattenContains(parts[1..], part);
    }
  }

  // ----- single keys -----

  /** At rest, a first byte that is an ASCII key comes out at once. */
  lemma FirstKeyComesOut(isKey: KeyParser, s: State, data: bytes)
    requires AcceptsEveryScalar(isKey) && KeepsAll(s) && s.buffer == []
    requires data != [] && data[0] < 0x80 && data[0] != ESC
    ensures Feed(isKey, s, data).chunks != [] && Feed(isKey, s, data).chunks[0] == [data[0]]
  {
    var t := s.(buffer := s.buffer + data);
    assert t.buffer == data && data[..1] == [data[0]];
    assert Utf8.IsScalar([data[0]]);
    Utf8.ScalarIsValid([data[0]]);
    assert isKey([data[0]]);
    assert ExtractOneEvent(isKey, data) == Some(Extracted(Key, 1));
    hide ExtractOneEvent;
    var u := NoteEvent(t, Key).(buffer := data[1..]);
    assert DrainStep(isKey, t) == Go(u, [[data[0]]]);
    hide DrainStep;
    assert Drain(isKey, t) == Then([[data[0]]], Drain(isKey, u));
  }

  lemma LoneEscapeStays(isKey: KeyParser, s: State)
    requires KeepsAll(s) && s.buffer == [ESC]
    ensures Drain(isKey, s) == Output(s, [])
  {
    assert DrainStep(isKey, s) == Stop(s);
  }

  lemma FeedNothing(isKey: KeyParser, s: State)
    ensures KeepsAll(s) && (s.buffer == [] || s.buffer == [ESC]) ==> Feed(isKey, s, []) == Output(s, [])
  {
    assert s.buffer + [] == s.buffer;
    if KeepsAll(s) && s.buffer == [] {
      assert DrainStep(isKey, s) == Stop(s);
    } else if KeepsAll(s) && s.buffer == [ESC] {
      LoneEscapeStays(isKey, s);
    }
  }
}
