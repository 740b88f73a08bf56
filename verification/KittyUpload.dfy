/**
 Transmitting image data: base64 (RFC 4648, section 4) in chunks of 3072 bytes, each in an
 escape sequence of its own that says whether more follow.
 */
module KittyUpload {
  import opened Options
  import opened Bytes

  const CHUNK_BYTES: nat := 3072
  const PAD: byte := 0x3d
  const SEMICOLON: byte := 0x3b
  const APC_G: bytes := [ESC, 0x5f, 0x47]      // ESC _ G
  const MORE_KEY: bytes := [0x6d, 0x3d, 0x31]  // m=1
  const LAST_KEY: bytes := [0x6d, 0x3d, 0x30]  // m=0

  // ----- base64 -----

  function Symbol(v: nat): byte
    requires v < 64
  {
    if v < 26 then (0x41 + v) as byte
    else if v < 52 then (0x61 + v - 26) as byte
    else if v < 62 then (0x30 + v - 52) as byte
    else if v == 62 then 0x2b
    else 0x2f
  }

  function SymbolValue(x: byte): (v: Option<nat>)
    ensures v.Some? ==> v.value < 64
  {
    if 0x41 <= x <= 0x5a then Some(x as nat - 0x41)
    else if 0x61 <= x <= 0x7a then Some(x as nat - 0x61 + 26)
    else if 0x30 <= x <= 0x39 then Some(x as nat - 0x30 + 52)
    else if x == 0x2b then Some(62)
    else if x == 0x2f then Some(63)
    else None
  }

  /** One to three bytes as four symbols, padded. */
  function EncodeGroup(g: bytes): (s: bytes)
    requires 1 <= |g| <= 3
    ensures |s| == 4
  {
    var a := g[0] as nat;
    var b := if |g| > 1 then g[1] as nat else 0;
    var c := if |g| > 2 then g[2] as nat else 0;
    [Symbol(a / 4), Symbol(a % 4 * 16 + b / 16),
     if |g| > 1 then Symbol(b % 16 * 4 + c / 64) else PAD,
     if |g| > 2 then Symbol(c % 64) else PAD]
  }

  function EncodeBase64(d: bytes): bytes {
    if d == [] then []
    else if |d| <= 3 then EncodeGroup(d)
    else EncodeGroup(d[..3]) + EncodeBase64(d[3..])
  }

  /** The one to three bytes four symbols stand for; unused trailing bits must be zero. */
  function DecodeGroup(s: bytes): Option<bytes>
    requires |s| == 4
  {
    match (SymbolValue(s[0]), SymbolValue(s[1]), SymbolValue(s[2]), SymbolValue(s[3]))
    case (Some(a), Some(b), Some(c), Some(d)) =>
      Some([(a * 4 + b / 16) as byte, (b % 16 * 16 + c / 4) as byte, (c % 4 * 64 + d) as byte])
    case (Some(a), Some(b), Some(c), None) =>
      if s[3] == PAD && c % 4 == 0 then Some([(a * 4 + b / 16) as byte, (b % 16 * 16 + c / 4) as byte]) else None
    case (Some(a), Some(b), None, None) =>
      if s[2] == PAD && s[3] == PAD && b % 16 == 0 then Some([(a * 4 + b / 16) as byte]) else None
    case _ => None
  }

  /** Only the last group may be padded. */
  function DecodeBase64(s: bytes): Option<bytes> {
    if s == [] then Some([])
    else if |s| < 4 then None
    else
      match (DecodeGroup(s[..4]), DecodeBase64(s[4..]))
      case (Some(g), Some(rest)) => if |g| < 3 && rest != [] then None else Some(g + rest)
      case _ => None
  }

  lemma SymbolRoundTrip(v: nat)
    requires v < 64
    ensures SymbolValue(Symbol(v)) == Some(v) && SymbolValue(PAD).None?
    ensures Symbol(v) != ESC && Symbol(v) != PAD
  {
  }

  lemma GroupRoundTrip(g: bytes)
    requires 1 <= |g| <= 3
    ensures DecodeGroup(EncodeGroup(g)) == Some(g)
  {
    hide Symbol, SymbolValue;
    var a := g[0] as nat;
    var b := if |g| > 1 then g[1] as nat else 0;
    var c := if |g| > 2 then g[2] as nat else 0;
    var (p, q, r, t) := (a / 4, a % 4 * 16 + b / 16, b % 16 * 4 + c / 64, c % 64);
    SymbolRoundTrip(p);
    SymbolRoundTrip(q);
    SymbolRoundTrip(r);
    SymbolRoundTrip(t);
    assert q / 16 == a % 4 && q % 16 == b / 16;
    assert r / 4 == b % 16 && r % 4 == c / 64;
    assert p * 4 + q / 16 == a;
    assert q % 16 * 16 + r / 4 == b;
    assert r % 4 * 64 + t == c;
    assert g == if |g| == 1 then [g[0]] else if |g| == 2 then [g[0], g[1]] else [g[0], g[1], g[2]];
    assert |g| == 1 ==> q % 16 == 0;
    assert |g| == 2 ==> r % 4 == 0;
  }

  lemma {:induction false} Base64RoundTrip(d: bytes)
    ensures DecodeBase64(EncodeBase64(d)) == Some(d)
    decreases |d|
  {
    hide EncodeGroup, DecodeGroup;
    if d != [] {
      var g := if |d| <= 3 then d else d[..3];
      var rest := d[|g|..];
      GroupRoundTrip(g);
      Base64RoundTrip(rest);
      var s := EncodeBase64(d);
      assert s == EncodeGroup(g) + EncodeBase64(rest);
      assert s[..4] == EncodeGroup(g) && s[4..] == EncodeBase64(rest);
      assert d == g + rest;
    }
  }

  lemma {:induction false} Base64Length(d: bytes)
    ensures |EncodeBase64(d)| == (|d| + 2) / 3 * 4
    decreases |d|
  {
    if |d| > 3 {
      Base64Length(d[3..]);
    }
  }

  /** Whole groups encode independently of what follows. */
  lemma {:induction false} Base64Concat(a: bytes, b: bytes)
    requires |a| % 3 == 0
    ensures EncodeBase64(a + b) == EncodeBase64(a) + EncodeBase64(b)
    decreases |a|
  {
    hide EncodeGroup;
    if a == [] {
      assert a + b == b;
    } else if |a| == 3 && b == [] {
      assert a + b == a;
    } else {
      assert (a + b)[..3] == a[..3] && (a + b)[3..] == a[3..] + b;
      Base64Concat(a[3..], b);
      if |a| == 3 {
        assert a[..3] == a && a[3..] == [];
      }
    }
  }

  lemma {:induction false} Base64Alphabet(d: bytes)
    ensures ESC !in EncodeBase64(d)
    decreases |d|
  {
    hide Symbol;
    if d != [] {
      var g := if |d| <= 3 then d else d[..3];
      forall v: nat | v < 64 ensures Symbol(v) != ESC { SymbolRoundTrip(v); }
      assert ESC !in EncodeGroup(g);
      Base64Alphabet(d[|g|..]);
    }
  }

  // ----- packets -----

  datatype Packet = Packet(more: bool, payload: bytes)

  /** The packets that carry `data`. */
  function Packets(data: bytes): seq<Packet> {
    if data == [] then []
    else if |data| <= CHUNK_BYTES then [Packet(false, EncodeBase64(data))]
    else [Packet(true, EncodeBase64(data[..CHUNK_BYTES]))] + Packets(data[CHUNK_BYTES..])
  }

  function Payloads(packets: seq<Packet>): bytes {
    if packets == [] then [] else packets[0].payload + Payloads(packets[1..])
  }

  function Keys(control: bytes, more: bool): bytes {
    (if control == [] then [] else control + [0x2c]) + (if more then MORE_KEY else LAST_KEY)
  }

  function RenderPacket(control: bytes, p: Packet): bytes {
    APC_G + Keys(control, p.more) + [SEMICOLON] + p.payload + ST
  }

  /** Only the first packet carries the control keys. */
  function Render(control: bytes, packets: seq<Packet>): bytes
    decreases |packets|
  {
    if packets == [] then [] else RenderPacket(control, packets[0]) + Render([], packets[1..])
  }

  /** Appends `data` to the output, chunk by chunk. */
  method EncodeKittyData(out: bytes, control: bytes, data: bytes) returns (result: bytes)
    ensures result == out + Render(control, Packets(data))
  {
    result := out;
    var keys := control;
    var at := 0;
    while at < |data|
      invariant 0 <= at <= |data|
      invariant result + Render(keys, Packets(data[at..])) == out + Render(control, Packets(data))
    {
      hide EncodeBase64, RenderPacket;
      var end := if at + CHUNK_BYTES < |data| then at + CHUNK_BYTES else |data|;
      var packet := Packet(end < |data|, EncodeBase64(data[at..end]));
      ghost var left := data[at..];
      assert left[..end - at] == data[at..end] && left[end - at..] == data[end..];
      if end == |data| {
        assert left[..end - at] == left && data[end..] == [];
      }
      assert Packets(left) == [packet] + Packets(data[end..]);
      assert Render(keys, Packets(left)) == RenderPacket(keys, packet) + Render([], Packets(data[end..]));
      assert result + (RenderPacket(keys, packet) + Render([], Packets(data[end..])))
             == result + RenderPacket(keys, packet) + Render([], Packets(data[end..]));
      result := result + RenderPacket(keys, packet);
      keys, at := [], end;
    }
  }

  /** The payloads together are the base64 of the whole data. */
  lemma {:induction false} PayloadsJoin(data: bytes)
    ensures Payloads(Packets(data)) == EncodeBase64(data)
    decreases |data|
  {
    hide EncodeBase64;
    if data == [] {
      assert EncodeBase64([]) == [] by { EmptyEncoding(); }
    } else if |data| > CHUNK_BYTES {
      var head, tail := data[..CHUNK_BYTES], data[CHUNK_BYTES..];
      PayloadsJoin(tail);
      Base64Concat(head, tail);
      assert data == head + tail;
    }
  }

  lemma EmptyEncoding()
    ensures EncodeBase64([]) == []
  {
  }

  /** Full packets of 4096 symbols announcing more, then one of at most 4096 that ends the upload. */
  lemma {:induction false} PacketSizes(data: bytes)
    requires data != []
    ensures var ps := Packets(data);
            && ps != []
            && (forall i | 0 <= i < |ps| - 1 :: ps[i].more && |ps[i].payload| == 4096)
            && !ps[|ps| - 1].more && 1 <= |ps[|ps| - 1].payload| <= 4096
    decreases |data|
  {
    hide EncodeBase64;
    if |data| <= CHUNK_BYTES {
      Base64Length(data);
    } else {
      Base64Length(data[..CHUNK_BYTES]);
      PacketSizes(data[CHUNK_BYTES..]);
    }
  }

  // ----- the receiving terminal -----

  datatype Received = Received(keys: bytes, payload: bytes, rest: bytes)

  predicate EndsWith(s: bytes, suffix: bytes) {
    |suffix| <= |s| && s[|s| - |suffix|..] == suffix
  }

  /** Reads one upload: packets up to and including the first that announces no more. */
  function Receive(s: bytes): (r: Option<Received>)
    ensures r.Some? ==> |r.value.rest| < |s|
    decreases |s|
  {
    if !(APC_G <= s) then None
    else
      match FindSubsequence(s, ST, 3)
      case None => None
      case Some(end) =>
        var body := s[3..end];
        match FindFrom(body, 0, x => x == SEMICOLON)
        case None => None
        case Some(k) =>
          var (keys, payload, rest) := (body[..k], body[k + 1..], s[end + 2..]);
          if EndsWith(keys, LAST_KEY) then Some(Received(keys, payload, rest))
          else if EndsWith(keys, MORE_KEY) then
            match Receive(rest)
            case None => None
            case Some(r) => Some(Received(keys, payload + r.payload, r.rest))
          else None
  }

  predicate IsControl(control: bytes) {
    ESC !in control && SEMICOLON !in control
  }

  /** The first terminator after the introducer is the one that follows an ESC-free body. */
  lemma FindEnd(body: bytes, rest: bytes)
    requires ESC !in body
    ensures var s := APC_G + (body + (ST + rest));
            var end := 3 + |body|;
            && APC_G <= s && FindSubsequence(s, ST, 3) == Some(end)
            && s[3..end] == body && s[end + 2..] == rest && |rest| < |s|
  {
    var s := APC_G + (body + (ST + rest));
    var end := 3 + |body|;
    assert s[..3] == APC_G && s[3..end] == body && s[end..] == ST + rest;
    assert s[end..end + 2] == ST && s[end + 2..] == rest;
    assert OccursAt(s, ST, end);
    assert forall i | 3 <= i < end :: s[i] == body[i - 3];
    assert forall i | 3 <= i < end :: s[i] != ESC;
    forall j: nat | 3 <= j < end
      ensures !OccursAt(s, ST, j)
    {
      assert s[j..j + 2][0] == s[j];
    }
  }

  lemma FindSemicolon(keys: bytes, payload: bytes)
    requires SEMICOLON !in keys
    ensures var body := keys + [SEMICOLON] + payload;
            && FindFrom(body, 0, x => x == SEMICOLON) == Some(|keys|)
            && body[..|keys|] == keys && body[|keys| + 1..] == payload
  {
    var body := keys + [SEMICOLON] + payload;
    assert body[|keys|] == SEMICOLON && forall i | 0 <= i < |keys| :: body[i] == keys[i];
  }

  /** Reading a packet whose delimiters have been found. */
  lemma ReceiveFound(s: bytes, end: nat, keys: bytes, payload: bytes)
    requires APC_G <= s && FindSubsequence(s, ST, 3) == Some(end)
    requires FindFrom(s[3..end], 0, x => x == SEMICOLON) == Some(|keys|)
    requires s[3..end][..|keys|] == keys && s[3..end][|keys| + 1..] == payload
    ensures EndsWith(keys, LAST_KEY) ==> Receive(s) == Some(Received(keys, payload, s[end + 2..]))
    ensures !EndsWith(keys, LAST_KEY) && EndsWith(keys, MORE_KEY) ==>
              Receive(s) == match Receive(s[end + 2..])
                            case None => None
                            case Some(r) => Some(Received(keys, payload + r.payload, r.rest))
  {
    hide FindSubsequence, FindFrom, EndsWith;
  }

  lemma PacketBytes(control: bytes, p: Packet, rest: bytes)
    ensures RenderPacket(control, p) + rest == APC_G + (Keys(control, p.more) + [SEMICOLON] + p.payload + (ST + rest))
  {
    hide Keys;
  }

  /** Reading one rendered packet. */
  lemma PacketReads(control: bytes, p: Packet, rest: bytes)
    requires IsControl(control) && ESC !in p.payload
    ensures var keys := Keys(control, p.more);
            Receive(RenderPacket(control, p) + rest) ==
            if !p.more then Some(Received(keys, p.payload, rest))
            else match Receive(rest)
                 case None => None
                 case Some(r) => Some(Received(keys, p.payload + r.payload, r.rest))
  {
    hide Keys, EndsWith, Receive, FindSubsequence, FindFrom;
    var keys := Keys(control, p.more);
    KeysClean(control, p.more);
    var body := keys + [SEMICOLON] + p.payload;
    var s := APC_G + (body + (ST + rest));
    PacketBytes(control, p, rest);
    FindEnd(body, rest);
    FindSemicolon(keys, p.payload);
    ReceiveFound(s, 3 + |body|, keys, p.payload);
  }

  lemma KeysClean(control: bytes, more: bool)
    requires IsControl(control)
    ensures IsControl(Keys(control, more))
    ensures EndsWith(Keys(control, more), if more then MORE_KEY else LAST_KEY)
    ensures more ==> !EndsWith(Keys(control, more), LAST_KEY)
  {
  }

  lemma {:induction false} ReceiveRender(control: bytes, data: bytes, rest: bytes)
    requires IsControl(control) && data != []
    ensures Receive(Render(control, Packets(data)) + rest)
            == Some(Received(Keys(control, |data| > CHUNK_BYTES), Payloads(Packets(data)), rest))
    decreases |data|
  {
    hide EncodeBase64, RenderPacket, Keys, Receive;
    var ps := Packets(data);
    var first := ps[0];
    Base64Alphabet(if first.more then data[..CHUNK_BYTES] else data);
    var later := Render([], ps[1..]) + rest;
    assert Render(control, ps) + rest == RenderPacket(control, first) + later;
    PacketReads(control, first, later);
    if first.more {
      assert ps[1..] == Packets(data[CHUNK_BYTES..]);
      ReceiveRender([], data[CHUNK_BYTES..], rest);
    } else {
      assert ps[1..] == [] && later == rest;
      assert first.payload + [] == first.payload;
    }
  }

  /**
   What a terminal reads back from the bytes of an upload, with anything after them, is exactly
   the data that was sent.
   */
  lemma UploadRoundTrip(control: bytes, data: bytes, rest: bytes)
    requires IsControl(control) && data != []
    ensures var r := Receive(Render(control, Packets(data)) + rest);
            r.Some? && r.value.rest == rest
            && r.value.payload == EncodeBase64(data) && DecodeBase64(r.value.payload) == Some(data)
  {
    hide Receive, Render, Packets, EncodeBase64, DecodeBase64;
    ReceiveRender(control, data, rest);
    PayloadsJoin(data);
    Base64RoundTrip(data);
  }
}
