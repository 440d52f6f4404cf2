/** Frames of the UDP control channel (internal/xtpro/server/server.go:39-45, 831-871, 1047-1082).
    Go strings are byte sequences. */
module UdpFrame {
  import opened Wrappers

  newtype byte = x: int | 0 <= x < 256

  const MSG_HANDSHAKE: byte := 1
  const MSG_DATA: byte := 2
  const MSG_CLOSE: byte := 3
  const MSG_PING: byte := 4
  const MSG_PONG: byte := 5

  const FIELD_LIMIT := 65536

  /** Big-endian 16 bits, after the truncation uint16(n). */
  function Uint16(n: nat): seq<byte> {
    var t := n % FIELD_LIMIT;
    [(t / 256) as byte, (t % 256) as byte]
  }

  function ReadUint16(b: seq<byte>): nat
    requires |b| == 2
  {
    b[0] as nat * 256 + b[1] as nat
  }

  lemma Uint16RoundTrip(n: nat)
    ensures ReadUint16(Uint16(n)) == n % FIELD_LIMIT
  {
  }

  /** The high byte comes first. */
  lemma BigEndian(n: nat, hi: byte, lo: byte)
    ensures Uint16(n)[0] as int == n % 65536 / 256 && Uint16(n)[1] as int == n % 256
    ensures ReadUint16([hi, lo]) == 256 * hi as int + lo as int
  {
  }

  function Field(data: seq<byte>): seq<byte> {
    Uint16(|data|) + data
  }

  /** What a built frame contains; a handshake carries no id. */
  function Frame(msgType: byte, key: seq<byte>, id: seq<byte>, payload: seq<byte>): seq<byte> {
    [msgType] + Field(key) + (if msgType != MSG_HANDSHAKE then Field(id) else []) + payload
  }

  /** Writes `data` at `offset`; what is written so far grows by it. */
  method CopyInto(buf: array<byte>, offset: nat, data: seq<byte>)
    requires offset + |data| <= buf.Length
    modifies buf
    ensures buf[..offset + |data|] == old(buf[..offset]) + data
  {
    for i := 0 to |data|
      invariant forall k :: 0 <= k < offset ==> buf[k] == old(buf[k])
      invariant forall k :: 0 <= k < i ==> buf[offset + k] == data[k]
    {
      buf[offset + i] := data[i];
    }
  }

  method WriteField(buf: array<byte>, offset: nat, data: seq<byte>)
    requires offset + 2 + |data| <= buf.Length
    modifies buf
    ensures buf[..offset + 2 + |data|] == old(buf[..offset]) + Field(data)
  {
    CopyInto(buf, offset, Uint16(|data|));
    CopyInto(buf, offset + 2, data);
  }

  /** A frame byte by byte. */
  lemma FrameBytes(msgType: byte, key: seq<byte>, id: seq<byte>, payload: seq<byte>)
    ensures var f, k := Frame(msgType, key, id, payload), 3 + |key|;
      && |f| >= k && f[0] == msgType
      && f[1] as int == |key| % 65536 / 256 && f[2] as int == |key| % 256 && f[3..k] == key
      && if msgType == 1 then f[k..] == payload
         else
           var i := k + 2 + |id|;
           && |f| >= i
           && f[k] as int == |id| % 65536 / 256 && f[k + 1] as int == |id| % 256 && f[k + 2..i] == id
           && f[i..] == payload
  {
    var head := [msgType] + Field(key);
    assert Field(key)[2..] == key && Field(id)[2..] == id;
    BigEndian(|key|, 0, 0);
    BigEndian(|id|, 0, 0);
    assert Frame(msgType, key, id, payload)[..3 + |key|] == head;
    hide Uint16;
  }

  method BuildUDPMessage(msgType: byte, key: seq<byte>, id: seq<byte>, payload: seq<byte>) returns (buf: array<byte>)
    ensures fresh(buf) && buf[..] == Frame(msgType, key, id, payload)
    ensures var k := 3 + |key|;
      && buf.Length >= k && buf[0] == msgType
      && buf[1] as int == |key| % 65536 / 256 && buf[2] as int == |key| % 256 && buf[3..k] == key
      && if msgType == 1 then buf[k..] == payload
         else
           var i := k + 2 + |id|;
           && buf.Length >= i
           && buf[k] as int == |id| % 65536 / 256 && buf[k + 1] as int == |id| % 256 && buf[k + 2..i] == id
           && buf[i..] == payload
  {
    hide Field;
    var total := 1 + 2 + |key|;
    if msgType != MSG_HANDSHAKE {
      total := total + 2 + |id|;
    }
    total := total + |payload|;
    buf := new byte[total](_ => 0);
    buf[0] := msgType;
    assert buf[..1] == [msgType];
    WriteField(buf, 1, key);
    var offset := 3 + |key|;
    ghost var head := [msgType] + Field(key);
    assert buf[..offset] == head;
    if msgType != MSG_HANDSHAKE {
      WriteField(buf, offset, id);
      offset := offset + 2 + |id|;
      assert buf[..offset] == head + Field(id);
    } else {
      assert buf[..offset] == head + [];
    }
    CopyInto(buf, offset, payload);
    assert buf[..offset + |payload|] == buf[..];
    FrameBytes(msgType, key, id, payload);
    hide Frame;
    assert forall i, j :: 0 <= i <= j <= buf.Length ==> buf[i..j] == buf[..][i..j];
  }

  datatype Decoded = Decoded(field: seq<byte>, next: nat, ok: bool)

  function DecodeUDPField(packet: seq<byte>, offset: nat): (r: Decoded)
    ensures r.ok ==> offset + 2 <= r.next <= |packet| && r.field == packet[offset + 2..r.next]
    ensures !r.ok ==> r.field == []
    ensures r.ok <==>
              && offset + 2 <= |packet|
              && offset + 2 + 256 * packet[offset] as int + packet[offset + 1] as int <= |packet|
    ensures r.ok ==> |r.field| == 256 * packet[offset] as int + packet[offset + 1] as int
  {
    if offset + 2 > |packet| then Decoded([], offset, false)
    else
      var l := ReadUint16(packet[offset..offset + 2]);
      var start := offset + 2;
      if start + l > |packet| then Decoded([], start, false)
      else Decoded(packet[start..start + l], start + l, true)
  }

  /** A field built anywhere in a packet is read back, together with where it ends, exactly if it is
      short enough for its 16-bit length. */
  lemma FieldRoundTrip(before: seq<byte>, data: seq<byte>, after: seq<byte>)
    ensures var r := DecodeUDPField(before + Field(data) + after, |before|);
      && r.ok
      && (r == Decoded(data, |before| + 2 + |data|, true) <==> |data| < FIELD_LIMIT)
      && (r.field == data <==> |data| < FIELD_LIMIT)
  {
    var packet := before + Field(data) + after;
    assert packet[|before|..|before| + 2] == Uint16(|data|);
    Uint16RoundTrip(|data|);
    var l := |data| % FIELD_LIMIT;
    assert packet[|before| + 2..|before| + 2 + l] == data[..l];
  }

  // ---- what the server makes of a control packet

  datatype Control =
    | Handshake(key: seq<byte>)
    | Data(key: seq<byte>, id: seq<byte>, payload: seq<byte>)
    | Close(key: seq<byte>, id: seq<byte>)
    | Ping(key: seq<byte>, payload: seq<byte>)

  /** Control packet parsing; None where the packet is dropped (for Data after its key has been
      noted). */
  function ParseControl(packet: seq<byte>): Option<Control> {
    if |packet| < 3 then None
    else
      var k := DecodeUDPField(packet, 1);
      if !k.ok || k.field == [] then None
      else if packet[0] == MSG_HANDSHAKE then Some(Handshake(k.field))
      else if packet[0] == MSG_DATA then
        var i := DecodeUDPField(packet, k.next);
        if !i.ok || i.field == [] then None else Some(Data(k.field, i.field, packet[i.next..]))
      else if packet[0] == MSG_CLOSE then
        var i := DecodeUDPField(packet, k.next);
        if !i.ok || i.field == [] then None else Some(Close(k.field, i.field))
      else if packet[0] == MSG_PING then Some(Ping(k.field, packet[k.next..]))
      else None
  }

  /** Which packets are dropped: too short ones, those whose key is cut off or empty, unknown types, and
      data and close packets whose id is. */
  lemma ParseDrops(packet: seq<byte>)
    ensures ParseControl(packet) == None <==>
      || |packet| < 3
      || !DecodeUDPField(packet, 1).ok || DecodeUDPField(packet, 1).field == []
      || !(1 <= packet[0] <= 4)
      || (2 <= packet[0] <= 3
          && var i := DecodeUDPField(packet, DecodeUDPField(packet, 1).next); !i.ok || i.field == [])
  {
  }

  predicate Fits(data: seq<byte>) {
    0 < |data| < FIELD_LIMIT
  }

  lemma FrameKey(msgType: byte, key: seq<byte>, id: seq<byte>, payload: seq<byte>)
    requires Fits(key)
    ensures var f := Frame(msgType, key, id, payload);
      && |f| >= 3 && f[0] == msgType
      && DecodeUDPField(f, 1) == Decoded(key, 3 + |key|, true)
      && f[3 + |key|..] == (if msgType != MSG_HANDSHAKE then Field(id) else []) + payload
  {
    var f := Frame(msgType, key, id, payload);
    var rest := (if msgType != MSG_HANDSHAKE then Field(id) else []) + payload;
    assert f == [msgType] + Field(key) + rest;
    FieldRoundTrip([msgType], key, rest);
  }

  lemma FrameId(msgType: byte, key: seq<byte>, id: seq<byte>, payload: seq<byte>)
    requires Fits(key) && |id| < FIELD_LIMIT && msgType != MSG_HANDSHAKE
    ensures var f := Frame(msgType, key, id, payload);
      && DecodeUDPField(f, 3 + |key|) == Decoded(id, 5 + |key| + |id|, true)
      && f[5 + |key| + |id|..] == payload
  {
    var f := Frame(msgType, key, id, payload);
    assert f == ([msgType] + Field(key)) + Field(id) + payload;
    FieldRoundTrip([msgType] + Field(key), id, payload);
  }

  /** Parsing undoes building, per message type. A ping keeps its id field in front of its payload,
      because the parser does not expect one there; a pong is not parsed at all. */
  lemma ParseOfFrame(msgType: byte, key: seq<byte>, id: seq<byte>, payload: seq<byte>)
    requires Fits(key) && Fits(id)
    ensures ParseControl(Frame(msgType, key, id, payload)) ==
      if msgType == MSG_HANDSHAKE then Some(Handshake(key))
      else if msgType == MSG_DATA then Some(Data(key, id, payload))
      else if msgType == MSG_CLOSE then Some(Close(key, id))
      else if msgType == MSG_PING then Some(Ping(key, Field(id) + payload))
      else None
  {
    FrameKey(msgType, key, id, payload);
    if msgType != MSG_HANDSHAKE {
      FrameId(msgType, key, id, payload);
    }
    hide Frame, DecodeUDPField;
  }

  /** Two frames of one type are equal only if all their parts are. */
  lemma FrameInjective(msgType: byte, key: seq<byte>, id: seq<byte>, payload: seq<byte>,
                       key': seq<byte>, id': seq<byte>, payload': seq<byte>)
    requires Fits(key) && |id| < FIELD_LIMIT && Fits(key') && |id'| < FIELD_LIMIT
    requires Frame(msgType, key, id, payload) == Frame(msgType, key', id', payload')
    ensures key == key' && payload == payload'
    ensures msgType != MSG_HANDSHAKE ==> id == id'
  {
    FrameKey(msgType, key, id, payload);
    FrameKey(msgType, key', id', payload');
    if msgType != MSG_HANDSHAKE {
      FrameId(msgType, key, id, payload);
      FrameId(msgType, key', id', payload');
    }
    hide Frame, DecodeUDPField;
  }
}
