/** Source RCON framing (daemon/internal/rcon/client.go). The connection is the bytes that are
    still to arrive; deadlines are not modelled, so a read ends with a packet, with an error or
    with the end of the stream. */
module Rcon {
  import opened Types

  type int32 = x: int | -0x8000_0000 <= x < 0x8000_0000

  const PACKET_TYPE_AUTH: int32 := 3
  const PACKET_TYPE_COMMAND: int32 := 2
  const MAX_PACKET_SIZE := 4096
  /** What fits next to the identifier, the type and the two terminators. */
  const MAX_BODY := 4086

  datatype Packet = Packet(id: int32, ptype: int32, body: seq<byte>)

  datatype ReadResult = Read(packet: Packet) | BadSize(size: nat) | Eof

  function Unsigned(x: int32): (r: uint32) {
    if x < 0 then x + 0x1_0000_0000 else x
  }

  function Signed(u: uint32): (r: int32) {
    if u >= 0x8000_0000 then u - 0x1_0000_0000 else u
  }

  function LittleEndian(u: uint32): (r: seq<byte>)
    ensures |r| == 4
  {
    [u % 0x100, (u / 0x100) % 0x100, (u / 0x1_0000) % 0x100, u / 0x100_0000]
  }

  function FromLittleEndian(s: seq<byte>): (u: uint32)
    requires |s| == 4
  {
    s[0] as int + 0x100 * s[1] as int + 0x1_0000 * s[2] as int + 0x100_0000 * s[3] as int
  }

  lemma LittleEndianRoundTrip(u: uint32)
    ensures FromLittleEndian(LittleEndian(u)) == u
  {
    assert u / 0x1_0000 == (u / 0x100) / 0x100;
    assert u / 0x100_0000 == (u / 0x1_0000) / 0x100;
  }

  /** size, identifier, type, body, and two zero bytes. */
  function Encode(p: Packet): (r: seq<byte>)
    requires |p.body| + 10 < 0x8000_0000
    ensures |r| == |p.body| + 14
  {
    LittleEndian(|p.body| + 10) + (LittleEndian(Unsigned(p.id)) + (LittleEndian(Unsigned(p.ptype)) + (p.body + [0, 0])))
  }

  /** readPacket on the bytes to come, with what it leaves; a short read takes everything. */
  function Parse(s: seq<byte>): (r: (ReadResult, seq<byte>))
    ensures |r.1| <= |s|
    ensures r.0.Read? ==> |r.1| < |s|
  {
    if |s| < 4 then (Eof, [])
    else
      var size := FromLittleEndian(s[..4]);
      if size < 10 || size > MAX_PACKET_SIZE then (BadSize(size), s[4..])
      else if |s| < 4 + size then (Eof, [])
      else
        var pkt := s[4..4 + size];
        (Read(Packet(Signed(FromLittleEndian(pkt[0..4])), Signed(FromLittleEndian(pkt[4..8])), pkt[8..size - 2])),
         s[4 + size..])
  }

  /** A packet whose body fits is read back whatever follows it; any longer one is refused. */
  lemma PacketRoundTrip(p: Packet, tail: seq<byte>)
    requires |p.body| + 10 < 0x8000_0000
    ensures Parse(Encode(p) + tail) ==
            if |p.body| <= 4086 then (Read(p), tail)
            else (BadSize(|p.body| + 10), (Encode(p) + tail)[4..])
  {
    var s, size := Encode(p) + tail, |p.body| + 10;
    LittleEndianRoundTrip(size);
    assert s[..4] == LittleEndian(size);
    if size <= MAX_PACKET_SIZE {
      var pkt := s[4..4 + size];
      LittleEndianRoundTrip(Unsigned(p.id));
      LittleEndianRoundTrip(Unsigned(p.ptype));
      assert pkt[0..4] == LittleEndian(Unsigned(p.id));
      assert pkt[4..8] == LittleEndian(Unsigned(p.ptype));
      assert pkt[8..size - 2] == p.body;
      assert s[4 + size..] == tail;
    }
  }

  /** Which byte stands where: size, identifier and type, the lowest byte of each first and
      negative numbers in two's complement; then the body, and two zero bytes. */
  lemma LayoutExactly(p: Packet)
    requires |p.body| + 10 < 0x8000_0000
    ensures var s, n := Encode(p), |p.body|;
            && |s| == n + 14
            && IsNumber(s[0..4], n + 10) && IsNumber(s[4..8], p.id) && IsNumber(s[8..12], p.ptype)
            && s[12..12 + n] == p.body && s[12 + n] == 0 && s[13 + n] == 0
  {
    var s, n := Encode(p), |p.body|;
    assert s[0..4] == LittleEndian(n + 10);
    assert s[4..8] == LittleEndian(Unsigned(p.id));
    assert s[8..12] == LittleEndian(Unsigned(p.ptype));
    IsLittleEndian(n + 10);
    IsLittleEndian(p.id);
    IsLittleEndian(p.ptype);
  }

  /** Four bytes, the lowest first, of a number that may be negative. */
  predicate IsNumber(s: seq<byte>, x: int32) {
    && |s| == 4
    && s[0] as int + 0x100 * s[1] as int + 0x1_0000 * s[2] as int + 0x100_0000 * s[3] as int
       == if x < 0 then x + 0x1_0000_0000 else x
  }

  lemma IsLittleEndian(x: int32)
    ensures IsNumber(LittleEndian(Unsigned(x)), x)
  {
    LittleEndianRoundTrip(Unsigned(x));
  }

  /** What is no packet: fewer than four bytes, a size below 10 or above 4096, and fewer bytes
      than the size says. */
  lemma NoPacket(size: uint32, rest: seq<byte>)
    ensures forall s | |s| < 4 :: Parse(s) == (Eof, [])
    ensures size < 10 || size > 4096 ==> Parse(LittleEndian(size) + rest) == (BadSize(size), rest)
    ensures 10 <= size <= 4096 && |rest| < size ==> Parse(LittleEndian(size) + rest) == (Eof, [])
  {
    var s := LittleEndian(size) + rest;
    LittleEndianRoundTrip(size);
    assert s[..4] == LittleEndian(size) && s[4..] == rest;
    hide LittleEndian, FromLittleEndian;
  }

  predicate Sendable(ps: seq<Packet>) {
    forall p | p in ps :: |p.body| <= MAX_BODY
  }

  function EncodeAll(ps: seq<Packet>): (r: seq<byte>)
    requires Sendable(ps)
  {
    if ps == [] then [] else Encode(ps[0]) + EncodeAll(ps[1..])
  }

  /** Everything that can be read before the stream ends or goes wrong, and how it ends. */
  function ParseAll(s: seq<byte>): (r: (seq<Packet>, ReadResult))
    decreases |s|
  {
    var (first, rest) := Parse(s);
    if !first.Read? then ([], first)
    else
      var (more, end) := ParseAll(rest);
      ([first.packet] + more, end)
  }

  /** Packets written one after the other are read back as exactly that sequence. */
  lemma {:induction false} StreamRoundTrip(ps: seq<Packet>)
    requires Sendable(ps)
    ensures ParseAll(EncodeAll(ps)) == (ps, Eof)
    decreases ps
  {
    if ps != [] {
      PacketRoundTrip(ps[0], EncodeAll(ps[1..]));
      StreamRoundTrip(ps[1..]);
      assert [ps[0]] + ps[1..] == ps;
    }
  }

  // ---- Command ------------------------------------------------------------------

  /** What Command gathers: bodies up to and including the packet that answers `id`, or up to
      the error, with the rest of the stream. */
  datatype Answer = Answer(out: seq<byte>, ok: bool, rest: seq<byte>)

  function Gather(s: seq<byte>, id: int32): (r: Answer)
    decreases |s|
  {
    var (first, rest) := Parse(s);
    if !first.Read? then Answer([], false, rest)
    else if first.packet.id == id then Answer(first.packet.body, true, rest)
    else
      var more := Gather(rest, id);
      Answer(first.packet.body + more.out, more.ok, more.rest)
  }

  /** What is gathered from here on, put behind what has been gathered already. */
  function Behind(out: seq<byte>, a: Answer): (r: Answer) {
    Answer(out + a.out, a.ok, a.rest)
  }

  lemma BehindNothing(s: seq<byte>, id: int32)
    ensures Behind([], Gather(s, id)) == Gather(s, id)
  {
    assert [] + Gather(s, id).out == Gather(s, id).out;
  }

  lemma GatherOne(out: seq<byte>, s: seq<byte>, id: int32)
    ensures var (first, rest) := Parse(s);
            Behind(out, Gather(s, id)) ==
            if !first.Read? then Answer(out, false, rest)
            else if first.packet.id == id then Answer(out + first.packet.body, true, rest)
            else Behind(out + first.packet.body, Gather(rest, id))
  {
    hide Parse;
    var (first, rest) := Parse(s);
    if first.Read? && first.packet.id != id {
      var more := Gather(rest, id).out;
      assert (out + first.packet.body) + more == out + (first.packet.body + more);
    } else if !first.Read? {
      assert out + [] == out;
    }
  }

  function Bodies(ps: seq<Packet>): (r: seq<byte>) {
    if ps == [] then [] else ps[0].body + Bodies(ps[1..])
  }

  /** When packet `k` is the first with the identifier, the answer is all bodies up to and
      including it, and the next command starts right behind it. */
  lemma {:induction false} GatherUpToAnswer(ps: seq<Packet>, k: nat, id: int32, tail: seq<byte>)
    requires Sendable(ps) && k < |ps|
    requires ps[k].id == id && forall j | 0 <= j < k :: ps[j].id != id
    ensures Gather(EncodeAll(ps) + tail, id) == Answer(Bodies(ps[..k + 1]), true, EncodeAll(ps[k + 1..]) + tail)
    decreases k
  {
    var rest := EncodeAll(ps[1..]) + tail;
    assert EncodeAll(ps) + tail == Encode(ps[0]) + rest;
    PacketRoundTrip(ps[0], rest);
    assert ps[..k + 1][1..] == ps[1..][..k];
    if k > 0 {
      GatherUpToAnswer(ps[1..], k - 1, id, tail);
      assert ps[1..][k..] == ps[k + 1..];
    } else {
      assert Bodies(ps[..1]) == ps[0].body + [];
    }
  }

  /** Without an answer on the stream the command fails, with everything it did receive. */
  lemma {:induction false} GatherWithoutAnswer(ps: seq<Packet>, id: int32)
    requires Sendable(ps) && forall p | p in ps :: p.id != id
    ensures Gather(EncodeAll(ps), id) == Answer(Bodies(ps), false, [])
    decreases ps
  {
    if ps != [] {
      PacketRoundTrip(ps[0], EncodeAll(ps[1..]));
      GatherWithoutAnswer(ps[1..], id);
    }
  }

  lemma {:induction false} FirstWith(ps: seq<Packet>, id: int32) returns (k: nat)
    requires exists p :: p in ps && p.id == id
    ensures k < |ps| && ps[k].id == id && forall j | 0 <= j < k :: ps[j].id != id
    decreases ps
  {
    k := 0;
    if ps[0].id != id {
      k := FirstWith(ps[1..], id);
      k := k + 1;
      assert forall j | 0 < j < k :: ps[j] == ps[1..][j - 1];
    }
  }

  /** `left` is what is on the stream when a command is sent, and `answer` what the server sends
      for it. The command returns the answer, and leaves nothing to the next one, exactly if no
      packet that was left has its identifier. The login and the first command both have 1, so
      a login that is answered by a second packet takes the first command's place. */
  lemma AnswerExactly(left: seq<Packet>, answer: Packet)
    requires Sendable(left + [answer])
    ensures var a := Gather(EncodeAll(left + [answer]), answer.id);
            && a.ok
            && (a.rest == [] <==> forall p | p in left :: p.id != answer.id)
            && (a.rest == [] ==> a.out == Bodies(left + [answer]))
  {
    hide Gather, Encode, Bodies;
    var ps := left + [answer];
    assert ps[|left|] == answer;
    var k := FirstWith(ps, answer.id);
    GatherUpToAnswer(ps, k, answer.id, []);
    assert EncodeAll(ps) + [] == EncodeAll(ps);
    if k == |left| {
      assert ps[k + 1..] == [] && ps[..k + 1] == ps;
      forall p | p in left
        ensures p.id != answer.id
      {
        var j :| 0 <= j < |left| && left[j] == p;
        assert ps[j] == p;
      }
    } else {
      assert ps[k] == left[k] && left[k] in left;
      assert ps[k + 1..] != [];
      assert |EncodeAll(ps[k + 1..])| >= 14;
    }
  }

  /** A login that is answered by two packets: it takes the first, and the first command returns
      the second as its own answer and leaves the real one on the stream. */
  lemma LoginAnsweredTwice(first: Packet, second: Packet, answer: Packet)
    requires Sendable([first, second, answer]) && first.id == second.id == answer.id == 1
    ensures var (login, rest) := Parse(EncodeAll([first, second, answer]));
            && login == Read(first)
            && Gather(rest, 1) == Answer(second.body, true, EncodeAll([answer]))
  {
    var ps := [second, answer];
    assert [first, second, answer][1..] == ps && ps[..1] == [second] && ps[1..] == [answer];
    PacketRoundTrip(first, EncodeAll(ps));
    assert EncodeAll([first] + ps) == Encode(first) + EncodeAll(ps) by {
      assert ([first] + ps)[1..] == ps;
    }
    assert [first] + ps == [first, second, answer];
    GatherUpToAnswer(ps, 0, 1, []);
    assert EncodeAll(ps) + [] == EncodeAll(ps) && EncodeAll([answer]) + [] == EncodeAll([answer]);
    assert Bodies([second]) == second.body by {
      assert [second][1..] == [];
      assert second.body + [] == second.body;
    }
  }

  /** The part of a packet that goes out before a connection with room for `room` more bytes
      fails. */
  function SentPart(p: Packet, room: nat): (r: seq<byte>)
    requires |p.body| + 10 < 0x8000_0000
  {
    if |Encode(p)| <= room then Encode(p) else Encode(p)[..room]
  }

  class Client {
    /** Bytes to come from the server, bytes sent to it, and how many more the connection is
        going to take before it fails. */
    var incoming: seq<byte>
    var sent: seq<byte>
    var room: nat
    var counter: int32

    constructor (incoming: seq<byte>, room: nat)
      ensures this.incoming == incoming && sent == [] && this.room == room && counter == 0
    {
      this.incoming, sent, this.room, counter := incoming, [], room, 0;
    }

    /** The packet is built in a zeroed buffer and written in one piece. */
    method WritePacket(id: int32, ptype: int32, body: seq<byte>) returns (ok: bool)
      requires |body| + 10 < 0x8000_0000
      modifies `sent, `room
      ensures ok <==> |body| + 14 <= old(room)
      ensures sent == old(sent) + SentPart(Packet(id, ptype, body), old(room))
      ensures room == if ok then old(room) - (|body| + 14) else 0
    {
      var buf := Frame(id, ptype, body);
      ok := buf.Length <= room;
      if ok {
        sent, room := sent + buf[..], room - buf.Length;
      } else {
        sent, room := sent + buf[..room], 0;
      }
    }

    method ReadPacket() returns (r: ReadResult)
      modifies `incoming
      ensures (r, incoming) == Parse(old(incoming))
    {
      if |incoming| < 4 {
        incoming := [];
        return Eof;
      }
      var size := FromLittleEndian(incoming[..4]);
      incoming := incoming[4..];
      if size < 10 || size > MAX_PACKET_SIZE {
        return BadSize(size);
      }
      if |incoming| < size {
        incoming := [];
        return Eof;
      }
      var pkt := incoming[..size];
      assert pkt == old(incoming)[4..4 + size];
      assert incoming[size..] == old(incoming)[4 + size..];
      incoming := incoming[size..];
      var body: seq<byte> := [];
      if size > 10 {
        body := pkt[8..size - 2];
      }
      assert body == pkt[8..size - 2];
      r := Read(Packet(Signed(FromLittleEndian(pkt[0..4])), Signed(FromLittleEndian(pkt[4..8])), body));
    }

    /** auth: one packet with the identifier 1, and one packet read; only its type is looked at. */
    method Auth(password: seq<byte>) returns (ok: bool)
      requires |password| + 10 < 0x8000_0000
      modifies this
      ensures counter == old(counter)
      ensures sent == old(sent) + SentPart(Packet(1, 3, password), old(room))
      ensures if |password| + 14 <= old(room)
              then incoming == Parse(old(incoming)).1
                && (ok <==> Parse(old(incoming)).0.Read? && Parse(old(incoming)).0.packet.ptype != -1)
              else !ok && incoming == old(incoming)
    {
      hide Encode, SentPart, Parse;
      ok := WritePacket(1, PACKET_TYPE_AUTH, password);
      if !ok {
        return;
      }
      var r := ReadPacket();
      ok := r.Read? && r.packet.ptype != -1;
    }

    /** Command: the request counter wraps around, and the answer to it may take any number of
        packets. */
    method Command(cmd: seq<byte>) returns (out: seq<byte>, ok: bool)
      requires |cmd| + 10 < 0x8000_0000
      modifies this
      ensures counter == if old(counter) == 0x7FFF_FFFF then -0x8000_0000 else old(counter) + 1
      ensures sent == old(sent) + SentPart(Packet(counter, 2, cmd), old(room))
      ensures if |cmd| + 14 <= old(room) then Answer(out, ok, incoming) == Gather(old(incoming), counter)
              else out == [] && !ok && incoming == old(incoming)
    {
      hide Encode, SentPart, Parse;
      counter := if counter == 0x7FFF_FFFF then -0x8000_0000 else counter + 1;
      var id := counter;
      out := [];
      ok := WritePacket(id, PACKET_TYPE_COMMAND, cmd);
      if !ok {
        return;
      }
      ok := false;
      BehindNothing(incoming, id);
      hide Gather, Behind;
      while !ok
        invariant counter == id && sent == old(sent) + SentPart(Packet(id, PACKET_TYPE_COMMAND, cmd), old(room))
        invariant Gather(old(incoming), id) ==
                  if ok then Answer(out, true, incoming) else Behind(out, Gather(incoming, id))
        decreases !ok, |incoming|
      {
        GatherOne(out, incoming, id);
        var r := ReadPacket();
        if !r.Read? {
          return;
        }
        out := out + r.packet.body;
        ok := r.packet.id == id;
      }
    }
  }

  /** The buffer of writePacket: three integers, a copy of the body, and two bytes left zero. */
  method Frame(id: int32, ptype: int32, body: seq<byte>) returns (buf: array<byte>)
    requires |body| + 10 < 0x8000_0000
    ensures fresh(buf) && buf[..] == Encode(Packet(id, ptype, body))
  {
    hide LittleEndian;
    var size := |body| + 10;
    buf := new byte[4 + size](_ => 0);
    PutUint32(buf, 0, size);
    PutUint32(buf, 4, Unsigned(id));
    PutUint32(buf, 8, Unsigned(ptype));
    for i := 0 to |body|
      invariant buf[0..4] == LittleEndian(size) && buf[4..8] == LittleEndian(Unsigned(id))
      invariant buf[8..12] == LittleEndian(Unsigned(ptype))
      invariant buf[12..12 + i] == body[..i]
      invariant forall j | 12 + i <= j < buf.Length :: buf[j] == 0
    {
      buf[12 + i] := body[i];
      assert buf[12..12 + i] == body[..i];
    }
    assert buf[12 + |body|..] == [0, 0];
    assert buf[..] == buf[0..4] + (buf[4..8] + (buf[8..12] + (buf[12..12 + |body|] + buf[12 + |body|..])));
  }

  method PutUint32(buf: array<byte>, at: nat, u: uint32)
    requires at + 4 <= buf.Length
    modifies buf
    ensures buf[at..at + 4] == LittleEndian(u)
    ensures forall j | 0 <= j < buf.Length && !(at <= j < at + 4) :: buf[j] == old(buf[j])
  {
    buf[at] := u % 0x100;
    buf[at + 1] := (u / 0x100) % 0x100;
    buf[at + 2] := (u / 0x1_0000) % 0x100;
    buf[at + 3] := u / 0x100_0000;
  }
}
