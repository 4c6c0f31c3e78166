/** RTSP replies and RTP packets of any number of sessions on one TCP connection of
    ffserver, when every send may take only part of what it is given. */
module RtspInterleave {

  import opened Bytes
  import opened Options

  const DOLLAR: byte := 36

  /** What is put on the connection as a whole. */
  datatype WireUnit = Reply(text: seq<byte>) | Packet(session: nat, channel: byte, payload: seq<byte>)

  /** The RTP packet behind the header of section 10.12 of RFC 2326: a dollar sign, the
      channel and the length in two bytes, which the code cuts to 16 bits. */
  function Frame(channel: byte, payload: seq<byte>): (f: seq<byte>)
    ensures |f| == 4 + |payload| && f[0] == '$' as int
  {
    [DOLLAR, channel, (|payload| / 256) % 256, |payload| % 256] + payload
  }

  function Encoded(u: WireUnit): seq<byte> {
    if u.Reply? then u.text else Frame(u.channel, u.payload)
  }

  function EncodedAll(us: seq<WireUnit>): seq<byte> {
    if us == [] then [] else EncodedAll(us[..|us| - 1]) + Encoded(us[|us| - 1])
  }

  lemma EncodedAppend(us: seq<WireUnit>, u: WireUnit)
    ensures EncodedAll(us + [u]) == EncodedAll(us) + Encoded(u)
  {
    assert (us + [u])[..|us|] == us;
  }

  /** The payloads of one session, in order. */
  function PayloadsOf(us: seq<WireUnit>, session: nat): seq<seq<byte>> {
    if us == [] then []
    else
      var last := us[|us| - 1];
      PayloadsOf(us[..|us| - 1], session) +
      if last.Packet? && last.session == session then [last.payload] else []
  }

  lemma PayloadsAppend(us: seq<WireUnit>, u: WireUnit, session: nat)
    ensures PayloadsOf(us + [u], session) ==
      PayloadsOf(us, session) + if u.Packet? && u.session == session then [u.payload] else []
  {
    assert (us + [u])[..|us|] == us;
  }

  // ---------- The packets a session has ready ----------

  /** The packet buffer of a session: each packet behind its length in four bytes. */
  function Prefixed(ps: seq<seq<byte>>): (b: seq<byte>)
    ensures b == [] <==> ps == []
  {
    if ps == [] then [] else BigEndian(|ps[0]|, 4) + ps[0] + Prefixed(ps[1..])
  }

  ghost predicate AllShort(ps: seq<seq<byte>>) {
    forall i :: 0 <= i < |ps| ==> |ps[i]| < 0x8000_0000
  }

  lemma FirstPacket(ps: seq<seq<byte>>)
    requires ps != [] && AllShort(ps)
    ensures var b := Prefixed(ps);
      && |b| >= 4 && FromBigEndian(b[..4]) == |ps[0]| && 4 + |ps[0]| <= |b|
      && b[4..4 + |ps[0]|] == ps[0] && b[4 + |ps[0]|..] == Prefixed(ps[1..])
  {
    ShortFits(|ps[0]|);
    hide BigEndian, FromBigEndian;
    CutThree(BigEndian(|ps[0]|, 4), ps[0], Prefixed(ps[1..]));
  }

  lemma ShortFits(n: nat)
    requires n < 0x8000_0000
    ensures FromBigEndian(BigEndian(n, 4)) == n
  {
    assert Power256(4) == 0x1_0000_0000;
    hide BigEndian, FromBigEndian;
    BigEndianReads(n, 4);
  }

  lemma CutThree(a: seq<byte>, b: seq<byte>, c: seq<byte>)
    ensures var s := a + b + c; s[..|a|] == a && s[|a|..|a| + |b|] == b && s[|a| + |b|..] == c
  {
  }

  /** The packets that were sent, of those whose fate is decided. */
  function Sent(ps: seq<seq<byte>>, fates: seq<bool>): seq<seq<byte>>
    requires |fates| <= |ps|
  {
    if fates == [] then []
    else
      var n := |fates| - 1;
      Sent(ps, fates[..n]) + if fates[n] then [ps[n]] else []
  }

  lemma SentOne(ps: seq<seq<byte>>, fates: seq<bool>)
    requires |fates| < |ps|
    ensures Sent(ps, fates + [true]) == Sent(ps, fates) + [ps[|fates|]]
  {
    assert (fates + [true])[..|fates|] == fates;
  }

  lemma {:induction false} DroppedAll(ps: seq<seq<byte>>, fates: seq<bool>, n: nat)
    requires |fates| + n <= |ps|
    ensures Sent(ps, fates + seq(n, _ => false)) == Sent(ps, fates)
  {
    var more := fates + seq(n, _ => false);
    if n == 0 {
      assert more == fates;
    } else {
      assert more[..|more| - 1] == fates + seq(n - 1, _ => false);
      DroppedAll(ps, fates, n - 1);
    }
  }

  lemma {:induction false} MoreProduced(ps: seq<seq<byte>>, more: seq<seq<byte>>, fates: seq<bool>)
    requires |fates| <= |ps|
    ensures Sent(ps + more, fates) == Sent(ps, fates)
  {
    if fates != [] { MoreProduced(ps, more, fates[..|fates| - 1]); }
  }

  class Session {
    const id: nat
    var buffer: seq<byte>
    ghost var queued: seq<seq<byte>>
    ghost var produced: seq<seq<byte>>
    /** For each packet that left the buffer, whether it was put on the connection. */
    ghost var fates: seq<bool>

    ghost predicate Valid()
      reads this
    {
      && buffer == Prefixed(queued) && AllShort(queued)
      && |fates| <= |produced| && queued == produced[|fates|..]
    }

    constructor (id: nat)
      ensures Valid() && this.id == id && queued == [] && produced == [] && fates == []
    {
      this.id, buffer, queued, produced, fates := id, [], [], [], [];
    }

    /** http_prepare_data leaves the packets of one frame in the buffer when it is empty. */
    method Prepare(packets: seq<seq<byte>>)
      requires Valid() && buffer == [] && AllShort(packets)
      modifies this
      ensures Valid() && queued == packets && produced == old(produced) + packets && fates == old(fates)
      ensures Sent(produced, fates) == old(Sent(produced, fates))
    {
      hide Sent;
      MoreProduced(produced, packets, fates);
      var b: seq<byte> := [];
      var i := |packets|;
      while i > 0
        invariant 0 <= i <= |packets| && b == Prefixed(packets[i..])
      {
        i := i - 1;
        b := BigEndian(|packets[i]|, 4) + packets[i] + b;
        assert packets[i..][1..] == packets[i + 1..];
      }
      assert packets[0..] == packets;
      buffer, queued, produced := b, packets, produced + packets;
    }
  }

  // ---------- The connection ----------

  /** One round of the loop of http_send_data: whether the packet buffer can be opened, and
      how many bytes the send takes. */
  datatype Round = Round(memory: bool, sent: int)

  datatype ConnectionState = WaitRequest | SendReply | SendPacket

  lemma SendSplits(a: seq<byte>, b: seq<byte>, n: nat)
    requires n <= |b|
    ensures a + b == (a + b[..n]) + b[n..]
  {
  }

  class RtspConnection {
    var state: ConnectionState
    /** The part of the current reply or packet that is not sent yet. */
    var pending: seq<byte>
    ghost var wire: seq<byte>
    ghost var units: seq<WireUnit>
    /** The bytes that each send took. */
    ghost var sends: seq<seq<byte>>

    /** What was sent is what the sends took; followed by what is pending it is the encoding of
        whole units, and only the last unit can be pending. */
    ghost predicate Valid()
      reads this
    {
      && wire == Joined(sends) && wire + pending == EncodedAll(units)
      && (state.WaitRequest? ==> pending == [])
      && (!state.WaitRequest? ==> units != [] && |pending| <= |Encoded(units[|units| - 1])|)
      && (state.SendReply? ==> units[|units| - 1].Reply?)
      && (state.SendPacket? ==> units[|units| - 1].Packet?)
    }

    constructor ()
      ensures Valid() && state == WaitRequest && wire == [] && units == []
    {
      state, pending, wire, units, sends := WaitRequest, [], [], [], [];
    }

    /** The end of rtsp_parse_request. */
    method Answer(text: seq<byte>)
      requires Valid() && state == WaitRequest
      modifies this
      ensures Valid() && state == SendReply && wire == old(wire) && units == old(units) + [Reply(text)]
      ensures pending == text && sends == old(sends)
    {
      hide EncodedAll, Joined;
      EncodedAppend(units, Reply(text));
      assert wire == wire + [];
      pending := text;
      units := units + [Reply(text)];
      state := SendReply;
    }

    /** One send: it takes at most what is pending, and nothing if it fails. */
    method Send(len: int)
      requires len <= |pending| && wire == Joined(sends)
      modifies `pending, `wire, `sends
      ensures wire + pending == old(wire + pending) && wire == Joined(sends)
      ensures wire == old(wire) + old(pending)[..if len > 0 then len else 0]
      ensures pending == old(pending)[if len > 0 then len else 0..]
      ensures sends == old(sends) + [old(pending)[..if len > 0 then len else 0]]
    {
      hide Joined;
      JoinedAppend(sends, pending[..if len > 0 then len else 0]);
      sends := sends + [pending[..if len > 0 then len else 0]];
      if len > 0 {
        SendSplits(wire, pending, len);
        wire := wire + pending[..len];
        pending := pending[len..];
      }
    }

    /** RTSPSTATE_SEND_REPLY and RTSPSTATE_SEND_PACKET of handle_connection when the socket
        can be written; a result of false closes the connection. */
    method Continue(len: int, fatal: bool) returns (open: bool)
      requires Valid() && state != WaitRequest && len <= |pending|
      modifies `state, `pending, `wire, `sends
      ensures Valid() && (open <==> len >= 0 || !fatal)
      ensures wire == old(wire) + old(pending)[..if len > 0 then len else 0]
      ensures pending == old(pending)[if len > 0 then len else 0..]
      ensures sends == if len < 0 then old(sends) else old(sends) + [old(pending)[..len]]
      ensures state == if len == |old(pending)| then WaitRequest else old(state)
    {
      hide Joined, EncodedAll;
      if len < 0 {
        return !fatal;
      }
      Send(len);
      if pending == [] {
        state := WaitRequest;
      }
      open := true;
    }

    /** What was sent of a session is on the connection, in order. */
    ghost predicate Serves(s: Session)
      reads this, s
    {
      s.Valid() && PayloadsOf(units, s.id) == Sent(s.produced, s.fates)
    }

    /** One packet of length len: framed, taken out of the buffer of the session, and sent
        as far as the first send goes. */
    method SendOne(s: Session, channel: byte, len: nat, sent: int)
      requires Valid() && Serves(s) && state == WaitRequest && s.queued != []
      requires |s.buffer| >= 4 && len == FromBigEndian(s.buffer[..4])
      modifies `state, `pending, `wire, `sends, `units, s`buffer, s`queued, s`fates
      ensures Valid() && state == if pending == [] then WaitRequest else SendPacket
      ensures Serves(s) && s.queued == old(s.queued)[1..] && s.fates == old(s.fates) + [true]
      ensures var f := Frame(channel, old(s.queued)[0]);
        var taken := if sent < 0 then 0 else if sent > |f| then |f| else sent;
        wire == old(wire) + f[..taken] && pending == f[taken..] && sends == old(sends) + [f[..taken]]
      ensures units == old(units) + [Packet(s.id, channel, old(s.queued)[0])]
      ensures old(wire) <= wire
      ensures forall other :: other != s.id ==> PayloadsOf(units, other) == old(PayloadsOf(units, other))
    {
      hide EncodedAll, PayloadsOf, Prefixed, BigEndian, FromBigEndian, Sent, Frame, Joined;
      FirstPacket(s.queued);
      SentOne(s.produced, s.fates);
      forall session { PayloadsAppend(units, Packet(s.id, channel, s.queued[0]), session); }
      var payload := s.buffer[4..4 + len];
      s.buffer := s.buffer[4 + len..];
      pending := [DOLLAR, channel, (len / 256) % 256, len % 256] + payload;
      ghost var u := Packet(s.id, channel, payload);
      FrameIs(channel, payload);
      EncodedAppend(units, u);
      assert wire == wire + [];
      units := units + [u];
      s.queued := s.queued[1..];
      s.fates := s.fates + [true];
      Send(if sent > |pending| then |pending| else sent);
      if pending != [] {
        state := SendPacket;
      }
    }

    lemma IdleIsEmpty()
      requires Valid() && state == WaitRequest
      ensures pending == []
    {
    }

    lemma ServesQueue(s: Session)
      requires Serves(s)
      ensures s.buffer == Prefixed(s.queued) && AllShort(s.queued)
    {
    }

    /** fail1 of http_send_data: what is left in the buffer of the session is dropped. */
    method Drop(s: Session)
      requires Serves(s)
      modifies s`buffer, s`queued, s`fates
      ensures Serves(s) && s.queued == []
      ensures s.fates == old(s.fates) + seq(|old(s.queued)|, _ => false)
    {
      DroppedAll(s.produced, s.fates, |s.queued|);
      s.buffer := [];
      s.fates := s.fates + seq(|s.queued|, _ => false);
      s.queued := [];
    }

    /** The RTP over TCP branch of http_send_data, one round for each packet whose time has
        come.  A packet that meets a busy connection stays in the buffer of its session; if
        a packet buffer cannot be opened the rest of the buffer is dropped.  n packets are
        put on the connection, the first n of the buffer. */
    method SendData(s: Session, channel: byte, rounds: seq<Round>) returns (n: nat)
      requires Valid() && Serves(s)
      modifies this, s`buffer, s`queued, s`fates
      ensures Valid() && Serves(s) && old(wire) <= wire
      ensures forall other :: other != s.id ==> PayloadsOf(units, other) == old(PayloadsOf(units, other))
      ensures n <= |rounds| && n <= |old(s.queued)| && units == old(units) + Framed(s.id, channel, old(s.queued)[..n])
      ensures n == 0 ==> wire == old(wire) && pending == old(pending) && sends == old(sends) && state == old(state)
      ensures old(state) != WaitRequest ==> n == 0
      ensures n > 0 ==> var f, sent := Frame(channel, old(s.queued)[n - 1]), rounds[n - 1].sent;
        && pending == f[if sent < 0 then 0 else if sent > |f| then |f| else sent..]
        && state == if sent < |f| then SendPacket else WaitRequest
      ensures forall i :: 0 <= i < n - 1 ==> rounds[i].sent >= |old(s.queued)[i]| + 4
      ensures forall i :: 0 <= i < n ==> rounds[i].memory
      ensures
        if old(state) == state == WaitRequest && n < |rounds| && n < |old(s.queued)|
        then !rounds[n].memory && s.queued == []
        else s.queued == old(s.queued)[n..]
      ensures old(s.fates) <= s.fates
      ensures forall i :: |old(s.fates)| <= i < |s.fates| ==> (s.fates[i] <==> i < |old(s.fates)| + n)
    {
      hide Encoded, EncodedAll, PayloadsOf, Prefixed, BigEndian, FromBigEndian, AllShort, Sent, Framed, Joined, Frame;
      hide Valid, Serves, Session.Valid;
      n := 0;
      ServesQueue(s);
      if state == WaitRequest { IdleIsEmpty(); }
      FramedMore(s.id, channel, s.queued, 0);
      assert units + [] == units;
      while n < |rounds| && s.buffer != []
        invariant n <= |rounds| && n <= |old(s.queued)| && Valid() && Serves(s)
        invariant forall other :: other != s.id ==> PayloadsOf(units, other) == old(PayloadsOf(units, other))
        invariant old(wire) <= wire && state == old(state) && s.queued == old(s.queued)[n..]
        invariant units == old(units) + Framed(s.id, channel, old(s.queued)[..n])
        invariant forall i :: 0 <= i < n ==> rounds[i].memory
        invariant old(s.fates) <= s.fates && |s.fates| == |old(s.fates)| + n
        invariant forall i :: |old(s.fates)| <= i < |s.fates| ==> s.fates[i]
        invariant state != WaitRequest ==> n == 0
        invariant n == 0 ==> wire == old(wire) && pending == old(pending) && sends == old(sends)
        invariant n > 0 ==> pending == [] && state == WaitRequest
        invariant forall i :: 0 <= i < n ==> rounds[i].sent >= |old(s.queued)[i]| + 4
        decreases |rounds| - n
      {
        ServesQueue(s);
        FirstPacket(s.queued);
        var len := FromBigEndian(s.buffer[..4]);
        if state != WaitRequest {
          break;
        }
        if !rounds[n].memory {
          Drop(s);
          break;
        }
        FramedMore(s.id, channel, old(s.queued), n);
        Attach(old(units), Framed(s.id, channel, old(s.queued)[..n]), Packet(s.id, channel, s.queued[0]));
        SendOne(s, channel, len, rounds[n].sent);
        n := n + 1;
        ServesQueue(s);
        if state == SendPacket {
          break;
        }
        IdleIsEmpty();
      }
      ServesQueue(s);
    }
  }

  /** The packets of a session as units of its connection. */
  ghost function Framed(session: nat, channel: byte, ps: seq<seq<byte>>): seq<WireUnit> {
    seq(|ps|, i requires 0 <= i < |ps| => Packet(session, channel, ps[i]))
  }

  lemma FramedMore(session: nat, channel: byte, ps: seq<seq<byte>>, n: nat)
    requires n <= |ps|
    ensures Framed(session, channel, ps[..0]) == []
    ensures n < |ps| ==> Framed(session, channel, ps[..n + 1]) ==
                         Framed(session, channel, ps[..n]) + [Packet(session, channel, ps[n])]
  {
  }

  lemma Attach(a: seq<WireUnit>, b: seq<WireUnit>, u: WireUnit)
    ensures (a + b) + [u] == a + (b + [u])
  {
  }

  lemma FrameIs(channel: byte, payload: seq<byte>)
    ensures Frame(channel, payload) == [DOLLAR, channel, (|payload| / 256) % 256, |payload| % 256] + payload
  {
  }

  // ---------- What the other end sees ----------

  /** Only the last unit can be incomplete on the wire of a connection: all units before it
      are there whole, and it is there whole too when the connection is idle. */
  lemma OnlyLastIncomplete(c: RtspConnection)
    requires c.Valid()
    ensures c.wire <= EncodedAll(c.units)
    ensures c.units != [] ==> EncodedAll(c.units[..|c.units| - 1]) <= c.wire
    ensures c.state == WaitRequest ==> c.wire == EncodedAll(c.units)
  {
    hide EncodedAll, Encoded;
    if c.units != [] {
      LastUnit(c.units);
      var before := EncodedAll(c.units[..|c.units| - 1]);
      assert before == (c.wire + c.pending)[..|before|];
    }
    assert c.wire + [] == c.wire;
  }

  lemma LastUnit(us: seq<WireUnit>)
    requires us != []
    ensures EncodedAll(us) == EncodedAll(us[..|us| - 1]) + Encoded(us[|us| - 1])
  {
  }

  /** Reading one frame off the wire, by section 10.12 of RFC 2326. */
  function ReadFrame(wire: seq<byte>): Option<(byte, seq<byte>, seq<byte>)> {
    if |wire| < 4 || wire[0] != DOLLAR then None
    else
      var len: int := 256 * (wire[2] as int) + wire[3] as int;
      if |wire| < 4 + len then None else Some((wire[1], wire[4..4 + len], wire[4 + len..]))
  }

  /** A frame is read back as the channel and payload that were sent exactly if the payload
      is shorter than 65536 bytes. */
  lemma FrameReads(channel: byte, payload: seq<byte>, rest: seq<byte>)
    ensures ReadFrame(Frame(channel, payload) + rest) == Some((channel, payload, rest)) <==> |payload| < 65536
  {
    var wire := Frame(channel, payload) + rest;
    var len: int := 256 * (wire[2] as int) + wire[3] as int;
    assert wire == [DOLLAR, channel, wire[2], wire[3]] + (payload + rest);
    assert wire[4..] == payload + rest;
    if |payload| < 65536 {
      assert len == |payload|;
      assert wire[4..4 + len] == wire[4..][..len] == payload;
      assert wire[4 + len..] == wire[4..][len..] == rest;
    } else {
      assert len < 65536;
    }
  }

  // ---------- The whole stream ----------

  /** A client that knows the length of each reply: it takes a frame where it finds a dollar
      sign and otherwise the next reply.  The result is the channel and payload of each
      frame, and each reply. */
  datatype Seen = Text(text: seq<byte>) | Data(channel: byte, payload: seq<byte>)

  function Demultiplex(wire: seq<byte>, replies: seq<nat>): seq<Seen>
    decreases |wire|
  {
    if wire == [] then []
    else if wire[0] == DOLLAR then
      match ReadFrame(wire)
      case Some((channel, payload, rest)) => [Data(channel, payload)] + Demultiplex(rest, replies)
      case None => []
    else if replies == [] || replies[0] == 0 || |wire| < replies[0] then []
    else [Text(wire[..replies[0]])] + Demultiplex(wire[replies[0]..], replies[1..])
  }

  function SeenOf(us: seq<WireUnit>): seq<Seen> {
    if us == [] then []
    else [if us[0].Reply? then Text(us[0].text) else Data(us[0].channel, us[0].payload)] + SeenOf(us[1..])
  }

  function ReplyLengths(us: seq<WireUnit>): seq<nat> {
    if us == [] then []
    else (if us[0].Reply? then [|us[0].text|] else []) + ReplyLengths(us[1..])
  }

  /** Replies are text that does not start with a dollar sign, and packets are short. */
  predicate Readable(u: WireUnit) {
    if u.Reply? then u.text != [] && u.text[0] != DOLLAR else |u.payload| < 65536
  }

  /** Encoding from the front. */
  lemma {:induction false} EncodedFirst(us: seq<WireUnit>)
    requires us != []
    ensures EncodedAll(us) == Encoded(us[0]) + EncodedAll(us[1..])
  {
    var last := us[|us| - 1];
    var init := us[..|us| - 1];
    if |us| == 1 {
      assert us[1..] == [] && init == [];
    } else {
      EncodedFirst(init);
      assert us[1..][..|us[1..]| - 1] == init[1..];
      assert us[1..][|us[1..]| - 1] == last;
      Regroup(Encoded(us[0]), EncodedAll(init[1..]), Encoded(last));
    }
  }

  /** Whatever the sends took, a finished stream is taken apart into exactly the replies and
      packets that were put on it, in order. */
  lemma {:induction false} StreamReads(us: seq<WireUnit>)
    requires forall i :: 0 <= i < |us| ==> Readable(us[i])
    ensures Demultiplex(EncodedAll(us), ReplyLengths(us)) == SeenOf(us)
    decreases |us|
  {
    if us != [] {
      hide EncodedAll, Encoded, Demultiplex;
      EncodedFirst(us);
      StreamReads(us[1..]);
      assert Readable(us[0]);
      FirstSeen(us[0], EncodedAll(us[1..]), ReplyLengths(us[1..]));
    }
  }

  /** What the sends of a connection took, put together, is at any time taken apart into the units put
      on it, without the last one while that is not sent completely. */
  lemma WireReads(c: RtspConnection)
    requires c.Valid() && forall i :: 0 <= i < |c.units| ==> Readable(c.units[i])
    ensures c.wire == Joined(c.sends)
    ensures Demultiplex(Joined(c.sends), ReplyLengths(c.units)) ==
            SeenOf(if c.pending == [] then c.units else c.units[..|c.units| - 1])
  {
    hide EncodedAll, Encoded, Demultiplex, Readable, ReplyLengths, Joined;
    if c.pending == [] {
      assert c.wire + [] == c.wire;
      StreamReads(c.units);
    } else {
      var init, last := c.units[..|c.units| - 1], c.units[|c.units| - 1];
      LastUnit(c.units);
      var part := SentPart(c.wire, c.pending, EncodedAll(init), Encoded(last));
      assert c.units == init + [last];
      LengthsAppend(init, last);
      PartReads(init, last, part);
    }
  }

  /** What is sent of the last unit. */
  lemma SentPart(wire: seq<byte>, pending: seq<byte>, before: seq<byte>, last: seq<byte>) returns (part: seq<byte>)
    requires wire + pending == before + last && 0 < |pending| <= |last|
    ensures wire == before + part && part < last
  {
    part := last[..|last| - |pending|];
    assert wire == (wire + pending)[..|wire|] == (before + last)[..|wire|];
  }

  lemma {:induction false} LengthsAppend(us: seq<WireUnit>, u: WireUnit)
    ensures ReplyLengths(us + [u]) == ReplyLengths(us) + if u.Reply? then [|u.text|] else []
  {
    LengthsFirst(us + [u]);
    if us == [] {
      assert us + [u] == [u] && [u][1..] == [];
    } else {
      hide ReplyLengths;
      assert (us + [u])[1..] == us[1..] + [u];
      LengthsAppend(us[1..], u);
      LengthsFirst(us);
      JoinThree(OwnLength(us[0]), ReplyLengths(us[1..]), OwnLength(u));
    }
  }

  function OwnLength(u: WireUnit): seq<nat> {
    if u.Reply? then [|u.text|] else []
  }

  lemma LengthsFirst(us: seq<WireUnit>)
    requires us != []
    ensures ReplyLengths(us) == OwnLength(us[0]) + ReplyLengths(us[1..])
  {
  }

  lemma JoinThree(a: seq<nat>, b: seq<nat>, c: seq<nat>)
    ensures (a + b) + c == a + (b + c)
  {
  }

  /** Whole units and an incomplete one. */
  lemma {:induction false} PartReads(us: seq<WireUnit>, last: WireUnit, part: seq<byte>)
    requires (forall i :: 0 <= i < |us| ==> Readable(us[i])) && Readable(last) && part < Encoded(last)
    ensures Demultiplex(EncodedAll(us) + part, ReplyLengths(us) + if last.Reply? then [|last.text|] else []) ==
            SeenOf(us)
    decreases |us|
  {
    var more := if last.Reply? then [|last.text|] else [];
    if us == [] {
      assert EncodedAll(us) + part == part && ReplyLengths(us) + more == more;
      IncompleteUnit(last, part);
    } else {
      hide EncodedAll, Encoded, Demultiplex, ReplyLengths;
      EncodedFirst(us);
      PartReads(us[1..], last, part);
      assert Readable(us[0]);
      FirstSeen(us[0], EncodedAll(us[1..]) + part, ReplyLengths(us[1..]) + more);
      Regroup(Encoded(us[0]), EncodedAll(us[1..]), part);
      LengthsFirst(us);
      JoinThree(OwnLength(us[0]), ReplyLengths(us[1..]), more);
    }
  }

  lemma IncompleteUnit(u: WireUnit, part: seq<byte>)
    requires Readable(u) && part < Encoded(u)
    ensures Demultiplex(part, if u.Reply? then [|u.text|] else []) == []
  {
    if part != [] {
      assert part[0] == Encoded(u)[0];
      if u.Packet? && |part| >= 4 {
        FrameIs(u.channel, u.payload);
        assert part[2] == Encoded(u)[2] && part[3] == Encoded(u)[3];
        assert ReadFrame(part) == None;
      }
    }
  }

  /** The first unit is recognised and the client goes on behind it. */
  lemma FirstSeen(u: WireUnit, rest: seq<byte>, replies: seq<nat>)
    requires Readable(u)
    ensures Demultiplex(Encoded(u) + rest, (if u.Reply? then [|u.text|] else []) + replies) ==
      [if u.Reply? then Text(u.text) else Data(u.channel, u.payload)] + Demultiplex(rest, replies)
  {
    var wire := Encoded(u) + rest;
    if u.Packet? {
      FrameReads(u.channel, u.payload, rest);
      assert [] + replies == replies;
      assert wire[0] == DOLLAR;
    } else {
      assert wire[..|u.text|] == u.text && wire[|u.text|..] == rest;
      assert ([|u.text|] + replies)[1..] == replies;
      assert wire[0] == u.text[0];
    }
  }
}
