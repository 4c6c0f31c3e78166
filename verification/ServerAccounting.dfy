/** Connection and bandwidth accounting of ffserver: the list of connections, its counter,
    and the bandwidth charged to live streams, through every way a connection is opened,
    answered, refused and closed. */
module ServerAccounting {

  datatype StreamType = Live | Status | Redirect

  type uint32 = x: int | 0 <= x < 0x1_0000_0000

  /** A configured stream. */
  class Stream {
    const bandwidth: uint32
    const streamType: StreamType
    const isFeed: bool
    var feedOpened: bool
    var connsServed: nat

    constructor (bandwidth: uint32, streamType: StreamType, isFeed: bool)
      ensures this.bandwidth == bandwidth && this.streamType == streamType && this.isFeed == isFeed
      ensures !feedOpened && connsServed == 0
    {
      this.bandwidth, this.streamType, this.isFeed := bandwidth, streamType, isFeed;
      feedOpened, connsServed := false, 0;
    }
  }

  datatype ConnectionState = WaitRequest | SendHeader | ReceiveData | Ready | RtspWaitRequest

  class Connection {
    var state: ConnectionState
    var stream: Stream?
    var post: bool
    var httpError: nat
    const isPacketized: bool
    var rtspC: Connection?

    /** The request has passed the bandwidth check. */
    ghost var admitted: bool

    constructor (state: ConnectionState, stream: Stream?, isPacketized: bool)
      ensures this.state == state && this.stream == stream && this.isPacketized == isPacketized
      ensures !post && httpError == 0 && rtspC == null && !admitted
    {
      this.state, this.stream, this.isPacketized := state, stream, isPacketized;
      post, httpError, rtspC, admitted := false, 0, null, false;
    }

    /** A live stream is sent to this connection, or at least charged to it. */
    ghost predicate IsLive()
      reads `stream, `post
    {
      stream != null && !post && stream.streamType.Live?
    }

    ghost function Charged(): nat
      reads `stream, `post
    {
      if stream != null && !post && stream.streamType.Live? then stream.bandwidth else 0
    }

    ghost function ChargedAdmitted(): nat
      reads `stream, `post, `admitted
    {
      if admitted then Charged() else 0
    }

    ghost predicate Feeds(s: Stream)
      reads `state, `stream
    {
      state.ReceiveData? && stream == s
    }

    /** What holds of one connection. */
    ghost predicate Sane(streams: set<Stream>)
      reads `state, `stream, `post, `httpError, `admitted
    {
      && (stream != null ==> stream in streams)
      && (state.WaitRequest? || state.RtspWaitRequest? ==> stream == null && !admitted)
      && (isPacketized ==> IsLive() && !state.ReceiveData?)
      && (admitted ==> IsLive() && !isPacketized)
      && (IsLive() && !isPacketized && httpError != 404 && httpError != 503 ==> admitted)
      && (state.ReceiveData? ==> stream != null)
    }
  }

  // ---------- Requests ----------

  datatype Verb = Get | Post | OtherVerb

  /** Whether the name asks for a file that redirects to the stream, and whether the Host
      line lets that file be written. */
  datatype Redirection = NoRedirection | Followed | NotHandled

  /** What http_parse_request finds out from outside: the parsed request line, and whether
      the feed file or the input can be opened. */
  datatype Request = Request(verb: Verb, protocolOk: bool, redirection: Redirection, feedOk: bool, inputOk: bool)

  /** The HTTP status the answer records, 0 for a stream or a feed that is accepted. */
  function StatusCode(r: Request, stream: Stream?, taken: bool, tooBusy: bool): nat {
    if stream == null then 404
    else if stream.streamType.Redirect? then 301
    else if taken then 404
    else if r.verb.Get? && tooBusy then 503
    else if r.redirection.Followed? then 200
    else if r.redirection.NotHandled? then 404
    else if r.verb.Post? then (if stream.isFeed && r.feedOk then 0 else 404)
    else if stream.streamType.Status? then 200
    else if r.inputOk then 0 else 404
  }

  /** The request gets as far as the stream: it counts as served, whatever comes of it. */
  predicate Served(r: Request, stream: Stream, taken: bool, tooBusy: bool) {
    !stream.streamType.Redirect? && !taken && !(r.verb.Get? && tooBusy) && r.redirection.NoRedirection?
  }

  /** When a request for a stream is accepted: the stream is there, is not redirected and is
      not being received, and no file that redirects is asked for; a GET is within the
      bandwidth and its input opens, a POST is for a feed whose file opens. */
  lemma AcceptedIff(r: Request, stream: Stream?, taken: bool, tooBusy: bool)
    requires !r.verb.OtherVerb?
    ensures StatusCode(r, stream, taken, tooBusy) == 0 <==>
      && stream != null && !stream.streamType.Redirect? && !taken && r.redirection == NoRedirection
      && if r.verb == Get then !tooBusy && !stream.streamType.Status? && r.inputOk else stream.isFeed && r.feedOk
  {
  }

  /** When it is refused, and with what. */
  lemma RefusedWith(r: Request, stream: Stream?, taken: bool, tooBusy: bool)
    requires !r.verb.OtherVerb?
    ensures var code := StatusCode(r, stream, taken, tooBusy);
      && code in {0, 200, 301, 404, 503}
      && (code == 301 <==> stream != null && stream.streamType.Redirect?)
      && (code == 503 <==> stream != null && !stream.streamType.Redirect? && !taken && r.verb == Get && tooBusy)
      && (code == 200 <==> stream != null && !stream.streamType.Redirect? && !taken && (r.verb == Get ==> !tooBusy) &&
                           (r.redirection == Followed ||
                            (r.redirection == NoRedirection && r.verb == Get && stream.streamType.Status?)))
  {
  }

  // ---------- Sums ----------

  function Sum(xs: seq<nat>): nat {
    if xs == [] then 0 else xs[0] + Sum(xs[1..])
  }

  lemma {:induction false} SumConcat(a: seq<nat>, b: seq<nat>)
    ensures Sum(a + b) == Sum(a) + Sum(b)
  {
    if a == [] {
      assert a + b == b;
    } else {
      assert (a + b)[1..] == a[1..] + b;
      SumConcat(a[1..], b);
    }
  }

  lemma SumSplit(a: seq<nat>, i: nat)
    requires i < |a|
    ensures Sum(a) == Sum(a[..i]) + a[i] + Sum(a[i + 1..])
  {
    hide Sum;
    assert a == a[..i] + ([a[i]] + a[i + 1..]);
    SumConcat(a[..i], [a[i]] + a[i + 1..]);
    SumOne(a[i], a[i + 1..]);
  }

  lemma SumOne(x: nat, xs: seq<nat>)
    ensures Sum([x] + xs) == x + Sum(xs)
  {
    assert ([x] + xs)[1..] == xs;
  }

  lemma SumUpdate(a: seq<nat>, i: nat, v: nat)
    requires i < |a|
    ensures Sum(a[i := v]) == Sum(a) - a[i] + v
  {
    SumSplit(a, i);
    SumSplit(a[i := v], i);
    assert a[i := v][..i] == a[..i] && a[i := v][i + 1..] == a[i + 1..];
  }

  lemma {:induction false} SumMonotone(a: seq<nat>, b: seq<nat>)
    requires |a| == |b| && forall i :: 0 <= i < |a| ==> a[i] <= b[i]
    ensures Sum(a) <= Sum(b)
  {
    if a != [] { SumMonotone(a[1..], b[1..]); }
  }

  lemma {:induction false} SumBound(a: seq<nat>)
    requires forall i :: 0 <= i < |a| ==> a[i] < 0x1_0000_0000
    ensures Sum(a) <= 0x1_0000_0000 * |a|
  {
    if a != [] { SumBound(a[1..]); }
  }

  // ---------- The server ----------

  ghost function Charges(cs: seq<Connection>): (r: seq<nat>)
    reads cs`stream, cs`post
    ensures |r| == |cs| && forall i {:trigger r[i]} :: 0 <= i < |cs| ==> r[i] == cs[i].Charged()
  {
    if cs == [] then [] else [cs[0].Charged()] + Charges(cs[1..])
  }

  ghost function AdmittedCharges(cs: seq<Connection>): (r: seq<nat>)
    reads cs`stream, cs`post, cs`admitted
    ensures |r| == |cs| && forall i {:trigger r[i]} :: 0 <= i < |cs| ==> r[i] == cs[i].ChargedAdmitted()
  {
    if cs == [] then [] else [cs[0].ChargedAdmitted()] + AdmittedCharges(cs[1..])
  }

  ghost predicate Distinct(cs: seq<Connection>) {
    forall i, j :: 0 <= i < j < |cs| ==> cs[i] != cs[j]
  }

  /** A stream is marked as being received exactly if one connection feeds it. */
  ghost predicate Feeders(cs: seq<Connection>, streams: set<Stream>)
    reads cs`state, cs`stream, streams`feedOpened
  {
    && (forall c, s :: c in cs && s in streams && c.Feeds(s) ==> s.feedOpened)
    && (forall c, d, s :: c in cs && d in cs && s in streams && c.Feeds(s) && d.Feeds(s) ==> c == d)
    && (forall s :: s in streams && s.feedOpened ==> exists c :: c in cs && c.Feeds(s))
  }

  ghost predicate AllSane(cs: seq<Connection>, streams: set<Stream>)
    reads cs`state, cs`stream, cs`post, cs`httpError, cs`admitted
  {
    forall c :: c in cs ==> c.Sane(streams)
  }

  /** An RTP session that is sent over an RTSP connection refers to one that is still there. */
  ghost predicate NoneDangles(cs: seq<Connection>)
    reads cs`rtspC
  {
    forall c :: c in cs ==> c.rtspC == null || c.rtspC in cs
  }

  lemma OthersStay(before: seq<Connection>, after: seq<Connection>, c: Connection, i: nat)
    requires Unlinked(before, after, c, i)
    ensures forall d :: d in after ==> d in before
    ensures forall d :: d in before && d != c ==> d in after
  {
    assert forall j :: 0 <= j < |after| ==> after[j] == before[if j < i then j else j + 1];
    forall d | d in before && d != c
      ensures d in after
    {
      var j :| 0 <= j < |before| && before[j] == d;
      assert after[if j < i then j else j - 1] == d;
    }
  }

  lemma PrependCharges(c: Connection, cs: seq<Connection>)
    ensures Sum(Charges([c] + cs)) == c.Charged() + Sum(Charges(cs))
    ensures Sum(AdmittedCharges([c] + cs)) == c.ChargedAdmitted() + Sum(AdmittedCharges(cs))
  {
    hide Sum;
    assert ([c] + cs)[1..] == cs;
    SumOne(c.Charged(), Charges(cs));
    SumOne(c.ChargedAdmitted(), AdmittedCharges(cs));
  }

  lemma {:induction false} ConcatCharges(a: seq<Connection>, b: seq<Connection>)
    ensures Sum(Charges(a + b)) == Sum(Charges(a)) + Sum(Charges(b))
    ensures Sum(AdmittedCharges(a + b)) == Sum(AdmittedCharges(a)) + Sum(AdmittedCharges(b))
  {
    if a == [] {
      assert a + b == b && Charges(a) == [] && AdmittedCharges(a) == [];
    } else {
      hide Charges, AdmittedCharges, Sum;
      PrependCharges(a[0], a[1..]);
      PrependCharges(a[0], a[1..] + b);
      ConcatCharges(a[1..], b);
      HeadFirst(a, b);
    }
  }

  lemma HeadFirst(a: seq<Connection>, b: seq<Connection>)
    requires a != []
    ensures a == [a[0]] + a[1..] && a + b == [a[0]] + (a[1..] + b)
  {
  }

  lemma PrependFeeders(c: Connection, cs: seq<Connection>, streams: set<Stream>)
    requires Feeders(cs, streams) && !c.state.ReceiveData?
    ensures Feeders([c] + cs, streams)
  {
    forall s | s in streams && s.feedOpened
      ensures exists d :: d in [c] + cs && d.Feeds(s)
    {
      var d :| d in cs && d.Feeds(s);
      assert d in [c] + cs;
    }
  }

  lemma TakeOne(cs: seq<Connection>, i: nat)
    requires i < |cs|
    ensures cs == cs[..i] + ([cs[i]] + cs[i + 1..])
  {
  }

  lemma RemoveCharges(cs: seq<Connection>, i: nat)
    requires i < |cs|
    ensures Sum(Charges(cs[..i] + cs[i + 1..])) == Sum(Charges(cs)) - cs[i].Charged()
    ensures Sum(AdmittedCharges(cs[..i] + cs[i + 1..])) == Sum(AdmittedCharges(cs)) - cs[i].ChargedAdmitted()
  {
    hide Charges, AdmittedCharges, Sum;
    var before, c, after := cs[..i], cs[i], cs[i + 1..];
    TakeOne(cs, i);
    ConcatCharges(before, [c] + after);
    ConcatCharges(before, after);
    PrependCharges(c, after);
  }

  /** after is before without c, which was at place i. */
  ghost predicate Unlinked(before: seq<Connection>, after: seq<Connection>, c: Connection, i: nat) {
    i < |before| && before[i] == c && after == before[..i] + before[i + 1..]
  }

  lemma UnlinkedKeeps(before: seq<Connection>, after: seq<Connection>, c: Connection, i: nat, streams: set<Stream>)
    requires Distinct(before) && AllSane(before, streams) && Unlinked(before, after, c, i)
    ensures Distinct(after) && AllSane(after, streams) && c.Sane(streams) && c !in after && |after| == |before| - 1
  {
    assert forall j :: 0 <= j < |after| ==> after[j] == before[if j < i then j else j + 1];
  }

  /** The stream that c feeds, if any. */
  ghost function Fed(c: Connection, streams: set<Stream>): set<Stream>
    reads c`state, c`stream
  {
    set s | s in streams && c.Feeds(s)
  }

  lemma RemoveFeeders(cs: seq<Connection>, i: nat, streams: set<Stream>)
    requires i < |cs| && Distinct(cs) && Feeders(cs, streams)
    ensures Feeders(cs[..i] + cs[i + 1..], streams - Fed(cs[i], streams))
    ensures forall d, s :: d in cs[..i] + cs[i + 1..] && s in streams && cs[i].Feeds(s) ==> !d.Feeds(s)
  {
    var rest := cs[..i] + cs[i + 1..];
    forall s | s in streams && s.feedOpened && !cs[i].Feeds(s)
      ensures exists d :: d in rest && d.Feeds(s)
    {
      var d :| d in cs && d.Feeds(s);
      assert d in rest;
    }
  }

  /** A stream nobody feeds may be marked free. */
  lemma FreeStreams(cs: seq<Connection>, streams: set<Stream>, free: set<Stream>)
    requires free <= streams && Feeders(cs, streams - free)
    requires forall s :: s in free ==> !s.feedOpened
    requires forall d, s :: d in cs && s in free ==> !d.Feeds(s)
    ensures Feeders(cs, streams)
  {
  }

  lemma FindConnection(cs: seq<Connection>, c: Connection) returns (i: nat)
    requires c in cs
    ensures i < |cs| && cs[i] == c
  {
    i :| 0 <= i < |cs| && cs[i] == c;
  }

  /** The sums after the charges of one connection have changed. */
  lemma Recharged(cs: seq<Connection>, i: nat, charges: seq<nat>, admitted: seq<nat>, max: nat)
    requires i < |cs| == |charges| == |admitted|
    requires forall j :: 0 <= j < |cs| && j != i ==>
      charges[j] == cs[j].Charged() && admitted[j] == cs[j].ChargedAdmitted()
    requires charges[i] == 0 && admitted[i] == 0 && Sum(admitted) <= max
    requires cs[i].admitted ==> Sum(charges) + cs[i].Charged() <= max
    ensures Sum(Charges(cs)) == Sum(charges) + cs[i].Charged()
    ensures Sum(AdmittedCharges(cs)) <= max
  {
    hide Charges, AdmittedCharges, Sum;
    assert Charges(cs) == charges[i := cs[i].Charged()];
    assert AdmittedCharges(cs) == admitted[i := cs[i].ChargedAdmitted()];
    SumUpdate(charges, i, cs[i].Charged());
    SumUpdate(admitted, i, cs[i].ChargedAdmitted());
    SumMonotone(AdmittedCharges(cs), Charges(cs));
  }

  lemma WithoutStream(cs: seq<Connection>, streams: set<Stream>, s: Stream)
    requires Feeders(cs, streams)
    ensures Feeders(cs, streams - {s})
    ensures s in streams && !s.feedOpened ==> forall d :: d in cs ==> !d.Feeds(s)
  {
  }

  /** Connection i joins the others as the feeder of s, or as no feeder. */
  lemma JoinFeeders(cs: seq<Connection>, i: nat, streams: set<Stream>)
    requires i < |cs| && Feeders(cs[..i] + cs[i + 1..], streams - Fed(cs[i], streams))
    requires forall d, s :: d in cs[..i] + cs[i + 1..] && s in streams && cs[i].Feeds(s) ==> !d.Feeds(s)
    requires forall s :: s in streams && cs[i].Feeds(s) ==> s.feedOpened
    ensures Feeders(cs, streams)
  {
    var rest := cs[..i] + cs[i + 1..];
    forall d | d in cs
      ensures d in rest || d == cs[i]
    {
      var j :| 0 <= j < |cs| && cs[j] == d;
      if j < i { assert rest[j] == d; } else if j > i { assert rest[j - 1] == d; }
    }
    forall s | s in streams && s.feedOpened
      ensures exists d :: d in cs && d.Feeds(s)
    {
      if !cs[i].Feeds(s) {
        var d :| d in rest && d.Feeds(s);
        assert d in cs;
      }
    }
  }

  class Server {
    /** first_http_ctx, from the first to the last. */
    var connections: seq<Connection>
    var nbConnections: nat
    var currentBandwidth: nat
    const nbMaxConnections: uint32
    const maxBandwidth: nat
    ghost const streams: set<Stream>

    ghost predicate Valid()
      reads this, connections, streams
    {
      && Distinct(connections) && AllSane(connections, streams) && Feeders(connections, streams)
      && NoneDangles(connections)
      && nbConnections == |connections| <= nbMaxConnections
      && currentBandwidth == Sum(Charges(connections))
      && Sum(AdmittedCharges(connections)) <= maxBandwidth
    }

    constructor (nbMaxConnections: uint32, maxBandwidth: nat, ghost streams: set<Stream>)
      requires forall s :: s in streams ==> !s.feedOpened
      ensures Valid() && connections == [] && this.streams == streams
      ensures this.nbMaxConnections == nbMaxConnections && this.maxBandwidth == maxBandwidth
    {
      this.nbMaxConnections, this.maxBandwidth, this.streams := nbMaxConnections, maxBandwidth, streams;
      connections, nbConnections, currentBandwidth := [], 0, 0;
    }

    /** new_connection, after accept; memory tells whether its allocations succeed. */
    method NewConnection(isRtsp: bool, memory: bool) returns (c: Connection?)
      requires Valid()
      modifies this
      ensures Valid()
      ensures c != null <==> old(nbConnections) < nbMaxConnections && memory
      ensures if c == null then connections == old(connections) else
        fresh(c) && connections == [c] + old(connections) && c.stream == null &&
        c.state == if isRtsp then RtspWaitRequest else WaitRequest
      ensures currentBandwidth == old(currentBandwidth)
    {
      hide Charges, AdmittedCharges, Sum, Feeders, AllSane;
      c := null;
      if nbConnections >= nbMaxConnections {
        return;
      }
      if !memory {
        return;
      }
      c := new Connection(if isRtsp then RtspWaitRequest else WaitRequest, null, false);
      Add(c);
    }

    /** rtp_new_connection, called for streams in the rtp format, which are live. */
    method RtpNewConnection(stream: Stream, memory: bool) returns (c: Connection?)
      requires Valid() && stream in streams && stream.streamType.Live?
      modifies this
      ensures Valid()
      ensures c != null <==> old(nbConnections) < nbMaxConnections && memory
      ensures if c == null then connections == old(connections) && currentBandwidth == old(currentBandwidth) else
        fresh(c) && connections == [c] + old(connections) && c.stream == stream && c.state == Ready &&
        currentBandwidth == old(currentBandwidth) + stream.bandwidth
    {
      hide Charges, AdmittedCharges, Sum, Feeders, AllSane;
      c := null;
      if nbConnections >= nbMaxConnections {
        return;
      }
      if !memory {
        return;
      }
      c := new Connection(Ready, stream, true);
      currentBandwidth := currentBandwidth + stream.bandwidth;
      Add(c);
    }

    /** The part of rtp_new_av_stream for RTP over TCP: the packets of session c go out on the
        RTSP connection rtspC. */
    method SendOver(c: Connection, rtspC: Connection)
      requires Valid() && c in connections && rtspC in connections
      modifies c`rtspC
      ensures Valid() && c.rtspC == rtspC
    {
      hide Charges, AdmittedCharges, Sum, Feeders, AllSane, Distinct;
      c.rtspC := rtspC;
    }

    /** Linking a connection at the head of the list. */
    method Add(c: Connection)
      requires c !in connections && nbConnections == |connections| < nbMaxConnections
      requires Distinct(connections) && AllSane(connections, streams) && Feeders(connections, streams)
      requires c.Sane(streams) && !c.state.ReceiveData? && !c.admitted
      requires c.rtspC == null && NoneDangles(connections)
      requires currentBandwidth == Sum(Charges(connections)) + c.Charged()
      requires Sum(AdmittedCharges(connections)) <= maxBandwidth
      modifies this`connections, this`nbConnections
      ensures Valid() && connections == [c] + old(connections)
    {
      hide Charges, AdmittedCharges, Sum, Feeders;
      PrependCharges(c, connections);
      PrependFeeders(c, connections, streams);
      connections := [c] + connections;
      nbConnections := nbConnections + 1;
    }

    /** The part of close_connection that takes c out of the list and clears references to
        it. */
    method Unlink(c: Connection) returns (ghost i: nat)
      requires c in connections && Distinct(connections)
      modifies `connections, connections`rtspC
      ensures Unlinked(old(connections), connections, c, i)
      ensures forall d :: d in connections ==> d.rtspC == if old(d.rtspC) == c then null else old(d.rtspC)
    {
      var n := 0;
      while connections[n] != c
        invariant 0 <= n < |connections| && c in connections[n..]
        decreases |connections| - n
      {
        n := n + 1;
      }
      i := n;
      connections := connections[..n] + connections[n + 1..];
      ghost var was, rest := old(connections), connections;
      assert forall j :: 0 <= j < |rest| ==> rest[j] == was[if j < i then j else j + 1];
      var k := 0;
      while k < |connections|
        modifies rest`rtspC
        invariant 0 <= k <= |connections| && connections == rest
        invariant forall j :: 0 <= j < |rest| ==>
          rest[j].rtspC == if j < k && old(rest[j].rtspC) == c then null else old(rest[j].rtspC)
      {
        if connections[k].rtspC == c {
          connections[k].rtspC := null;
        }
        k := k + 1;
      }
    }

    /** close_connection. */
    method CloseConnection(c: Connection)
      requires Valid() && c in connections
      modifies this, connections`rtspC, streams`feedOpened
      ensures Valid() && c !in connections
      ensures exists i :: Unlinked(old(connections), connections, c, i)
      ensures currentBandwidth == old(currentBandwidth) - old(c.Charged())
      ensures forall d :: d in connections ==> d.rtspC == if old(d.rtspC) == c then null else old(d.rtspC)
      ensures forall s :: s in streams ==> s.feedOpened == (old(s.feedOpened) && !c.Feeds(s))
    {
      hide Charges, AdmittedCharges, Sum, Feeders, Distinct, AllSane;
      ghost var i := Unlink(c);
      ghost var was := old(connections);
      RemoveCharges(was, i);
      UnlinkedKeeps(was, connections, c, i, streams);
      RemoveFeeders(was, i, streams);
      OthersStay(was, connections, c, i);
      Settle(c);
    }

    /** The part of close_connection that takes c, no longer in the list, off the books. */
    method Settle(c: Connection)
      requires Distinct(connections) && AllSane(connections, streams) && c.Sane(streams) && c !in connections
      requires Feeders(connections, streams - Fed(c, streams)) && NoneDangles(connections)
      requires forall d, s :: d in connections && s in streams && c.Feeds(s) ==> !d.Feeds(s)
      requires nbConnections == |connections| + 1 <= nbMaxConnections
      requires currentBandwidth == Sum(Charges(connections)) + c.Charged()
      requires Sum(AdmittedCharges(connections)) <= maxBandwidth
      modifies `currentBandwidth, `nbConnections, streams`feedOpened
      ensures Valid()
      ensures currentBandwidth == old(currentBandwidth) - c.Charged()
      ensures forall s :: s in streams ==> s.feedOpened == (old(s.feedOpened) && !c.Feeds(s))
    {
      hide Charges, AdmittedCharges, Sum, Feeders, Distinct, AllSane;
      ghost var charges, admitted := Charges(connections), AdmittedCharges(connections);
      if c.stream != null && !c.post && c.stream.streamType.Live? {
        currentBandwidth := currentBandwidth - c.stream.bandwidth;
      }
      if c.state.ReceiveData? && c.stream != null {
        c.stream.feedOpened := false;
      }
      FreeStreams(connections, streams, Fed(c, streams));
      nbConnections := nbConnections - 1;
      assert Charges(connections) == charges && AdmittedCharges(connections) == admitted;
    }

    /** http_parse_request.  stream is the stream that has the requested name and that the
        client may access, if any; a result of -1 closes the connection. */
    method ParseRequest(c: Connection, r: Request, stream: Stream?) returns (ret: int)
      requires Valid() && c in connections && c.state == WaitRequest && !c.isPacketized
      requires stream != null ==> stream in streams
      modifies c`state, c`stream, c`post, c`httpError, c`admitted, this`currentBandwidth
      modifies streams`feedOpened, streams`connsServed
      ensures Valid()
      ensures ret == if r.verb.OtherVerb? || !r.protocolOk then -1 else 0
      ensures currentBandwidth == old(currentBandwidth) +
        if ret == 0 && stream != null && stream.streamType.Live? && r.verb.Get? then stream.bandwidth else 0
      ensures ret == 0 ==>
        c.httpError == StatusCode(r, stream, stream != null && old(stream.feedOpened), maxBandwidth < currentBandwidth)
      ensures ret == 0 ==> c.state == if r.verb.Post? && c.httpError == 0 then ReceiveData else SendHeader
      ensures forall s :: s in streams ==>
        (if ret == 0 && s == stream && Served(r, s, old(s.feedOpened), maxBandwidth < currentBandwidth)
         then s.connsServed == old(s.connsServed) + 1 else s.connsServed == old(s.connsServed))
      ensures ret == 0 && stream != null && stream.streamType == Live && !old(stream.feedOpened) &&
              r.verb == Get && r.redirection == NoRedirection && r.inputOk ==>
        c.httpError == if old(currentBandwidth) + stream.bandwidth <= maxBandwidth then 0 else 503
      ensures forall s :: s in streams ==> s.feedOpened == (old(s.feedOpened) || c.Feeds(s))
    {
      hide Charges, AdmittedCharges, Sum, Feeders, StatusCode, Served;
      ghost var i := FindConnection(connections, c);
      ghost var charges, admitted := Charges(connections), AdmittedCharges(connections);
      ghost var rest := connections[..i] + connections[i + 1..];
      RemoveFeeders(connections, i, streams);
      assert streams - Fed(c, streams) == streams;
      if stream != null { WithoutStream(rest, streams, stream); }
      ret := Answer(c, r, stream);
      assert streams - Fed(c, streams) == if c.state.ReceiveData? then streams - {stream} else streams;
      Recharged(connections, i, charges, admitted, maxBandwidth);
      JoinFeeders(connections, i, streams);
    }

    /** The rest of http_parse_request, for a request that gets as far as its stream. */
    method Serve(c: Connection, r: Request, stream: Stream)
      requires c.stream == stream && !stream.feedOpened && !r.verb.OtherVerb? && c.post == r.verb.Post?
      modifies c`state, c`stream, c`httpError, stream`feedOpened, stream`connsServed
      ensures stream.connsServed == old(stream.connsServed) + 1
      ensures c.httpError == if r.verb.Post? then (if stream.isFeed && r.feedOk then 0 else 404)
                             else if stream.streamType.Status? then 200
                             else if r.inputOk then 0 else 404
      ensures c.state == if r.verb.Post? && c.httpError == 0 then ReceiveData else SendHeader
      ensures c.stream == if r.verb.Post? && !stream.isFeed then null else stream
      ensures stream.feedOpened == (r.verb.Post? && c.httpError == 0)
    {
      stream.connsServed := stream.connsServed + 1;
      if c.post {
        if !stream.isFeed {
          c.stream := null;
          c.httpError, c.state := 404, SendHeader;
          return;
        }
        if stream.feedOpened || !r.feedOk {
          c.httpError, c.state := 404, SendHeader;
          return;
        }
        stream.feedOpened := true;
        c.httpError, c.state := 0, ReceiveData;
        return;
      }
      if stream.streamType.Status? {
        c.httpError, c.state := 200, SendHeader;
        return;
      }
      if !r.inputOk {
        c.httpError, c.state := 404, SendHeader;
        return;
      }
      c.httpError, c.state := 0, SendHeader;
    }

    /** The assignments of http_parse_request. */
    method Answer(c: Connection, r: Request, stream: Stream?) returns (ret: int)
      requires c.state == WaitRequest && c.stream == null && !c.admitted
      requires stream != null ==> stream in streams
      modifies c`state, c`stream, c`post, c`httpError, c`admitted, this`currentBandwidth
      modifies streams`feedOpened, streams`connsServed
      ensures ret == if r.verb.OtherVerb? || !r.protocolOk then -1 else 0
      ensures ret != 0 ==> c.state == WaitRequest && c.stream == null && !c.admitted
      ensures currentBandwidth == old(currentBandwidth) + c.Charged()
      ensures ret == 0 ==> c.post == r.verb.Post?
      ensures ret == 0 ==>
        c.httpError == StatusCode(r, stream, stream != null && old(stream.feedOpened), maxBandwidth < currentBandwidth)
      ensures ret == 0 ==> c.state == if r.verb.Post? && c.httpError == 0 then ReceiveData else SendHeader
      ensures ret == 0 && stream != null && stream.streamType == Live && !old(stream.feedOpened) &&
              r.verb == Get && r.redirection == NoRedirection && r.inputOk ==>
        c.httpError == if old(currentBandwidth) + stream.bandwidth <= maxBandwidth then 0 else 503
      ensures ret == 0 ==>
        (if stream != null && r.verb.Post? && !stream.isFeed &&
            Served(r, stream, old(stream.feedOpened), maxBandwidth < currentBandwidth)
         then c.stream == null else c.stream == stream)
      ensures forall s :: s in streams ==>
        (if ret == 0 && s == stream && Served(r, s, old(s.feedOpened), maxBandwidth < currentBandwidth)
         then s.connsServed == old(s.connsServed) + 1 else s.connsServed == old(s.connsServed))
      ensures c.admitted ==> c.IsLive() && currentBandwidth <= maxBandwidth
      ensures c.IsLive() && c.httpError != 404 && c.httpError != 503 ==> c.admitted
      ensures c.state.ReceiveData? ==> c.stream == stream != null && !old(stream.feedOpened)
      ensures forall s :: s in streams ==> s.feedOpened == (old(s.feedOpened) || c.Feeds(s))
    {
      if r.verb.Get? {
        c.post := false;
      } else if r.verb.Post? {
        c.post := true;
      } else {
        return -1;
      }
      if !r.protocolOk {
        return -1;
      }
      ret := 0;
      if stream == null {
        c.httpError, c.state := 404, SendHeader;
        return;
      }
      c.stream := stream;
      if stream.streamType.Redirect? {
        c.httpError, c.state := 301, SendHeader;
        return;
      }
      if !c.post && stream.streamType.Live? {
        currentBandwidth := currentBandwidth + stream.bandwidth;
      }
      if stream.feedOpened {
        c.httpError, c.state := 404, SendHeader;
        return;
      }
      if !c.post && maxBandwidth < currentBandwidth {
        c.httpError, c.state := 503, SendHeader;
        return;
      }
      c.admitted := !c.post && stream.streamType.Live?;
      if !r.redirection.NoRedirection? {
        c.httpError, c.state := if r.redirection.Followed? then 200 else 404, SendHeader;
        return;
      }
      Serve(c, r, stream);
    }
  }

  // ---------- What the invariant gives ----------

  /** In every reachable state: the counter is the length of the list and within the limit;
      the bandwidth counter is the sum of the charges, each connection to a live stream and
      no POST counting once, so the counter fits its 64 bits and no subtraction takes it
      below zero; and the live HTTP connections that were not refused stay within the
      configured bandwidth, whatever RTP sessions take; and no session refers to an RTSP
      connection that has been closed. */
  lemma BooksAreRight(server: Server)
    requires server.Valid()
    ensures server.nbConnections == |server.connections| <= server.nbMaxConnections
    ensures server.currentBandwidth == Sum(Charges(server.connections)) < 0x1_0000_0000_0000_0000
    ensures Sum(NotRefused(server.connections)) <= server.maxBandwidth
    ensures forall c :: c in server.connections ==> c.Charged() <= server.currentBandwidth
    ensures forall c :: c in server.connections ==> c.rtspC == null || c.rtspC in server.connections
  {
    hide Charges, AdmittedCharges, NotRefused, Sum;
    var cs := server.connections;
    SumBound(Charges(cs));
    forall i | 0 <= i < |cs|
      ensures NotRefused(cs)[i] <= AdmittedCharges(cs)[i]
      ensures cs[i].Charged() <= Sum(Charges(cs))
    {
      assert cs[i].Sane(server.streams);
      SumSplit(Charges(cs), i);
    }
    SumMonotone(NotRefused(cs), AdmittedCharges(cs));
  }

  /** The bandwidths of the live HTTP connections that were not answered 404 or 503. */
  ghost function NotRefused(cs: seq<Connection>): (r: seq<nat>)
    reads cs
    ensures |r| == |cs| && forall i {:trigger r[i]} :: 0 <= i < |cs| ==>
      r[i] == if cs[i].isPacketized || cs[i].httpError == 404 || cs[i].httpError == 503 then 0 else cs[i].Charged()
  {
    if cs == [] then []
    else
      [if cs[0].isPacketized || cs[0].httpError == 404 || cs[0].httpError == 503 then 0 else cs[0].Charged()] +
      NotRefused(cs[1..])
  }
}
