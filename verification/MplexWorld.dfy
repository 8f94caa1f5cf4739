/** The multiplexer among its clients and a flight controller that echoes the flag byte of the request it answers:
    the interleavings of the two loops, and where the replies go. */
module MplexWorld {
  import opened Framing
  import opened MspFrames
  import opened MspCodec
  import opened MplexChannel
  import opened MplexFrames
  import opened MplexServer
  import opened Options

  /** A frame as a client sent it. */
  datatype Request = Request(addr: Addr, frame: seq<byte>)

  /** A reply of the flight controller to one of the requests on the line. */
  datatype Answer = Answer(request: nat, data: seq<byte>)

  /** The multiplexer, the requests it has written to the line in order, the replies sent in order, and the bytes that
      are on their way to the multiplexer. */
  datatype World = World(sys: Sys, requests: seq<Request>, answers: seq<Answer>, flight: seq<byte>)

  /** A datagram arrives; the flight controller answers a request; its line carries noise; a chunk is read from the line. */
  datatype Action =
    | Client(addr: Addr, inp: seq<byte>)
    | Reply(request: nat, dirn: byte, cmd: nat, payload: seq<byte>)
    | Static(bytes: seq<byte>)
    | Read(n: nat)

  /** The largest payload that fits a channel's buffer. */
  const LARGEST: nat := 1015

  predicate Enabled(w: World, a: Action) {
    match a
    case Client(_, _) => true
    case Reply(request, dirn, cmd, payload) =>
      && request < |w.sys.line| && |w.sys.line[request]| > 3
      && IsDirection(Plex, dirn) && cmd < 0x1_0000 && |payload| <= LARGEST
    case Static(bytes) => DOLLAR !in bytes
    case Read(n) => n <= |w.flight|
  }

  function Asked(addr: Addr, frames: seq<seq<byte>>): (r: seq<Request>)
    ensures |r| == |frames| && forall i | 0 <= i < |r| :: r[i] == Request(addr, frames[i])
  {
    seq(|frames|, i requires 0 <= i < |frames| => Request(addr, frames[i]))
  }

  /** The world after an action; None when the multiplexer stops. */
  ghost function Next(w: World, a: Action): Option<World>
    requires Enabled(w, a) && |w.sys.fed| <= CLIENTS && Distinct(w.sys.smap, |w.sys.fed|)
  {
    match a
    case Client(addr, inp) =>
      (match FromClient(w.sys, addr, inp)
       case None => None
       case Some(sys) =>
         var k := Known(w.sys, addr);
         Some(w.(sys := sys, requests := w.requests + Asked(addr, New(SERIAL, k.fed[k.smap[addr]], inp)))))
    case Reply(request, dirn, cmd, payload) =>
      var data := V2Frame(dirn, w.sys.line[request][3], cmd, payload);
      Some(w.(answers := w.answers + [Answer(request, data)], flight := w.flight + data))
    case Static(bytes) => Some(w.(flight := w.flight + bytes))
    case Read(n) =>
      match FromSerial(w.sys, w.flight[..n])
      case None => None
      case Some(sys) => Some(w.(sys := sys, flight := w.flight[n..]))
  }

  // ---------- what every step keeps ----------

  ghost predicate Identified(w: World) {
    |w.sys.fed| <= CLIENTS && Distinct(w.sys.smap, |w.sys.fed|)
  }

  /** Every frame on the line is a request of a known client, marked with that client's id. */
  ghost predicate Marks(w: World) {
    && |w.requests| == |w.sys.line|
    && forall j | 0 <= j < |w.requests| :: Stands(w.sys.smap, w.requests[j], w.sys.line[j])
  }

  predicate Stands(smap: map<Addr, byte>, r: Request, frame: seq<byte>) {
    r.addr in smap && Whole(r.frame) && frame == Marked(smap[r.addr], r.frame)
  }

  /** Every reply is a whole frame with its request's flag byte. */
  ghost predicate Echoes(w: World) {
    forall k | 0 <= k < |w.answers| ::
      && w.answers[k].request < |w.sys.line| && Whole(w.answers[k].data) && |w.sys.line[w.answers[k].request]| > 3
      && w.answers[k].data[3] == w.sys.line[w.answers[k].request][3]
  }

  /** What the serial channel has still to make of the bytes at hand and on their way. */
  ghost function Coming(w: World): seq<byte> {
    Tail(Chan(SERIAL), w.sys.sfed) + w.flight
  }

  /** No unit under way ever outgrows the buffer. */
  ghost predicate Short(owner: byte, s: seq<byte>) {
    forall k | 0 <= k <= |s| :: |Tail(Chan(owner), s[..k])| < SIZE
  }

  function DataOf(answers: seq<Answer>): (r: seq<seq<byte>>)
    ensures |r| == |answers| && forall i | 0 <= i < |r| :: r[i] == answers[i].data
  {
    seq(|answers|, i requires 0 <= i < |answers| => answers[i].data)
  }

  /** The replies not yet passed on are exactly the frames that are coming. */
  ghost predicate Underway(w: World) {
    && |w.sys.outbox| <= |w.answers|
    && Events(Chan(SERIAL), Coming(w)) == DataOf(w.answers[|w.sys.outbox|..])
    && Tail(Chan(SERIAL), Coming(w)) == [] && Short(SERIAL, Coming(w))
  }

  /** A client that leaves the upper six flag bits to the multiplexer, or sets none that its id has not. */
  predicate Unclaimed(owner: byte, frame: seq<byte>)
    requires |frame| > 3
  {
    Or(frame[3] / 4, owner) == owner
  }

  /** Every datagram sent holds the reply of its turn, and goes to the client that asked for it, provided that one has
      left the multiplexer's flag bits alone. */
  ghost predicate Delivers(w: World)
    requires Marks(w) && Echoes(w)
  {
    && |w.sys.outbox| <= |w.answers|
    && forall k | 0 <= k < |w.sys.outbox| ::
         var r := w.requests[w.answers[k].request];
         && w.sys.outbox[k].data == w.answers[k].data
         && (w.sys.outbox[k].to == Some(r.addr) <==> Unclaimed(w.sys.smap[r.addr], r.frame))
  }

  ghost predicate Holds(w: World) {
    Identified(w) && Marks(w) && Echoes(w) && Underway(w) && Delivers(w)
  }

  // ---------- channels ----------

  lemma {:induction false} TailIsShorter(owner: byte, s: seq<byte>)
    ensures |Tail(Chan(owner), s)| <= |s|
    decreases |s|
  {
    hide Need;
    if !Unfinished(Chan(owner), s) {
      TailIsShorter(owner, s[Front(Chan(owner), s)..]);
    }
  }

  lemma UnitEvents(owner: byte, u: seq<byte>)
    requires Whole(u)
    ensures Events(Chan(owner), u) == [Marked(owner, u)] && Tail(Chan(owner), u) == []
  {
    hide Whole, Need, Marked;
    ChanIsStable(owner);
    WholeIsUnit(owner, u);
    UnitFirst(Chan(owner), u, []);
    assert u + [] == u;
    assert Events(Chan(owner), []) == [] && Tail(Chan(owner), []) == [];
  }

  /** More bytes at the end of a string that ends between units. */
  lemma {:induction false} ShortGrows(owner: byte, s: seq<byte>, x: seq<byte>)
    requires Short(owner, s) && Tail(Chan(owner), s) == [] && Short(owner, x)
    ensures Short(owner, s + x)
  {
    hide Tail;
    ChanIsStable(owner);
    forall k | 0 <= k <= |s + x| ensures |Tail(Chan(owner), (s + x)[..k])| < SIZE {
      if k <= |s| {
        assert (s + x)[..k] == s[..k];
      } else {
        assert (s + x)[..k] == s + x[..k - |s|];
        EventsContinue(Chan(owner), s, x[..k - |s|]);
        assert [] + x[..k - |s|] == x[..k - |s|];
      }
    }
  }

  lemma NoiseIsShort(owner: byte, noise: seq<byte>)
    requires DOLLAR !in noise
    ensures Short(owner, noise)
  {
    forall k | 0 <= k <= |noise| ensures |Tail(Chan(owner), noise[..k])| < SIZE {
      NoiseEvents(owner, noise[..k]);
    }
  }

  lemma UnitIsShort(owner: byte, u: seq<byte>)
    requires Whole(u) && |u| <= SIZE
    ensures Short(owner, u)
  {
    hide Tail, Whole;
    forall k | 0 <= k <= |u| ensures |Tail(Chan(owner), u[..k])| < SIZE {
      if k == |u| {
        assert u[..k] == u;
        UnitEvents(owner, u);
      } else {
        TailIsShorter(owner, u[..k]);
      }
    }
  }

  /** What is left after n bytes of a string that fits: it still fits, and the events are the same in all. */
  lemma ReadOn(owner: byte, fed: seq<byte>, flight: seq<byte>, n: nat)
    requires n <= |flight| && Short(owner, Tail(Chan(owner), fed) + flight)
    ensures var t := Tail(Chan(owner), fed); var t' := Tail(Chan(owner), fed + flight[..n]);
      && Fits(owner, fed, flight[..n]) && Short(owner, t' + flight[n..])
      && Events(Chan(owner), t + flight) == New(owner, fed, flight[..n]) + Events(Chan(owner), t' + flight[n..])
      && Tail(Chan(owner), t + flight) == Tail(Chan(owner), t' + flight[n..])
  {
    hide Tail, Events;
    ChanIsStable(owner);
    var g := Chan(owner);
    var t := Tail(g, fed);
    forall k | 0 <= k < n ensures |Tail(g, fed + flight[..n][..k])| < SIZE {
      EventsContinue(g, fed, flight[..k]);
      assert flight[..n][..k] == flight[..k] && (t + flight)[..|t| + k] == t + flight[..k];
    }
    EventsContinue(g, fed, flight[..n]);
    var t' := Tail(g, t + flight[..n]);
    forall k | 0 <= k <= |t' + flight[n..]| ensures |Tail(g, (t' + flight[n..])[..k])| < SIZE {
      PrefixShort(owner, t, flight, n, k);
    }
    EventsContinue(g, t + flight[..n], flight[n..]);
    assert t + flight[..n] + flight[n..] == t + flight;
  }

  lemma PrefixShort(owner: byte, t: seq<byte>, flight: seq<byte>, n: nat, k: nat)
    requires n <= |flight| && Short(owner, t + flight)
    requires k <= |Tail(Chan(owner), t + flight[..n])| + |flight| - n
    ensures |Tail(Chan(owner), (Tail(Chan(owner), t + flight[..n]) + flight[n..])[..k])| < SIZE
  {
    hide Tail, Events;
    ChanIsStable(owner);
    var g := Chan(owner);
    var t' := Tail(g, t + flight[..n]);
    var s := t + flight;
    assert s[..|t| + n] == t + flight[..n];
    if k <= |t'| {
      TailIsShorter(owner, t'[..k]);
      assert |t'| < SIZE;
      assert (t' + flight[n..])[..k] == t'[..k];
    } else {
      var j := k - |t'|;
      EventsContinue(g, t + flight[..n], flight[n..][..j]);
      assert s[..|t| + n + j] == t + flight[..n] + flight[n..][..j];
      assert (t' + flight[n..])[..k] == t' + flight[n..][..j];
    }
  }

  /** All channels cut a string into the same frames; they differ in the mark they put on them. */
  lemma {:induction false} SameFrames(owner: byte, s: seq<byte>)
    ensures Tail(Chan(owner), s) == Tail(Chan(SERIAL), s)
    ensures |Events(Chan(owner), s)| == |Events(Chan(SERIAL), s)|
    ensures forall i | 0 <= i < |Events(Chan(SERIAL), s)| ::
      Whole(Events(Chan(SERIAL), s)[i]) && Events(Chan(owner), s)[i] == Marked(owner, Events(Chan(SERIAL), s)[i])
    decreases |s|
  {
    hide Need, Whole, Marked;
    if !Unfinished(Chan(owner), s) {
      var n := Front(Chan(owner), s);
      SameFrames(owner, s[n..]);
      SerialKeeps(s[..n]);
    }
  }

  lemma SerialKeeps(u: seq<byte>)
    ensures |u| >= 9 ==> Marked(SERIAL, u) == u
    ensures Whole(u) ==> |u| >= 9
  {
  }

  lemma SameNew(owner: byte, fed: seq<byte>, inp: seq<byte>)
    ensures |New(owner, fed, inp)| == |New(SERIAL, fed, inp)|
    ensures forall i | 0 <= i < |New(SERIAL, fed, inp)| ::
      Whole(New(SERIAL, fed, inp)[i]) && New(owner, fed, inp)[i] == Marked(owner, New(SERIAL, fed, inp)[i])
  {
    hide Tail, Events, Whole, Marked;
    SameFrames(owner, fed);
    SameFrames(owner, Tail(Chan(owner), fed) + inp);
  }

  // ---------- the steps ----------

  lemma ClientMarks(w: World, addr: Addr, inp: seq<byte>, w': World)
    requires Identified(w) && Marks(w) && Next(w, Client(addr, inp)) == Some(w')
    ensures Identified(w') && Marks(w')
    ensures |w.requests| <= |w'.requests| && w'.requests[..|w.requests|] == w.requests
    ensures |w.sys.line| <= |w'.sys.line| && w'.sys.line[..|w.sys.line|] == w.sys.line
    ensures forall a | a in w.sys.smap :: a in w'.sys.smap && w'.sys.smap[a] == w.sys.smap[a]
  {
    hide New, Fits, Whole, Marked;
    var k := Known(w.sys, addr);
    var owner := k.smap[addr];
    SameNew(owner, k.fed[owner], inp);
    var n := |w.requests|;
    forall j | 0 <= j < |w'.requests| ensures Stands(w'.sys.smap, w'.requests[j], w'.sys.line[j]) {
      if j < n {
        assert w'.requests[j] == w.requests[j] && w'.sys.line[j] == w.sys.line[j];
        assert Stands(w.sys.smap, w.requests[j], w.sys.line[j]);
      } else {
        assert w'.requests[j] == Request(addr, New(SERIAL, k.fed[owner], inp)[j - n]);
      }
    }
  }

  /** More requests on the line change nothing about those already there. */
  lemma MoreRequests(w: World, w': World)
    requires Holds(w) && Identified(w') && Marks(w')
    requires |w.requests| <= |w'.requests| && w'.requests[..|w.requests|] == w.requests
    requires |w.sys.line| <= |w'.sys.line| && w'.sys.line[..|w.sys.line|] == w.sys.line
    requires forall a | a in w.sys.smap :: a in w'.sys.smap && w'.sys.smap[a] == w.sys.smap[a]
    requires w'.answers == w.answers && w'.flight == w.flight && w'.sys.sfed == w.sys.sfed && w'.sys.outbox == w.sys.outbox
    ensures Holds(w')
  {
    hide Whole, Marked, Tail, Events, Short, Unclaimed;
    assert Coming(w') == Coming(w);
    forall k | 0 <= k < |w.answers| ensures w'.sys.line[w.answers[k].request] == w.sys.line[w.answers[k].request] {
      assert w'.sys.line[..|w.sys.line|][w.answers[k].request] == w.sys.line[w.answers[k].request];
    }
    forall k | 0 <= k < |w.sys.outbox|
      ensures var r := w'.requests[w.answers[k].request];
        && w.sys.outbox[k].data == w.answers[k].data
        && (w.sys.outbox[k].to == Some(r.addr) <==> Unclaimed(w'.sys.smap[r.addr], r.frame))
    {
      var j := w.answers[k].request;
      assert w'.requests[..|w.requests|][j] == w'.requests[j] == w.requests[j];
      assert Stands(w.sys.smap, w.requests[j], w.sys.line[j]);
    }
  }

  lemma ClientKeeps(w: World, addr: Addr, inp: seq<byte>, w': World)
    requires Holds(w) && Next(w, Client(addr, inp)) == Some(w')
    ensures Holds(w')
  {
    ClientMarks(w, addr, inp, w');
    hide New, Fits, Marks, Echoes, Underway, Delivers;
    MoreRequests(w, w');
  }

  /** More bytes from the flight controller, which end between frames. */
  lemma MoreComing(w: World, bytes: seq<byte>, frames: seq<seq<byte>>, w': World)
    requires Underway(w) && w'.sys == w.sys && w'.flight == w.flight + bytes && |w.answers| <= |w'.answers|
    requires DataOf(w'.answers[|w.sys.outbox|..]) == DataOf(w.answers[|w.sys.outbox|..]) + frames
    requires Events(Chan(SERIAL), bytes) == frames && Tail(Chan(SERIAL), bytes) == [] && Short(SERIAL, bytes)
    ensures Underway(w')
  {
    hide Tail, Events, Short, Chan, Stable, DataOf;
    ChanIsStable(SERIAL);
    var x := Coming(w);
    ShortGrows(SERIAL, x, bytes);
    EventsContinue(Chan(SERIAL), x, bytes);
    assert [] + bytes == bytes;
    assert Coming(w') == x + bytes;
  }

  lemma ReplyKeeps(w: World, request: nat, dirn: byte, cmd: nat, payload: seq<byte>, w': World)
    requires Holds(w) && Enabled(w, Reply(request, dirn, cmd, payload))
    requires Next(w, Reply(request, dirn, cmd, payload)) == Some(w')
    ensures Holds(w')
  {
    hide Whole, Marked, Tail, Events, Short, Or, V2Frame, Unclaimed, Stands, Distinct, Underway;
    var n := |w.sys.outbox|;
    var data := V2Frame(dirn, w.sys.line[request][3], cmd, payload);
    FrameUnit(dirn, w.sys.line[request][3], cmd, payload);
    UnitEvents(SERIAL, data);
    SerialKeeps(data);
    UnitIsShort(SERIAL, data);
    assert DataOf(w'.answers[n..]) == DataOf(w.answers[n..]) + [data];
    MoreComing(w, data, [data], w');
  }

  lemma StaticKeeps(w: World, bytes: seq<byte>, w': World)
    requires Holds(w) && Enabled(w, Static(bytes)) && Next(w, Static(bytes)) == Some(w')
    ensures Holds(w')
  {
    hide Whole, Marked, Tail, Events, Short, Or, Unclaimed, Stands, Distinct, Underway;
    var n := |w.sys.outbox|;
    NoiseEvents(SERIAL, bytes);
    NoiseIsShort(SERIAL, bytes);
    assert DataOf(w.answers[n..]) + [] == DataOf(w.answers[n..]);
    MoreComing(w, bytes, [], w');
  }

  /** The id that a reply carries is the asker's exactly when the request left it unclaimed. */
  lemma IdReturns(owner: byte, frame: seq<byte>)
    requires Whole(frame) && owner < CLIENTS
    ensures var m := Marked(owner, frame); |m| > 3 && (m[3] / 4 == owner <==> Unclaimed(owner, frame))
  {
    hide Whole, Marked, Or;
    MarkedIsWhole(owner, frame);
    SerialKeeps(frame);
    MarkedFlags(frame[3], owner);
  }

  lemma ReadKeeps(w: World, n: nat)
    requires Holds(w) && Enabled(w, Read(n))
    ensures Next(w, Read(n)).Some? && Holds(Next(w, Read(n)).value)
  {
    hide New, Fits, Whole, Marked, Tail, Events, Short, Or, AddrFor, Routed, Unclaimed;
    ReadOn(SERIAL, w.sys.sfed, w.flight, n);
    var w' := Next(w, Read(n)).value;
    var m, m' := |w.sys.outbox|, |w'.sys.outbox|;
    var new' := New(SERIAL, w.sys.sfed, w.flight[..n]);
    var rest := Events(Chan(SERIAL), Coming(w'));
    assert new' + rest == DataOf(w.answers[m..]);
    assert m' == m + |new'|;
    assert rest == DataOf(w.answers[m'..]) by {
      assert (new' + rest)[|new'|..] == rest;
      assert w.answers[m..][|new'|..] == w.answers[m'..];
    }
    forall k | 0 <= k < m'
      ensures var r := w.requests[w.answers[k].request];
        && w'.sys.outbox[k].data == w.answers[k].data
        && (w'.sys.outbox[k].to == Some(r.addr) <==> Unclaimed(w.sys.smap[r.addr], r.frame))
    {
      if k < m {
        assert w'.sys.outbox[k] == w.sys.outbox[k];
      } else {
        assert new'[k - m] == (new' + rest)[k - m] == w.answers[m..][k - m].data == w.answers[k].data;
        Dispatched(w, k, new', k - m);
      }
    }
  }

  lemma Dispatched(w: World, k: nat, frames: seq<seq<byte>>, i: nat)
    requires Identified(w) && Marks(w) && Echoes(w) && k < |w.answers| && i < |frames| && frames[i] == w.answers[k].data
    ensures var r := w.requests[w.answers[k].request];
      && Routed(w.sys.smap, frames)[i].data == w.answers[k].data
      && (Routed(w.sys.smap, frames)[i].to == Some(r.addr) <==> Unclaimed(w.sys.smap[r.addr], r.frame))
  {
    hide Whole, Marked, Or, AddrFor, Routed, Unclaimed;
    var r := w.requests[w.answers[k].request];
    SerialKeeps(frames[i]);
    RoutedAt(w.sys.smap, frames, i);
    IdReturns(w.sys.smap[r.addr], r.frame);
    AddrForOwn(w.sys.smap, |w.sys.fed|, r.addr, frames[i][3] / 4);
  }

  // ---------- whole runs ----------

  ghost function Start(): World {
    World(Sys(map[], [], [], [], []), [], [], [])
  }

  /** The worlds in which the actions lead from the start while the multiplexer runs. */
  ghost predicate Reached(acts: seq<Action>, w: World)
    decreases |acts|
  {
    if acts == [] then w == Start()
    else exists v :: Reached(acts[..|acts| - 1], v) && Identified(v) && Enabled(v, acts[|acts| - 1])
                     && Next(v, acts[|acts| - 1]) == Some(w)
  }

  /** In every interleaving of the two loops, whatever the clients send and in whatever pieces the replies are read,
      each datagram to a client holds a whole reply, in order, and goes to the client that sent the request replied
      to exactly when that request's upper flag bits are among those of the client's id. */
  lemma {:induction false} RepliesReachAskers(acts: seq<Action>, w: World)
    requires Reached(acts, w)
    ensures Holds(w)
    decreases |acts|
  {
    hide Tail, Events, Short, Whole, Marked, Next;
    if acts == [] {
      StartHolds();
    } else {
      var a := acts[|acts| - 1];
      var v :| Reached(acts[..|acts| - 1], v) && Identified(v) && Enabled(v, a) && Next(v, a) == Some(w);
      RepliesReachAskers(acts[..|acts| - 1], v);
      match a
      case Client(addr, inp) => ClientKeeps(v, addr, inp, w);
      case Reply(request, dirn, cmd, payload) => ReplyKeeps(v, request, dirn, cmd, payload, w);
      case Static(bytes) => StaticKeeps(v, bytes, w);
      case Read(n) => ReadKeeps(v, n);
    }
  }

  lemma StartHolds()
    ensures Holds(Start())
  {
    var w := Start();
    assert Coming(w) == [];
    assert DataOf(w.answers[|w.sys.outbox|..]) == [];
  }

  /** Clients that set only the two low flag bits get every reply that has come in, whole and in order. */
  lemma LowFlagsAlwaysReturn(acts: seq<Action>, w: World)
    requires Reached(acts, w) && forall r | r in w.requests :: |r.frame| > 3 && r.frame[3] < 4
    ensures |w.sys.outbox| <= |w.answers| && (w.flight == [] ==> |w.sys.outbox| == |w.answers|)
    ensures forall k | 0 <= k < |w.sys.outbox| ::
      && w.answers[k].request < |w.requests|
      && w.sys.outbox[k] == Packet(Some(w.requests[w.answers[k].request].addr), w.answers[k].data)
  {
    RepliesReachAskers(acts, w);
    hide Short, Whole, Marked, Events, Tail, Or;
    if w.flight == [] {
      AllPassedOn(w);
    }
    forall k | 0 <= k < |w.sys.outbox|
      ensures w.answers[k].request < |w.requests|
        && w.sys.outbox[k] == Packet(Some(w.requests[w.answers[k].request].addr), w.answers[k].data)
    {
      var r := w.requests[w.answers[k].request];
      assert r in w.requests && r.frame[3] / 4 == 0;
      OrNothing(w.sys.smap[r.addr]);
    }
  }

  lemma AllPassedOn(w: World)
    requires Underway(w) && w.flight == []
    ensures |w.sys.outbox| == |w.answers|
  {
    var t := Tail(Chan(SERIAL), w.sys.sfed);
    assert Coming(w) == t;
    assert Events(Chan(SERIAL), t) == [];
  }

  /** A client that uses the upper flag bits can make its own reply go astray: with id 0, any of them does. */
  lemma UpperFlagsGoAstray(frame: seq<byte>)
    requires |frame| > 3 && frame[3] >= 4
    ensures !Unclaimed(0, frame)
  {
    OrSwaps(frame[3] / 4, 0);
    OrNothing(frame[3] / 4);
  }

  /** One more action. */
  lemma ReachedNext(acts: seq<Action>, v: World, a: Action, w: World)
    requires Reached(acts, v) && Identified(v) && Enabled(v, a) && Next(v, a) == Some(w)
    ensures Reached(acts + [a], w)
  {
    hide Next, Enabled, Identified;
    assert (acts + [a])[..|acts|] == acts;
  }

  /** The world in which client a has sent one frame and client b has sent nothing but is known. */
  ghost function TwoClients(a: Addr, b: Addr, frame: seq<byte>): World
    requires a != b
  {
    World(Sys(map[a := 0, b := 1], [frame, []], [], [frame], []), [Request(a, frame)], [], [])
  }

  /** A chunk that fits and holds just one frame. */
  lemma OneFrame(owner: byte, u: seq<byte>)
    requires Whole(u) && |u| <= SIZE
    ensures Fits(owner, [], u) && New(owner, [], u) == [Marked(owner, u)] && (owner == 0 || owner == SERIAL ==> Marked(owner, u) == u)
  {
    hide Whole, Events;
    UnitIsShort(owner, u);
    UnitEvents(owner, u);
    assert Tail(Chan(owner), []) == [] && [] + u == u;
    forall k | 0 <= k < |u| ensures |Tail(Chan(owner), [] + u[..k])| < SIZE {
      assert [] + u[..k] == u[..k];
    }
  }

  lemma NoFrame(owner: byte)
    ensures Fits(owner, [], []) && New(owner, [], []) == []
  {
    assert Tail(Chan(owner), []) == [] && Events(Chan(owner), []) == [];
  }

  ghost function OneClient(a: Addr, frame: seq<byte>): World {
    World(Sys(map[a := 0], [frame], [], [frame], []), [Request(a, frame)], [], [])
  }

  lemma FirstClient(a: Addr, frame: seq<byte>)
    requires Whole(frame) && |frame| <= SIZE
    ensures Identified(Start()) && Next(Start(), Client(a, frame)) == Some(OneClient(a, frame))
  {
    hide Whole, New, MplexChannel.Fits, Marked;
    OneFrame(0, frame);
    OneFrame(SERIAL, frame);
    var k := Known(Start().sys, a);
    var none: seq<byte> := [];
    assert k.smap == map[a := 0] && k.fed == [none] && none + frame == frame && k.fed[0 := frame] == [frame];
    assert k.line + [frame] == [frame];
    assert Asked(a, [frame]) == [Request(a, frame)];
    assert Start().requests + [Request(a, frame)] == [Request(a, frame)];
    assert Distinct(k.smap, 1);
  }

  lemma SecondClient(a: Addr, b: Addr, frame: seq<byte>)
    requires a != b
    ensures var v := OneClient(a, frame); Identified(v) && Next(v, Client(b, [])) == Some(TwoClients(a, b, frame))
  {
    hide New, MplexChannel.Fits;
    NoFrame(1);
    NoFrame(SERIAL);
    var v := OneClient(a, frame);
    var k := Known(v.sys, b);
    var none: seq<byte> := [];
    assert k.smap == map[a := 0, b := 1] && k.fed == [frame, none] && none + none == none && k.fed[1 := none] == k.fed;
    assert k.line + [] == k.line;
    assert Asked(b, []) == [] && v.requests + [] == v.requests;
    assert Distinct(k.smap, 2);
  }

  lemma TwoClientsReached(a: Addr, b: Addr, frame: seq<byte>)
    requires a != b && Whole(frame) && |frame| <= SIZE
    ensures Reached([Client(a, frame), Client(b, [])], TwoClients(a, b, frame))
  {
    hide Whole, Next, Identified, OneClient, TwoClients;
    FirstClient(a, frame);
    SecondClient(a, b, frame);
    assert Reached([], Start());
    ReachedNext([], Start(), Client(a, frame), OneClient(a, frame));
    assert [] + [Client(a, frame)] == [Client(a, frame)];
    ReachedNext([Client(a, frame)], OneClient(a, frame), Client(b, []), TwoClients(a, b, frame));
    assert [Client(a, frame)] + [Client(b, [])] == [Client(a, frame), Client(b, [])];
  }

  /** The same world with the reply on its way, and with the reply sent on. */
  ghost function Replied(a: Addr, b: Addr, frame: seq<byte>, data: seq<byte>): World
    requires a != b
  {
    TwoClients(a, b, frame).(answers := [Answer(0, data)], flight := data)
  }

  ghost function SentOn(a: Addr, b: Addr, frame: seq<byte>, data: seq<byte>, to: Option<Addr>): World
    requires a != b
  {
    var v := Replied(a, b, frame, data);
    v.(sys := v.sys.(sfed := data, outbox := [Packet(to, data)]), flight := [])
  }

  lemma ReplyArrives(a: Addr, b: Addr, frame: seq<byte>, cmd: nat, reply: seq<byte>)
    requires a != b && |frame| > 3 && cmd < 0x1_0000 && |reply| <= LARGEST
    ensures var v := TwoClients(a, b, frame);
      && Identified(v) && Enabled(v, Reply(0, GREATER, cmd, reply))
      && Next(v, Reply(0, GREATER, cmd, reply)) == Some(Replied(a, b, frame, V2Frame(GREATER, frame[3], cmd, reply)))
  {
    hide V2Frame;
    var data := V2Frame(GREATER, frame[3], cmd, reply);
    assert [] + [Answer(0, data)] == [Answer(0, data)] && [] + data == data;
  }

  lemma ReplyIsRead(a: Addr, b: Addr, frame: seq<byte>, data: seq<byte>)
    requires a != b && Whole(data) && |data| <= SIZE
    ensures |data| > 3 && var id := data[3] / 4;
      var to := if id == 0 then Some(a) else if id == 1 then Some(b) else None;
      var v := Replied(a, b, frame, data);
      Identified(v) && Enabled(v, Read(|data|)) && Next(v, Read(|data|)) == Some(SentOn(a, b, frame, data, to))
  {
    hide Whole, New, MplexChannel.Fits, Marked, Routed, AddrFor;
    SerialKeeps(data);
    OneFrame(SERIAL, data);
    OnePacket(map[a := 0, b := 1], data);
    ToWhom(a, b, data[3] / 4);
    assert data[..|data|] == data && data[|data|..] == [] && [] + data == data;
    var to := AddrFor(map[a := 0, b := 1], data[3] / 4);
    assert [] + [Packet(to, data)] == [Packet(to, data)];
  }

  /** Whatever its flag byte, a request of the first client and a reply to it make a run; the reply goes to that client if
      and only if the flags are below 4, to the second client if they name its id, and otherwise to nobody. */
  lemma FlagsDecide(a: Addr, b: Addr, flags: byte, cmd: nat, payload: seq<byte>, reply: seq<byte>) returns (acts: seq<Action>, w: World)
    requires a != b && cmd < 0x1_0000 && |payload| <= LARGEST && |reply| <= LARGEST
    ensures Reached(acts, w) && w.requests == [Request(a, V2Frame(LESS, flags, cmd, payload))] && |w.sys.outbox| == 1
    ensures w.sys.outbox[0] == Packet(if flags / 4 == 0 then Some(a) else if flags / 4 == 1 then Some(b) else None,
                                      V2Frame(GREATER, flags, cmd, reply))
  {
    hide Whole, V2Frame, Reached, Next, Enabled, Identified, TwoClients, Replied;
    var frame, data := V2Frame(LESS, flags, cmd, payload), V2Frame(GREATER, flags, cmd, reply);
    FrameUnit(LESS, flags, cmd, payload);
    FrameUnit(GREATER, flags, cmd, reply);
    TwoClientsReached(a, b, frame);
    ReplyArrives(a, b, frame, cmd, reply);
    ReplyIsRead(a, b, frame, data);
    var acts2, v, v' := [Client(a, frame), Client(b, [])], TwoClients(a, b, frame), Replied(a, b, frame, data);
    w := SentOn(a, b, frame, data, if flags / 4 == 0 then Some(a) else if flags / 4 == 1 then Some(b) else None);
    ReachedNext(acts2, v, Reply(0, GREATER, cmd, reply), v');
    ReachedNext(acts2 + [Reply(0, GREATER, cmd, reply)], v', Read(|data|), w);
    acts := acts2 + [Reply(0, GREATER, cmd, reply)] + [Read(|data|)];
    Requested(a, b, frame, data);
  }

  lemma Requested(a: Addr, b: Addr, frame: seq<byte>, data: seq<byte>)
    requires a != b
    ensures Replied(a, b, frame, data).requests == [Request(a, frame)]
  {
  }

  lemma OnePacket(smap: map<Addr, byte>, data: seq<byte>)
    requires |data| > 3
    ensures Routed(smap, [data]) == [Packet(AddrFor(smap, data[3] / 4), data)]
  {
    assert [data][..0] == [] && Routed(smap, []) == [];
  }

  lemma ToWhom(a: Addr, b: Addr, id: byte)
    requires a != b
    ensures AddrFor(map[a := 0, b := 1], id) == if id == 0 then Some(a) else if id == 1 then Some(b) else None
  {
    var smap: map<Addr, byte> := map[a := 0, b := 1];
    assert smap[a] == 0 && smap[b] == 1;
  }

  // ---------- the line, and clients that keep to the buffer ----------

  function Joined(frames: seq<seq<byte>>): seq<byte> {
    if frames == [] then [] else frames[0] + Joined(frames[1..])
  }

  /** The serial line carries whole frames with valid checksums and nothing else: read from the start, it yields
      exactly the frames that were written. */
  lemma LineIsWholeFrames(acts: seq<Action>, w: World)
    requires Reached(acts, w)
    ensures forall j | 0 <= j < |w.sys.line| :: Whole(w.sys.line[j])
    ensures Events(Chan(SERIAL), Joined(w.sys.line)) == w.sys.line && Tail(Chan(SERIAL), Joined(w.sys.line)) == []
  {
    hide Whole, Marked, Events, Tail, Short;
    RepliesReachAskers(acts, w);
    forall j | 0 <= j < |w.sys.line| ensures Whole(w.sys.line[j]) {
      MarkedIsWhole(w.sys.smap[w.requests[j].addr], w.requests[j].frame);
    }
    JoinedReads(w.sys.line);
  }

  lemma {:induction false} JoinedReads(frames: seq<seq<byte>>)
    requires forall j | 0 <= j < |frames| :: Whole(frames[j])
    ensures Events(Chan(SERIAL), Joined(frames)) == frames && Tail(Chan(SERIAL), Joined(frames)) == []
  {
    hide Whole, Marked, Need;
    if frames != [] {
      JoinedReads(frames[1..]);
      ChanIsStable(SERIAL);
      WholeIsUnit(SERIAL, frames[0]);
      SerialKeeps(frames[0]);
      UnitFirst(Chan(SERIAL), frames[0], Joined(frames[1..]));
      assert frames == [frames[0]] + frames[1..];
    }
  }

  /** The frames of a client that only sends frames that fit the buffer, with any noise between them. */
  predicate Fitting(p: Piece) {
    p.MspV2? ==> |p.payload| <= LARGEST
  }

  lemma {:induction false} FittingIsShort(owner: byte, ps: seq<Piece>)
    requires forall p | p in ps :: Sendable(Plex, p) && Fitting(p)
    ensures Short(owner, Wire(Plex, ps)) && Tail(Chan(owner), Wire(Plex, ps)) == []
    decreases |ps|
  {
    hide Tail, Short, Whole;
    if ps == [] {
      NoiseEvents(owner, []);
      NoiseIsShort(owner, []);
    } else {
      FittingIsShort(owner, ps[1..]);
      var u, rest := BytesOf(Plex, ps[0]), Wire(Plex, ps[1..]);
      if ps[0].Noise? {
        NoiseEvents(owner, u);
        NoiseIsShort(owner, u);
      } else {
        FrameUnit(ps[0].dirn, ps[0].flags, ps[0].cmd, ps[0].payload);
        UnitEvents(owner, u);
        UnitIsShort(owner, u);
      }
      ShortGrows(owner, u, rest);
      ChanIsStable(owner);
      EventsContinue(Chan(owner), u, rest);
      assert [] + rest == rest;
    }
  }

  /** Such a client, cutting its stream into datagrams as it likes, never stops the multiplexer, as long as it is not
      one too many. */
  lemma FittingNeverStops(sys: Sys, addr: Addr, inp: seq<byte>, ps: seq<Piece>, rest: seq<byte>)
    requires |sys.fed| <= CLIENTS && Distinct(sys.smap, |sys.fed|)
    requires |Known(sys, addr).fed| <= CLIENTS && forall p | p in ps :: Sendable(Plex, p) && Fitting(p)
    requires var k := Known(sys, addr); k.fed[k.smap[addr]] + inp + rest == Wire(Plex, ps)
    ensures FromClient(sys, addr, inp).Some?
  {
    hide Tail, Wire;
    var k := Known(sys, addr);
    var owner := k.smap[addr];
    var fed := k.fed[owner];
    var all := Wire(Plex, ps);
    FittingIsShort(owner, ps);
    forall i | 0 <= i < |inp| ensures |Tail(Chan(owner), fed + inp[..i])| < SIZE {
      assert all[..|fed| + i] == fed + inp[..i];
    }
  }

  // ---------- runs of clients that keep to the buffer ----------

  /** All that a client has sent. */
  function SentBy(acts: seq<Action>, addr: Addr): seq<byte> {
    if acts == [] then []
    else
      var a := acts[|acts| - 1];
      SentBy(acts[..|acts| - 1], addr) + if a.Client? && a.addr == addr then a.inp else []
  }

  lemma SentByGrows(acts: seq<Action>, a: Action, addr: Addr)
    ensures SentBy(acts + [a], addr) == SentBy(acts, addr) + if a.Client? && a.addr == addr then a.inp else []
  {
    assert (acts + [a])[..|acts|] == acts;
  }

  /** At most 63 clients, each sending a part of a stream of frames that fit, cut into datagrams at will. */
  ghost predicate Planned(plans: map<Addr, seq<Piece>>, acts: seq<Action>) {
    && |plans| <= CLIENTS
    && (forall c | c in plans :: forall p | p in plans[c] :: Sendable(Plex, p) && Fitting(p))
    && (forall i | 0 <= i < |acts| && acts[i].Client? :: acts[i].addr in plans)
    && (forall c | c in plans :: SentBy(acts, c) <= Wire(Plex, plans[c]))
  }

  /** What a client's channel has been fed. */
  ghost function FedBy(sys: Sys, addr: Addr): seq<byte> {
    if addr in sys.smap && sys.smap[addr] < |sys.fed| then sys.fed[sys.smap[addr]] else []
  }

  /** There is a channel for each known client, and each has been fed what its client has sent. */
  ghost predicate Listens(plans: map<Addr, seq<Piece>>, acts: seq<Action>, w: World) {
    && w.sys.smap.Keys <= plans.Keys && |w.sys.smap| == |w.sys.fed|
    && forall c :: FedBy(w.sys, c) == SentBy(acts, c)
  }

  /** What a datagram adds to the channels. */
  lemma ClientFeeds(v: World, addr: Addr, inp: seq<byte>, w: World, c: Addr)
    requires Identified(v) && Next(v, Client(addr, inp)) == Some(w)
    ensures FedBy(w.sys, c) == FedBy(v.sys, c) + if c == addr then inp else []
  {
    hide New, MplexChannel.Fits;
  }

  lemma ClientJoins(sys: Sys, addr: Addr)
    requires |sys.smap| == |sys.fed| <= CLIENTS
    ensures var k := Known(sys, addr); |k.smap| == |k.fed| && k.smap.Keys == sys.smap.Keys + {addr}
  {
    var k := Known(sys, addr);
    assert k.smap.Keys == sys.smap.Keys + {addr};
    assert |k.smap.Keys| == |k.fed|;
  }

  lemma ClientListens(plans: map<Addr, seq<Piece>>, acts: seq<Action>, v: World, addr: Addr, inp: seq<byte>, w: World)
    requires Identified(v) && Listens(plans, acts, v) && Next(v, Client(addr, inp)) == Some(w) && addr in plans
    ensures Listens(plans, acts + [Client(addr, inp)], w)
  {
    hide New, MplexChannel.Fits, SentBy, FedBy;
    ClientJoins(v.sys, addr);
    forall c ensures FedBy(w.sys, c) == SentBy(acts + [Client(addr, inp)], c) {
      SentByGrows(acts, Client(addr, inp), c);
      ClientFeeds(v, addr, inp, w, c);
    }
  }

  lemma OthersListen(plans: map<Addr, seq<Piece>>, acts: seq<Action>, v: World, a: Action, w: World)
    requires Identified(v) && Listens(plans, acts, v) && !a.Client? && Enabled(v, a) && Next(v, a) == Some(w)
    ensures Listens(plans, acts + [a], w)
  {
    hide New, SentBy, MplexChannel.Fits, Routed;
    forall c ensures SentBy(acts + [a], c) == SentBy(acts, c) {
      SentByGrows(acts, a, c);
    }
  }

  lemma {:induction false} AlwaysListens(plans: map<Addr, seq<Piece>>, acts: seq<Action>, w: World)
    requires Reached(acts, w) && forall i | 0 <= i < |acts| && acts[i].Client? :: acts[i].addr in plans
    ensures Listens(plans, acts, w)
    decreases |acts|
  {
    hide Next, SentBy, Listens, Start;
    if acts == [] {
      StartListens(plans);
    } else {
      var n := |acts| - 1;
      var a := acts[n];
      var v :| Reached(acts[..n], v) && Identified(v) && Enabled(v, a) && Next(v, a) == Some(w);
      AlwaysListens(plans, acts[..n], v);
      assert acts[..n] + [a] == acts;
      if a.Client? {
        ClientListens(plans, acts[..n], v, a.addr, a.inp, w);
      } else {
        OthersListen(plans, acts[..n], v, a, w);
      }
    }
  }

  lemma StartListens(plans: map<Addr, seq<Piece>>)
    ensures Listens(plans, [], Start())
  {
  }

  lemma {:induction false} FewerKeys(a: set<Addr>, b: set<Addr>)
    requires a <= b
    ensures |a| <= |b|
  {
    if a != {} {
      var x :| x in a;
      FewerKeys(a - {x}, b - {x});
    }
  }

  /** No run of such clients ever stops the multiplexer: at every point every action that can happen has an outcome. */
  lemma FittingRunsNeverStop(plans: map<Addr, seq<Piece>>, acts: seq<Action>, w: World, a: Action)
    requires Reached(acts, w) && Enabled(w, a) && Planned(plans, acts + [a])
    ensures Identified(w) && Next(w, a).Some?
  {
    hide Next, SentBy, Wire, Marks, Echoes, Underway, Delivers;
    RepliesReachAskers(acts, w);
    forall i | 0 <= i < |acts| && acts[i].Client? ensures acts[i].addr in plans {
      assert (acts + [a])[i] == acts[i];
    }
    AlwaysListens(plans, acts, w);
    match a
    case Client(addr, inp) =>
      assert (acts + [a])[|acts|] == a;
      ClientGoesOn(plans, acts, w, addr, inp);
    case Reply(_, _, _, _) => AnswerGoesOn(w, a);
    case Static(_) => AnswerGoesOn(w, a);
    case Read(n) => ReadKeeps(w, n);
  }

  lemma AnswerGoesOn(w: World, a: Action)
    requires Identified(w) && Enabled(w, a) && (a.Reply? || a.Static?)
    ensures Next(w, a).Some?
  {
  }

  lemma ClientGoesOn(plans: map<Addr, seq<Piece>>, acts: seq<Action>, w: World, addr: Addr, inp: seq<byte>)
    requires Identified(w) && Listens(plans, acts, w) && Planned(plans, acts + [Client(addr, inp)]) && addr in plans
    ensures Next(w, Client(addr, inp)).Some?
  {
    hide SentBy, Wire, FromClient, Fitting, Sendable;
    SentByGrows(acts, Client(addr, inp), addr);
    ClientJoins(w.sys, addr);
    var k := Known(w.sys, addr);
    FewerKeys(k.smap.Keys, plans.Keys);
    var sent, all := SentBy(acts + [Client(addr, inp)], addr), Wire(Plex, plans[addr]);
    assert k.fed[k.smap[addr]] == FedBy(w.sys, addr);
    FittingNeverStops(w.sys, addr, inp, plans[addr], all[|sent|..]);
  }
}
