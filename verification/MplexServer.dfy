/** The multiplexer's two loops: datagrams from clients on one side, the serial line on the other. */
module MplexServer {
  import opened Framing
  import opened MplexChannel
  import opened MplexFrames
  import opened Options

  type Addr = string

  /** A datagram to a client; None when no client has the frame's id. */
  datatype Packet = Packet(to: Option<Addr>, data: seq<byte>)

  /** The ids of the known clients, what each has sent, what the serial line has brought, the frames written to the
      line, and the datagrams sent to clients. */
  datatype Sys = Sys(smap: map<Addr, byte>, fed: seq<seq<byte>>, sfed: seq<byte>, line: seq<seq<byte>>, outbox: seq<Packet>)

  const CLIENTS: nat := 63

  /** Every client has an id of its own. */
  ghost predicate Distinct(smap: map<Addr, byte>, n: nat) {
    && (forall a | a in smap :: smap[a] < n)
    && (forall a, b | a in smap && b in smap && smap[a] == smap[b] :: a == b)
  }

  /** The client with this id. */
  ghost function AddrFor(smap: map<Addr, byte>, id: byte): Option<Addr> {
    if exists a :: a in smap && smap[a] == id then
      var a :| a in smap && smap[a] == id;
      Some(a)
    else None
  }

  lemma AddrForOwn(smap: map<Addr, byte>, n: nat, a: Addr, id: byte)
    requires Distinct(smap, n) && a in smap
    ensures AddrFor(smap, id) == Some(a) <==> smap[a] == id
  {
  }

  /** Knowing a client, new or not. */
  ghost function Known(sys: Sys, addr: Addr): (r: Sys)
    requires |sys.fed| <= CLIENTS
    ensures addr in r.smap
  {
    if addr in sys.smap then sys else sys.(smap := sys.smap[addr := |sys.fed|], fed := sys.fed + [[]])
  }

  /** A datagram from a client. None: the program stops, for a client too many or a frame too long. */
  ghost function FromClient(sys: Sys, addr: Addr, inp: seq<byte>): Option<Sys>
    requires |sys.fed| <= CLIENTS && Distinct(sys.smap, |sys.fed|)
  {
    var sys := Known(sys, addr);
    var owner := sys.smap[addr];
    if |sys.fed| > CLIENTS || !Fits(owner, sys.fed[owner], inp) then None
    else Some(sys.(fed := sys.fed[owner := sys.fed[owner] + inp], line := sys.line + New(owner, sys.fed[owner], inp)))
  }

  /** Frames from the line, each sent to the client whose id its flags hold. */
  ghost function Routed(smap: map<Addr, byte>, frames: seq<seq<byte>>): (r: seq<Packet>)
    ensures |r| == |frames|
  {
    if frames == [] then []
    else
      var e := frames[|frames| - 1];
      Routed(smap, frames[..|frames| - 1]) + [Packet(if |e| > 3 then AddrFor(smap, e[3] / 4) else None, e)]
  }

  lemma RoutedNone(smap: map<Addr, byte>)
    ensures Routed(smap, []) == []
  {
  }

  lemma RoutedGrows(smap: map<Addr, byte>, frames: seq<seq<byte>>, e: seq<byte>)
    requires |e| > 3
    ensures Routed(smap, frames + [e]) == Routed(smap, frames) + [Packet(AddrFor(smap, e[3] / 4), e)]
  {
    assert (frames + [e])[..|frames|] == frames;
  }

  lemma {:induction false} RoutedAt(smap: map<Addr, byte>, frames: seq<seq<byte>>, k: nat)
    requires k < |frames| && |frames[k]| > 3
    ensures Routed(smap, frames)[k] == Packet(AddrFor(smap, frames[k][3] / 4), frames[k])
  {
    if k < |frames| - 1 {
      RoutedAt(smap, frames[..|frames| - 1], k);
    }
  }

  /** A chunk from the serial line. */
  ghost function FromSerial(sys: Sys, inp: seq<byte>): Option<Sys> {
    if !Fits(SERIAL, sys.sfed, inp) then None
    else Some(sys.(sfed := sys.sfed + inp, outbox := sys.outbox + Routed(sys.smap, New(SERIAL, sys.sfed, inp))))
  }

  class Server {
    var smap: map<Addr, byte>
    var sclist: seq<SChan>
    const serial: SChan
    var line: seq<seq<byte>>
    var outbox: seq<Packet>
    // the whole state as a value
    ghost var sys: Sys

    constructor ()
      ensures Valid() && fresh(serial) && fresh(serial.buf) && sclist == [] && sys == Sys(map[], [], [], [], [])
    {
      serial := new SChan(SERIAL);
      smap, sclist, line, outbox := map[], [], [], [];
      sys := Sys(map[], [], [], [], []);
    }

    /** Channel c, which is not its own, reads what its client has sent. */
    ghost predicate Reads(c: SChan, owner: byte, fed: seq<byte>)
      reads c, c.buf
    {
      c.Followed() && c.owner == owner && c.fed == fed
    }

    ghost predicate Apart()
      reads this
    {
      && (forall i, j | 0 <= i < j < |sclist| :: sclist[i] != sclist[j] && sclist[i].buf != sclist[j].buf)
      && (forall i | 0 <= i < |sclist| :: sclist[i] != serial && sclist[i].buf != serial.buf)
    }

    ghost predicate Linked()
      reads this, serial, serial.buf, sclist, set c | c in sclist :: c.buf
    {
      && smap == sys.smap && line == sys.line && outbox == sys.outbox
      && Distinct(smap, |sclist|) && Apart() && AllRead(sys.fed) && Reads(serial, SERIAL, sys.sfed)
    }

    ghost predicate Valid()
      reads this, serial, serial.buf, sclist, set c | c in sclist :: c.buf
    {
      Linked() && |sclist| <= CLIENTS
    }

    /** One turn of the loop over datagrams. */
    method Datagram(addr: Addr, inp: seq<byte>) returns (stopped: bool)
      requires Valid()
      modifies this, sclist, set c | c in sclist :: c.buf
      ensures stopped <==> FromClient(old(sys), addr, inp) == None
      ensures !stopped ==> Valid() && Some(sys) == FromClient(old(sys), addr, inp)
    {
      hide Fits, New, AddrFor;
      if addr !in smap {
        Allocate(addr);
        if |sclist| > CLIENTS {
          return true;
        }
      }
      stopped := Pass(smap[addr], inp);
    }

    /** Gives a new client the next id and a channel of its own. */
    method Allocate(addr: Addr)
      requires Valid() && addr !in smap
      modifies this
      ensures Linked() && sys == Known(old(sys), addr) && addr in smap
      ensures |sclist| == |old(sclist)| + 1 && sclist[..|old(sclist)|] == old(sclist)
      ensures fresh(sclist[|old(sclist)|]) && fresh(sclist[|old(sclist)|].buf)
    {
      hide SChan.Followed;
      var owner := |sclist|;
      var c := new SChan(owner);
      smap := smap[addr := owner];
      sclist := sclist + [c];
      sys := Known(sys, addr);
    }

    /** Every channel has read these bytes. */
    ghost predicate AllRead(fed: seq<seq<byte>>)
      reads this, sclist, set c | c in sclist :: c.buf
    {
      |fed| == |sclist| <= 0x100 && forall i | 0 <= i < |sclist| :: Reads(sclist[i], i, fed[i])
    }

    /** Lets a client's channel read a datagram. */
    method Read(owner: byte, inp: seq<byte>, ghost fed: seq<seq<byte>>) returns (stopped: bool)
      requires Apart() && owner < |sclist| && AllRead(fed)
      modifies sclist[owner], sclist[owner].buf
      ensures stopped <==> !Fits(owner, fed[owner], inp)
      ensures !stopped ==> AllRead(fed[owner := fed[owner] + inp])
      ensures !stopped ==> var c := sclist[owner];
        |c.out| >= |old(c.out)| && c.out[|old(c.out)|..] == New(owner, fed[owner], inp)
    {
      hide Fits, New, SChan.Followed;
      var c := sclist[owner];
      assert Reads(c, owner, fed[owner]);
      stopped := c.MspParse(inp);
      if !stopped {
        forall i | 0 <= i < |sclist| ensures Reads(sclist[i], i, fed[owner := fed[owner] + inp][i]) {
          assert old(Reads(sclist[i], i, fed[i]));
        }
      }
    }

    /** Passes a client's datagram on: what its channel makes of it is written to the line. */
    method Pass(owner: byte, inp: seq<byte>) returns (stopped: bool)
      requires Valid() && owner < |sclist|
      modifies `line, `sys, sclist[owner], sclist[owner].buf
      ensures stopped <==> !Fits(owner, old(sys.fed[owner]), inp)
      ensures !stopped ==> Valid() && sys == old(sys).(fed := old(sys).fed[owner := old(sys).fed[owner] + inp],
                                                       line := old(sys).line + New(owner, old(sys).fed[owner], inp))
    {
      hide Fits, New, Reads;
      var n := |sclist[owner].out|;
      stopped := Read(owner, inp, sys.fed);
      if !stopped {
        line := line + sclist[owner].out[n..];
        sys := sys.(fed := sys.fed[owner := sys.fed[owner] + inp], line := sys.line + New(owner, sys.fed[owner], inp));
      }
    }

    /** The client with this id, by the source's loop over the map. */
    method AddrForId(id: byte) returns (r: Option<Addr>)
      requires Distinct(smap, |sclist|)
      ensures r == AddrFor(smap, id)
    {
      var keys := smap.Keys;
      r := None;
      while keys != {}
        invariant keys <= smap.Keys
        invariant forall a | a in smap && smap[a] == id :: a in keys
        decreases |keys|
      {
        var k :| k in keys;
        if smap[k] == id {
          return Some(k);
        }
        keys := keys - {k};
      }
    }

    /** One turn of the loop over the serial line. */
    method SerialRead(inp: seq<byte>) returns (stopped: bool)
      requires Valid()
      modifies `outbox, `sys, serial, serial.buf
      ensures stopped <==> FromSerial(old(sys), inp) == None
      ensures !stopped ==> Valid() && Some(sys) == FromSerial(old(sys), inp)
    {
      hide Fits, New, SChan.Followed, AddrFor, Routed, Whole;
      var n := |serial.out|;
      assert Reads(serial, SERIAL, sys.sfed);
      stopped := serial.MspParse(inp);
      if !stopped {
        ghost var fed := sys.sfed;
        NewAreWhole(SERIAL, fed, inp);
        sys := sys.(sfed := fed + inp, outbox := sys.outbox + Routed(smap, New(SERIAL, fed, inp)));
        Route(serial.out[n..]);
      }
    }

    /** Sends each frame to the client its flags name. */
    method Route(frames: seq<seq<byte>>)
      requires Distinct(smap, |sclist|) && forall e | e in frames :: Whole(e)
      modifies `outbox
      ensures outbox == old(outbox) + Routed(smap, frames)
    {
      hide AddrFor, Routed;
      assert Routed(smap, frames[..0]) == [] by { RoutedNone(smap); }
      for i := 0 to |frames|
        invariant outbox == old(outbox) + Routed(smap, frames[..i])
      {
        assert frames[i] in frames;
        var to := AddrForId(frames[i][3] / 4);
        RoutedGrows(smap, frames[..i], frames[i]);
        assert frames[..i] + [frames[i]] == frames[..i + 1];
        outbox := outbox + [Packet(to, frames[i])];
      }
      assert frames[..|frames|] == frames;
    }
  }
}
