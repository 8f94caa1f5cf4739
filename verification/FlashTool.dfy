/** The flash downloader's message loop: one reply handled, one request sent. */
module FlashTool {
  import opened Framing
  import opened Options

  type uint16 = x: int | 0 <= x < 0x1_0000
  type uint32 = x: int | 0 <= x < 0x1_0000_0000

  const API_VERSION: uint16 := 1
  const FC_VARIANT: uint16 := 2
  const FC_VERSION: uint16 := 3
  const DATAFLASH_SUMMARY: uint16 := 70
  const DATAFLASH_READ: uint16 := 71
  const DATAFLASH_ERASE: uint16 := 72
  const BLACKBOX_CONFIGv2: uint16 := 0x201a
  const QUIT: uint16 := 0x7fff

  /** "INAV". */
  const INAV: seq<byte> := [0x49, 0x4e, 0x41, 0x56]

  /** A message from the flight controller; data may be left over from an earlier one when len is zero. */
  datatype Message = Message(cmd: uint16, len: uint16, data: seq<byte>)

  datatype Command =
    | AskApi | AskVariant | AskVersion | AskConfig | AskSummary | Erase
    | AskRead(addr: uint32, needed: uint16)

  datatype File = Absent | Open(bytes: seq<byte>) | Closed(bytes: seq<byte>)

  /** The command line: -erase, -only-erase, -info, -test and the read size. */
  datatype Flags = Flags(erase: bool, xerase: bool, info: bool, test: bool, defio: uint32)

  datatype Session = Session(done: bool, echeck: bool, fsize: uint32, used: uint32, bread: uint32, file: File,
                             sent: seq<Command>)

  /** The read size in use for a size given on the command line: a positive number of whole kilobytes. */
  function ReadSize(size: int): (d: uint32)
    ensures d > 0 && d % 1024 == 0
    ensures 1024 <= size < 0x1_0000_0000 ==> size - 1024 < d <= size
  {
    var d := size % 0x1_0000_0000 / 1024 * 1024;
    if d == 0 then 4096 else d
  }

  function Uint16(x: nat): uint16 {
    x % 0x1_0000
  }

  function Num32(s: seq<byte>, i: nat): uint32
    requires i + 4 <= |s|
  {
    s[i] + 0x100 * s[i + 1] as int + 0x1_0000 * s[i + 2] as int + 0x100_0000 * s[i + 3] as int
  }

  /** The bytes asked for next when rem remain. */
  function Wanted(rem: nat, defio: uint32): uint16 {
    Uint16(if rem > defio then defio else rem)
  }

  function Ended(s: Session): Session {
    s.(done := true)
  }

  function Asking(s: Session, c: Command): Session {
    s.(sent := s.sent + [c])
  }

  /** The first summary: the size of the download, the file, the first request. */
  function Begun(o: Flags, s: Session, v: Message, opens: bool): Session
    requires |v.data| >= 13
  {
    var fsize := Num32(v.data, 5);
    var used := if o.test then fsize else Num32(v.data, 9);
    var s := s.(fsize := fsize, used := used);
    if used == 0 || o.info || !opens then Ended(s)
    else Asking(s.(file := Open([])), AskRead(0, Wanted(used, o.defio)))
  }

  function Written(f: File, bytes: seq<byte>): File {
    if f.Open? then Open(f.bytes + bytes) else f
  }

  function Shut(f: File): File {
    if f.Open? then Closed(f.bytes) else f
  }

  /** A piece of the flash. */
  function Gained(o: Flags, s: Session, v: Message): Session
    requires 4 <= v.len <= |v.data|
  {
    var s := s.(file := Written(s.file, v.data[4..v.len]), bread := (s.bread + v.len - 4) % 0x1_0000_0000);
    var rem := (s.used - s.bread) % 0x1_0000_0000;
    if rem > 0 then Asking(s, AskRead(s.bread, Wanted(rem, o.defio)))
    else
      var s := s.(file := Shut(s.file));
      if o.erase then Asking(s, Erase) else Ended(s)
  }

  /** The loop's answer to one message; None where the program panics. `opens` tells whether the file can be created. */
  function Next(o: Flags, s: Session, v: Message, opens: bool): Option<Session> {
    if v.cmd == QUIT then Some(Ended(s))
    else if v.cmd == API_VERSION then
      if |v.data| < 3 then None
      else if 0x100 * v.data[1] as int + v.data[2] < 0x200 then Some(Ended(s)) else Some(Asking(s, AskVariant))
    else if v.cmd == FC_VARIANT then
      if |v.data| < 4 then None
      else if v.data[..4] == INAV then Some(Asking(s, AskVersion)) else Some(Ended(s))
    else if v.cmd == FC_VERSION then
      if |v.data| < 3 then None else Some(Asking(s, AskConfig))
    else if v.cmd == BLACKBOX_CONFIGv2 then
      if |v.data| < 1 || (v.data[0] == 1 && |v.data| < 2) then None
      else if v.data[0] == 1 && v.data[1] == 1 then Some(Asking(s, if o.xerase then Erase else AskSummary))
      else Some(Ended(s))
    else if v.cmd == DATAFLASH_SUMMARY then
      if |v.data| < 1 then None
      else if s.echeck then Some(if v.data[0] == 1 then Ended(s) else Asking(s, AskSummary))
      else if |v.data| < 13 || Num32(v.data, 5) == 0 then None
      else Some(Begun(o, s, v, opens))
    else if v.cmd == DATAFLASH_READ then
      if v.len < 4 || |v.data| < v.len then None else Some(Gained(o, s, v))
    else if v.cmd == DATAFLASH_ERASE then Some(Asking(s.(echeck := true), AskSummary))
    else Some(s)
  }

  class Tool {
    const o: Flags
    var done: bool
    var echeck: bool
    var fsize: uint32
    var used: uint32
    var bread: uint32
    var wrfh: File
    // the requests sent to the flight controller, as records
    var sent: seq<Command>

    constructor (o: Flags)
      ensures this.o == o && State() == Session(false, false, 0, 0, 0, Absent, [AskApi])
    {
      this.o := o;
      done, echeck, fsize, used, bread, wrfh := false, false, 0, 0, 0, Absent;
      sent := [AskApi];
    }

    function State(): Session
      reads this
    {
      Session(done, echeck, fsize, used, bread, wrfh, sent)
    }

    method Send(c: Command)
      modifies `sent
      ensures sent == old(sent) + [c]
    {
      sent := sent + [c];
    }

    /** The switch of the source's loop. */
    method Handle(v: Message, opens: bool) returns (panicked: bool)
      modifies this
      ensures panicked <==> Next(o, old(State()), v, opens) == None
      ensures !panicked ==> Some(State()) == Next(o, old(State()), v, opens)
    {
      panicked := false;
      if v.cmd == QUIT {
        done := true;
      } else if v.cmd == API_VERSION {
        if |v.data| < 3 {
          return true;
        }
        var api := 0x100 * v.data[1] as int + v.data[2];
        if api < 0x200 {
          done := true;
        } else {
          Send(AskVariant);
        }
      } else if v.cmd == FC_VARIANT {
        if |v.data| < 4 {
          return true;
        }
        if v.data[..4] == INAV {
          Send(AskVersion);
        } else {
          done := true;
        }
      } else if v.cmd == FC_VERSION {
        if |v.data| < 3 {
          return true;
        }
        Send(AskConfig);
      } else if v.cmd == BLACKBOX_CONFIGv2 {
        if |v.data| < 1 || (v.data[0] == 1 && |v.data| < 2) {
          return true;
        }
        if v.data[0] == 1 && v.data[1] == 1 {
          if o.xerase {
            Send(Erase);
          } else {
            Send(AskSummary);
          }
        } else {
          done := true;
        }
      } else if v.cmd == DATAFLASH_SUMMARY {
        panicked := Summary(v, opens);
      } else if v.cmd == DATAFLASH_READ {
        panicked := Read(v);
      } else if v.cmd == DATAFLASH_ERASE {
        echeck := true;
        Send(AskSummary);
      }
    }

    method Summary(v: Message, opens: bool) returns (panicked: bool)
      requires v.cmd == DATAFLASH_SUMMARY
      modifies this
      ensures panicked <==> Next(o, old(State()), v, opens) == None
      ensures !panicked ==> Some(State()) == Next(o, old(State()), v, opens)
    {
      panicked := false;
      if |v.data| < 1 {
        return true;
      }
      var isready := v.data[0];
      if echeck {
        if isready == 1 {
          done := true;
        } else {
          Send(AskSummary);
        }
        return;
      }
      if |v.data| < 13 {
        return true;
      }
      fsize := Num32(v.data, 5);
      used := Num32(v.data, 9);
      if o.test {
        used := fsize;
      }
      if fsize == 0 {
        // the percentage divides by it
        return true;
      }
      if used == 0 || o.info {
        done := true;
      } else if !opens {
        done := true;
      } else {
        wrfh := Open([]);
        var req := Uint16(o.defio);
        if used < o.defio {
          req := Uint16(used);
        }
        Send(AskRead(0, req));
      }
    }

    method Read(v: Message) returns (panicked: bool)
      requires v.cmd == DATAFLASH_READ
      modifies this
      ensures panicked <==> v.len < 4 || |v.data| < v.len
      ensures !panicked ==> State() == Gained(o, old(State()), v)
    {
      panicked := false;
      if v.len < 4 || |v.data| < v.len {
        return true;
      }
      wrfh := Written(wrfh, v.data[4..v.len]);
      bread := (bread + v.len - 4) % 0x1_0000_0000;
      var rem := (used - bread) % 0x1_0000_0000;
      if rem > 0 {
        if rem > o.defio {
          rem := o.defio;
        }
        Send(AskRead(bread, Uint16(rem)));
      } else {
        wrfh := Shut(wrfh);
        if o.erase {
          Send(Erase);
        } else {
          done := true;
        }
      }
    }

    /** The interrupt signal. */
    method Interrupt()
      modifies `done
      ensures State() == Ended(old(State()))
    {
      done := true;
    }
  }
}
