/** Whole runs of the flash downloader against a flight controller that answers truthfully. */
module FlashRuns {
  import opened Framing
  import opened Options
  import opened FlashTool

  /** What the flight controller holds: the flash at the start of the run, and how much of it is in use. */
  datatype Flash = Flash(bytes: seq<byte>, inUse: uint32)

  predicate Plausible(f: Flash) {
    0 < |f.bytes| < 0x1_0000_0000 && f.inUse <= |f.bytes|
  }

  /** A run: the tool, how many of its requests have been answered, and whether it was cut short from outside. */
  datatype Run = Run(s: Session, answered: nat, cut: bool)

  datatype Action = Answer(v: Message, opens: bool) | Quit(v: Message) | Interrupt

  /** Message v is a truthful answer to a request. A read is answered with at least one and at most as many bytes as
      were asked for, from the address asked for; a read of no bytes at all is not answered. */
  predicate Answers(f: Flash, c: Command, v: Message) {
    && |v.data| == v.len
    && match c
       case AskApi => v.cmd == API_VERSION && v.len >= 3
       case AskVariant => v.cmd == FC_VARIANT && v.len >= 4
       case AskVersion => v.cmd == FC_VERSION && v.len >= 3
       case AskConfig => v.cmd == BLACKBOX_CONFIGv2 && v.len >= 2
       case AskSummary =>
         v.cmd == DATAFLASH_SUMMARY && v.len >= 13 && Num32(v.data, 5) == |f.bytes| && Num32(v.data, 9) == f.inUse
       case Erase => v.cmd == DATAFLASH_ERASE
       case AskRead(addr, needed) =>
         && v.cmd == DATAFLASH_READ && 4 < v.len && v.len - 4 <= needed && addr + v.len - 4 <= |f.bytes|
         && v.data[4..] == f.bytes[addr..addr + v.len - 4]
  }

  /** An answer to the polling after an erase: the flash may be ready or not, and whatever is left in use. */
  predicate Polled(v: Message) {
    v.cmd == DATAFLASH_SUMMARY && |v.data| == v.len > 0
  }

  predicate Enabled(f: Flash, r: Run, a: Action) {
    && !r.s.done
    && match a
       case Answer(v, _) =>
         && r.answered < |r.s.sent|
         && var c := r.s.sent[r.answered];
            if r.s.echeck && c == AskSummary then Polled(v) else Answers(f, c, v)
       case Quit(v) => v.cmd == QUIT
       case Interrupt => true
  }

  function Step(o: Flags, r: Run, a: Action): Option<Run> {
    match a
    case Answer(v, opens) =>
      (match Next(o, r.s, v, opens)
       case None => None
       case Some(s) => Some(Run(s, r.answered + 1, r.cut)))
    case Quit(v) => (match Next(o, r.s, v, false) case None => None case Some(s) => Some(Run(s, r.answered, true)))
    case Interrupt => Some(Run(Ended(r.s), r.answered, true))
  }

  function Start(): Run {
    Run(Session(false, false, 0, 0, 0, Absent, [AskApi]), 0, false)
  }

  /** Where the actions lead; None when one of them cannot happen or makes the tool panic. */
  function After(o: Flags, f: Flash, acts: seq<Action>): Option<Run> {
    if acts == [] then Some(Start())
    else
      var a := acts[|acts| - 1];
      match After(o, f, acts[..|acts| - 1])
      case None => None
      case Some(r) => if Enabled(f, r, a) then Step(o, r, a) else None
  }

  /** What is to be downloaded. */
  function Goal(o: Flags, f: Flash): nat {
    if o.test then |f.bytes| else f.inUse
  }

  // ---------- what every step keeps ----------

  /** The file is exactly what has been read so far. */
  predicate Faithful(f: Flash, s: Session) {
    && s.bread <= |f.bytes|
    && match s.file
       case Absent => s.bread == 0
       case Open(bytes) => bytes == f.bytes[..s.bread]
       case Closed(bytes) => bytes == f.bytes[..s.bread]
  }

  /** The whole download is in the file. */
  predicate Complete(o: Flags, f: Flash, s: Session) {
    s.bread == s.used == Goal(o, f) <= |f.bytes| && s.file == Closed(f.bytes[..s.used])
  }

  /** Every read asked for lies within the download, and starts where an earlier point of it was reached. */
  predicate InRange(s: Session) {
    forall c | c in s.sent && c.AskRead? :: c.addr <= s.bread && c.addr + c.needed <= s.used
  }

  function Reads(sent: seq<Command>): nat {
    if sent == [] then 0
    else Reads(sent[..|sent| - 1]) + if sent[|sent| - 1].AskRead? then 1 else 0
  }

  /** Nothing is read or erased before the download begins; from then on the request under way tells how far it is. */
  predicate Phase(o: Flags, f: Flash, s: Session, c: Command) {
    match c
    case AskApi => Before(s)
    case AskVariant => Before(s)
    case AskVersion => Before(s)
    case AskConfig => Before(s)
    case AskSummary => if s.echeck then Erasing(o, f, s) else Before(s) && !o.xerase
    case Erase => Erasing(o, f, s)
    case AskRead(addr, needed) =>
      && !o.xerase && !o.info && !s.echeck && Erase !in s.sent && s.used == Goal(o, f) && s.file.Open?
      && addr == s.bread < s.used && needed == Wanted(s.used - s.bread, o.defio)
  }

  predicate Before(s: Session) {
    s.file == Absent && !s.echeck && Erase !in s.sent && Reads(s.sent) == 0
  }

  predicate Erasing(o: Flags, f: Flash, s: Session) {
    if o.xerase then s.file == Absent && Reads(s.sent) == 0 else o.erase && Complete(o, f, s)
  }

  /** How a run that was not cut short has ended. */
  predicate Outcome(o: Flags, f: Flash, s: Session) {
    if s.file == Absent then Reads(s.sent) == 0 && (Erase in s.sent ==> o.xerase)
    else Complete(o, f, s) && (Erase in s.sent <==> o.erase)
  }

  predicate Holds(o: Flags, f: Flash, r: Run) {
    && Faithful(f, r.s) && InRange(r.s) && r.s.bread <= r.s.used && r.s.used <= |f.bytes|
    && Reads(r.s.sent) <= r.s.bread + 1 && Reads(r.s.sent) <= r.s.used
    && (Erase in r.s.sent ==> Erasing(o, f, r.s)) && (r.s.echeck ==> Erase in r.s.sent)
    && (if r.s.done then r.cut || Outcome(o, f, r.s)
        else r.answered == |r.s.sent| - 1 && Phase(o, f, r.s, r.s.sent[r.answered]))
  }

  // ---------- the steps ----------

  lemma SentGrows(s: Session, c: Command)
    ensures Reads(s.sent + [c]) == Reads(s.sent) + if c.AskRead? then 1 else 0
    ensures forall d :: d in s.sent + [c] <==> d in s.sent || d == c
  {
    assert (s.sent + [c])[..|s.sent|] == s.sent;
  }

  /** What is wanted is never more than remains or than the read size, and nothing only when that size is at fault. */
  lemma WantedFits(rem: nat, defio: uint32)
    ensures Wanted(rem, defio) <= rem && Wanted(rem, defio) <= defio
    ensures rem > 0 && 0 < defio < 0x1_0000 ==> Wanted(rem, defio) > 0
  {
  }

  lemma CutKeeps(o: Flags, f: Flash, r: Run)
    requires Holds(o, f, r)
    ensures Holds(o, f, Run(Ended(r.s), r.answered, true))
  {
    hide Reads, Phase;
  }

  /** Before the download has begun, ending it or asking for the next thing. */
  lemma EndedEarly(o: Flags, f: Flash, r: Run, s: Session)
    requires Holds(o, f, r) && Before(r.s) && s.used <= |f.bytes| && s == r.s.(fsize := s.fsize, used := s.used, done := true)
    ensures Holds(o, f, Run(s, r.answered + 1, r.cut))
  {
    NoReads(r.s.sent);
    hide Reads, Phase;
  }

  lemma {:induction false} NoReads(sent: seq<Command>)
    ensures Reads(sent) == 0 ==> forall c | c in sent :: !c.AskRead?
  {
    if sent != [] {
      NoReads(sent[..|sent| - 1]);
      assert sent == sent[..|sent| - 1] + [sent[|sent| - 1]];
    }
  }

  lemma AskedEarly(o: Flags, f: Flash, r: Run, c: Command)
    requires Holds(o, f, r) && !r.s.done && Before(r.s)
    requires c in {AskVariant, AskVersion, AskConfig} || (c == AskSummary && !o.xerase) || (c == Erase && o.xerase)
    ensures Holds(o, f, Run(Asking(r.s, c), r.answered + 1, r.cut))
  {
    SentGrows(r.s, c);
    hide Reads;
  }

  lemma BeginsDownload(o: Flags, f: Flash, r: Run, v: Message, opens: bool)
    requires Plausible(f) && Holds(o, f, r) && !r.s.done && Before(r.s) && !o.xerase && Answers(f, AskSummary, v)
    ensures Holds(o, f, Run(Begun(o, r.s, v, opens), r.answered + 1, r.cut))
  {
    hide Reads;
    var fsize := Num32(v.data, 5);
    var used := if o.test then fsize else Num32(v.data, 9);
    var s := r.s.(fsize := fsize, used := used);
    if used == 0 || o.info || !opens {
      EndedEarly(o, f, r, Ended(s));
    } else {
      NoReads(r.s.sent);
      WantedFits(used, o.defio);
      SentGrows(s, AskRead(0, Wanted(used, o.defio)));
    }
  }

  lemma Erases(o: Flags, f: Flash, r: Run, s: Session)
    requires Holds(o, f, r) && !r.s.done && Erasing(o, f, r.s)
    requires s == Ended(r.s) || s == Asking(r.s.(echeck := true), AskSummary)
    requires Erase in r.s.sent
    ensures Holds(o, f, Run(s, r.answered + 1, r.cut))
  {
    SentGrows(r.s, AskSummary);
    hide Reads;
  }

  /** A piece of the flash brings the file that much further. */
  lemma PieceFollows(f: Flash, s: Session, v: Message, addr: uint32, needed: uint16)
    requires Plausible(f) && Faithful(f, s) && s.file.Open? && addr == s.bread && s.bread + needed <= s.used <= |f.bytes|
    requires Answers(f, AskRead(addr, needed), v)
    ensures 0 < v.len - 4 <= needed && (s.bread + v.len - 4) % 0x1_0000_0000 == s.bread + v.len - 4
    ensures Written(s.file, v.data[4..v.len]) == Open(f.bytes[..s.bread + v.len - 4])
  {
    var n := v.len - 4;
    assert v.data[4..v.len] == v.data[4..];
    assert f.bytes[..s.bread] + f.bytes[s.bread..s.bread + n] == f.bytes[..s.bread + n];
  }

  lemma GainsPiece(o: Flags, f: Flash, r: Run, v: Message, addr: uint32, needed: uint16)
    requires Plausible(f) && Holds(o, f, r) && !r.s.done && r.s.sent[r.answered] == AskRead(addr, needed)
    requires Answers(f, AskRead(addr, needed), v)
    ensures 4 <= v.len <= |v.data| && Holds(o, f, Run(Gained(o, r.s, v), r.answered + 1, r.cut))
  {
    hide Reads, Holds, Phase, Answers, Faithful, Plausible, InRange, Before, Begun, Wanted;
    ReadingPhase(o, f, r, addr, needed);
    FileOpen(f, r.s, v, addr, needed);
    WantedFits(r.s.used - r.s.bread, o.defio);
    PieceFollows(f, r.s, v, addr, needed);
    var n := v.len - 4;
    var s := r.s.(file := Open(f.bytes[..r.s.bread + n]), bread := r.s.bread + n);
    if s.used > s.bread {
      ReadsOn(o, f, r, s);
    } else {
      EndsReading(o, f, r, s);
    }
  }

  lemma ReadingPhase(o: Flags, f: Flash, r: Run, addr: uint32, needed: uint16)
    requires Holds(o, f, r) && !r.s.done && r.s.sent[r.answered] == AskRead(addr, needed)
    ensures Faithful(f, r.s) && r.s.file.Open? && addr == r.s.bread < r.s.used <= |f.bytes|
    ensures needed == Wanted(r.s.used - r.s.bread, o.defio)
  {
  }

  lemma FileOpen(f: Flash, s: Session, v: Message, addr: uint32, needed: uint16)
    requires Answers(f, AskRead(addr, needed), v)
    ensures 4 < v.len && v.len == |v.data|
  {
  }

  /** Session s has read further, and there is more. */
  lemma ReadsOn(o: Flags, f: Flash, r: Run, s: Session)
    requires Holds(o, f, r) && !r.s.done && r.s.sent[r.answered].AskRead? && r.s.bread < s.bread < s.used <= |f.bytes|
    requires s == r.s.(file := Open(f.bytes[..s.bread]), bread := s.bread)
    ensures Holds(o, f, Run(Asking(s, AskRead(s.bread, Wanted(s.used - s.bread, o.defio))), r.answered + 1, r.cut))
  {
    hide Reads, Erasing, Before;
    WantedFits(s.used - s.bread, o.defio);
    SentGrows(s, AskRead(s.bread, Wanted(s.used - s.bread, o.defio)));
  }

  /** Session s has read everything. */
  lemma EndsReading(o: Flags, f: Flash, r: Run, s: Session)
    requires Holds(o, f, r) && !r.s.done && r.s.sent[r.answered].AskRead? && r.s.bread < s.bread == s.used <= |f.bytes|
    requires s == r.s.(file := Open(f.bytes[..s.bread]), bread := s.bread)
    ensures var s := s.(file := Closed(f.bytes[..s.bread]));
      Holds(o, f, Run(if o.erase then Asking(s, Erase) else Ended(s), r.answered + 1, r.cut))
  {
    hide Reads, Before;
    SentGrows(s, Erase);
  }

  /** A truthful answer never makes the tool panic, and every step keeps what holds. */
  lemma StepKeeps(o: Flags, f: Flash, r: Run, a: Action)
    requires Plausible(f) && Holds(o, f, r) && Enabled(f, r, a)
    ensures Step(o, r, a).Some? && Holds(o, f, Step(o, r, a).value)
  {
    hide Reads, Holds, Begun, Gained;
    match a
    case Interrupt => CutKeeps(o, f, r);
    case Quit(v) => CutKeeps(o, f, r);
    case Answer(v, opens) => AnswerKeeps(o, f, r, v, opens);
  }

  lemma AnswerKeeps(o: Flags, f: Flash, r: Run, v: Message, opens: bool)
    requires Plausible(f) && Holds(o, f, r) && Enabled(f, r, Answer(v, opens))
    ensures Next(o, r.s, v, opens).Some? && Holds(o, f, Run(Next(o, r.s, v, opens).value, r.answered + 1, r.cut))
  {
    hide Reads, Holds, Begun, Gained, Erasing, Before, Num32, Wanted, Faithful;
    PhaseOf(o, f, r);
    var c := r.s.sent[r.answered];
    match c
    case AskApi => Early(o, f, r, v, opens);
    case AskVariant => Early(o, f, r, v, opens);
    case AskVersion => Early(o, f, r, v, opens);
    case AskConfig => Early(o, f, r, v, opens);
    case AskSummary =>
      if r.s.echeck {
        Erases(o, f, r, if v.data[0] == 1 then Ended(r.s) else Asking(r.s.(echeck := true), AskSummary));
      } else {
        assert !r.s.echeck && Next(o, r.s, v, opens) == Some(Begun(o, r.s, v, opens));
        BeginsDownload(o, f, r, v, opens);
      }
    case Erase => Erases(o, f, r, Asking(r.s.(echeck := true), AskSummary));
    case AskRead(addr, needed) => GainsPiece(o, f, r, v, addr, needed);
  }

  lemma PhaseOf(o: Flags, f: Flash, r: Run)
    requires Holds(o, f, r) && !r.s.done
    ensures Erase in r.s.sent <== r.s.echeck
    ensures r.answered < |r.s.sent| && Phase(o, f, r.s, r.s.sent[r.answered])
  {
  }

  lemma Early(o: Flags, f: Flash, r: Run, v: Message, opens: bool)
    requires Plausible(f) && Holds(o, f, r) && Enabled(f, r, Answer(v, opens)) && Before(r.s)
    requires r.s.sent[r.answered] in {AskApi, AskVariant, AskVersion, AskConfig}
    ensures Next(o, r.s, v, opens).Some? && Holds(o, f, Run(Next(o, r.s, v, opens).value, r.answered + 1, r.cut))
  {
    hide Reads, Phase, Begun, Gained, Before, InRange, Faithful;
    var s := Next(o, r.s, v, opens).value;
    if s.done {
      EndedEarly(o, f, r, s);
    } else {
      AskedEarly(o, f, r, s.sent[|s.sent| - 1]);
    }
  }

  // ---------- whole runs ----------

  lemma {:induction false} RunHolds(o: Flags, f: Flash, acts: seq<Action>, r: Run)
    requires Plausible(f) && After(o, f, acts) == Some(r)
    ensures Holds(o, f, r)
    decreases |acts|
  {
    hide Holds, Step, Enabled;
    if acts == [] {
      StartHolds(o, f);
    } else {
      var q := After(o, f, acts[..|acts| - 1]).value;
      RunHolds(o, f, acts[..|acts| - 1], q);
      StepKeeps(o, f, q, acts[|acts| - 1]);
    }
  }

  lemma StartHolds(o: Flags, f: Flash)
    ensures Holds(o, f, Start())
  {
    assert Reads([AskApi][..0]) == 0;
  }

  /** At every moment of every run the file is the beginning of the flash as far as it has been read, every read asked
      for lies within the download, there are at most as many reads as bytes, and, unless the tool was told only to
      erase, nothing is erased before the file holds the whole download. */
  lemma DownloadIsSafe(o: Flags, f: Flash, acts: seq<Action>, r: Run)
    requires Plausible(f) && After(o, f, acts) == Some(r)
    ensures Faithful(f, r.s) && InRange(r.s) && Reads(r.s.sent) <= r.s.used <= |f.bytes|
    ensures Erase in r.s.sent && !o.xerase ==> o.erase && Complete(o, f, r.s)
  {
    hide Reads, Faithful, InRange;
    RunHolds(o, f, acts, r);
  }

  /** A run that ends by itself after the file was created has the whole download in the file, and has erased the flash if
      and only if it was told to. */
  lemma DownloadCompletes(o: Flags, f: Flash, acts: seq<Action>, r: Run)
    requires Plausible(f) && After(o, f, acts) == Some(r) && r.s.done && !r.cut && r.s.file != Absent
    ensures r.s.used == Goal(o, f) <= |f.bytes| && r.s.file == Closed(f.bytes[..r.s.used])
    ensures Erase in r.s.sent <==> o.erase
  {
    hide Reads, Faithful, InRange;
    RunHolds(o, f, acts, r);
  }

  /** A flight controller that answers truthfully never makes the tool panic. */
  lemma TruthNeverPanics(o: Flags, f: Flash, acts: seq<Action>, r: Run, a: Action)
    requires Plausible(f) && After(o, f, acts) == Some(r) && Enabled(f, r, a)
    ensures After(o, f, acts + [a]).Some?
  {
    hide Holds, Step, Enabled;
    RunHolds(o, f, acts, r);
    StepKeeps(o, f, r, a);
    assert (acts + [a])[..|acts|] == acts;
  }

  // ---------- how an erase ends ----------

  /** The last action of a run that has ended. */
  lemma LastStep(o: Flags, f: Flash, acts: seq<Action>, r: Run) returns (q: Run, a: Action)
    requires Plausible(f) && After(o, f, acts) == Some(r) && r.s.done
    ensures acts != [] && a == acts[|acts| - 1] && After(o, f, acts[..|acts| - 1]) == Some(q)
    ensures Enabled(f, q, a) && Step(o, q, a) == Some(r) && Holds(o, f, q)
  {
    hide Holds, Enabled, Step;
    a := acts[|acts| - 1];
    q := After(o, f, acts[..|acts| - 1]).value;
    RunHolds(o, f, acts[..|acts| - 1], q);
  }

  /** A run that has asked for an erase ends by itself only when the flash reports that it is ready. */
  lemma EraseEndsReady(o: Flags, f: Flash, acts: seq<Action>, r: Run)
    requires Plausible(f) && After(o, f, acts) == Some(r) && r.s.done && !r.cut && (r.s.echeck || Erase in r.s.sent)
    ensures acts != [] && var a := acts[|acts| - 1];
      a.Answer? && a.v.cmd == DATAFLASH_SUMMARY && a.v.data != [] && a.v.data[0] == 1
  {
    hide Holds, Reads, Begun, Gained, Faithful, InRange;
    var q, a := LastStep(o, f, acts, r);
    PhaseOf(o, f, q);
    if a.Answer? {
      EndsPolled(o, f, q, a.v, a.opens);
    }
  }

  lemma EndsPolled(o: Flags, f: Flash, q: Run, v: Message, opens: bool)
    requires Plausible(f) && Holds(o, f, q) && Enabled(f, q, Answer(v, opens))
    requires var s := Next(o, q.s, v, opens); s.Some? && s.value.done && (s.value.echeck || Erase in s.value.sent)
    ensures v.cmd == DATAFLASH_SUMMARY && v.data != [] && v.data[0] == 1
  {
    hide Holds, Reads, Faithful, InRange, Num32, Wanted;
    PhaseOf(o, f, q);
    var c := q.s.sent[q.answered];
    if c.AskRead? {
      ReadingEnds(o, f, q, v, c.addr, c.needed);
    }
  }

  /** A read that ends a run has no erase to follow. */
  lemma ReadingEnds(o: Flags, f: Flash, q: Run, v: Message, addr: uint32, needed: uint16)
    requires Plausible(f) && Holds(o, f, q) && !q.s.done && q.s.sent[q.answered] == AskRead(addr, needed)
    requires 4 <= v.len <= |v.data|
    ensures var s := Gained(o, q.s, v); s.done ==> !s.echeck && Erase !in s.sent
  {
    hide Reads, Faithful, InRange, Wanted;
  }

  /** Each answer to the polling: ready ends the run, and anything else asks once more and changes nothing. */
  lemma PollExactly(o: Flags, f: Flash, acts: seq<Action>, q: Run, v: Message, opens: bool)
    requires Plausible(f) && After(o, f, acts) == Some(q) && !q.s.done && q.s.echeck
    requires q.answered < |q.s.sent| && q.s.sent[q.answered] == AskSummary && Polled(v)
    ensures After(o, f, acts + [Answer(v, opens)])
      == Some(Run(if v.data[0] == 1 then q.s.(done := true) else q.s.(sent := q.s.sent + [AskSummary]), q.answered + 1, q.cut))
  {
    AfterGrows(o, f, acts, Answer(v, opens));
    hide After;
  }

  /** A message of any other kind changes nothing, and the reader's own message ends the loop. */
  lemma OthersIgnored(o: Flags, s: Session, v: Message, opens: bool)
    requires v.cmd !in {API_VERSION, FC_VARIANT, FC_VERSION, BLACKBOX_CONFIGv2, DATAFLASH_SUMMARY, DATAFLASH_READ, DATAFLASH_ERASE}
    ensures Next(o, s, v, opens) == Some(if v.cmd == 0x7fff then s.(done := true) else s)
  {
  }

  // ---------- what is asked of the flight controller ----------

  /** Version 2 of the protocol or later. */
  predicate GoodApi(a: Action) {
    a.Answer? && a.v.cmd == API_VERSION && |a.v.data| >= 3 && a.v.data[1] >= 2
  }

  /** "INAV". */
  predicate GoodVariant(a: Action) {
    && a.Answer? && a.v.cmd == FC_VARIANT && |a.v.data| >= 4
    && a.v.data[0] == 'I' as int && a.v.data[1] == 'N' as int && a.v.data[2] == 'A' as int && a.v.data[3] == 'V' as int
  }

  /** A blackbox that is enabled, on a flash chip. */
  predicate GoodConfig(a: Action) {
    a.Answer? && a.v.cmd == BLACKBOX_CONFIGv2 && |a.v.data| >= 2 && a.v.data[0] == 1 && a.v.data[1] == 1
  }

  /** What each request sent takes for granted of the answers so far. */
  ghost predicate Asked(o: Flags, acts: seq<Action>, sent: seq<Command>) {
    && (forall c | c in sent && c != AskApi :: exists a :: a in acts && GoodApi(a))
    && (forall c | c in sent && c !in {AskApi, AskVariant} :: exists a :: a in acts && GoodVariant(a))
    && (forall c | c in sent && c !in {AskApi, AskVariant, AskVersion, AskConfig} :: exists a :: a in acts && GoodConfig(a))
    && (forall c | c in sent && c.AskRead? :: !o.info && !o.xerase)
  }

  lemma AskedMore(o: Flags, acts: seq<Action>, a: Action, sent: seq<Command>, c: Command)
    requires Asked(o, acts, sent)
    requires c != AskApi ==> GoodApi(a) || exists d :: d in sent && d != AskApi
    requires c !in {AskApi, AskVariant} ==> GoodVariant(a) || exists d :: d in sent && d !in {AskApi, AskVariant}
    requires c !in {AskApi, AskVariant, AskVersion, AskConfig} ==>
      GoodConfig(a) || exists d :: d in sent && d !in {AskApi, AskVariant, AskVersion, AskConfig}
    requires c.AskRead? ==> !o.info && !o.xerase
    ensures Asked(o, acts + [a], sent + [c])
  {
    hide GoodApi, GoodVariant, GoodConfig;
    AskedStill(o, acts, a, sent);
    assert a in acts + [a];
    assert forall d | d in sent + [c] :: d in sent || d == c;
  }

  lemma AskedStill(o: Flags, acts: seq<Action>, a: Action, sent: seq<Command>)
    requires Asked(o, acts, sent)
    ensures Asked(o, acts + [a], sent)
  {
    hide GoodApi, GoodVariant, GoodConfig;
    assert forall b | b in acts :: b in acts + [a];
  }

  /** In every run the flash is only looked at, read or erased after the flight controller has reported version 2 of the
      protocol, INAV, and an enabled blackbox on a flash chip; and with -info or -only-erase nothing is read. */
  lemma {:induction false} OnlyWhenChecked(o: Flags, f: Flash, acts: seq<Action>, r: Run)
    requires Plausible(f) && After(o, f, acts) == Some(r)
    ensures Asked(o, acts, r.s.sent)
    decreases |acts|
  {
    hide Holds, Step, Enabled, Asked;
    if acts == [] {
      StartAsked(o);
    } else {
      var n := |acts| - 1;
      var q := After(o, f, acts[..n]).value;
      OnlyWhenChecked(o, f, acts[..n], q);
      RunHolds(o, f, acts[..n], q);
      assert acts[..n] + [acts[n]] == acts;
      StepAsks(o, f, acts[..n], q, acts[n]);
    }
  }

  lemma StartAsked(o: Flags)
    ensures Asked(o, [], Start().s.sent)
  {
  }

  lemma StepAsks(o: Flags, f: Flash, acts: seq<Action>, q: Run, a: Action)
    requires Plausible(f) && Holds(o, f, q) && Enabled(f, q, a) && Asked(o, acts, q.s.sent) && Step(o, q, a).Some?
    ensures Asked(o, acts + [a], Step(o, q, a).value.s.sent)
  {
    hide Holds, Reads, Faithful, InRange, Num32, Wanted, Asked, Erasing;
    PhaseOf(o, f, q);
    AskedStill(o, acts, a, q.s.sent);
    var s := Step(o, q, a).value.s;
    if s.sent != q.s.sent {
      var c := q.s.sent[q.answered];
      var d := s.sent[|q.s.sent|];
      assert c in q.s.sent && s.sent == q.s.sent + [d];
      AskedMore(o, acts, a, q.s.sent, d);
    }
  }

  /** The run can always go on, whatever the flash and its use, exactly for read sizes below 64 KiB: with larger ones a
      request for exactly 64 KiB wraps to a request for nothing. */
  lemma RequestsAreNeverEmpty(defio: uint32)
    requires defio > 0 && defio % 1024 == 0
    ensures (forall rem: uint32 | rem > 0 :: Wanted(rem, defio) > 0) <==> defio <= 64512
  {
    if defio <= 64512 {
      forall rem: uint32 | rem > 0 ensures Wanted(rem, defio) > 0 {
        WantedFits(rem, defio);
      }
    } else {
      assert Wanted(0x1_0000, defio) == 0;
    }
  }

  /** With such a read size, or when nothing is to be read, a run is never stuck: as long as it is not over, some truthful
      answer can arrive. */
  lemma NeverStuck(o: Flags, f: Flash, acts: seq<Action>, r: Run) returns (v: Message)
    requires Plausible(f) && After(o, f, acts) == Some(r) && !r.s.done
    requires 0 < o.defio < 0x1_0000 || o.xerase || o.info
    ensures Enabled(f, r, Answer(v, true)) && (v.cmd == DATAFLASH_SUMMARY ==> v.data[0] == 1)
  {
    RunHolds(o, f, acts, r);
    PhaseOf(o, f, r);
    hide Faithful, InRange, Reads, Before, Erasing;
    match r.s.sent[r.answered]
    case AskApi => v := Message(API_VERSION, 3, [0, 2, 0]);
    case AskVariant => v := Message(FC_VARIANT, 4, INAV);
    case AskVersion => v := Message(FC_VERSION, 3, [0, 0, 0]);
    case AskConfig => v := Message(BLACKBOX_CONFIGv2, 2, [1, 1]);
    case AskSummary => v := Summary(f);
    case Erase => v := Message(DATAFLASH_ERASE, 0, []);
    case AskRead(addr, needed) =>
      WantedFits(r.s.used - r.s.bread, o.defio);
      v := OneByteRead(f, addr, needed);
  }

  lemma OneByteRead(f: Flash, addr: uint32, needed: uint16) returns (v: Message)
    requires Plausible(f) && addr < |f.bytes| && needed > 0
    ensures Answers(f, AskRead(addr, needed), v)
  {
    v := Message(DATAFLASH_READ, 5, [0, 0, 0, 0, f.bytes[addr]]);
    assert v.data[4..] == f.bytes[addr..addr + 1];
  }

  /** The stages of a run still to come after the request under way. */
  function Stage(r: Run): nat
    requires r.answered < |r.s.sent|
  {
    match r.s.sent[r.answered]
    case AskApi => 7
    case AskVariant => 6
    case AskVersion => 5
    case AskConfig => 4
    case AskSummary => if r.s.echeck then 0 else 3
    case AskRead(_, _) => 2
    case Erase => 1
  }

  /** Run q is over, or nearer to its end than r. */
  predicate Nearer(q: Run, r: Run)
    requires r.answered < |r.s.sent|
  {
    || q.s.done
    || (q.answered < |q.s.sent| && q.s.bread <= q.s.used
        && (Stage(q) < Stage(r) || (Stage(q) == Stage(r) && q.s.used - q.s.bread < r.s.used - r.s.bread)))
  }

  lemma PieceProgresses(o: Flags, f: Flash, r: Run, v: Message, addr: uint32, needed: uint16)
    requires Plausible(f) && Holds(o, f, r) && !r.s.done && r.s.sent[r.answered] == AskRead(addr, needed)
    requires Answers(f, AskRead(addr, needed), v)
    ensures 4 <= v.len <= |v.data| && Nearer(Run(Gained(o, r.s, v), r.answered + 1, r.cut), r)
  {
    hide Holds, Faithful, Answers, Wanted;
    ReadingPhase(o, f, r, addr, needed);
    FileOpen(f, r.s, v, addr, needed);
    WantedFits(r.s.used - r.s.bread, o.defio);
    PieceFollows(f, r.s, v, addr, needed);
    LastAsked(o, f, r);
  }

  lemma LastAsked(o: Flags, f: Flash, r: Run)
    requires Holds(o, f, r) && !r.s.done
    ensures r.answered == |r.s.sent| - 1 && r.s.bread <= r.s.used
  {
    hide Reads, Phase, Faithful, InRange, Erasing;
  }

  /** An answer, ready when it is about the flash, brings a run nearer to its end. */
  lemma AnswerProgresses(o: Flags, f: Flash, r: Run, v: Message)
    requires Plausible(f) && Holds(o, f, r) && Enabled(f, r, Answer(v, true))
    requires v.cmd == DATAFLASH_SUMMARY ==> v.data[0] == 1
    requires Step(o, r, Answer(v, true)).Some? && Holds(o, f, Step(o, r, Answer(v, true)).value)
    ensures var q := Step(o, r, Answer(v, true)).value;
      q.cut == r.cut && r.answered < |r.s.sent| && Nearer(q, r)
  {
    hide Reads, Faithful, InRange, Erasing, Num32, Gained, Holds;
    PhaseOf(o, f, r);
    LastAsked(o, f, r);
    var q := Step(o, r, Answer(v, true)).value;
    if !q.s.done {
      LastAsked(o, f, q);
    }
    if r.s.sent[r.answered].AskRead? {
      PieceProgresses(o, f, r, v, r.s.sent[r.answered].addr, r.s.sent[r.answered].needed);
    }
  }

  lemma OneStep(o: Flags, f: Flash, acts: seq<Action>, r: Run) returns (a: Action, q: Run)
    requires Plausible(f) && After(o, f, acts) == Some(r) && !r.s.done && (0 < o.defio < 0x1_0000 || o.xerase || o.info)
    ensures After(o, f, acts + [a]) == Some(q) && q.cut == r.cut && r.answered < |r.s.sent| && Nearer(q, r)
  {
    hide After, Enabled, Step, Holds, Nearer;
    var v := NeverStuck(o, f, acts, r);
    a := Answer(v, true);
    RunHolds(o, f, acts, r);
    TruthNeverPanics(o, f, acts, r, a);
    AfterGrows(o, f, acts, a);
    q := After(o, f, acts + [a]).value;
    RunHolds(o, f, acts + [a], q);
    AnswerProgresses(o, f, r, v);
  }

  lemma {:induction false} EndsFrom(o: Flags, f: Flash, acts: seq<Action>, r: Run) returns (more: seq<Action>, e: Run)
    requires Plausible(f) && After(o, f, acts) == Some(r) && (0 < o.defio < 0x1_0000 || o.xerase || o.info)
    requires r.s.done || (r.answered < |r.s.sent| && r.s.bread <= r.s.used)
    ensures After(o, f, acts + more) == Some(e) && e.s.done && e.cut == r.cut
    decreases if r.s.done then 0 else 1 + Stage(r), r.s.used - r.s.bread
  {
    hide After, Stage;
    if r.s.done {
      more, e := [], r;
      assert acts + [] == acts;
    } else {
      var a, q := OneStep(o, f, acts, r);
      more, e := EndsFrom(o, f, acts + [a], q);
      assert acts + [a] + more == acts + ([a] + more);
      more := [a] + more;
    }
  }

  /** Whatever has happened, an unfinished run can still be brought to its end by truthful answers, an erase included. */
  lemma CanEnd(o: Flags, f: Flash, acts: seq<Action>, r: Run) returns (more: seq<Action>, e: Run)
    requires Plausible(f) && After(o, f, acts) == Some(r) && (0 < o.defio < 0x1_0000 || o.xerase || o.info)
    ensures After(o, f, acts + more) == Some(e) && e.s.done && e.cut == r.cut
  {
    hide After, Holds;
    RunHolds(o, f, acts, r);
    if !r.s.done {
      LastAsked(o, f, r);
    }
    more, e := EndsFrom(o, f, acts, r);
  }

  /** With larger read sizes a flash of which just 64 KiB are used leaves the tool waiting: the run up to the first request,
      which asks for nothing. */
  lemma StuckRun(o: Flags) returns (f: Flash, acts: seq<Action>, r: Run)
    requires o.defio >= 0x1_0000 && !o.xerase && !o.info
    ensures Plausible(f) && After(o, f, acts) == Some(r) && !r.s.done
    ensures forall v: Message, opens: bool :: !Enabled(f, r, Answer(v, opens))
  {
    f := Flash(Zeros(0x1_0000), 0x1_0000);
    var summary := Summary(f);
    var greetings := [Answer(Message(API_VERSION, 3, [0, 2, 0]), true), Answer(Message(FC_VARIANT, 4, INAV), true),
                      Answer(Message(FC_VERSION, 3, [0, 0, 0]), true), Answer(Message(BLACKBOX_CONFIGv2, 2, [1, 1]), true)];
    Greeted(o, f, greetings);
    acts := greetings + [Answer(summary, true)];
    assert acts[..4] == greetings;
    var sent := [AskApi, AskVariant, AskVersion, AskConfig, AskSummary];
    var s := Session(false, false, 0x1_0000, 0x1_0000, 0, Open([]), sent + [AskRead(0, 0)]);
    hide After;
    FirstRequest(o, f, summary, sent);
    AfterGrows(o, f, greetings, Answer(summary, true));
    r := Run(s, 5, false);
  }

  lemma AfterGrows(o: Flags, f: Flash, acts: seq<Action>, a: Action)
    ensures After(o, f, acts + [a]) == match After(o, f, acts)
      case None => None
      case Some(r) => if Enabled(f, r, a) then Step(o, r, a) else None
  {
    assert (acts + [a])[..|acts|] == acts;
  }

  lemma FirstRequest(o: Flags, f: Flash, v: Message, sent: seq<Command>)
    requires o.defio >= 0x1_0000 && |f.bytes| == f.inUse == 0x1_0000 && Answers(f, AskSummary, v)
    ensures Next(o, Session(false, false, 0, 0, 0, Absent, sent), v, true)
      == if o.info then Some(Session(true, false, 0x1_0000, 0x1_0000, 0, Absent, sent))
         else Some(Session(false, false, 0x1_0000, 0x1_0000, 0, Open([]), sent + [AskRead(0, 0)]))
  {
    assert Wanted(0x1_0000, o.defio) == 0;
  }

  /** The exchange before the summary. */
  lemma Greeted(o: Flags, f: Flash, acts: seq<Action>)
    requires !o.xerase
    requires acts == [Answer(Message(API_VERSION, 3, [0, 2, 0]), true), Answer(Message(FC_VARIANT, 4, INAV), true),
                      Answer(Message(FC_VERSION, 3, [0, 0, 0]), true), Answer(Message(BLACKBOX_CONFIGv2, 2, [1, 1]), true)]
    ensures After(o, f, acts)
      == Some(Run(Session(false, false, 0, 0, 0, Absent, [AskApi, AskVariant, AskVersion, AskConfig, AskSummary]), 4, false))
  {
    hide After;
    AfterNone(o, f);
    assert [] + [acts[0]] == acts[..1] && acts[..1] + [acts[1]] == acts[..2];
    assert acts[..2] + [acts[2]] == acts[..3] && acts[..3] + [acts[3]] == acts;
    var api, variant, version := [AskApi], [AskApi, AskVariant], [AskApi, AskVariant, AskVersion];
    assert api + [AskVariant] == variant && variant + [AskVersion] == version;
    assert version + [AskConfig] + [AskSummary] == [AskApi, AskVariant, AskVersion, AskConfig, AskSummary];
    Greeting(o, f, [], acts[0].v, api, AskVariant);
    Greeting(o, f, acts[..1], acts[1].v, variant, AskVersion);
    Greeting(o, f, acts[..2], acts[2].v, version, AskConfig);
    Greeting(o, f, acts[..3], acts[3].v, version + [AskConfig], AskSummary);
  }

  /** One answer before the summary, and the next question. */
  lemma Greeting(o: Flags, f: Flash, acts: seq<Action>, v: Message, sent: seq<Command>, next: Command)
    requires sent != [] && After(o, f, acts) == Some(Run(Session(false, false, 0, 0, 0, Absent, sent), |sent| - 1, false))
    requires !o.xerase && Answers(f, sent[|sent| - 1], v)
    requires var c := sent[|sent| - 1];
      || (c == AskApi && next == AskVariant && 0x100 * v.data[1] as int + v.data[2] >= 0x200)
      || (c == AskVariant && next == AskVersion && v.data[..4] == INAV)
      || (c == AskVersion && next == AskConfig)
      || (c == AskConfig && next == AskSummary && v.data[0] == v.data[1] == 1)
    ensures After(o, f, acts + [Answer(v, true)])
      == Some(Run(Session(false, false, 0, 0, 0, Absent, sent + [next]), |sent|, false))
  {
    AfterGrows(o, f, acts, Answer(v, true));
    hide After;
  }

  lemma AfterNone(o: Flags, f: Flash)
    ensures After(o, f, []) == Some(Start())
  {
  }

  /** Some truthful answer can arrive. */
  ghost predicate CanGoOn(f: Flash, r: Run) {
    exists v: Message, opens: bool :: Enabled(f, r, Answer(v, opens))
  }

  /** Every unfinished run of every flash can go on, if and only if the read size is below 64 KiB or nothing is read. */
  lemma NeverStuckExactly(o: Flags)
    requires o.defio > 0
    ensures (forall f: Flash, acts: seq<Action> | Plausible(f) && After(o, f, acts).Some? ::
              After(o, f, acts).value.s.done || CanGoOn(f, After(o, f, acts).value))
        <==> o.defio < 0x1_0000 || o.xerase || o.info
  {
    hide After, Enabled;
    if o.defio < 0x1_0000 || o.xerase || o.info {
      forall f: Flash, acts: seq<Action> | Plausible(f) && After(o, f, acts).Some?
        ensures After(o, f, acts).value.s.done || CanGoOn(f, After(o, f, acts).value)
      {
        var r := After(o, f, acts).value;
        if !r.s.done {
          var v := NeverStuck(o, f, acts, r);
        }
      }
    } else {
      var f, acts, r := StuckRun(o);
    }
  }

  function Bytes32(x: uint32): (s: seq<byte>)
    ensures |s| == 4
  {
    [x % 0x100, x / 0x100 % 0x100, x / 0x1_0000 % 0x100, x / 0x100_0000]
  }

  lemma Bytes32Return(x: uint32, before: seq<byte>, after: seq<byte>)
    ensures Num32(before + Bytes32(x) + after, |before|) == x
  {
    var s, b, i := before + Bytes32(x) + after, Bytes32(x), |before|;
    assert s[i] == b[0] && s[i + 1] == b[1] && s[i + 2] == b[2] && s[i + 3] == b[3];
    hide Bytes32;
    Digits32(x);
  }

  lemma Digits32(x: uint32)
    ensures Bytes32(x)[0] + 0x100 * Bytes32(x)[1] as int + 0x1_0000 * Bytes32(x)[2] as int + 0x100_0000 * Bytes32(x)[3] as int == x
  {
    var a := x / 0x100;
    var b := a / 0x100;
    assert x / 0x1_0000 == b && x / 0x100_0000 == b / 0x100;
    assert x == 0x100 * a + x % 0x100 && a == 0x100 * b + a % 0x100;
    assert b == 0x100 * (b / 0x100) + b % 0x100;
  }

  lemma Summary(f: Flash) returns (v: Message)
    requires Plausible(f)
    ensures Answers(f, AskSummary, v) && v.data[0] == 1
  {
    var head := [1, 0, 0, 0, 0];
    var a, b := Bytes32(|f.bytes|), Bytes32(f.inUse);
    v := Message(DATAFLASH_SUMMARY, 13, head + a + b);
    Bytes32Return(|f.bytes|, head, b);
    Bytes32Return(f.inUse, head + a, []);
    assert head + a + b + [] == head + a + b;
  }
}
