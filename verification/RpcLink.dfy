/** Two cores joined by the link, as a step system: senders of commands, the transmit thread, senders of
    responses, and the far receive thread, in any order. Commands and responses share the sequence
    number and the far receive queue. */
module RpcLink {
  import opened Bytes
  import opened RpcBthDsp
  import RpcQueue

  datatype Msg = Cmd(code: nat, content: seq<byte>) | Rsp(code: nat, content: seq<byte>)

  /** A message on the link; `fill` is the number of bytes in the far queue when it gets there. */
  datatype Packet = Packet(msg: Msg, seqNo: nat, fill: nat)

  /** `accepted`: commands queued by senders; `sent`: everything put on the link, in order; `received`:
      what was handed to the far handlers; `failed`: an assert fired or something else came out. */
  datatype Link = Link(
    tx: seq<byte>, rx: seq<byte>, seqNo: nat,
    accepted: seq<Msg>, sent: seq<Packet>, received: seq<Msg>, failed: bool)

  datatype Step = Send(cmd: Msg) | Transmit | Respond(rsp: Msg) | Receive

  function Wire(p: Packet): seq<byte> {
    match p.msg
    case Cmd(code, content) => CommandPacket(code, p.seqNo, content)
    case Rsp(code, content) => CommandPacket(CMD_RSP, p.seqNo, Le16(code) + content)
  }

  /** The message on the link and pushed at the far end, where the result of the push is dropped. */
  function PutOnLink(size: nat, l: Link, msg: Msg): Link {
    var p := Packet(msg, l.seqNo, |l.rx|);
    l.(rx := RpcQueue.Pushed(l.rx, size, Wire(p)).1, seqNo := (l.seqNo + 1) % 65536, sent := l.sent + [p])
  }

  function SendStep(size: nat, l: Link, cmd: Msg): Link {
    if |cmd.content| > MAX_DATA_PACKET_SIZE then l.(failed := true)
    else
      var (ret, tx) := RpcQueue.Pushed(l.tx, size, Le16(cmd.code) + cmd.content);
      l.(tx := tx, accepted := if ret == 0 then l.accepted + [cmd] else l.accepted)
  }

  function TransmitStep(table: set<nat>, size: nat, l: Link): Link {
    var n := RpcQueue.HeadLength(l.tx);
    if n == 0 then l
    else if n > TMP_BUFFER_SIZE then l.(failed := true)
    else
      var (entry, tx) := RpcQueue.Popped(l.tx, n);
      match TakeEntry(table, entry)
      case Dispatch(code, content) =>
        if |content| > MAX_DATA_PACKET_SIZE || code !in table then l.(failed := true)
        else PutOnLink(size, l.(tx := tx), Cmd(code, content))
      case _ => l.(failed := true)
  }

  function RespondStep(table: set<nat>, size: nat, l: Link, rsp: Msg): Link {
    if |rsp.content| + 2 > MAX_DATA_PACKET_SIZE || CMD_RSP !in table || rsp.code !in table then l.(failed := true)
    else PutOnLink(size, l, Rsp(rsp.code, rsp.content))
  }

  function ReceiveStep(table: set<nat>, l: Link): Link {
    var n := RpcQueue.HeadLength(l.rx);
    if n == 0 then l
    else if n > TMP_BUFFER_SIZE then l.(failed := true)
    else
      var (packet, rx) := RpcQueue.Popped(l.rx, n);
      match Process(table, packet)
      case Command(code, content) => l.(rx := rx, received := l.received + [Cmd(code, content)])
      case Response(code, content) => l.(rx := rx, received := l.received + [Rsp(code, content)])
      case _ => l.(failed := true)
  }

  function Next(table: set<nat>, size: nat, l: Link, step: Step): Link {
    match step
    case Send(cmd) => SendStep(size, l, cmd)
    case Transmit => TransmitStep(table, size, l)
    case Respond(rsp) => RespondStep(table, size, l, rsp)
    case Receive => ReceiveStep(table, l)
  }

  function Run(table: set<nat>, size: nat, l: Link, steps: seq<Step>): Link
    decreases |steps|
  {
    if steps == [] then l else Run(table, size, Next(table, size, l, steps[0]), steps[1..])
  }

  const EMPTY := Link([], [], 0, [], [], [], false)

  /** What a caller may send: registered, and short enough to arrive. */
  predicate Legal(table: set<nat>, msg: Msg) {
    && msg.code in table
    && match msg
       case Cmd(code, content) => code < CMD_QTY && code != CMD_RSP && |content| <= 508
       case Rsp(code, content) => code < 65536 && CMD_RSP in table && |content| <= 506
  }

  predicate LegalStep(table: set<nat>, step: Step) {
    match step
    case Send(cmd) => cmd.Cmd? && Legal(table, cmd)
    case Respond(rsp) => rsp.Rsp? && Legal(table, rsp)
    case _ => true
  }

  /** The far queue had room for the packet, with its length, when it got there. */
  predicate HadRoom(size: nat, p: Packet) {
    p.fill + 2 + |Wire(p)| <= size
  }

  /** The packets that met room, in order. */
  function Stored(size: nat, ps: seq<Packet>): (r: seq<Packet>)
    ensures forall p | p in r :: p in ps
  {
    if ps == [] then []
    else
      var n := |ps| - 1;
      Stored(size, ps[..n]) + if HadRoom(size, ps[n]) then [ps[n]] else []
  }

  function Commands(ms: seq<Msg>): seq<Msg> {
    if ms == [] then []
    else
      var n := |ms| - 1;
      Commands(ms[..n]) + if ms[n].Cmd? then [ms[n]] else []
  }

  function Msgs(ps: seq<Packet>): (ms: seq<Msg>)
    ensures |ms| == |ps|
  {
    seq(|ps|, i requires 0 <= i < |ps| => ps[i].msg)
  }

  function Wires(ps: seq<Packet>): (ws: seq<seq<byte>>)
    ensures |ws| == |ps|
  {
    seq(|ps|, i requires 0 <= i < |ps| => Wire(ps[i]))
  }

  function Entries(cmds: seq<Msg>): (es: seq<seq<byte>>)
    ensures |es| == |cmds|
  {
    seq(|cmds|, i requires 0 <= i < |cmds| => Le16(cmds[i].code) + cmds[i].content)
  }

  /** The near side: the transmit queue frames the commands accepted and not yet on the link. */
  ghost predicate TxInv(table: set<nat>, tx: seq<byte>, accepted: seq<Msg>, commands: seq<Msg>) {
    && commands <= accepted
    && (forall c | c in accepted :: c.Cmd? && Legal(table, c))
    && tx == Frame(Entries(accepted[|commands|..]))
  }

  /** The far side: received, then pending in the queue, are the packets that met room. */
  ghost predicate RxInv(table: set<nat>, rx: seq<byte>, stored: seq<Packet>, received: seq<Msg>) {
    && (forall p | p in stored :: Legal(table, p.msg) && p.seqNo < 65536)
    && received <= Msgs(stored)
    && rx == Frame(Wires(stored[|received|..]))
  }

  ghost predicate Numbered(sent: seq<Packet>) {
    forall i | 0 <= i < |sent| :: sent[i].seqNo == i % 65536
  }

  ghost predicate Inv(table: set<nat>, size: nat, l: Link) {
    && !l.failed
    && TxInv(table, l.tx, l.accepted, Commands(Msgs(l.sent)))
    && RxInv(table, l.rx, Stored(size, l.sent), l.received)
    && Numbered(l.sent) && l.seqNo == |l.sent| % 65536
  }

  lemma EmptyInv(table: set<nat>, size: nat)
    ensures Inv(table, size, EMPTY)
  {
    assert Entries([]) == [] && Wires([]) == [] && Msgs([]) == [];
  }

  lemma EntriesAreMessages(table: set<nat>, cmds: seq<Msg>)
    requires forall c | c in cmds :: c.Cmd? && Legal(table, c)
    ensures RpcQueue.Messages(Entries(cmds))
  {
    forall m | m in Entries(cmds) ensures 0 < |m| < 65536 {
      var i :| 0 <= i < |cmds| && m == Entries(cmds)[i];
      assert cmds[i].Cmd? && Legal(table, cmds[i]);
    }
  }

  lemma WireFields(table: set<nat>, p: Packet)
    requires Legal(table, p.msg)
    ensures 4 <= |Wire(p)| <= TMP_BUFFER_SIZE
    ensures Process(table, Wire(p)) == match p.msg
                                       case Cmd(code, content) => Command(code, content)
                                       case Rsp(code, content) => Response(code, content)
  {
    hide Le16, FromLe16;
    match p.msg {
      case Cmd(code, content) => PacketFields(code, p.seqNo, content);
      case Rsp(code, content) =>
        EntryFields(code, content);
        PacketFields(CMD_RSP, p.seqNo, Le16(code) + content);
    }
  }

  lemma WiresAreMessages(table: set<nat>, ps: seq<Packet>)
    requires forall p | p in ps :: Legal(table, p.msg)
    ensures RpcQueue.Messages(Wires(ps))
  {
    hide Wire, Legal;
    forall m | m in Wires(ps) ensures 0 < |m| < 65536 {
      var i :| 0 <= i < |ps| && m == Wires(ps)[i];
      assert ps[i] in ps;
      WireFields(table, ps[i]);
    }
  }

  lemma SendKeepsInv(table: set<nat>, size: nat, l: Link, cmd: Msg)
    requires Inv(table, size, l) && cmd.Cmd? && Legal(table, cmd)
    ensures Inv(table, size, SendStep(size, l, cmd))
  {
    hide Le16, Stored, Commands, Numbered, RxInv;
    var done := |Commands(Msgs(l.sent))|;
    var waiting := l.accepted[done..];
    var entry := Le16(cmd.code) + cmd.content;
    RpcQueue.PushAddsMessage(Entries(waiting), size, entry);
    var l' := SendStep(size, l, cmd);
    if l'.accepted != l.accepted {
      assert l'.accepted[done..] == waiting + [cmd];
      assert Entries(waiting + [cmd]) == Entries(waiting) + [entry];
    }
  }

  /** A command is accepted if and only if the near queue has room for it; a refused one leaves no trace. */
  lemma SendAcceptsIff(table: set<nat>, size: nat, l: Link, cmd: Msg)
    requires Inv(table, size, l) && cmd.Cmd? && Legal(table, cmd)
    ensures var l' := SendStep(size, l, cmd);
      if |l.tx| + 4 + |cmd.content| <= size
      then l' == l.(tx := l'.tx, accepted := l.accepted + [cmd]) && |l'.tx| == |l.tx| + 4 + |cmd.content|
      else l' == l
  {
    hide Inv;
  }

  lemma {:induction false} StoredSnoc(size: nat, ps: seq<Packet>, p: Packet)
    ensures Stored(size, ps + [p]) == Stored(size, ps) + if HadRoom(size, p) then [p] else []
  {
    hide HadRoom;
    assert (ps + [p])[..|ps|] == ps;
  }

  /** A packet that arrives is pending after the others if it met room, and leaves no trace if not. */
  lemma ArrivalKeepsRxInv(table: set<nat>, size: nat, rx: seq<byte>, stored: seq<Packet>, received: seq<Msg>, p: Packet)
    requires RxInv(table, rx, stored, received) && Legal(table, p.msg) && p.seqNo < 65536 && p.fill == |rx|
    ensures RxInv(table, RpcQueue.Pushed(rx, size, Wire(p)).1,
                  stored + (if HadRoom(size, p) then [p] else []), received)
  {
    hide Wire, Legal, Frame, RpcQueue.Pushed;
    var pending := stored[|received|..];
    WireFields(table, p);
    RpcQueue.PushAddsMessage(Wires(pending), size, Wire(p));
    if HadRoom(size, p) {
      assert (stored + [p])[|received|..] == pending + [p];
      assert Wires(pending + [p]) == Wires(pending) + [Wire(p)];
      assert Msgs(stored + [p]) == Msgs(stored) + [p.msg];
    } else {
      assert stored + [] == stored;
    }
  }

  /** Putting a message on the link: it is stored if and only if it met room, and dropped as a whole
      otherwise; either way it takes the next number. */
  lemma {:induction false} PutOnLinkStoresIff(table: set<nat>, size: nat, l: Link, msg: Msg)
    requires RxInv(table, l.rx, Stored(size, l.sent), l.received) && Legal(table, msg)
    requires Numbered(l.sent) && l.seqNo == |l.sent| % 65536
    ensures var p, l' := Packet(msg, l.seqNo, |l.rx|), PutOnLink(size, l, msg);
            && Stored(size, l'.sent)
               == Stored(size, l.sent) + (if |l.rx| + 2 + |Wire(p)| <= size then [p] else [])
            && RxInv(table, l'.rx, Stored(size, l'.sent), l'.received)
            && Numbered(l'.sent) && l'.seqNo == |l'.sent| % 65536
            && Msgs(l'.sent) == Msgs(l.sent) + [msg]
  {
    hide Wire, Legal, Frame, RxInv, Stored, RpcQueue.Pushed;
    var p := Packet(msg, l.seqNo, |l.rx|);
    StoredSnoc(size, l.sent, p);
    ArrivalKeepsRxInv(table, size, l.rx, Stored(size, l.sent), l.received, p);
    NextNumber(|l.sent|);
  }

  lemma NextNumber(n: nat)
    ensures (n % 65536 + 1) % 65536 == (n + 1) % 65536
  {
  }

  /** The transmit thread puts exactly the oldest waiting command on the link. */
  lemma TransmitForwardsOldest(table: set<nat>, size: nat, l: Link)
    requires Inv(table, size, l) && |Commands(Msgs(l.sent))| < |l.accepted|
    ensures var n := |Commands(Msgs(l.sent))|;
            TransmitStep(table, size, l) ==
            PutOnLink(size, l.(tx := Frame(Entries(l.accepted[n + 1..]))), l.accepted[n])
  {
    hide Le16, FromLe16, Frame, PutOnLink, RxInv, Numbered, Commands, Stored, Wire;
    var n := |Commands(Msgs(l.sent))|;
    var waiting := l.accepted[n..];
    var cmd := waiting[0];
    var es := Entries(waiting);
    assert forall c | c in waiting :: c in l.accepted;
    EntriesAreMessages(table, waiting);
    RpcQueue.PopTakesOldest(es);
    assert es[1..] == Entries(l.accepted[n + 1..]);
    assert cmd in l.accepted;
    EntryFields(cmd.code, cmd.content);
  }

  lemma {:induction false} CommandsSnoc(ms: seq<Msg>, m: Msg)
    ensures Commands(ms + [m]) == Commands(ms) + if m.Cmd? then [m] else []
  {
    assert (ms + [m])[..|ms|] == ms;
  }

  lemma TransmitKeepsInv(table: set<nat>, size: nat, l: Link)
    requires Inv(table, size, l)
    ensures Inv(table, size, TransmitStep(table, size, l))
  {
    hide RxInv, Numbered, Legal, Stored, Wire, Commands;
    var n := |Commands(Msgs(l.sent))|;
    if n < |l.accepted| {
      hide Frame, TransmitStep;
      TransmitForwardsOldest(table, size, l);
      var cmd := l.accepted[n];
      assert cmd in l.accepted;
      var l0 := l.(tx := Frame(Entries(l.accepted[n + 1..])));
      PutOnLinkStoresIff(table, size, l0, cmd);
      CommandsSnoc(Msgs(l.sent), cmd);
    } else {
      assert Entries(l.accepted[n..]) == [];
    }
  }

  lemma RespondKeepsInv(table: set<nat>, size: nat, l: Link, rsp: Msg)
    requires Inv(table, size, l) && rsp.Rsp? && Legal(table, rsp)
    ensures Inv(table, size, RespondStep(table, size, l, rsp))
  {
    hide RxInv, Numbered, TxInv, Stored, Wire, Commands;
    PutOnLinkStoresIff(table, size, l, rsp);
    CommandsSnoc(Msgs(l.sent), rsp);
    assert Commands(Msgs(l.sent)) + [] == Commands(Msgs(l.sent));
  }

  /** The receive thread hands over exactly the oldest stored message. */
  lemma ReceiveTakesOldest(table: set<nat>, stored: seq<Packet>, l: Link)
    requires RxInv(table, l.rx, stored, l.received) && |l.received| < |stored|
    ensures var n := |l.received|;
            ReceiveStep(table, l) ==
            l.(rx := Frame(Wires(stored[n + 1..])), received := l.received + [stored[n].msg])
  {
    hide Le16, FromLe16, Frame, Wire, Legal, Process;
    var n := |l.received|;
    var pending := stored[n..];
    assert forall p | p in pending :: p in stored;
    WiresAreMessages(table, pending);
    RpcQueue.PopTakesOldest(Wires(pending));
    assert Wires(pending)[1..] == Wires(stored[n + 1..]);
    assert pending[0] in stored;
    WireFields(table, pending[0]);
  }

  lemma ReceiveKeepsInv(table: set<nat>, size: nat, l: Link)
    requires Inv(table, size, l)
    ensures Inv(table, size, ReceiveStep(table, l))
  {
    hide Numbered, TxInv, Legal, Wire, Stored, Commands;
    var stored, n := Stored(size, l.sent), |l.received|;
    if n < |stored| {
      hide ReceiveStep, Frame;
      ReceiveTakesOldest(table, stored, l);
      ReceivedOneMore(stored, l.received);
    } else {
      assert Wires(stored[n..]) == [];
    }
  }

  lemma ReceivedOneMore(stored: seq<Packet>, received: seq<Msg>)
    requires received <= Msgs(stored) && |received| < |stored|
    ensures received + [stored[|received|].msg] <= Msgs(stored)
  {
    assert Msgs(stored)[|received|] == stored[|received|].msg;
  }

  lemma NextKeepsInv(table: set<nat>, size: nat, l: Link, step: Step)
    requires Inv(table, size, l) && LegalStep(table, step)
    ensures Inv(table, size, Next(table, size, l, step))
  {
    hide Inv, SendStep, TransmitStep, RespondStep, ReceiveStep, Legal;
    match step {
      case Send(cmd) => SendKeepsInv(table, size, l, cmd);
      case Transmit => TransmitKeepsInv(table, size, l);
      case Respond(rsp) => RespondKeepsInv(table, size, l, rsp);
      case Receive => ReceiveKeepsInv(table, size, l);
    }
  }

  lemma {:induction false} RunKeepsInv(table: set<nat>, size: nat, l: Link, steps: seq<Step>)
    requires Inv(table, size, l) && forall s | s in steps :: LegalStep(table, s)
    ensures Inv(table, size, Run(table, size, l, steps))
    decreases |steps|
  {
    hide Inv, Next, LegalStep;
    if steps == [] {
    } else {
      assert steps[0] in steps;
      NextKeepsInv(table, size, l, steps[0]);
      RunKeepsInv(table, size, Next(table, size, l, steps[0]), steps[1..]);
    }
  }

  /** Over every interleaving, far queue full or not: no assert fires; commands go out in the order they
      were accepted; received messages followed by pending ones are exactly the packets that met room at
      the far end, commands and responses in one order, with code and content unchanged; and every
      packet, dropped or not, takes its number. */
  lemma {:induction false} MessagesArriveInOrder(table: set<nat>, size: nat, steps: seq<Step>)
    requires forall s | s in steps :: LegalStep(table, s)
    ensures var r := Run(table, size, EMPTY, steps);
            var stored := Stored(size, r.sent);
            && !r.failed
            && Commands(Msgs(r.sent)) <= r.accepted
            && r.tx == Frame(Entries(r.accepted[|Commands(Msgs(r.sent))|..]))
            && r.received <= Msgs(stored)
            && r.rx == Frame(Wires(stored[|r.received|..]))
            && Numbered(r.sent)
  {
    EmptyInv(table, size);
    RunKeepsInv(table, size, EMPTY, steps);
  }

  // ---- Progress ----

  lemma ReceiveHelps(table: set<nat>, size: nat, l: Link)
    requires Inv(table, size, l) && |l.received| < |Stored(size, l.sent)|
    ensures var m := Next(table, size, l, Receive);
      && Inv(table, size, m) && m.accepted == l.accepted && m.sent == l.sent && |m.received| == |l.received| + 1
  {
    ReceiveTakesOldest(table, Stored(size, l.sent), l);
    ReceiveKeepsInv(table, size, l);
    hide Inv, ReceiveStep, RxInv;
  }

  /** A command transmitted while the far queue is empty is stored there. */
  lemma TransmitHelps(table: set<nat>, size: nat, l: Link)
    requires Inv(table, size, l) && |l.received| == |Stored(size, l.sent)| && size >= 2 + TMP_BUFFER_SIZE
    requires |Commands(Msgs(l.sent))| < |l.accepted|
    ensures var m := Next(table, size, l, Transmit);
      && Inv(table, size, m) && m.accepted == l.accepted
      && |m.sent| == |l.sent| + 1 && |Stored(size, m.sent)| == |Stored(size, l.sent)| + 1
      && |Commands(Msgs(m.sent))| == |Commands(Msgs(l.sent))| + 1
  {
    hide *;
    var n := |Commands(Msgs(l.sent))|;
    NextIsInTurn(table, size, l);
    TransmitForwardsOldest(table, size, l);
    TransmitKeepsInv(table, size, l);
    OneCommandMore(table, size, l.(tx := Frame(Entries(l.accepted[n + 1..]))), l.accepted[n]);
  }

  lemma NextIsInTurn(table: set<nat>, size: nat, l: Link)
    requires Inv(table, size, l) && |l.received| == |Stored(size, l.sent)|
    requires |Commands(Msgs(l.sent))| < |l.accepted|
    ensures Next(table, size, l, Transmit) == TransmitStep(table, size, l)
    ensures var cmd := l.accepted[|Commands(Msgs(l.sent))|]; cmd.Cmd? && Legal(table, cmd)
    ensures RxInv(table, l.rx, Stored(size, l.sent), l.received) && l.rx == []
    ensures Numbered(l.sent) && l.seqNo == |l.sent| % 65536
  {
    hide RxInv, TransmitStep, Stored, Commands, Numbered, Msgs, Legal;
    EmptyFarQueue(table, Stored(size, l.sent), l);
    assert l.accepted[|Commands(Msgs(l.sent))|] in l.accepted;
  }

  lemma EmptyFarQueue(table: set<nat>, stored: seq<Packet>, l: Link)
    requires RxInv(table, l.rx, stored, l.received) && |l.received| == |stored|
    ensures l.rx == []
  {
    assert Wires(stored[|l.received|..]) == [];
  }

  lemma OneCommandMore(table: set<nat>, size: nat, l: Link, cmd: Msg)
    requires RxInv(table, l.rx, Stored(size, l.sent), l.received) && Numbered(l.sent) && l.seqNo == |l.sent| % 65536
    requires cmd.Cmd? && Legal(table, cmd) && l.rx == [] && size >= 2 + TMP_BUFFER_SIZE
    ensures var m := PutOnLink(size, l, cmd);
      && |m.sent| == |l.sent| + 1 && |Stored(size, m.sent)| == |Stored(size, l.sent)| + 1
      && |Commands(Msgs(m.sent))| == |Commands(Msgs(l.sent))| + 1 && m.accepted == l.accepted
  {
    WireFields(table, Packet(cmd, l.seqNo, 0));
    PutOnLinkStoresIff(table, size, l, cmd);
    CommandsSnoc(Msgs(l.sent), cmd);
    PutOnLinkGrows(size, l, cmd);
    PutOnLinkKeeps(size, l, cmd);
    hide RxInv, PutOnLink, Stored, Commands, Numbered, Wire, Legal, Msgs;
  }

  lemma PutOnLinkKeeps(size: nat, l: Link, msg: Msg)
    ensures PutOnLink(size, l, msg).accepted == l.accepted
  {
  }

  lemma RunFirst(table: set<nat>, size: nat, l: Link, step: Step, rest: seq<Step>)
    ensures Run(table, size, l, [step] + rest) == Run(table, size, Next(table, size, l, step), rest)
  {
    hide Next;
    assert ([step] + rest)[1..] == rest;
  }

  /** From every state reached, transmit thread and far receiver can bring every accepted command across,
      without another packet being dropped. */
  lemma {:induction false} EveryCommandCanArrive(table: set<nat>, size: nat, l: Link) returns (steps: seq<Step>)
    requires Inv(table, size, l) && size >= 2 + TMP_BUFFER_SIZE
    ensures forall step | step in steps :: step.Transmit? || step.Receive?
    ensures var r := Run(table, size, l, steps);
      && Inv(table, size, r) && r.accepted == l.accepted == Commands(Msgs(r.sent))
      && r.received == Msgs(Stored(size, r.sent))
      && |r.sent| - |Stored(size, r.sent)| == |l.sent| - |Stored(size, l.sent)|
    decreases |l.accepted| - |Commands(Msgs(l.sent))|, |Stored(size, l.sent)| - |l.received|
  {
    assert |Commands(Msgs(l.sent))| <= |l.accepted| && |l.received| <= |Stored(size, l.sent)|;
    if |l.received| < |Stored(size, l.sent)| {
      hide *;
      ReceiveHelps(table, size, l);
      var rest := EveryCommandCanArrive(table, size, Next(table, size, l, Receive));
      RunFirst(table, size, l, Receive, rest);
      steps := [Receive] + rest;
    } else if |Commands(Msgs(l.sent))| < |l.accepted| {
      hide *;
      TransmitHelps(table, size, l);
      var rest := EveryCommandCanArrive(table, size, Next(table, size, l, Transmit));
      RunFirst(table, size, l, Transmit, rest);
      steps := [Transmit] + rest;
    } else {
      steps := [];
    }
  }

  lemma {:induction false} CommandsPrefix(ms: seq<Msg>, k: nat)
    requires k <= |ms|
    ensures Commands(ms[..k]) <= Commands(ms)
  {
    if k == |ms| {
      assert ms[..k] == ms;
    } else {
      var n := |ms| - 1;
      assert ms[..n][..k] == ms[..k];
      CommandsPrefix(ms[..n], k);
    }
  }

  lemma {:induction false} StoredAll(size: nat, ps: seq<Packet>)
    requires forall p | p in ps :: HadRoom(size, p)
    ensures Stored(size, ps) == ps
  {
    if ps == [] {
    } else {
      var n := |ps| - 1;
      assert ps[n] in ps && ps == ps[..n] + [ps[n]];
      StoredAll(size, ps[..n]);
    }
  }

  /** In particular, when no packet met a full queue the commands received are the oldest of those
      accepted. */
  lemma {:induction false} CommandsArriveInOrder(table: set<nat>, size: nat, steps: seq<Step>)
    requires forall s | s in steps :: LegalStep(table, s)
    requires forall p | p in Run(table, size, EMPTY, steps).sent :: HadRoom(size, p)
    ensures var r := Run(table, size, EMPTY, steps); !r.failed && Commands(r.received) <= r.accepted
  {
    hide *;
    MessagesArriveInOrder(table, size, steps);
    var r := Run(table, size, EMPTY, steps);
    StoredAll(size, r.sent);
    CommandsPrefix(Msgs(r.sent), |r.received|);
    assert r.received == Msgs(r.sent)[..|r.received|];
  }

  /** The far queue can fill up: of four long responses in a row, with a queue of 2048 bytes and the far
      thread not running, the fourth is dropped. */
  lemma {:induction false} DropWitness(table: set<nat>, rsp: Msg)
    requires rsp.Rsp? && Legal(table, rsp) && |rsp.content| == 506
    ensures var r := Run(table, 2048, EMPTY, [Respond(rsp), Respond(rsp), Respond(rsp), Respond(rsp)]);
            |r.sent| == 4 && |Stored(2048, r.sent)| == 3 && !r.failed
  {
    hide *;
    EmptyFilled(table);
    var step := Respond(rsp);
    var l2 := Next(table, 2048, Next(table, 2048, EMPTY, step), step);
    LongResponse(table, EMPTY, rsp, 0, 0);
    LongResponse(table, Next(table, 2048, EMPTY, step), rsp, 1, 1);
    LongResponse(table, l2, rsp, 2, 2);
    LongResponse(table, Next(table, 2048, l2, step), rsp, 3, 3);
    RunOfFour(table, 2048, EMPTY, step);
    FilledMeans(table, Run(table, 2048, EMPTY, [step, step, step, step]), 4, 3);
  }

  /** After `sent` long responses, `stored` of which are in the queue. */
  ghost predicate Filled(table: set<nat>, l: Link, sent: nat, stored: nat) {
    Inv(table, 2048, l) && |l.sent| == sent && |Stored(2048, l.sent)| == stored && |l.rx| == 514 * stored
  }

  lemma EmptyFilled(table: set<nat>)
    ensures Filled(table, EMPTY, 0, 0)
  {
    EmptyInv(table, 2048);
  }

  lemma FilledMeans(table: set<nat>, l: Link, sent: nat, stored: nat)
    requires Filled(table, l, sent, stored)
    ensures |l.sent| == sent && |Stored(2048, l.sent)| == stored && !l.failed
  {
  }

  lemma LongResponse(table: set<nat>, l: Link, rsp: Msg, sent: nat, stored: nat)
    requires rsp.Rsp? && Legal(table, rsp) && |rsp.content| == 506 && Filled(table, l, sent, stored)
    ensures Filled(table, Next(table, 2048, l, Respond(rsp)), sent + 1, if stored < 3 then stored + 1 else stored)
  {
    RespondKeepsInv(table, 2048, l, rsp);
    PutOnLinkStoresIff(table, 2048, l, rsp);
    RespondPuts(table, 2048, l, rsp);
    LongWire(l.seqNo, |l.rx|, rsp);
    PutOnLinkGrows(2048, l, rsp);
    hide Numbered, TxInv, RxInv, Stored, Wire, Legal, PutOnLink, RespondStep;
  }

  lemma RespondPuts(table: set<nat>, size: nat, l: Link, rsp: Msg)
    requires rsp.Rsp? && Legal(table, rsp)
    ensures Next(table, size, l, Respond(rsp)) == PutOnLink(size, l, rsp)
  {
    hide PutOnLink;
  }

  lemma LongWire(seqNo: nat, fill: nat, rsp: Msg)
    requires rsp.Rsp? && |rsp.content| == 506
    ensures |Wire(Packet(rsp, seqNo, fill))| == 512
  {
  }

  lemma PutOnLinkGrows(size: nat, l: Link, msg: Msg)
    ensures var n, l' := |Wire(Packet(msg, l.seqNo, |l.rx|))|, PutOnLink(size, l, msg);
      && |l'.sent| == |l.sent| + 1
      && (0 < n < 65536 ==> |l'.rx| == |l.rx| + if |l.rx| + 2 + n <= size then 2 + n else 0)
  {
    hide Wire;
  }

  lemma {:induction false} RunOfFour(table: set<nat>, size: nat, l: Link, s: Step)
    ensures var l2 := Next(table, size, Next(table, size, l, s), s);
            Run(table, size, l, [s, s, s, s]) == Next(table, size, Next(table, size, l2, s), s)
  {
    hide Next;
    var l1 := Next(table, size, l, s);
    var l2 := Next(table, size, l1, s);
    var l3 := Next(table, size, l2, s);
    assert [s, s, s, s][1..] == [s, s, s] && [s, s, s][1..] == [s, s] && [s, s][1..] == [s] && [s][1..] == [];
    assert Run(table, size, l3, [s]) == Run(table, size, Next(table, size, l3, s), []);
    assert Run(table, size, l2, [s, s]) == Run(table, size, l3, [s]);
    assert Run(table, size, l1, [s, s, s]) == Run(table, size, l2, [s, s]);
    assert Run(table, size, l, [s, s, s, s]) == Run(table, size, l1, [s, s, s]);
  }
}
