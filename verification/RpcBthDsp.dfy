/** Command and response framing of `apps/app_rpc_old/rpc_bth_dsp.c`. The module is the code of one
    core; `RpcLink` puts two cores at the ends of a link. */
module RpcBthDsp {
  import opened Bytes
  import opened Rings
  import opened CQueues
  import RpcQueue

  const MAX_DATA_PACKET_SIZE := 512
  const TMP_BUFFER_SIZE := 512
  const CMD_RSP := 1
  const CMD_QTY := 9

  /** `ASSERT` stops the core; `Sent` carries the queue's return value or the bytes put on the link. */
  datatype SendResult = SendAsserted | Queued(ret: int) | OnLink(packet: seq<byte>)

  datatype Taken = NothingQueued | TakeAsserted | Dispatch(code: nat, content: seq<byte>)

  /** `Malformed`: the entry is shorter than its headers and the source reads past it. */
  datatype Received =
    | NothingReceived
    | ReceiveAsserted
    | Ignored
    | Malformed
    | Command(code: nat, content: seq<byte>)
    | Response(code: nat, content: seq<byte>)

  function Code(bs: seq<byte>): nat
    requires |bs| >= 2
  {
    FromLe16(bs[0], bs[1])
  }

  function CommandPacket(code: nat, seqNo: nat, content: seq<byte>): seq<byte> {
    Le16(code) + Le16(seqNo) + content
  }

  /** What the transmit thread makes of a queue entry. */
  function TakeEntry(table: set<nat>, entry: seq<byte>): Taken {
    if |entry| > TMP_BUFFER_SIZE then TakeAsserted
    else if |entry| < 2 || Code(entry) !in table then TakeAsserted
    else Dispatch(Code(entry), entry[2..])
  }

  /** What the receive thread makes of a packet. */
  function Process(table: set<nat>, packet: seq<byte>): Received {
    if |packet| > TMP_BUFFER_SIZE then ReceiveAsserted
    else if |packet| < 4 then Malformed
    else
      var code := Code(packet);
      var content := packet[4..];
      if code >= CMD_QTY then Ignored
      else if code !in table then ReceiveAsserted
      else if code != CMD_RSP then Command(code, content)
      else if |content| < 2 then Malformed
      else if Code(content) !in table then ReceiveAsserted
      else Response(Code(content), content[2..])
  }

  class Core {
    const table: set<nat>
    const txQueue: CQueue
    const rxQueue: CQueue
    var cmdSeq: nat

    ghost predicate Valid()
      reads this, txQueue, txQueue.base, rxQueue, rxQueue.base
    {
      && txQueue.Valid() && rxQueue.Valid() && cmdSeq < 65536
      && txQueue != rxQueue && txQueue.base != rxQueue.base
    }

    constructor (table: set<nat>, txQueue: CQueue, rxQueue: CQueue)
      requires txQueue.Valid() && rxQueue.Valid() && txQueue != rxQueue && txQueue.base != rxQueue.base
      ensures Valid() && this.table == table && this.txQueue == txQueue && this.rxQueue == rxQueue && cmdSeq == 0
    {
      this.table, this.txQueue, this.rxQueue, cmdSeq := table, txQueue, rxQueue, 0;
    }

    /** `rpc_bth_dsp_send_cmd` up to the release of the semaphore. */
    method SendCmd(code: nat, content: seq<byte>) returns (r: SendResult)
      requires Valid() && code < 65536
      modifies txQueue, txQueue.base
      ensures Valid()
      ensures if |content| > MAX_DATA_PACKET_SIZE
              then r == SendAsserted && txQueue.Items() == old(txQueue.Items())
              else r.Queued? && (r.ret, txQueue.Items()) ==
                                RpcQueue.Pushed(old(txQueue.Items()), txQueue.size, Le16(code) + content)
    {
      if |content| > MAX_DATA_PACKET_SIZE {
        return SendAsserted;
      }
      var ret := RpcQueue.Push(txQueue, Le16(code) + content);
      return Queued(ret);
    }

    /** One pass of the transmit thread after it acquired the semaphore. */
    method TxTake() returns (r: Taken)
      requires Valid()
      modifies txQueue, txQueue.base
      ensures Valid()
      ensures var items := old(txQueue.Items());
              var n := RpcQueue.HeadLength(items);
              if n == 0 then r == NothingQueued && txQueue.Items() == items
              else if n > TMP_BUFFER_SIZE then r == TakeAsserted && txQueue.Items() == items
              else var (entry, rest) := RpcQueue.Popped(items, n);
                   r == TakeEntry(table, entry) && txQueue.Items() == rest
    {
      if txQueue.LengthOfCQueue() > 0 {
        var sendLength := RpcQueue.GetNextEntryLength(txQueue);
        if sendLength > TMP_BUFFER_SIZE {
          return TakeAsserted;
        }
        if sendLength > 0 {
          var entry := RpcQueue.Pop(txQueue, sendLength);
          if |entry| < 2 || Code(entry) !in table {
            return TakeAsserted;
          }
          return Dispatch(Code(entry), entry[2..]);
        }
      }
      return NothingQueued;
    }

    /** `bth_dsp_transmit_data`. */
    method TransmitData(code: nat, content: seq<byte>) returns (r: SendResult)
      requires Valid() && code < 65536
      modifies this
      ensures Valid() && cmdSeq == (old(cmdSeq) + 1) % 65536
      ensures r == if |content| > MAX_DATA_PACKET_SIZE || code !in table then SendAsserted
                   else OnLink(CommandPacket(code, old(cmdSeq), content))
    {
      var seqNo := cmdSeq;
      cmdSeq := (cmdSeq + 1) % 65536;
      if |content| > MAX_DATA_PACKET_SIZE || code !in table {
        return SendAsserted;
      }
      return OnLink(CommandPacket(code, seqNo, content));
    }

    /** `rpc_bth_dsp_send_cmd_rsp` and the response handler it calls. */
    method SendRsp(rspCode: nat, content: seq<byte>) returns (r: SendResult)
      requires Valid() && rspCode < 65536
      modifies this
      ensures Valid()
      ensures r == if |content| + 2 > MAX_DATA_PACKET_SIZE || CMD_RSP !in table || rspCode !in table
                   then SendAsserted
                   else OnLink(CommandPacket(CMD_RSP, old(cmdSeq), Le16(rspCode) + content))
      ensures cmdSeq == if |content| + 2 > MAX_DATA_PACKET_SIZE || CMD_RSP !in table then old(cmdSeq)
                        else (old(cmdSeq) + 1) % 65536
    {
      hide Le16, FromLe16;
      if |content| > MAX_DATA_PACKET_SIZE || CMD_RSP !in table {
        return SendAsserted;
      }
      var data := Le16(rspCode) + content;
      if |data| > MAX_DATA_PACKET_SIZE {
        return SendAsserted;
      }
      var seqNo := cmdSeq;
      cmdSeq := (cmdSeq + 1) % 65536;
      EntryFields(rspCode, content);
      if Code(data) !in table {
        return SendAsserted;
      }
      return OnLink(CommandPacket(CMD_RSP, seqNo, data));
    }

    /** `bth_dsp_data_received`: the result of the push is dropped. */
    method DataReceived(packet: seq<byte>)
      requires Valid()
      modifies rxQueue, rxQueue.base
      ensures Valid() && rxQueue.Items() == RpcQueue.Pushed(old(rxQueue.Items()), rxQueue.size, packet).1
    {
      var _ := RpcQueue.Push(rxQueue, packet);
    }

    /** `rpc_bth_dsp_rx_queue_data_process_handler`. */
    method RxProcess() returns (r: Received)
      requires Valid()
      modifies rxQueue, rxQueue.base
      ensures Valid()
      ensures var items := old(rxQueue.Items());
              var n := RpcQueue.HeadLength(items);
              if n == 0 then r == NothingReceived && rxQueue.Items() == items
              else if n > TMP_BUFFER_SIZE then r == ReceiveAsserted && rxQueue.Items() == items
              else var (packet, rest) := RpcQueue.Popped(items, n);
                   r == Process(table, packet) && rxQueue.Items() == rest
    {
      if rxQueue.LengthOfCQueue() > 0 {
        var rcvLength := RpcQueue.GetNextEntryLength(rxQueue);
        if rcvLength > TMP_BUFFER_SIZE {
          return ReceiveAsserted;
        }
        if rcvLength > 0 {
          var packet := RpcQueue.Pop(rxQueue, rcvLength);
          return Process(table, packet);
        }
      }
      return NothingReceived;
    }
  }

  // ---- One command, one response, end to end ----

  /** Entry on one core, transmit, receive on the other; queues in between return entries unchanged. */
  function CommandTrip(table: set<nat>, code: nat, seqNo: nat, content: seq<byte>): Received {
    if |content| > MAX_DATA_PACKET_SIZE then ReceiveAsserted
    else match TakeEntry(table, Le16(code) + content)
      case Dispatch(c, x) =>
        if |x| > MAX_DATA_PACKET_SIZE || c !in table then ReceiveAsserted
        else Process(table, CommandPacket(c, seqNo, x))
      case _ => ReceiveAsserted
  }

  function ResponseTrip(table: set<nat>, rspCode: nat, seqNo: nat, content: seq<byte>): Received {
    if |content| + 2 > MAX_DATA_PACKET_SIZE || CMD_RSP !in table || rspCode !in table then ReceiveAsserted
    else Process(table, CommandPacket(CMD_RSP, seqNo, Le16(rspCode) + content))
  }

  lemma EntryFields(code: nat, content: seq<byte>)
    requires code < 65536
    ensures var e := Le16(code) + content;
            |e| == 2 + |content| && Code(e) == code && e[2..] == content
  {
    hide Le16, FromLe16;
    Le16RoundTrip(code);
  }

  lemma PacketFields(code: nat, seqNo: nat, content: seq<byte>)
    requires code < 65536
    ensures var p := CommandPacket(code, seqNo, content);
            |p| == 4 + |content| && Code(p) == code && FromLe16(p[2], p[3]) == seqNo % 65536 && p[4..] == content
  {
    hide Le16, FromLe16;
    Le16RoundTrip(code);
    Le16RoundTrip(seqNo);
  }

  /** The transmit thread dispatches an entry if and only if its code is registered and it fits the buffer. */
  lemma EntryIsDispatchedIff(table: set<nat>, code: nat, content: seq<byte>)
    requires code < 65536
    ensures TakeEntry(table, Le16(code) + content) ==
            if code in table && |content| <= 510 then Dispatch(code, content) else TakeAsserted
  {
    EntryFields(code, content);
    hide Le16, FromLe16;
  }

  /** What the receive thread makes of a packet of any code and content. */
  lemma PacketIsProcessed(table: set<nat>, code: nat, seqNo: nat, content: seq<byte>)
    requires code < 65536
    ensures Process(table, CommandPacket(code, seqNo, content)) ==
            if |content| > 508 then ReceiveAsserted
            else if code >= 9 then Ignored
            else if code !in table then ReceiveAsserted
            else if code != 1 then Command(code, content)
            else if |content| < 2 then Malformed
            else if FromLe16(content[0], content[1]) !in table then ReceiveAsserted
            else Response(FromLe16(content[0], content[1]), content[2..])
  {
    PacketFields(code, seqNo, content);
    hide Le16, FromLe16;
  }

  /** A command of a registered code arrives intact exactly when its content has at most 508 bytes; a
      longer one trips a size assert. */
  lemma CommandArrivesIff(table: set<nat>, code: nat, seqNo: nat, content: seq<byte>)
    requires code in table && code < CMD_QTY && code != CMD_RSP
    ensures CommandTrip(table, code, seqNo, content) ==
            if |content| <= 508 then Command(code, content) else ReceiveAsserted
  {
    EntryFields(code, content);
    PacketFields(code, seqNo, content);
  }

  /** Every other command: it trips an assert if its code is not registered or it is too long, it is dropped
      if its code is past the last one, and code 1 is taken for a response. */
  lemma OtherCommands(table: set<nat>, code: nat, seqNo: nat, content: seq<byte>)
    requires code < 65536 && !(code in table && code < CMD_QTY && code != CMD_RSP)
    ensures CommandTrip(table, code, seqNo, content) ==
            if code !in table || |content| > 508 then ReceiveAsserted
            else if code >= CMD_QTY then Ignored
            else if |content| < 2 then Malformed
            else if FromLe16(content[0], content[1]) !in table then ReceiveAsserted
            else Response(FromLe16(content[0], content[1]), content[2..])
  {
    EntryFields(code, content);
    PacketFields(code, seqNo, content);
    hide Le16, FromLe16;
  }

  /** A response to a registered code arrives intact exactly when its content has at most 506 bytes. */
  lemma ResponseArrivesIff(table: set<nat>, rspCode: nat, seqNo: nat, content: seq<byte>)
    requires CMD_RSP in table && rspCode in table && rspCode < 65536
    ensures ResponseTrip(table, rspCode, seqNo, content) ==
            if |content| <= 506 then Response(rspCode, content) else ReceiveAsserted
  {
    EntryFields(rspCode, content);
    PacketFields(CMD_RSP, seqNo, Le16(rspCode) + content);
  }
}
