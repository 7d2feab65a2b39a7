/** The packets and verdicts of the interception layer. */
module Interceptor {
  import opened Bytes

  const TWO_TO_32: int := 0x1_0000_0000
  type u32 = n: int | 0 <= n < TWO_TO_32

  datatype Direction = Outbound | Inbound

  datatype TcpFlags = TcpFlags(syn: bool, ack: bool, psh: bool, rst: bool, fin: bool, urg: bool)

  datatype PacketView = PacketView(
    direction: Direction,
    srcIp: u32, dstIp: u32, srcPort: u16, dstPort: u16,
    seqNum: u32, ack: u32, flags: TcpFlags, payloadLen: nat)
  {
    predicate IsBareAck() {
      flags.ack && !flags.syn && !flags.rst && !flags.fin && payloadLen == 0
    }

    predicate IsSynAck() {
      flags.syn && flags.ack && !flags.rst && !flags.fin && payloadLen == 0
    }

    predicate IsBareSyn() {
      flags.syn && !flags.ack && !flags.rst && !flags.fin && payloadLen == 0
    }
  }

  datatype Verdict = Accept | AcceptModified | Drop

  // What a bypass method asks the handler to do with a packet.
  datatype MethodAction =
    | EmitFakeAndAccept(completeImmediately: bool, continueWithData: bool)
    | PassThrough
    | CompleteAndAccept
    | AbortAndAccept

  // The flags that tell the three kinds of handshake packets apart; PSH and URG do not matter.
  lemma KindsAreExact(pkt: PacketView)
    ensures var f := pkt.flags;
            && (pkt.IsBareSyn() <==> pkt.payloadLen == 0 && f == TcpFlags(true, false, f.psh, false, false, f.urg))
            && (pkt.IsSynAck() <==> pkt.payloadLen == 0 && f == TcpFlags(true, true, f.psh, false, false, f.urg))
            && (pkt.IsBareAck() <==> pkt.payloadLen == 0 && f == TcpFlags(false, true, f.psh, false, false, f.urg))
  {}

  function WrappingAdd(a: u32, b: u32): u32 { (a + b) % TWO_TO_32 }

  function WrappingSub(a: u32, b: u32): u32 { (a - b) % TWO_TO_32 }

  function Succ(a: u32): (r: u32)
    ensures r == if a == 0xFFFF_FFFF then 0 else a + 1
  {
    WrappingAdd(a, 1)
  }

  lemma SubUndoesAdd(a: u32, b: u32)
    ensures WrappingSub(WrappingAdd(a, b), b) == a && WrappingAdd(WrappingSub(a, b), b) == a
  {}
}
