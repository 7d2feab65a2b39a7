/** The ClientHello wire format (section 4.1.2 of RFC 8446): writing one and reading one. */
module ClientHelloFormat {
  import opened Bytes
  import opened Wrappers

  datatype Extension = Extension(kind: u16, body: seq<byte>)

  datatype ClientHello = ClientHello(
    random: seq<byte>, sessionId: seq<byte>, cipherSuites: seq<byte>, compression: seq<byte>,
    extensions: seq<Extension>)

  // ---- writing: every variable part is preceded by its length ----

  function Len8(v: seq<byte>): seq<byte>
    requires |v| < 0x100
  {
    [|v| as byte] + v
  }

  function Len16(v: seq<byte>): seq<byte>
    requires |v| < 0x1_0000
  {
    WordBytes(|v|) + v
  }

  function Number24(n: nat): (b: seq<byte>)
    requires n < 0x100_0000
    ensures |b| == 3
  {
    [n / 0x100 / 0x100, n / 0x100 % 0x100, n % 0x100]
  }

  function Len24(v: seq<byte>): seq<byte>
    requires |v| < 0x100_0000
  {
    Number24(|v|) + v
  }

  predicate BodiesFit(es: seq<Extension>) {
    forall e :: e in es ==> |e.body| < 0x1_0000
  }

  function WriteExtensions(es: seq<Extension>): seq<byte>
    requires BodiesFit(es)
  {
    if es == [] then [] else WordBytes(es[0].kind) + (Len16(es[0].body) + WriteExtensions(es[1..]))
  }

  predicate PartsFit(h: ClientHello) {
    && |h.random| == 32 && |h.sessionId| < 0x100 && |h.cipherSuites| < 0x1_0000 && |h.compression| < 0x100
    && BodiesFit(h.extensions) && |WriteExtensions(h.extensions)| < 0x1_0000
  }

  function WriteFields(h: ClientHello): seq<byte>
    requires PartsFit(h)
  {
    Len8(h.sessionId) + (Len16(h.cipherSuites) + (Len8(h.compression) + Len16(WriteExtensions(h.extensions))))
  }

  function WriteBody(h: ClientHello): seq<byte>
    requires PartsFit(h)
  {
    [3, 3] + (h.random + WriteFields(h))
  }

  predicate WellFormed(h: ClientHello) { PartsFit(h) && 4 + |WriteBody(h)| < 0x1_0000 }

  function Write(h: ClientHello): seq<byte>
    requires WellFormed(h)
  {
    [0x16, 3, 1] + Len16([1] + Len24(WriteBody(h)))
  }

  // ---- reading: every length must be there and every list must end where its length says ----

  datatype Cut = Cut(body: seq<byte>, rest: seq<byte>)

  function CutAt(b: seq<byte>, n: nat): (c: Option<Cut>)
  {
    if |b| < n then None else Some(Cut(b[..n], b[n..]))
  }

  function Read8(b: seq<byte>): Option<Cut> {
    if b == [] then None else CutAt(b[1..], b[0])
  }

  function Read16(b: seq<byte>): Option<Cut> {
    if |b| < 2 then None else CutAt(b[2..], Word(b[0], b[1]))
  }

  function Value24(b: seq<byte>): nat
    requires |b| == 3
  {
    var high: nat := Word(b[0], b[1]);
    high * 0x100 + b[2]
  }

  function Read24(b: seq<byte>): Option<Cut> {
    if |b| < 3 then None else CutAt(b[3..], Value24(b[..3]))
  }

  function ReadExtensions(b: seq<byte>): Option<seq<Extension>>
    decreases |b|
  {
    if b == [] then Some([])
    else if |b| < 2 then None
    else
      match Read16(b[2..])
      case None => None
      case Some(Cut(body, rest)) =>
        match ReadExtensions(rest)
        case None => None
        case Some(es) => Some([Extension(Word(b[0], b[1]), body)] + es)
  }

  function ReadFields(random: seq<byte>, b: seq<byte>): Option<ClientHello> {
    match Read8(b)
    case None => None
    case Some(Cut(sessionId, b1)) =>
      match Read16(b1)
      case None => None
      case Some(Cut(suites, b2)) =>
        match Read8(b2)
        case None => None
        case Some(Cut(compression, b3)) =>
          match Read16(b3)
          case None => None
          case Some(Cut(list, b4)) =>
            match ReadExtensions(list)
            case None => None
            case Some(es) => if b4 == [] then Some(ClientHello(random, sessionId, suites, compression, es)) else None
  }

  function ReadBody(b: seq<byte>): Option<ClientHello> {
    if |b| < 34 || b[..2] != [3, 3] then None else ReadFields(b[2..34], b[34..])
  }

  function Read(b: seq<byte>): Option<ClientHello> {
    if |b| < 3 || b[..3] != [0x16, 3, 1] then None
    else
      match Read16(b[3..])
      case None => None
      case Some(Cut(handshake, rest)) =>
        if rest != [] || handshake == [] || handshake[0] != 1 then None
        else
          match Read24(handshake[1..])
          case None => None
          case Some(Cut(body, rest')) => if rest' == [] then ReadBody(body) else None
  }

  // ---- reading undoes writing, and writing undoes reading ----

  lemma Apart(p: seq<byte>, t: seq<byte>)
    ensures (p + t)[..|p|] == p && (p + t)[|p|..] == t
  {}

  lemma Rejoin(b: seq<byte>, n: nat)
    requires n <= |b|
    ensures b[..n] + b[n..] == b
  {}

  lemma Read8Back(v: seq<byte>, rest: seq<byte>)
    requires |v| < 0x100
    ensures Read8(Len8(v) + rest) == Some(Cut(v, rest))
  {
    Regroup([|v| as byte], v, rest);
    Apart([|v| as byte], v + rest);
    Apart(v, rest);
  }

  lemma Read16Back(v: seq<byte>, rest: seq<byte>)
    requires |v| < 0x1_0000
    ensures Read16(Len16(v) + rest) == Some(Cut(v, rest))
  {
    Regroup(WordBytes(|v|), v, rest);
    Apart(WordBytes(|v|), v + rest);
    Apart(v, rest);
  }

  lemma NumberBack(n: nat)
    requires n < 0x100_0000
    ensures Value24(Number24(n)) == n
  {}

  lemma Read24Back(v: seq<byte>, rest: seq<byte>)
    requires |v| < 0x100_0000
    ensures Read24(Len24(v) + rest) == Some(Cut(v, rest))
  {
    NumberBack(|v|);
    Regroup(Number24(|v|), v, rest);
    Apart(Number24(|v|), v + rest);
    Apart(v, rest);
  }

  lemma {:induction false} ReadExtensionsBack(es: seq<Extension>)
    requires BodiesFit(es)
    ensures ReadExtensions(WriteExtensions(es)) == Some(es)
  {
    if es != [] {
      var rest := WriteExtensions(es[1..]);
      var b := WriteExtensions(es);
      Apart(WordBytes(es[0].kind), Len16(es[0].body) + rest);
      Read16Back(es[0].body, rest);
      ReadExtensionsBack(es[1..]);
      assert [es[0]] + es[1..] == es;
    }
  }

  // The chain of reads that finds the fields of h in b0.
  ghost predicate Chain(h: ClientHello, b0: seq<byte>, b1: seq<byte>, b2: seq<byte>, b3: seq<byte>, list: seq<byte>) {
    && Read8(b0) == Some(Cut(h.sessionId, b1)) && Read16(b1) == Some(Cut(h.cipherSuites, b2))
    && Read8(b2) == Some(Cut(h.compression, b3)) && Read16(b3) == Some(Cut(list, []))
    && ReadExtensions(list) == Some(h.extensions)
  }

  lemma ChainReads(h: ClientHello, b0: seq<byte>, b1: seq<byte>, b2: seq<byte>, b3: seq<byte>, list: seq<byte>)
    requires Chain(h, b0, b1, b2, b3, list)
    ensures ReadFields(h.random, b0) == Some(h)
  {}

  lemma ReadFieldsBack(h: ClientHello)
    requires PartsFit(h)
    ensures ReadFields(h.random, WriteFields(h)) == Some(h)
  {
    var list := WriteExtensions(h.extensions);
    var b3 := Len16(list);
    var b2 := Len8(h.compression) + b3;
    var b1 := Len16(h.cipherSuites) + b2;
    assert Chain(h, WriteFields(h), b1, b2, b3, list) by {
      Read8Back(h.sessionId, b1);
      Read16Back(h.cipherSuites, b2);
      Read8Back(h.compression, b3);
      assert b3 + [] == b3;
      Read16Back(list, []);
      ReadExtensionsBack(h.extensions);
    }
    ChainReads(h, WriteFields(h), b1, b2, b3, list);
  }

  lemma BodyApart(version: seq<byte>, random: seq<byte>, fields: seq<byte>)
    requires |version| == 2 && |random| == 32
    ensures var b := version + (random + fields); b[..2] == version && b[2..34] == random && b[34..] == fields
  {}

  lemma ReadBodyBack(h: ClientHello)
    requires PartsFit(h)
    ensures ReadBody(WriteBody(h)) == Some(h)
  {
    BodyApart([3, 3], h.random, WriteFields(h));
    ReadFieldsBack(h);
  }

  // Reading what was written gives the message back.
  lemma ReadUndoesWrite(h: ClientHello)
    requires WellFormed(h)
    ensures Read(Write(h)) == Some(h)
  {
    var body := WriteBody(h);
    var handshake := [1] + Len24(body);
    var b := Write(h);
    assert b[3..] == Len16(handshake) == Len16(handshake) + [];
    Read16Back(handshake, []);
    assert handshake[1..] == Len24(body) == Len24(body) + [];
    Read24Back(body, []);
    ReadBodyBack(h);
  }

  lemma CutExactly(b: seq<byte>, n: nat)
    requires CutAt(b, n).Some?
    ensures var c := CutAt(b, n).value; |c.body| == n && c.body + c.rest == b
  {}

  lemma Read8Exactly(b: seq<byte>)
    requires Read8(b).Some?
    ensures var c := Read8(b).value; |c.body| < 0x100 && Len8(c.body) + c.rest == b
  {
    var c := Read8(b).value;
    CutExactly(b[1..], b[0]);
    Regroup([b[0]], c.body, c.rest);
    Rejoin(b, 1);
  }

  lemma WordIsItsBytes(hi: byte, lo: byte)
    ensures WordBytes(Word(hi, lo)) == [hi, lo]
  {}

  lemma Read16Exactly(b: seq<byte>)
    requires Read16(b).Some?
    ensures var c := Read16(b).value; |c.body| < 0x1_0000 && Len16(c.body) + c.rest == b
  {
    var c, n := Read16(b).value, Word(b[0], b[1]);
    CutExactly(b[2..], n);
    WordIsItsBytes(b[0], b[1]);
    assert WordBytes(|c.body|) == b[..2];
    Regroup(b[..2], c.body, c.rest);
    Rejoin(b, 2);
  }

  lemma LastByte(high: nat, low: byte)
    ensures (high * 0x100 + low) / 0x100 == high && (high * 0x100 + low) % 0x100 == low
  {}

  lemma ValueIsItsNumber(b: seq<byte>)
    requires |b| == 3
    ensures Value24(b) < 0x100_0000 && Number24(Value24(b)) == b
  {
    LastByte(Word(b[0], b[1]), b[2]);
    LastByte(b[0], b[1]);
  }

  lemma Read24Exactly(b: seq<byte>)
    requires Read24(b).Some?
    ensures var c := Read24(b).value; |c.body| < 0x100_0000 && Len24(c.body) + c.rest == b
  {
    var c := Read24(b).value;
    ValueIsItsNumber(b[..3]);
    CutExactly(b[3..], Value24(b[..3]));
    Regroup(b[..3], c.body, c.rest);
    Rejoin(b, 3);
  }

  lemma OneMoreExtension(b: seq<byte>, body: seq<byte>, rest: seq<byte>, es: seq<Extension>)
    requires |b| >= 2 && |body| < 0x1_0000 && b[2..] == Len16(body) + rest
    requires BodiesFit(es) && WriteExtensions(es) == rest
    ensures WriteExtensions([Extension(Word(b[0], b[1]), body)] + es) == b
  {
    var all := [Extension(Word(b[0], b[1]), body)] + es;
    assert all[1..] == es;
    WordIsItsBytes(b[0], b[1]);
    assert b[..2] == WordBytes(all[0].kind);
    Rejoin(b, 2);
  }

  lemma {:induction false} ReadExtensionsExactly(b: seq<byte>)
    requires ReadExtensions(b).Some?
    ensures BodiesFit(ReadExtensions(b).value) && WriteExtensions(ReadExtensions(b).value) == b
    decreases |b|
  {
    if b != [] {
      Read16Exactly(b[2..]);
      var c := Read16(b[2..]).value;
      ReadExtensionsExactly(c.rest);
      OneMoreExtension(b, c.body, c.rest, ReadExtensions(c.rest).value);
    }
  }

  lemma ThreeParts(b: seq<byte>, m: nat, n: nat)
    requires m <= n <= |b|
    ensures b[..m] + (b[m..n] + b[n..]) == b
  {}

  lemma ChainIsWritten(h: ClientHello, b0: seq<byte>, b1: seq<byte>, b2: seq<byte>, b3: seq<byte>, list: seq<byte>)
    requires Chain(h, b0, b1, b2, b3, list) && |h.random| == 32
    ensures PartsFit(h) && WriteFields(h) == b0
  {
    Read8Exactly(b0);
    Read16Exactly(b1);
    Read8Exactly(b2);
    Read16Exactly(b3);
    ReadExtensionsExactly(list);
    assert Len16(list) + [] == Len16(list);
  }

  lemma ReadBodyExactly(b: seq<byte>)
    requires ReadBody(b).Some?
    ensures PartsFit(ReadBody(b).value) && WriteBody(ReadBody(b).value) == b
  {
    var b1 := Read8(b[34..]).value.rest;
    var b2 := Read16(b1).value.rest;
    var b3 := Read8(b2).value.rest;
    ChainIsWritten(ReadBody(b).value, b[34..], b1, b2, b3, Read16(b3).value.body);
    ThreeParts(b, 2, 34);
  }

  lemma MessageOf(b: seq<byte>, h: ClientHello, handshake: seq<byte>)
    requires |b| >= 3 && b[..3] == [0x16, 3, 1] && |handshake| < 0x1_0000 && b[3..] == Len16(handshake)
    requires handshake != [] && handshake[0] == 1 && PartsFit(h)
    requires |WriteBody(h)| < 0x100_0000 && handshake[1..] == Len24(WriteBody(h))
    ensures WellFormed(h) && Write(h) == b
  {
    Rejoin(handshake, 1);
    Rejoin(b, 3);
    assert handshake == [1] + Len24(WriteBody(h));
  }

  // The reader accepts nothing but what the writer writes: no other bytes mean the same message.
  lemma WriteUndoesRead(b: seq<byte>)
    requires Read(b).Some?
    ensures WellFormed(Read(b).value) && Write(Read(b).value) == b
  {
    Read16Exactly(b[3..]);
    var handshake := Read16(b[3..]).value.body;
    assert Len16(handshake) + [] == Len16(handshake);
    Read24Exactly(handshake[1..]);
    var body := Read24(handshake[1..]).value.body;
    assert Len24(body) + [] == Len24(body);
    ReadBodyExactly(body);
    MessageOf(b, Read(b).value, handshake);
  }
}
