/** The 517-byte ClientHello made from a template, whatever the server name. */
module TlsTemplate {
  import opened Bytes
  import opened ClientHelloFormat
  import opened Wrappers

  const CLIENT_HELLO_LEN := 517
  const MAX_SNI_LEN := 219

  // ---- the template, in hexadecimal ----

  // An extension: its type and length, then its body.
  datatype Row = Row(head: string, body: string)

  const POINT_FORMATS := Row("000b0004", "03000102")
  const GROUPS := Row("000a0016", "0014001d0017001e" + "0019001801000101" + "010201030104")
  const TICKET := Row("00230000", "")
  const ALPN := Row("0010000e", "000c026832086874" + "74702f312e31")
  const ETM := Row("00160000", "")
  const EMS := Row("00170000", "")
  const SIGNATURES := Row("000d002a",
    "0028040305030603" + "080708080809080a" + "080b080408050806" + "0401050106010303" + ("0301030204020502" + "0602"))
  const VERSIONS := Row("002b0005", "0403040303")
  const PSK_MODES := Row("002d0002", "0101")

  function RowsHex(rows: seq<Row>): string {
    if rows == [] then "" else RowsHex(rows[..|rows| - 1]) + (rows[|rows| - 1].head + rows[|rows| - 1].body)
  }

  const PREFIX_HEX := "1603010200" + "010001fc" + "0303"
  const RANDOM_HEX := "41d5b549d9cd1adf" + "a7296c8418d157dc" + "7b624c842824ff49" + "3b9375bb48d34f2b"
  const SESSION_HEX := "20" + "bf018bcc90a7c89a" + "230094815ad0c15b" + "736e38c01209d72d" + "282cb5e210532815"
  const SUITES_HEX :=
    "130213031301c02c" + "c030c02bc02fcca9" + "cca8c024c028c023" + "c027009f009e006b" + "006700ff"
  const CIPHERS_HEX := "0024" + SUITES_HEX + "0100" + "018f" + "0000"
  const SNI_HEX := "000b0009000006" + "6d63692e6972"
  const STATIC_ROWS := [POINT_FORMATS, GROUPS, TICKET, ALPN, ETM, EMS, SIGNATURES, VERSIONS, PSK_MODES]
  const KEY_HEAD_HEX := "00330026" + "0024001d0020"
  const KEY_HEX := "435bacc4d05f9d41" + "fef44ab3ad55616c" + "36e0613473e23387" + "70efdaa98693d217"
  const PADDING_HEX := "0015" + "00d5" + seq(426, _ => '0')

  const TEMPLATE_HEX: string :=
    PREFIX_HEX + RANDOM_HEX + SESSION_HEX + CIPHERS_HEX + SNI_HEX + (RowsHex(STATIC_ROWS) + KEY_HEAD_HEX) + KEY_HEX
    + PADDING_HEX

  predicate IsHexDigit(c: char) { '0' <= c <= '9' || 'a' <= c <= 'f' || 'A' <= c <= 'F' }

  predicate IsHex(s: string) { |s| % 2 == 0 && forall i :: 0 <= i < |s| ==> IsHexDigit(s[i]) }

  // The value of a hexadecimal digit.
  function Digit(c: char): (d: nat)
    ensures d < 16
  {
    if '0' <= c <= '9' then c as int - '0' as int
    else if 'a' <= c <= 'f' then c as int - 'a' as int + 10
    else if 'A' <= c <= 'F' then c as int - 'A' as int + 10
    else 0
  }

  // A digit is worth its place among the digits, in either case.
  lemma DigitIsItsPlace(i: nat)
    requires i < 16
    ensures Digit("0123456789abcdef"[i]) == i && Digit("0123456789ABCDEF"[i]) == i
  {}

  function HexBytes(s: string): (b: seq<byte>)
    ensures |b| == |s| / 2
  {
    seq(|s| / 2, i requires 0 <= i < |s| / 2 => (16 * Digit(s[2 * i]) + Digit(s[2 * i + 1])) as byte)
  }

  lemma HexJoin(a: string, b: string)
    requires |a| % 2 == 0
    ensures HexBytes(a + b) == HexBytes(a) + HexBytes(b)
    ensures IsHex(a) && IsHex(b) ==> IsHex(a + b)
  {}

  lemma Hex5(a: string, b: string, c: string, d: string, e: string)
    requires IsHex(a) && IsHex(b) && IsHex(c) && IsHex(d) && IsHex(e)
    ensures IsHex(a + b + c + d + e)
  {
    HexJoin(a, b);
    HexJoin(a + b, c);
    HexJoin(a + b + c, d);
    HexJoin(a + b + c + d, e);
  }

  lemma PrefixIsHex()
    ensures IsHex(PREFIX_HEX) && |PREFIX_HEX| == 22
  {
    HexJoin("1603010200", "010001fc");
    HexJoin("1603010200" + "010001fc", "0303");
  }

  lemma RandomIsHex()
    ensures IsHex(RANDOM_HEX) && |RANDOM_HEX| == 64
  {
    HexJoin("41d5b549d9cd1adf", "a7296c8418d157dc");
    HexJoin("41d5b549d9cd1adf" + "a7296c8418d157dc", "7b624c842824ff49");
    HexJoin("41d5b549d9cd1adf" + "a7296c8418d157dc" + "7b624c842824ff49", "3b9375bb48d34f2b");
  }

  lemma SessionIsHex()
    ensures IsHex(SESSION_HEX) && |SESSION_HEX| == 66
  {
    Hex5("20", "bf018bcc90a7c89a", "230094815ad0c15b", "736e38c01209d72d", "282cb5e210532815");
  }

  lemma CiphersIsHex()
    ensures IsHex(SUITES_HEX) && |SUITES_HEX| == 72
    ensures IsHex(CIPHERS_HEX) && |CIPHERS_HEX| == 88
  {
    Hex5("130213031301c02c", "c030c02bc02fcca9", "cca8c024c028c023", "c027009f009e006b", "006700ff");
    Hex5("0024", SUITES_HEX, "0100", "018f", "0000");
  }

  lemma SniIsHex()
    ensures IsHex(SNI_HEX) && |SNI_HEX| == 26
  {
    HexJoin("000b0009000006", "6d63692e6972");
  }

  // ---- the extensions the template carries unchanged ----

  // The number that four hexadecimal digits spell.
  function HexWord(s: string, at: nat): (w: u16)
    requires at + 4 <= |s|
  {
    0x1000 * Digit(s[at]) + 0x100 * Digit(s[at + 1]) + 0x10 * Digit(s[at + 2]) + Digit(s[at + 3])
  }

  lemma HeadIsWords(head: string)
    requires |head| == 8
    ensures HexBytes(head) == WordBytes(HexWord(head, 0)) + WordBytes(HexWord(head, 4))
  {
    var b := HexBytes(head);
    WordIsItsBytes(b[0], b[1]);
    WordIsItsBytes(b[2], b[3]);
    assert Word(b[0], b[1]) == HexWord(head, 0) && Word(b[2], b[3]) == HexWord(head, 4);
    assert b == [b[0], b[1]] + [b[2], b[3]];
  }

  predicate RowFits(r: Row) {
    |r.head| == 8 && IsHex(r.head) && IsHex(r.body) && HexWord(r.head, 4) == |r.body| / 2
  }

  function RowExtension(r: Row): Extension
    requires |r.head| == 8
  {
    Extension(HexWord(r.head, 0), HexBytes(r.body))
  }

  function RowsExtensions(rows: seq<Row>): (es: seq<Extension>)
    requires forall i :: 0 <= i < |rows| ==> RowFits(rows[i])
    ensures |es| == |rows| && BodiesFit(es)
  {
    seq(|rows|, i requires 0 <= i < |rows| && RowFits(rows[i]) => RowExtension(rows[i]))
  }

  lemma {:induction false} WriteExtensionsOfSum(a: seq<Extension>, b: seq<Extension>)
    requires BodiesFit(a) && BodiesFit(b)
    ensures BodiesFit(a + b) && WriteExtensions(a + b) == WriteExtensions(a) + WriteExtensions(b)
  {
    if a == [] {
      assert a + b == b;
    } else {
      assert (a + b)[1..] == a[1..] + b;
      WriteExtensionsOfSum(a[1..], b);
      var head := WordBytes(a[0].kind);
      Regroup(Len16(a[0].body), WriteExtensions(a[1..]), WriteExtensions(b));
      Regroup(head, Len16(a[0].body) + WriteExtensions(a[1..]), WriteExtensions(b));
    }
  }

  lemma WriteOneExtension(e: Extension)
    requires |e.body| < 0x1_0000
    ensures BodiesFit([e]) && WriteExtensions([e]) == WordBytes(e.kind) + Len16(e.body)
  {
    assert [e][1..] == [];
    assert Len16(e.body) + [] == Len16(e.body);
  }

  lemma RowIsExtension(r: Row)
    requires RowFits(r)
    ensures IsHex(r.head + r.body) && HexBytes(r.head + r.body) == WriteExtensions([RowExtension(r)])
  {
    HexJoin(r.head, r.body);
    HeadIsWords(r.head);
    Regroup(WordBytes(HexWord(r.head, 0)), WordBytes(HexWord(r.head, 4)), HexBytes(r.body));
    WriteOneExtension(RowExtension(r));
  }

  // The hexadecimal rows spell exactly the extensions they describe.
  lemma {:induction false} RowsAreExtensions(rows: seq<Row>)
    requires forall i :: 0 <= i < |rows| ==> RowFits(rows[i])
    ensures IsHex(RowsHex(rows)) && HexBytes(RowsHex(rows)) == WriteExtensions(RowsExtensions(rows))
  {
    if rows != [] {
      var front, r := rows[..|rows| - 1], rows[|rows| - 1];
      RowsAreExtensions(front);
      RowIsExtension(r);
      HexJoin(RowsHex(front), r.head + r.body);
      WriteExtensionsOfSum(RowsExtensions(front), [RowExtension(r)]);
      assert RowsExtensions(rows) == RowsExtensions(front) + [RowExtension(r)];
    }
  }

  // The template's own extensions leave these three types to the caller's values.
  predicate IsVariable(kind: u16) { kind == 0 || kind == 0x15 || kind == 0x33 }

  predicate IsStatic(r: Row) { RowFits(r) && !IsVariable(RowExtension(r).kind) }

  lemma GroupsRow()
    ensures IsStatic(GROUPS)
  {
    HexJoin("0014001d0017001e", "0019001801000101");
    HexJoin("0014001d0017001e" + "0019001801000101", "010201030104");
  }

  lemma AlpnRow()
    ensures IsStatic(ALPN)
  {
    HexJoin("000c026832086874", "74702f312e31");
  }

  lemma SignaturesRow()
    ensures IsStatic(SIGNATURES)
  {
    HexJoin("0301030204020502", "0602");
    Hex5("0028040305030603", "080708080809080a", "080b080408050806", "0401050106010303", "0301030204020502" + "0602");
  }

  lemma EmptyRows()
    ensures IsStatic(TICKET) && IsStatic(ETM) && IsStatic(EMS)
  {}

  lemma ShortRows()
    ensures IsStatic(POINT_FORMATS) && IsStatic(PSK_MODES)
  {}

  lemma VersionsRow()
    ensures IsStatic(VERSIONS)
  {}

  predicate AllStatic(rows: seq<Row>) { forall i :: 0 <= i < |rows| ==> IsStatic(rows[i]) }

  lemma NineAreStatic(a: Row, b: Row, c: Row, d: Row, e: Row, f: Row, g: Row, h: Row, i: Row)
    requires IsStatic(a) && IsStatic(b) && IsStatic(c) && IsStatic(d) && IsStatic(e)
    requires IsStatic(f) && IsStatic(g) && IsStatic(h) && IsStatic(i)
    ensures AllStatic([a, b, c, d, e, f, g, h, i])
  {}

  lemma StaticRows()
    ensures AllStatic(STATIC_ROWS)
  {
    ShortRows();
    GroupsRow();
    EmptyRows();
    AlpnRow();
    SignaturesRow();
    VersionsRow();
    NineAreStatic(POINT_FORMATS, GROUPS, TICKET, ALPN, ETM, EMS, SIGNATURES, VERSIONS, PSK_MODES);
  }

  lemma RowsGrow(rows: seq<Row>, r: Row) returns (more: seq<Row>)
    ensures more == rows + [r] && |RowsHex(more)| == |RowsHex(rows)| + |r.head| + |r.body|
  {
    more := rows + [r];
    assert more[..|rows|] == rows;
  }

  lemma StaticSize()
    ensures |STATIC_ROWS| == 9 && |RowsHex(STATIC_ROWS)| == 250
  {
    var rows := RowsGrow([], POINT_FORMATS);
    rows := RowsGrow(rows, GROUPS);
    rows := RowsGrow(rows, TICKET);
    rows := RowsGrow(rows, ALPN);
    rows := RowsGrow(rows, ETM);
    rows := RowsGrow(rows, EMS);
    rows := RowsGrow(rows, SIGNATURES);
    rows := RowsGrow(rows, VERSIONS);
    rows := RowsGrow(rows, PSK_MODES);
    assert rows == STATIC_ROWS;
  }

  // ---- where the parts of the template are ----

  lemma HexSum8(a: string, b: string, c: string, d: string, e: string, f: string, g: string, h: string)
    requires IsHex(a) && IsHex(b) && IsHex(c) && IsHex(d) && IsHex(e) && IsHex(f) && IsHex(g) && IsHex(h)
    ensures IsHex(a + b + c + d + e + f + g + h)
    ensures HexBytes(a + b + c + d + e + f + g + h)
         == HexBytes(a) + HexBytes(b) + HexBytes(c) + HexBytes(d) + HexBytes(e) + HexBytes(f) + HexBytes(g)
            + HexBytes(h)
  {
    HexJoin(a, b);
    HexJoin(a + b, c);
    HexJoin(a + b + c, d);
    HexJoin(a + b + c + d, e);
    HexJoin(a + b + c + d + e, f);
    HexJoin(a + b + c + d + e + f, g);
    HexJoin(a + b + c + d + e + f + g, h);
  }

  ghost predicate IsMadeOf(t: seq<byte>, a: seq<byte>, b: seq<byte>, c: seq<byte>, d: seq<byte>, e: seq<byte>,
                           f: seq<byte>, g: seq<byte>, h: seq<byte>)
  {
    && |a| == 11 && |b| == 32 && |c| == 33 && |d| == 44 && |e| == 13 && |f| == 135 && |g| == 32 && |h| == 217
    && t == a + b + c + d + e + f + g + h
  }

  lemma PartsAreSlices(t: seq<byte>, a: seq<byte>, b: seq<byte>, c: seq<byte>, d: seq<byte>, e: seq<byte>,
                       f: seq<byte>, g: seq<byte>, h: seq<byte>)
    requires IsMadeOf(t, a, b, c, d, e, f, g, h)
    ensures |t| == CLIENT_HELLO_LEN && t[..11] == a && t[11..43] == b && t[43..76] == c && t[76..120] == d
    ensures t[120..133] == e && t[133..268] == f && t[268..300] == g && t[300..] == h
  {}

  lemma KeyIsHex()
    ensures IsHex(KEY_HEX) && |KEY_HEX| == 64
  {
    HexJoin("435bacc4d05f9d41", "fef44ab3ad55616c");
    HexJoin("435bacc4d05f9d41" + "fef44ab3ad55616c", "36e0613473e23387");
    HexJoin("435bacc4d05f9d41" + "fef44ab3ad55616c" + "36e0613473e23387", "70efdaa98693d217");
  }

  function Zeros(n: nat): (z: seq<byte>)
    ensures |z| == n && forall i :: 0 <= i < n ==> z[i] == 0
  {
    seq(n, _ => 0)
  }

  lemma PaddingIsHex()
    ensures IsHex(PADDING_HEX) && |PADDING_HEX| == 434
    ensures HexBytes(PADDING_HEX) == [0, 0x15, 0, 0xd5] + Zeros(213)
  {
    var zeros: string := seq(426, _ => '0');
    HexJoin("0015", "00d5");
    HexJoin("0015" + "00d5", zeros);
    assert HexBytes("0015") + HexBytes("00d5") == [0, 0x15, 0, 0xd5];
    assert HexBytes(zeros) == Zeros(213);
  }

  lemma KeyShareHead()
    ensures IsHex("00330026") && HexBytes("00330026") == [0, 0x33, 0, 0x26]
  {}

  lemma KeyShareGroup()
    ensures IsHex("0024001d0020") && HexBytes("0024001d0020") == [0, 0x24, 0, 0x1d, 0, 0x20]
  {}

  lemma KeyHeadIsHex()
    ensures IsHex(KEY_HEAD_HEX) && HexBytes(KEY_HEAD_HEX) == [0, 0x33, 0, 0x26] + [0, 0x24, 0, 0x1d, 0, 0x20]
  {
    KeyShareHead();
    KeyShareGroup();
    HexJoin("00330026", "0024001d0020");
  }

  function StaticExtensions(): (es: seq<Extension>)
    ensures BodiesFit(es) && |es| == 9
  {
    StaticRows();
    StaticSize();
    RowsExtensions(STATIC_ROWS)
  }

  lemma ExtensionsPart()
    ensures IsHex(RowsHex(STATIC_ROWS) + KEY_HEAD_HEX) && |RowsHex(STATIC_ROWS) + KEY_HEAD_HEX| == 270
    ensures HexBytes(RowsHex(STATIC_ROWS) + KEY_HEAD_HEX)
         == WriteExtensions(StaticExtensions()) + HexBytes(KEY_HEAD_HEX)
    ensures |WriteExtensions(StaticExtensions())| == 125
  {
    StaticRows();
    StaticSize();
    RowsAreExtensions(STATIC_ROWS);
    KeyHeadIsHex();
    HexJoin(RowsHex(STATIC_ROWS), KEY_HEAD_HEX);
  }

  lemma TemplateParts()
    ensures IsHex(TEMPLATE_HEX)
    ensures IsMadeOf(HexBytes(TEMPLATE_HEX), HexBytes(PREFIX_HEX), HexBytes(RANDOM_HEX), HexBytes(SESSION_HEX),
                     HexBytes(CIPHERS_HEX), HexBytes(SNI_HEX), HexBytes(RowsHex(STATIC_ROWS) + KEY_HEAD_HEX),
                     HexBytes(KEY_HEX), HexBytes(PADDING_HEX))
  {
    PrefixIsHex();
    RandomIsHex();
    SessionIsHex();
    CiphersIsHex();
    SniIsHex();
    ExtensionsPart();
    KeyIsHex();
    PaddingIsHex();
    HexSum8(PREFIX_HEX, RANDOM_HEX, SESSION_HEX, CIPHERS_HEX, SNI_HEX, RowsHex(STATIC_ROWS) + KEY_HEAD_HEX, KEY_HEX,
            PADDING_HEX);
  }

  // ---- the message the caller asks for ----

  // The body of a server_name extension with one host name (section 3 of RFC 6066).
  function ServerName(sni: seq<byte>): (b: seq<byte>)
    requires |sni| <= MAX_SNI_LEN
    ensures |b| == |sni| + 5
  {
    Len16([0] + Len16(sni))
  }

  // The body of a key_share extension with one X25519 key (section 4.2.8 of RFC 8446).
  function KeyShare(key: seq<byte>): (b: seq<byte>)
    requires |key| == 32
    ensures |b| == 38
  {
    Len16([0, 0x1d] + Len16(key))
  }

  ghost predicate Sized(random: seq<byte>, sessionId: seq<byte>, sni: seq<byte>, key: seq<byte>) {
    |random| == 32 && |sessionId| == 32 && |sni| <= MAX_SNI_LEN && |key| == 32
  }

  function HelloFor(random: seq<byte>, sessionId: seq<byte>, sni: seq<byte>, key: seq<byte>): ClientHello
    requires |sni| <= MAX_SNI_LEN && |key| == 32
  {
    ClientHello(random, sessionId, HexBytes(SUITES_HEX), [0],
                [Extension(0, ServerName(sni))] + StaticExtensions()
                + [Extension(0x33, KeyShare(key)), Extension(0x15, Zeros(MAX_SNI_LEN - |sni|))])
  }

  lemma HelloExtensions(sni: seq<byte>, key: seq<byte>)
    requires |sni| <= MAX_SNI_LEN && |key| == 32
    ensures var es := [Extension(0, ServerName(sni))] + StaticExtensions()
                      + [Extension(0x33, KeyShare(key)), Extension(0x15, Zeros(MAX_SNI_LEN - |sni|))];
            && BodiesFit(es) && |WriteExtensions(es)| == 399
            && WriteExtensions(es) == ([0, 0] + Len16(ServerName(sni))) + WriteExtensions(StaticExtensions())
                                      + (([0, 0x33] + Len16(KeyShare(key)))
                                         + ([0, 0x15] + Len16(Zeros(MAX_SNI_LEN - |sni|))))
  {
    ExtensionsPart();
    WriteAround(Extension(0, ServerName(sni)), StaticExtensions(), Extension(0x33, KeyShare(key)),
                Extension(0x15, Zeros(MAX_SNI_LEN - |sni|)));
    assert WordBytes(0) == [0, 0] && WordBytes(0x33) == [0, 0x33] && WordBytes(0x15) == [0, 0x15];
  }

  lemma WriteAround(a: Extension, es: seq<Extension>, b: Extension, c: Extension)
    requires |a.body| < 0x1_0000 && BodiesFit(es) && |b.body| < 0x1_0000 && |c.body| < 0x1_0000
    ensures BodiesFit([a] + es + [b, c])
    ensures WriteExtensions([a] + es + [b, c])
         == (WordBytes(a.kind) + Len16(a.body)) + WriteExtensions(es)
            + ((WordBytes(b.kind) + Len16(b.body)) + (WordBytes(c.kind) + Len16(c.body)))
  {
    WriteOneExtension(a);
    WriteOneExtension(b);
    WriteOneExtension(c);
    assert [b, c] == [b] + [c];
    WriteExtensionsOfSum([b], [c]);
    WriteExtensionsOfSum([a], es);
    WriteExtensionsOfSum([a] + es, [b, c]);
  }

  // What the builder strings together.
  ghost function Strung(random: seq<byte>, sessionId: seq<byte>, sni: seq<byte>, key: seq<byte>): seq<byte>
    requires Sized(random, sessionId, sni, key)
  {
    HexBytes(PREFIX_HEX) + random + [0x20] + sessionId + HexBytes(CIPHERS_HEX) + Len16(ServerName(sni))
    + HexBytes(RowsHex(STATIC_ROWS) + KEY_HEAD_HEX) + key + [0, 0x15] + Len16(Zeros(MAX_SNI_LEN - |sni|))
  }

  lemma CipherLengths()
    ensures HexBytes("0024") == [0, 0x24] && HexBytes("0100") == [1, 0] && HexBytes("018f") == [1, 0x8f]
    ensures HexBytes("0000") == [0, 0]
  {}

  lemma HexSum5(a: string, b: string, c: string, d: string, e: string)
    requires |a| % 2 == 0 && |b| % 2 == 0 && |c| % 2 == 0 && |d| % 2 == 0
    ensures HexBytes(a + b + c + d + e) == HexBytes(a) + HexBytes(b) + HexBytes(c) + HexBytes(d) + HexBytes(e)
  {
    HexJoin(a, b);
    HexJoin(a + b, c);
    HexJoin(a + b + c, d);
    HexJoin(a + b + c + d, e);
  }

  lemma CiphersBytes()
    ensures |HexBytes(SUITES_HEX)| == 36
    ensures HexBytes(CIPHERS_HEX) == [0, 0x24] + HexBytes(SUITES_HEX) + [1, 0] + [1, 0x8f] + [0, 0]
  {
    HexSum5("0024", SUITES_HEX, "0100", "018f", "0000");
    CipherLengths();
  }

  lemma PrefixPieces()
    ensures HexBytes("1603010200") == [0x16, 3, 1, 2, 0]
    ensures HexBytes("010001fc") == [1, 0, 1, 0xfc] && HexBytes("0303") == [3, 3]
  {}

  lemma PrefixBytes()
    ensures HexBytes(PREFIX_HEX) == [0x16, 3, 1, 2, 0] + [1, 0, 1, 0xfc] + [3, 3]
  {
    PrefixPieces();
    HexJoin("1603010200", "010001fc");
    HexJoin("1603010200" + "010001fc", "0303");
  }

  // The same bytes, grouped by extension and then by field.
  lemma Regrouped(head: seq<byte>, random: seq<byte>, sessionId: seq<byte>, suites: seq<byte>, name: seq<byte>,
                  fixed: seq<byte>, share: seq<byte>, key: seq<byte>, padding: seq<byte>)
    ensures (head + [3, 3]) + random + [0x20] + sessionId + ([0, 0x24] + suites + [1, 0] + [1, 0x8f] + [0, 0]) + name
            + (fixed + (share + [0, 0x24, 0, 0x1d, 0, 0x20])) + key + [0, 0x15] + padding
         == head + ([3, 3] + (random + (([0x20] + sessionId) + (([0, 0x24] + suites) + (([1] + [0])
            + ([1, 0x8f] + (([0, 0] + name) + fixed + ((share + ([0, 0x24, 0, 0x1d, 0, 0x20] + key))
            + ([0, 0x15] + padding)))))))))
  {}

  lemma Framed(body: seq<byte>)
    requires |body| == 508
    ensures [0x16, 3, 1] + Len16([1] + Len24(body)) == ([0x16, 3, 1, 2, 0] + [1, 0, 1, 0xfc]) + body
  {
    assert WordBytes(512) == [2, 0] && Number24(508) == [0, 1, 0xfc];
  }

  lemma KeyShareBytes(key: seq<byte>)
    requires |key| == 32
    ensures [0, 0x33] + Len16(KeyShare(key)) == [0, 0x33, 0, 0x26] + ([0, 0x24, 0, 0x1d, 0, 0x20] + key)
  {
    assert WordBytes(32) == [0, 0x20] && WordBytes(36) == [0, 0x24] && WordBytes(38) == [0, 0x26];
  }

  lemma FieldsBytes(h: ClientHello)
    requires |h.random| == 32 && |h.sessionId| == 32 && |h.cipherSuites| == 36 && h.compression == [0]
    requires BodiesFit(h.extensions) && |WriteExtensions(h.extensions)| == 399
    ensures WellFormed(h) && |WriteBody(h)| == 508
    ensures WriteFields(h) == ([0x20] + h.sessionId) + (([0, 0x24] + h.cipherSuites) + (([1] + [0])
                              + ([1, 0x8f] + WriteExtensions(h.extensions))))
  {
    assert WordBytes(36) == [0, 0x24] && WordBytes(399) == [1, 0x8f];
  }

  // What the builder strings together is the message, framed by its lengths.
  lemma StrungIsHello(random: seq<byte>, sessionId: seq<byte>, sni: seq<byte>, key: seq<byte>)
    requires Sized(random, sessionId, sni, key)
    ensures WellFormed(HelloFor(random, sessionId, sni, key))
    ensures Strung(random, sessionId, sni, key) == Write(HelloFor(random, sessionId, sni, key))
  {
    var h := HelloFor(random, sessionId, sni, key);
    HelloExtensions(sni, key);
    CiphersBytes();
    FieldsBytes(h);
    Framed(WriteBody(h));
    PrefixBytes();
    ExtensionsPart();
    KeyHeadIsHex();
    KeyShareBytes(key);
    Regrouped([0x16, 3, 1, 2, 0] + [1, 0, 1, 0xfc], random, sessionId, HexBytes(SUITES_HEX), Len16(ServerName(sni)),
              WriteExtensions(StaticExtensions()), [0, 0x33, 0, 0x26], key, Len16(Zeros(MAX_SNI_LEN - |sni|)));
  }

  lemma StrungIsRead(out: seq<byte>, random: seq<byte>, sessionId: seq<byte>, sni: seq<byte>, key: seq<byte>)
    requires Sized(random, sessionId, sni, key) && out == Strung(random, sessionId, sni, key)
    ensures |out| == CLIENT_HELLO_LEN && Read(out) == Some(HelloFor(random, sessionId, sni, key))
  {
    PrefixIsHex();
    CiphersIsHex();
    ExtensionsPart();
    StrungIsHello(random, sessionId, sni, key);
    ReadUndoesWrite(HelloFor(random, sessionId, sni, key));
  }

  lemma PlacedAt(t: seq<byte>, a: seq<byte>, random: seq<byte>, sessionId: seq<byte>, d: seq<byte>, head: seq<byte>,
                 sni: seq<byte>, f: seq<byte>, key: seq<byte>, rest: seq<byte>)
    requires |a| == 11 && |random| == 32 && |sessionId| == 32 && |d| == 44 && |head| == 7 && |f| == 135 && |key| == 32
    requires t == a + random + [0x20] + sessionId + d + (head + sni) + f + key + rest
    ensures |t| == 294 + |sni| + |rest| && t[11..43] == random && t[44..76] == sessionId
    ensures t[127..127 + |sni|] == sni && t[262 + |sni|..294 + |sni|] == key
  {}

  lemma NameHead(sni: seq<byte>) returns (head: seq<byte>)
    requires |sni| <= MAX_SNI_LEN
    ensures |head| == 7 && Len16(ServerName(sni)) == head + sni
  {
    head := WordBytes(|sni| + 5) + WordBytes(|sni| + 3) + [0] + WordBytes(|sni|);
  }

  // The caller's values stand at the offsets the template's layout fixes.
  lemma ValuesAreInPlace(random: seq<byte>, sessionId: seq<byte>, sni: seq<byte>, key: seq<byte>)
    requires Sized(random, sessionId, sni, key)
    ensures var out := Strung(random, sessionId, sni, key);
            && |out| == CLIENT_HELLO_LEN && out[11..43] == random && out[44..76] == sessionId
            && out[127..127 + |sni|] == sni && out[262 + |sni|..294 + |sni|] == key
  {
    var head := NameHead(sni);
    var padding := Len16(Zeros(MAX_SNI_LEN - |sni|));
    var fixed := HexBytes(RowsHex(STATIC_ROWS) + KEY_HEAD_HEX);
    PrefixIsHex();
    CiphersIsHex();
    ExtensionsPart();
    Regroup(HexBytes(PREFIX_HEX) + random + [0x20] + sessionId + HexBytes(CIPHERS_HEX) + (head + sni) + fixed + key,
            [0, 0x15], padding);
    PlacedAt(Strung(random, sessionId, sni, key), HexBytes(PREFIX_HEX), random, sessionId, HexBytes(CIPHERS_HEX),
             head, sni, fixed, key, [0, 0x15] + padding);
  }

  // ---- building ----

  /** Decodes hexadecimal text two digits at a time; any other character would be a panic. */
  method DecodeHex(text: string) returns (out: seq<byte>)
    requires IsHex(text)
    ensures out == HexBytes(text)
  {
    out := [];
    var i := 0;
    while i < |text|
      invariant 0 <= i <= |text| && i % 2 == 0
      invariant out == HexBytes(text)[..i / 2]
    {
      assert IsHexDigit(text[i]) && IsHexDigit(text[i + 1]);
      var hi, lo := Digit(text[i]), Digit(text[i + 1]);
      out := out + [hi * 16 + lo];
      i := i + 2;
    }
  }

  // The parts of the template that every message takes over.
  lemma TemplateSlices()
    ensures var t := HexBytes(TEMPLATE_HEX);
            && |t| == CLIENT_HELLO_LEN && t[..11] == HexBytes(PREFIX_HEX) && t[76..120] == HexBytes(CIPHERS_HEX)
            && t[133..268] == HexBytes(RowsHex(STATIC_ROWS) + KEY_HEAD_HEX)
  {
    TemplateParts();
    PartsAreSlices(HexBytes(TEMPLATE_HEX), HexBytes(PREFIX_HEX), HexBytes(RANDOM_HEX), HexBytes(SESSION_HEX),
                   HexBytes(CIPHERS_HEX), HexBytes(SNI_HEX), HexBytes(RowsHex(STATIC_ROWS) + KEY_HEAD_HEX),
                   HexBytes(KEY_HEX), HexBytes(PADDING_HEX));
  }

  method TemplateBytes() returns (template: seq<byte>)
    ensures template == HexBytes(TEMPLATE_HEX)
    ensures |template| == CLIENT_HELLO_LEN && template[..11] == HexBytes(PREFIX_HEX)
    ensures template[76..120] == HexBytes(CIPHERS_HEX)
    ensures template[133..268] == HexBytes(RowsHex(STATIC_ROWS) + KEY_HEAD_HEX)
  {
    TemplateParts();
    template := DecodeHex(TEMPLATE_HEX);
    TemplateSlices();
  }

  method BuildServerName(targetSni: seq<byte>) returns (ext: seq<byte>)
    requires |targetSni| <= MAX_SNI_LEN
    ensures ext == Len16(ServerName(targetSni))
  {
    var sniLen := |targetSni|;
    ext := WordBytes(sniLen + 5);
    ext := ext + WordBytes(sniLen + 3);
    ext := ext + [0x00];
    ext := ext + WordBytes(sniLen);
    ext := ext + targetSni;
  }

  method BuildPadding(padLen: nat) returns (ext: seq<byte>)
    requires padLen < 0x1_0000
    ensures ext == Len16(Zeros(padLen))
  {
    ext := WordBytes(padLen);
    ext := ext + seq(padLen, _ => 0);
  }

  /** Builds the ClientHello; the reader gives back every value that went in. */
  method BuildClientHello(random: seq<byte>, sessionId: seq<byte>, targetSni: seq<byte>, keyShare: seq<byte>)
    returns (out: seq<byte>)
    requires Sized(random, sessionId, targetSni, keyShare)
    ensures Read(out) == Some(HelloFor(random, sessionId, targetSni, keyShare))
    ensures |out| == CLIENT_HELLO_LEN && out[11..43] == random && out[44..76] == sessionId
    ensures out[127..127 + |targetSni|] == targetSni && out[262 + |targetSni|..294 + |targetSni|] == keyShare
  {
    var template := TemplateBytes();
    var static1 := template[..11];
    var static2 := [0x20];
    var static3 := template[76..120];
    var static4 := template[133..268];
    var static5 := [0x00, 0x15];
    var serverNameExt := BuildServerName(targetSni);
    var paddingExt := BuildPadding(MAX_SNI_LEN - |targetSni|);
    out := static1;
    out := out + random;
    out := out + static2;
    out := out + sessionId;
    out := out + static3;
    out := out + serverNameExt;
    out := out + static4;
    out := out + keyShare;
    out := out + static5;
    out := out + paddingExt;
    StrungIsRead(out, random, sessionId, targetSni, keyShare);
    ValuesAreInPlace(random, sessionId, targetSni, keyShare);
  }

  // ---- what a reader finds in it ----

  function Lookup(es: seq<Extension>, kind: u16): Option<seq<byte>> {
    if es == [] then None else if es[0].kind == kind then Some(es[0].body) else Lookup(es[1..], kind)
  }

  // The single host name of a server_name extension.
  function ReadServerName(b: seq<byte>): Option<seq<byte>> {
    match Read16(b)
    case None => None
    case Some(Cut(list, rest)) =>
      if rest != [] || list == [] || list[0] != 0 then None
      else
        match Read16(list[1..])
        case None => None
        case Some(Cut(name, rest')) => if rest' == [] then Some(name) else None
  }

  // The single X25519 key of a key_share extension.
  function ReadKeyShare(b: seq<byte>): Option<seq<byte>> {
    match Read16(b)
    case None => None
    case Some(Cut(shares, rest)) =>
      if rest != [] || |shares| < 2 || shares[..2] != [0, 0x1d] then None
      else
        match Read16(shares[2..])
        case None => None
        case Some(Cut(key, rest')) => if rest' == [] then Some(key) else None
  }

  lemma ServerNameIsRead(sni: seq<byte>)
    requires |sni| <= MAX_SNI_LEN
    ensures ReadServerName(ServerName(sni)) == Some(sni)
  {
    var list := [0] + Len16(sni);
    assert Len16(list) + [] == Len16(list) && list[1..] == Len16(sni) == Len16(sni) + [];
    Read16Back(list, []);
    Read16Back(sni, []);
  }

  lemma KeyShareIsRead(key: seq<byte>)
    requires |key| == 32
    ensures ReadKeyShare(KeyShare(key)) == Some(key)
  {
    var shares := [0, 0x1d] + Len16(key);
    assert Len16(shares) + [] == Len16(shares) && shares[2..] == Len16(key) == Len16(key) + [];
    Read16Back(shares, []);
    Read16Back(key, []);
  }

  lemma {:induction false} LookupSkips(a: seq<Extension>, b: seq<Extension>, kind: u16)
    requires forall i :: 0 <= i < |a| ==> a[i].kind != kind
    ensures Lookup(a + b, kind) == Lookup(b, kind)
  {
    if a == [] {
      assert a + b == b;
    } else {
      assert (a + b)[1..] == a[1..] + b;
      LookupSkips(a[1..], b, kind);
    }
  }

  // Each value is found under its own type, whatever the others are.
  lemma EveryValueIsFound(random: seq<byte>, sessionId: seq<byte>, sni: seq<byte>, key: seq<byte>)
    requires Sized(random, sessionId, sni, key)
    ensures var h := HelloFor(random, sessionId, sni, key);
            && h.random == random && h.sessionId == sessionId
            && Lookup(h.extensions, 0).Some? && ReadServerName(Lookup(h.extensions, 0).value) == Some(sni)
            && Lookup(h.extensions, 0x33).Some? && ReadKeyShare(Lookup(h.extensions, 0x33).value) == Some(key)
            && Lookup(h.extensions, 0x15) == Some(Zeros(MAX_SNI_LEN - |sni|))
  {
    var h := HelloFor(random, sessionId, sni, key);
    var name, fixed := Extension(0, ServerName(sni)), StaticExtensions();
    var last := [Extension(0x33, KeyShare(key)), Extension(0x15, Zeros(MAX_SNI_LEN - |sni|))];
    ServerNameIsRead(sni);
    KeyShareIsRead(key);
    StaticRows();
    LookupSkips([name] + fixed, last, 0x33);
    LookupSkips([name] + fixed, last, 0x15);
    assert last[1..][0] == last[1];
  }

  lemma SniBytes()
    ensures HexBytes(SNI_HEX) == [0, 0x0b, 0, 9, 0, 0, 6] + [0x6d, 0x63, 0x69, 0x2e, 0x69, 0x72]
  {
    SniPieces();
    HexJoin("000b0009000006", "6d63692e6972");
  }

  lemma SniPieces()
    ensures HexBytes("000b0009000006") == [0, 0x0b, 0, 9, 0, 0, 6]
    ensures HexBytes("6d63692e6972") == [0x6d, 0x63, 0x69, 0x2e, 0x69, 0x72]
  {}

  lemma NameBytes(name: seq<byte>)
    requires |name| == 6
    ensures Len16(ServerName(name)) == [0, 0x0b, 0, 9, 0, 0, 6] + name
  {
    assert WordBytes(6) == [0, 6] && WordBytes(9) == [0, 9] && WordBytes(11) == [0, 0x0b];
  }

  lemma SessionBytes(s: seq<byte>)
    requires |s| == 33 && s[0] == 0x20
    ensures s == [0x20] + s[1..]
  {}

  lemma PaddingBytes()
    ensures [0, 0x15, 0, 0xd5] + Zeros(213) == [0, 0x15] + Len16(Zeros(213))
  {
    assert WordBytes(213) == [0, 0xd5];
  }

  lemma Rebuilt(t: seq<byte>, a: seq<byte>, b: seq<byte>, c: seq<byte>, d: seq<byte>, e: seq<byte>,
                f: seq<byte>, g: seq<byte>, h: seq<byte>, name: seq<byte>, padding: seq<byte>)
    requires IsMadeOf(t, a, b, c, d, e, f, g, h) && c[0] == 0x20 && e == [0, 0x0b, 0, 9, 0, 0, 6] + name
    requires h == [0, 0x15] + padding
    ensures t[11..43] == b && t[44..76] == c[1..] && t[127..133] == name && t[268..300] == g
    ensures t == a + b + [0x20] + c[1..] + d + e + f + g + [0, 0x15] + padding
  {
    PartsAreSlices(t, a, b, c, d, e, f, g, h);
    assert t[44..76] == t[43..76][1..] && t[127..133] == t[120..133][7..];
    SessionBytes(c);
  }

  lemma SessionLength()
    ensures HexBytes(SESSION_HEX)[0] == 0x20
  {
    SessionIsHex();
    assert SESSION_HEX[0] == '2' && SESSION_HEX[1] == '0';
  }

  // Built from its own values, the message is the template again.
  lemma TemplateRebuilds(t: seq<byte>)
    requires t == HexBytes(TEMPLATE_HEX)
    ensures |t| == CLIENT_HELLO_LEN && t[127..133] == [0x6d, 0x63, 0x69, 0x2e, 0x69, 0x72]
    ensures Read(t) == Some(HelloFor(t[11..43], t[44..76], t[127..133], t[268..300]))
  {
    TemplateParts();
    SessionLength();
    SniBytes();
    PaddingIsHex();
    PaddingBytes();
    var name := [0x6d, 0x63, 0x69, 0x2e, 0x69, 0x72];
    NameBytes(name);
    Rebuilt(t, HexBytes(PREFIX_HEX), HexBytes(RANDOM_HEX), HexBytes(SESSION_HEX), HexBytes(CIPHERS_HEX),
            HexBytes(SNI_HEX), HexBytes(RowsHex(STATIC_ROWS) + KEY_HEAD_HEX), HexBytes(KEY_HEX), HexBytes(PADDING_HEX),
            name, Len16(Zeros(213)));
    StrungIsRead(t, t[11..43], t[44..76], name, t[268..300]);
  }
}
