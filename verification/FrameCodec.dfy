/** The frames of the mux protocol: both ends encode them alike; the server and the client decode
  * them with code of their own. */
module FrameCodec {
  import opened Bytes
  import opened Options

  /** Texts are given by their bytes in UTF-8. */
  datatype Frame =
    | Auth(accessKey: seq<Byte>, nonce: seq<Byte>, signature: seq<Byte>, device: seq<Byte>, date: seq<Byte>,
           version: seq<Byte>)
    | Goaway(lastStream: nat, errorCode: nat, text: seq<Byte>)
    | Data(stream: nat, payload: seq<Byte>)
    | Close(stream: nat)
    | Reset(stream: nat, errorCode: nat, text: seq<Byte>)
    | Ping
    | Pong

  const STREAMS: nat := 0x100_0000

  /** `n` zero bytes. */
  function Zeros(n: nat): (r: seq<Byte>)
    ensures |r| == n
  {
    seq(n, _ => 0)
  }

  /** What the code signs and sends fits the fixed places. */
  predicate AuthFits(f: Frame)
    requires f.Auth?
  {
    && 0 < |f.accessKey| <= 27 && |f.nonce| == 8 && |f.signature| == 32 && |f.device| == 36
    && (|f.date| == 24 || |f.date| == 27) && |f.version| <= 255
  }

  function EncodeAuth(f: Frame): seq<Byte>
    requires f.Auth? && AuthFits(f)
  {
    Zeros(8) + ((f.accessKey + Zeros(27 - |f.accessKey|)) + (f.nonce + (f.signature + (f.device
      + ([if |f.date| == 24 then 0 else 1] + (f.date + ([|f.version|] + f.version)))))))
  }

  /** Type and stream in one word. */
  function Kind(kind: nat, stream: nat): seq<Byte> {
    Put32(kind * STREAMS + stream)
  }

  /** The bytes of a frame, or none when it cannot be encoded. */
  function Encode(f: Frame): Option<seq<Byte>> {
    match f
    case Auth(_, _, _, _, _, _) => if AuthFits(f) then Some(EncodeAuth(f)) else None
    case Goaway(last, code, text) =>
      if last >= STREAMS then None else Some(Kind(1, 0) + (Put32(last) + (Put32(code) + (Put32(|text|) + text))))
    case Data(stream, payload) => if stream >= STREAMS then None else Some(Kind(2, stream) + payload)
    case Close(stream) => if stream >= STREAMS then None else Some(Kind(3, stream) + [])
    case Reset(stream, code, text) =>
      if stream >= STREAMS then None else Some(Kind(4, stream) + (Put32(code) + (Put32(|text|) + text)))
    case Ping => Some(Kind(5, 0) + [])
    case Pong => Some(Kind(6, 0) + [])
  }

  // ------------------------------------------------------------------------------------------
  // The server decodes
  // ------------------------------------------------------------------------------------------

  /** The bytes before the first zero. */
  function UpToZero(b: seq<Byte>): (r: seq<Byte>)
    ensures 0 !in r
  {
    if b == [] || b[0] == 0 then [] else [b[0]] + UpToZero(b[1..])
  }

  /** A character that US_ASCII has. */
  predicate AllAscii(b: seq<Byte>) {
    forall k :: 0 <= k < |b| ==> b[k] < 128
  }

  /** The UTF-8 of what String(b, US_ASCII) makes of bytes: each one from 128 on is replaced by
    * U+FFFD. */
  function Ascii(b: seq<Byte>): (r: seq<Byte>)
    ensures |r| >= |b|
  {
    if b == [] then [] else (if b[0] < 128 then [b[0]] else [0xEF, 0xBF, 0xBD]) + Ascii(b[1..])
  }

  lemma {:induction false} AsciiKeeps(b: seq<Byte>)
    ensures Ascii(b) == b <==> AllAscii(b)
  {
    if b != [] {
      AsciiKeeps(b[1..]);
      assert b == [b[0]] + b[1..];
      assert AllAscii(b) <==> b[0] < 128 && AllAscii(b[1..]);
      if b[0] < 128 {
        assert Ascii(b)[1..] == Ascii(b[1..]);
      }
    }
  }

  function ServerAuth(d: seq<Byte>): Read<Frame> {
    if |d| < 112 then Failed(Underflow)
    else
      var length := if d[111] % 2 == 0 then 24 else 27;
      match GetByte(d, 112 + length)
      case Failed(e) => Failed(e)
      case Ok(n, p) =>
        match GetBytes(d, p, Signed(n, 128))
        case Failed(e) => Failed(e)
        case Ok(version, next) =>
          Ok(Auth(Ascii(UpToZero(d[8..35])), d[35..43], d[43..75], Ascii(d[75..111]), Ascii(d[112..112 + length]),
                  Ascii(version)), next)
  }

  /** An error code and a text of signed length. */
  function ServerError(d: seq<Byte>, p: nat): Read<(nat, seq<Byte>)> {
    match GetUInt(d, p)
    case Failed(e) => Failed(e)
    case Ok(code, q) =>
      match GetInt(d, q)
      case Failed(e) => Failed(e)
      case Ok(n, q') =>
        match GetBytes(d, q', n)
        case Failed(e) => Failed(e)
        case Ok(text, next) => Ok((code, text), next)
  }

  function ServerDecode(d: seq<Byte>): Read<Frame> {
    match GetUInt(d, 0)
    case Failed(e) => Failed(e)
    case Ok(word, p) =>
      var kind, stream := word / STREAMS, word % STREAMS;
      if kind == 0 then if stream != 0 then Failed(NonZeroStream) else ServerAuth(d)
      else if kind == 1 then
        if stream != 0 then Failed(NonZeroStream)
        else
          match GetUInt(d, p)
          case Failed(e) => Failed(e)
          case Ok(last, q) =>
            match ServerError(d, q)
            case Failed(e) => Failed(e)
            case Ok((code, text), next) => Ok(Goaway(last % STREAMS, code, text), next)
      else if kind == 2 then Ok(Data(stream, d[p..]), |d|)
      else if kind == 3 then Ok(Close(stream), p)
      else if kind == 4 then
        match ServerError(d, p)
        case Failed(e) => Failed(e)
        case Ok((code, text), next) => Ok(Reset(stream, code, text), next)
      else if kind == 5 then if stream != 0 then Failed(NonZeroStream) else Ok(Ping, p)
      else if kind == 6 then if stream != 0 then Failed(NonZeroStream) else Ok(Pong, p)
      else Failed(Unknown)
  }

  // ------------------------------------------------------------------------------------------
  // The client decodes
  // ------------------------------------------------------------------------------------------

  function ClientError(d: seq<Byte>, p: nat): Read<(nat, seq<Byte>)> {
    match GetUInt(d, p)
    case Failed(e) => Failed(e)
    case Ok(code, q) =>
      match GetUInt(d, q)
      case Failed(e) => Failed(e)
      case Ok(n, q') =>
        match GetBytes(d, q', n)
        case Failed(e) => Failed(e)
        case Ok(text, next) => Ok((code, WithoutBom(text)), next)
  }

  /** None for a frame that is ignored. Of an auth frame the client reads nothing. */
  function ClientDecode(d: seq<Byte>): Read<Option<Frame>> {
    match GetUInt(d, 0)
    case Failed(e) => Failed(e)
    case Ok(word, p) =>
      var kind, stream := word / STREAMS, word % STREAMS;
      if kind == 0 then Ok(Some(Auth([], [], [], [], [], [])), p)
      else if kind == 1 then
        match GetUInt(d, p)
        case Failed(e) => Failed(e)
        case Ok(last, q) =>
          match ClientError(d, q)
          case Failed(e) => Failed(e)
          case Ok((code, text), next) => Ok(Some(Goaway(last, code, text)), next)
      else if kind == 2 then Ok(Some(Data(stream, d[p..])), |d|)
      else if kind == 3 then Ok(Some(Close(stream)), p)
      else if kind == 4 then
        match ClientError(d, p)
        case Failed(e) => Failed(e)
        case Ok((code, text), next) => Ok(Some(Reset(stream, code, text)), next)
      else if kind == 5 then if stream != 0 then Ok(None, p) else Ok(Some(Ping), p)
      else if kind == 6 then if stream != 0 then Ok(None, p) else Ok(Some(Pong), p)
      else Ok(None, p)
  }

  // ------------------------------------------------------------------------------------------
  // What comes through
  // ------------------------------------------------------------------------------------------

  /** The bounds of the server's reading: lengths are signed there, a key ends at the first zero
    * byte, and what an auth frame says in letters is read as ASCII. */
  predicate ServerFits(f: Frame) {
    match f
    case Auth(key, _, _, device, date, version) =>
      0 !in key && |version| < 0x80 && AllAscii(key) && AllAscii(device) && AllAscii(date) && AllAscii(version)
    case Goaway(_, code, text) => code < 0x1_0000_0000 && |text| < 0x8000_0000
    case Reset(_, code, text) => code < 0x1_0000_0000 && |text| < 0x8000_0000
    case _ => true
  }

  /** The client reads its lengths unsigned, but drops a mark of byte order. */
  predicate ClientFits(f: Frame) {
    match f
    case Goaway(_, code, text) => code < 0x1_0000_0000 && |text| < 0x1_0000_0000 && !HasBom(text)
    case Reset(_, code, text) => code < 0x1_0000_0000 && |text| < 0x1_0000_0000 && !HasBom(text)
    case _ => true
  }

  lemma AtKind(d: seq<Byte>, kind: nat, stream: nat, rest: seq<Byte>)
    requires kind < 256 && stream < STREAMS && d == Kind(kind, stream) + rest
    ensures |Kind(kind, stream)| == 4 && GetUInt(d, 0) == Ok(kind * STREAMS + stream, 4)
    ensures (kind * STREAMS + stream) / STREAMS == kind && (kind * STREAMS + stream) % STREAMS == stream
    ensures At(d, 4, rest) && d[4..] == rest
  {
    hide Put32;
    Length32(kind * STREAMS + stream);
    assert d[0..|d|] == d;
    AtSplit(d, 0, Kind(kind, stream), rest);
    AtWord32(d, 0, kind * STREAMS + stream);
  }

  /** A length that both sides read unsigned. */
  predicate In32Bits(code: nat, text: seq<Byte>) {
    code < 0x1_0000_0000 && |text| < 0x1_0000_0000
  }

  lemma AtError(d: seq<Byte>, p: nat, code: nat, text: seq<Byte>)
    requires At(d, p, Put32(code) + (Put32(|text|) + text)) && In32Bits(code, text)
    ensures ClientError(d, p).Ok? && ClientError(d, p).value == (code, WithoutBom(text))
    ensures |text| < 0x8000_0000 ==> ServerError(d, p).Ok? && ServerError(d, p).value == (code, text)
  {
    hide Put32, At, Word32;
    Length32(code);
    Length32(|text|);
    AtSplit(d, p, Put32(code), Put32(|text|) + text);
    AtWord32(d, p, code);
    AtSplit(d, p + 4, Put32(|text|), text);
    AtWord32(d, p + 4, |text|);
    AtBytes(d, p + 8, text);
  }

  lemma GoawayArrives(d: seq<Byte>, f: Frame)
    requires f.Goaway? && f.lastStream < STREAMS && Encode(f) == Some(d) && In32Bits(f.errorCode, f.text)
    ensures ClientDecode(d).Ok? && ClientDecode(d).value == Some(Goaway(f.lastStream, f.errorCode, WithoutBom(f.text)))
    ensures ServerFits(f) ==> ServerDecode(d).Ok? && ServerDecode(d).value == f
  {
    hide Put32, At, Word32, ClientError, ServerError, Kind, WithoutBom;
    var body := Put32(f.errorCode) + (Put32(|f.text|) + f.text);
    AtKind(d, 1, 0, Put32(f.lastStream) + body);
    Length32(f.lastStream);
    AtSplit(d, 4, Put32(f.lastStream), body);
    AtWord32(d, 4, f.lastStream);
    AtError(d, 8, f.errorCode, f.text);
  }

  lemma ResetArrives(d: seq<Byte>, f: Frame)
    requires f.Reset? && f.stream < STREAMS && Encode(f) == Some(d) && In32Bits(f.errorCode, f.text)
    ensures ClientDecode(d).Ok? && ClientDecode(d).value == Some(Reset(f.stream, f.errorCode, WithoutBom(f.text)))
    ensures ServerFits(f) ==> ServerDecode(d).Ok? && ServerDecode(d).value == f
  {
    hide Put32, At, Word32, ClientError, ServerError, Kind, WithoutBom;
    AtKind(d, 4, f.stream, Put32(f.errorCode) + (Put32(|f.text|) + f.text));
    AtError(d, 4, f.errorCode, f.text);
  }

  lemma PlainArrives(d: seq<Byte>, f: Frame)
    requires f.Data? || f.Close? || f.Ping? || f.Pong?
    requires Encode(f) == Some(d)
    ensures ClientDecode(d).Ok? && ClientDecode(d).value == Some(f)
    ensures ServerDecode(d).Ok? && ServerDecode(d).value == f
  {
    hide Put32, At, Word32, Kind;
    match f {
      case Data(stream, payload) => AtKind(d, 2, stream, payload);
      case Close(stream) => AtKind(d, 3, stream, []);
      case Ping => AtKind(d, 5, 0, []);
      case Pong => AtKind(d, 6, 0, []);
    }
  }

  lemma {:induction false} UpToPadding(key: seq<Byte>, n: nat)
    ensures UpToZero(key + Zeros(n)) == UpToZero(key)
    ensures 0 !in key ==> UpToZero(key) == key
  {
    if key != [] {
      assert (key + Zeros(n))[1..] == key[1..] + Zeros(n);
      assert key == [key[0]] + key[1..];
      UpToPadding(key[1..], n);
    }
  }

  lemma {:induction false} AsciiNoZero(b: seq<Byte>)
    requires 0 !in b
    ensures 0 !in Ascii(b)
  {
    if b != [] {
      assert b == [b[0]] + b[1..];
      AsciiNoZero(b[1..]);
    }
  }

  /** The key is read back exactly when it is plain letters without a zero byte. */
  lemma KeyRead(key: seq<Byte>)
    ensures Ascii(UpToZero(key)) == key <==> 0 !in key && AllAscii(key)
  {
    UpToPadding(key, 0);
    AsciiKeeps(key);
    AsciiNoZero(UpToZero(key));
  }

  /** The parts of an auth frame, each in its place. */
  lemma AuthParts(d: seq<Byte>, f: Frame)
    requires f.Auth? && AuthFits(f) && d == EncodeAuth(f)
    ensures |d| == 113 + |f.date| + |f.version| && d[..8] == Zeros(8)
    ensures d[8..35] == f.accessKey + Zeros(27 - |f.accessKey|)
    ensures d[35..43] == f.nonce && d[43..75] == f.signature && d[75..111] == f.device
    ensures d[111] == (if |f.date| == 24 then 0 else 1) && d[112..112 + |f.date|] == f.date
    ensures d[112 + |f.date|] == |f.version| && d[113 + |f.date|..] == f.version
  {
  }

  /** An auth frame as the server reads its letters. */
  function Replaced(f: Frame): Frame
    requires f.Auth?
  {
    Auth(Ascii(UpToZero(f.accessKey)), f.nonce, f.signature, Ascii(f.device), Ascii(f.date), Ascii(f.version))
  }

  /** What the server reads of an auth frame. */
  lemma AuthReads(d: seq<Byte>, f: Frame)
    requires f.Auth? && Encode(f) == Some(d)
    ensures |f.version| >= 0x80 ==> ServerDecode(d) == Failed(NegativeSize)
    ensures |f.version| < 0x80 ==> ServerDecode(d).Ok? && ServerDecode(d).value == Replaced(f)
  {
    hide EncodeAuth, Ascii, UpToZero;
    AuthParts(d, f);
    assert d[0] == d[..8][0] && d[1] == d[..8][1] && d[2] == d[..8][2] && d[3] == d[..8][3];
    UpToPadding(f.accessKey, 27 - |f.accessKey|);
    if |f.version| < 0x80 {
      assert d[113 + |f.date|..113 + |f.date| + |f.version|] == f.version;
    }
  }

  lemma AuthArrives(d: seq<Byte>, f: Frame)
    requires f.Auth? && Encode(f) == Some(d)
    ensures (ServerDecode(d).Ok? && ServerDecode(d).value == f) <==> ServerFits(f)
  {
    hide ServerDecode, Ascii, UpToZero, AllAscii, Encode;
    AuthReads(d, f);
    KeyRead(f.accessKey);
    AsciiKeeps(f.device);
    AsciiKeeps(f.date);
    AsciiKeeps(f.version);
  }

  lemma ServerDecodedFits(d: seq<Byte>)
    requires ServerDecode(d).Ok? && !ServerDecode(d).value.Auth?
    ensures ServerFits(ServerDecode(d).value)
  {
  }

  lemma ClientDecodedFits(d: seq<Byte>)
    requires ClientDecode(d).Ok? && ClientDecode(d).value.Some?
    ensures var f := ClientDecode(d).value.value; f.Goaway? || f.Reset? ==> In32Bits(f.errorCode, f.text)
  {
  }

  /** A frame reaches the server intact exactly when it keeps within the server's bounds. */
  lemma ServerRoundTrip(f: Frame)
    requires Encode(f).Some?
    ensures var r := ServerDecode(Encode(f).value); (r.Ok? && r.value == f) <==> ServerFits(f)
  {
    hide ServerDecode;
    var d := Encode(f).value;
    if f.Auth? {
      AuthArrives(d, f);
    } else if ServerFits(f) {
      match f {
        case Goaway(_, _, _) => GoawayArrives(d, f);
        case Reset(_, _, _) => ResetArrives(d, f);
        case _ => PlainArrives(d, f);
      }
    } else if ServerDecode(d).Ok? && ServerDecode(d).value == f {
      ServerDecodedFits(d);
    }
  }

  /** A frame of the server reaches the client intact exactly within the client's bounds. */
  lemma ClientRoundTrip(f: Frame)
    requires Encode(f).Some? && !f.Auth?
    ensures var r := ClientDecode(Encode(f).value); (r.Ok? && r.value == Some(f)) <==> ClientFits(f)
  {
    hide ClientDecode, HasBom;
    var d := Encode(f).value;
    match f {
      case Goaway(_, code, text) => if In32Bits(code, text) { GoawayArrives(d, f); }
      case Reset(_, code, text) => if In32Bits(code, text) { ResetArrives(d, f); }
      case _ => PlainArrives(d, f);
    }
    if ClientDecode(d).Ok? && ClientDecode(d).value == Some(f) {
      ClientDecodedFits(d);
    }
  }

  /** An access key with a letter outside ASCII does not arrive, nor a reset whose text starts
    * with a mark of byte order, though their lengths fit. */
  lemma LostInReading(nonce: seq<Byte>, signature: seq<Byte>, device: seq<Byte>, date: seq<Byte>, stream: nat)
    requires |nonce| == 8 && |signature| == 32 && |device| == 36 && |date| == 24 && stream < STREAMS
    ensures var f := Auth([0xC3, 0xA9], nonce, signature, device, date, []);
      Encode(f).Some? && (ServerDecode(Encode(f).value).Ok? ==> ServerDecode(Encode(f).value).value != f)
    ensures var f := Reset(stream, 0, [0xEF, 0xBB, 0xBF, 0x61]);
      Encode(f).Some? && ClientDecode(Encode(f).value).Ok?
      && ClientDecode(Encode(f).value).value == Some(Reset(stream, 0, [0x61]))
  {
    hide ServerDecode, ClientDecode, EncodeAuth;
    var f := Auth([0xC3, 0xA9], nonce, signature, device, date, []);
    assert !AllAscii(f.accessKey) by { assert f.accessKey[0] == 0xC3; }
    ServerRoundTrip(f);
    var g := Reset(stream, 0, [0xEF, 0xBB, 0xBF, 0x61]);
    ResetArrives(Encode(g).value, g);
    assert WithoutBom(g.text) == [0x61];
  }

  // ------------------------------------------------------------------------------------------
  // Any bytes, read by either side
  // ------------------------------------------------------------------------------------------

  /** The first word of a frame, as both sides take it apart. */
  function KindOf(d: seq<Byte>): nat
    requires |d| >= 4
  {
    Word32(d, 0) / STREAMS
  }

  function StreamOf(d: seq<Byte>): nat
    requires |d| >= 4
  {
    Word32(d, 0) % STREAMS
  }

  /** Frames that are about no stream. */
  predicate Streamless(kind: nat) {
    kind == 0 || kind == 1 || kind == 5 || kind == 6
  }

  /** The server refuses a frame of a type it does not know, and one that names a stream where there
    * is none to name. The client ignores the former, and of the latter a ping or a pong. */
  lemma OddFrames(d: seq<Byte>)
    ensures |d| < 4 ==> ServerDecode(d) == Failed(Underflow) && ClientDecode(d) == Failed(Underflow)
    ensures |d| >= 4 && KindOf(d) > 6 ==> ServerDecode(d) == Failed(Unknown)
    ensures |d| >= 4 && Streamless(KindOf(d)) && StreamOf(d) != 0 ==> ServerDecode(d) == Failed(NonZeroStream)
    ensures ClientDecode(d) == Ok(None, 4) <==>
      |d| >= 4 && (KindOf(d) > 6 || ((KindOf(d) == 5 || KindOf(d) == 6) && StreamOf(d) != 0))
  {
  }

  /** A frame as the client reads what the server read. */
  ghost predicate SameFrame(server: Frame, client: Frame) {
    match server
    case Goaway(last, code, text) =>
      client.Goaway? && client.lastStream % STREAMS == last && client.errorCode == code && client.text == WithoutBom(text)
    case Reset(stream, code, text) => client == Reset(stream, code, WithoutBom(text))
    case _ => client == server
  }

  /** The length of the text in a goaway or a reset is a positive number for the server. */
  predicate TextFits(d: seq<Byte>)
    requires |d| >= 4
  {
    var at := if KindOf(d) == 1 then 12 else 8;
    (KindOf(d) == 1 || KindOf(d) == 4) && at + 4 <= |d| ==> Word32(d, at) < 0x8000_0000
  }

  lemma ErrorsAgree(d: seq<Byte>, p: nat)
    requires p + 8 <= |d| ==> Word32(d, p + 4) < 0x8000_0000
    ensures match ServerError(d, p)
      case Failed(e) => ClientError(d, p) == Failed(e)
      case Ok((code, text), next) => ClientError(d, p) == Ok((code, WithoutBom(text)), next)
  {
    hide WithoutBom, Word32;
  }

  /** The two decoders, written independently, agree on any bytes: what the server reads the client
    * reads as well, and conversely but for a stream where none is due and a text of 2^31 bytes. */
  lemma DecodersAgree(d: seq<Byte>)
    requires |d| >= 4 && KindOf(d) != 0 && TextFits(d) && (Streamless(KindOf(d)) ==> StreamOf(d) == 0)
    ensures match ServerDecode(d)
      case Failed(e) => ClientDecode(d) == if KindOf(d) > 6 then Ok(None, 4) else Failed(e)
      case Ok(f, next) =>
        ClientDecode(d).Ok? && ClientDecode(d).next == next && ClientDecode(d).value.Some?
        && SameFrame(f, ClientDecode(d).value.value)
  {
    hide WithoutBom, ServerError, ClientError, Word32;
    if KindOf(d) == 1 { ErrorsAgree(d, 8); }
    if KindOf(d) == 4 { ErrorsAgree(d, 4); }
  }

  /** A text of 2^31 bytes or more is refused by the server. */
  lemma LongTextRefused(d: seq<Byte>)
    requires |d| >= 4 && !TextFits(d) && (KindOf(d) == 1 ==> StreamOf(d) == 0)
    ensures ServerDecode(d) == Failed(NegativeSize)
  {
  }
}
