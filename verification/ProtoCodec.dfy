/** The orchestration protocol: what the JavaScript client encodes and what the server decodes.
  * Text is given by its UTF-8 bytes. */
module ProtoCodec {
  import opened Bytes
  import opened Options

  type Text = seq<Byte>

  datatype Format = Json | Raw | Csv

  datatype Scope = All | Table | View | LegacySchema

  datatype Msg =
    | Query(query: Text, format: Format)
    | Schema(name: Option<Text>, scope: Scope, suffix: Option<Text>)
    | Tail(table: Text, columns: Text, since: nat, filter: Text, params: Text)
    | TailBatch(requests: seq<Msg>)
    | PushPromise(schemas: Text)
    | CreateDatabase(db: Text)
    | CreateUser
    | Chunk(payload: seq<Byte>, fin: bool)

  const MAX_QUERY_LENGTH: nat := 10485760

  // ------------------------------------------------------------------------------------------
  // The client encodes
  // ------------------------------------------------------------------------------------------

  function FormatCode(f: Format): nat {
    match f case Json => 0 case Raw => 1 case Csv => 2
  }

  function ScopeCode(s: Scope): nat {
    match s case All => 0 case Table => 1 case View => 2 case LegacySchema => 3
  }

  function OrEmpty(t: Option<Text>): Text {
    if t.Some? then t.value else []
  }

  /** A length in 16 bits and the text. */
  function Text16(t: Text): seq<Byte> {
    Put16(|t|) + t
  }

  function EncodeTail(table: Text, columns: Text, since: nat, filter: Text, params: Text): seq<Byte> {
    [2, 0, 0, 0] + (Put64(since) + (Text16(table) + (Text16(columns) + (Text16(filter) + Text16(params)))))
  }

  predicate AllTails(requests: seq<Msg>) {
    forall k :: 0 <= k < |requests| ==> requests[k].Tail?
  }

  function EncodeTails(requests: seq<Msg>): seq<Byte>
    requires AllTails(requests)
  {
    if requests == [] then []
    else
      var t := requests[0];
      EncodeTail(t.table, t.columns, t.since, t.filter, t.params) + EncodeTails(requests[1..])
  }

  /** A batch consists of tail requests. */
  predicate WellTyped(m: Msg) {
    m.TailBatch? ==> AllTails(m.requests)
  }

  function Encode(m: Msg): seq<Byte>
    requires WellTyped(m)
  {
    match m
    case Query(query, format) => [1, FormatCode(format)] + (Put32(|query|) + query)
    case Schema(name, scope, suffix) => [4, ScopeCode(scope)] + (Text16(OrEmpty(name)) + Text16(OrEmpty(suffix)))
    case Tail(table, columns, since, filter, params) => EncodeTail(table, columns, since, filter, params)
    case TailBatch(requests) => [7, 0] + (Put16(|requests|) + EncodeTails(requests))
    case PushPromise(schemas) => [3, 0, 0, 0] + Text16(schemas)
    case CreateDatabase(db) => [5] + Text16(db)
    case CreateUser => [6]
    case Chunk(payload, fin) => [0, if fin then 1 else 0] + payload
  }

  // ------------------------------------------------------------------------------------------
  // The server decodes
  // ------------------------------------------------------------------------------------------

  /** A signed length in 16 bits and the text. */
  function GetText16(d: seq<Byte>, p: nat): (r: Read<Text>)
    ensures r.Ok? ==> p <= r.next <= |d| && |r.value| < 0x8000
  {
    match GetShort(d, p)
    case Failed(e) => Failed(e)
    case Ok(n, q) => GetBytes(d, q, n)
  }

  function FormatAt(code: nat): Option<Format> {
    if code == 0 then Some(Json) else if code == 1 then Some(Raw) else if code == 2 then Some(Csv) else None
  }

  function ScopeAt(code: nat): Option<Scope> {
    if code == 0 then Some(All) else if code == 1 then Some(Table) else if code == 2 then Some(View)
    else if code == 3 then Some(LegacySchema) else None
  }

  function DecodeQuery(d: seq<Byte>, p: nat): (r: Read<Msg>)
    ensures r.Ok? ==> p <= r.next <= |d| && r.value.Query?
  {
    match GetByte(d, p)
    case Failed(e) => Failed(e)
    case Ok(code, q) =>
      match FormatAt(code % 16)
      case None => Failed(BadIndex)
      case Some(format) =>
        match GetInt(d, q)
        case Failed(e) => Failed(e)
        case Ok(n, q') =>
          if n > MAX_QUERY_LENGTH then Failed(QueryTooLong)
          else
            match GetBytes(d, q', n)
            case Failed(e) => Failed(e)
            case Ok(query, next) => Ok(Query(query, format), next)
  }

  function DecodeTail(d: seq<Byte>, p: nat): (r: Read<Msg>)
    ensures r.Ok? ==> p <= r.next <= |d| && r.value.Tail?
  {
    if p + 3 > |d| then Failed(Underflow)
    else
      match GetULong(d, p + 3)
      case Failed(e) => Failed(e)
      case Ok(since, p1) =>
        match GetText16(d, p1)
        case Failed(e) => Failed(e)
        case Ok(table, p2) =>
          match GetText16(d, p2)
          case Failed(e) => Failed(e)
          case Ok(columns, p3) =>
            match GetText16(d, p3)
            case Failed(e) => Failed(e)
            case Ok(filter, p4) =>
              match GetText16(d, p4)
              case Failed(e) => Failed(e)
              case Ok(params, next) => Ok(Tail(table, columns, since, filter, params), next)
  }

  /** Without a name the rest of the message is not read. */
  function DecodeSchema(d: seq<Byte>, p: nat): (r: Read<Msg>)
    ensures r.Ok? ==> p <= r.next <= |d| && r.value.Schema?
  {
    match GetByte(d, p)
    case Failed(e) => Failed(e)
    case Ok(code, q) =>
      match ScopeAt(code % 16)
      case None => Failed(BadIndex)
      case Some(scope) =>
        match GetShort(d, q)
        case Failed(e) => Failed(e)
        case Ok(n, q') =>
          if n < 1 then Ok(Schema(None, scope, None), q')
          else
            match GetBytes(d, q', n)
            case Failed(e) => Failed(e)
            case Ok(name, q'') =>
              match GetText16(d, q'')
              case Failed(e) => Failed(e)
              case Ok(suffix, next) => Ok(Schema(Some(name), scope, Some(suffix)), next)
  }

  function Decode(d: seq<Byte>, p: nat): (r: Read<Msg>)
    ensures r.Ok? ==> p < r.next <= |d| && WellTyped(r.value)
    decreases |d| - p, 0, 0
  {
    match GetByte(d, p)
    case Failed(e) => Failed(e)
    case Ok(code, q) =>
      if code == 0 then
        match GetByte(d, q)
        case Failed(e) => Failed(e)
        case Ok(flags, q') => Ok(Chunk(d[q'..], flags % 2 == 1), q')
      else if code == 1 then DecodeQuery(d, q)
      else if code == 2 then DecodeTail(d, q)
      else if code == 3 then
        if q + 3 > |d| then Failed(Underflow)
        else
          match GetText16(d, q + 3)
          case Failed(e) => Failed(e)
          case Ok(schemas, next) => Ok(PushPromise(schemas), next)
      else if code == 4 then DecodeSchema(d, q)
      else if code == 5 then
        match GetText16(d, q)
        case Failed(e) => Failed(e)
        case Ok(db, next) => Ok(CreateDatabase(db), next)
      else if code == 6 then Ok(CreateUser, q)
      else if code == 7 then
        if q + 1 > |d| then Failed(Underflow)
        else
          match GetShort(d, q + 1)
          case Failed(e) => Failed(e)
          case Ok(n, q') =>
            match DecodeTails(d, q', if n < 0 then 0 else n)
            case Failed(e) => Failed(e)
            case Ok(requests, next) => Ok(TailBatch(requests), next)
      else Failed(Unknown)
  }

  /** The requests of a batch; each is decoded like a message of its own. */
  function DecodeTails(d: seq<Byte>, p: nat, n: nat): (r: Read<seq<Msg>>)
    requires p <= |d|
    ensures r.Ok? ==> p <= r.next <= |d| && |r.value| == n && AllTails(r.value)
    decreases |d| - p, 1, n
  {
    if n == 0 then Ok([], p)
    else
      match Decode(d, p)
      case Failed(e) => Failed(e)
      case Ok(m, q) =>
        if !m.Tail? then Failed(NotATail)
        else
          match DecodeTails(d, q, n - 1)
          case Failed(e) => Failed(e)
          case Ok(rest, next) => Ok([m] + rest, next)
  }

  // ------------------------------------------------------------------------------------------
  // What arrives
  // ------------------------------------------------------------------------------------------

  /** What the server makes of a message: on the wire no name is an empty name, which hides the
    * suffix, and no suffix is an empty one. */
  function Received(m: Msg): Msg {
    match m
    case Schema(name, scope, suffix) =>
      if OrEmpty(name) == [] then Schema(None, scope, None)
      else Schema(Some(OrEmpty(name)), scope, Some(OrEmpty(suffix)))
    case _ => m
  }

  predicate Short(t: Text) {
    |t| < 0x8000
  }

  /** The bounds that the fields of the wire format set. */
  predicate Fits(m: Msg) {
    match m
    case Query(query, _) => |query| <= MAX_QUERY_LENGTH
    case Schema(name, _, suffix) => OrEmpty(name) == [] || (Short(OrEmpty(name)) && Short(OrEmpty(suffix)))
    case Tail(table, columns, since, filter, params) =>
      Short(table) && Short(columns) && Short(filter) && Short(params) && since < 0x1_0000_0000_0000_0000
    case TailBatch(requests) => |requests| < 0x8000 && forall k :: 0 <= k < |requests| ==> Fits(requests[k])
    case PushPromise(schemas) => Short(schemas)
    case CreateDatabase(db) => Short(db)
    case CreateUser => true
    case Chunk(_, _) => true
  }

  lemma AtText16(d: seq<Byte>, p: nat, t: Text)
    requires At(d, p, Text16(t)) && Short(t)
    ensures GetText16(d, p) == Ok(t, p + |Text16(t)|)
  {
    AtSplit(d, p, Put16(|t|), t);
    AtWord16(d, p, |t|);
    AtBytes(d, p + 2, t);
  }

  /** Two fixed bytes. */
  lemma AtTwo(d: seq<Byte>, p: nat, a: Byte, b: Byte, rest: seq<Byte>)
    requires At(d, p, [a, b] + rest)
    ensures GetByte(d, p) == Ok(a, p + 1) && GetByte(d, p + 1) == Ok(b, p + 2) && At(d, p + 2, rest)
  {
    AtSplit(d, p, [a, b], rest);
    assert d[p] == d[p..p + 2][0] && d[p + 1] == d[p..p + 2][1];
  }

  lemma AtQuery(d: seq<Byte>, p: nat, query: Text, format: Format)
    requires At(d, p, Encode(Query(query, format))) && |query| <= MAX_QUERY_LENGTH
    ensures Decode(d, p) == Ok(Query(query, format), p + |Encode(Query(query, format))|)
  {
    hide Put32, At, Word32;
    Length32(|query|);
    AtTwo(d, p, 1, FormatCode(format), Put32(|query|) + query);
    AtSplit(d, p + 2, Put32(|query|), query);
    AtWord32(d, p + 2, |query|);
    AtBytes(d, p + 6, query);
  }

  lemma AtNamedSchema(d: seq<Byte>, p: nat, name: Text, scope: Scope, suffix: Text)
    requires At(d, p, [ScopeCode(scope)] + (Text16(name) + Text16(suffix)))
    requires Short(name) && (name != [] ==> Short(suffix))
    ensures DecodeSchema(d, p).Ok?
    ensures DecodeSchema(d, p).value ==
      if name == [] then Schema(None, scope, None) else Schema(Some(name), scope, Some(suffix))
  {
    hide At, Put16, Text16, GetText16;
    AtSplit(d, p, [ScopeCode(scope)], Text16(name) + Text16(suffix));
    assert GetByte(d, p) == Ok(ScopeCode(scope), p + 1) by { AtByte(d, p, ScopeCode(scope)); }
    AtSplit(d, p + 1, Text16(name), Text16(suffix));
    AtLength(d, p + 1, name);
    if name != [] {
      AtText16(d, p + 3 + |name|, suffix);
    }
  }

  lemma AtLength(d: seq<Byte>, p: nat, t: Text)
    requires At(d, p, Text16(t)) && Short(t)
    ensures |Text16(t)| == 2 + |t| && GetShort(d, p) == Ok(|t|, p + 2) && GetBytes(d, p + 2, |t|) == Ok(t, p + 2 + |t|)
  {
    AtSplit(d, p, Put16(|t|), t);
    AtWord16(d, p, |t|);
    AtBytes(d, p + 2, t);
  }

  lemma Regroup(a: seq<Byte>, b: seq<Byte>, c: seq<Byte>)
    ensures (a + b) + c == a + (b + c)
  {
  }

  lemma AtSchema(d: seq<Byte>, p: nat, m: Msg)
    requires m.Schema? && Fits(m) && At(d, p, Encode(m))
    ensures Decode(d, p).Ok? && Decode(d, p).value == Received(m)
  {
    hide At, Text16, DecodeSchema, Encode;
    var name, suffix := OrEmpty(m.name), OrEmpty(m.suffix);
    var body := [ScopeCode(m.scope)] + (Text16(name) + Text16(suffix));
    SchemaBytes(m.name, m.scope, m.suffix);
    AtSplit(d, p, [4], body);
    AtByte(d, p, 4);
    AtNamedSchema(d, p + 1, name, m.scope, suffix);
  }

  lemma SchemaBytes(name: Option<Text>, scope: Scope, suffix: Option<Text>)
    ensures Encode(Schema(name, scope, suffix))
         == [4] + ([ScopeCode(scope)] + (Text16(OrEmpty(name)) + Text16(OrEmpty(suffix))))
  {
    hide Text16;
    Regroup([4], [ScopeCode(scope)], Text16(OrEmpty(name)) + Text16(OrEmpty(suffix)));
    assert [4] + [ScopeCode(scope)] == [4, ScopeCode(scope)];
  }

  /** What follows the reserved bytes of a tail request. */
  function TailBody(m: Msg): seq<Byte>
    requires m.Tail?
  {
    Put64(m.since) + (Text16(m.table) + (Text16(m.columns) + (Text16(m.filter) + Text16(m.params))))
  }

  lemma TailBytes(m: Msg)
    requires m.Tail?
    ensures Encode(m) == [2] + ([0, 0, 0] + TailBody(m))
  {
  }

  lemma AtTail(d: seq<Byte>, p: nat, m: Msg)
    requires m.Tail? && Fits(m) && At(d, p, Encode(m))
    ensures Decode(d, p) == Ok(m, p + |Encode(m)|)
  {
    hide At, Text16, Put64, DecodeTail, Encode, TailBody;
    TailBytes(m);
    AtSplit(d, p, [2], [0, 0, 0] + TailBody(m));
    AtByte(d, p, 2);
    AtSplit(d, p + 1, [0, 0, 0], TailBody(m));
    AtTailBody(d, p + 1, m);
  }

  lemma AtTailBody(d: seq<Byte>, p: nat, m: Msg)
    requires m.Tail? && Fits(m) && At(d, p + 3, TailBody(m))
    ensures DecodeTail(d, p) == Ok(m, p + 3 + |TailBody(m)|)
  {
    hide At, Text16, Put64, GetText16, Word64;
    Length64(m.since);
    var t4 := Text16(m.params);
    var t3 := Text16(m.filter) + t4;
    var t2 := Text16(m.columns) + t3;
    AtSplit(d, p + 3, Put64(m.since), Text16(m.table) + t2);
    AtWord64(d, p + 3, m.since);
    AtSplit(d, p + 11, Text16(m.table), t2);
    AtText16(d, p + 11, m.table);
    var p2 := p + 11 + |Text16(m.table)|;
    AtSplit(d, p2, Text16(m.columns), t3);
    AtText16(d, p2, m.columns);
    var p3 := p2 + |Text16(m.columns)|;
    AtSplit(d, p3, Text16(m.filter), t4);
    AtText16(d, p3, m.filter);
    AtText16(d, p3 + |Text16(m.filter)|, m.params);
  }

  lemma {:induction false} AtTails(d: seq<Byte>, p: nat, requests: seq<Msg>)
    requires AllTails(requests) && At(d, p, EncodeTails(requests))
    requires forall k :: 0 <= k < |requests| ==> Fits(requests[k])
    ensures DecodeTails(d, p, |requests|) == Ok(requests, p + |EncodeTails(requests)|)
    decreases |requests|
  {
    hide At, Decode, EncodeTail;
    if requests != [] {
      var m, rest := requests[0], requests[1..];
      assert EncodeTails(requests) == Encode(m) + EncodeTails(rest);
      AtSplit(d, p, Encode(m), EncodeTails(rest));
      AtTail(d, p, m);
      AtTails(d, p + |Encode(m)|, rest);
      assert [m] + rest == requests;
    }
  }

  lemma AtBatch(d: seq<Byte>, p: nat, requests: seq<Msg>)
    requires AllTails(requests) && Fits(TailBatch(requests)) && At(d, p, Encode(TailBatch(requests)))
    ensures Decode(d, p).Ok? && Decode(d, p).value == TailBatch(requests)
  {
    hide At, Put16, DecodeTails, EncodeTails;
    Length16(|requests|);
    AtTwo(d, p, 7, 0, Put16(|requests|) + EncodeTails(requests));
    AtSplit(d, p + 2, Put16(|requests|), EncodeTails(requests));
    AtWord16(d, p + 2, |requests|);
    AtTails(d, p + 4, requests);
  }

  lemma AtOthers(d: seq<Byte>, m: Msg)
    requires m.PushPromise? || m.CreateDatabase? || m.CreateUser? || m.Chunk?
    requires Fits(m) && d == Encode(m)
    ensures Decode(d, 0).Ok? && Decode(d, 0).value == m
  {
    hide Put16, Text16, GetText16, At;
    AtWhole(d);
    match m {
      case PushPromise(schemas) =>
        AtSplit(d, 0, [3, 0, 0, 0], Text16(schemas));
        AtText16(d, 4, schemas);
      case CreateDatabase(db) =>
        AtSplit(d, 0, [5], Text16(db));
        AtText16(d, 1, db);
      case CreateUser =>
      case Chunk(payload, fin) =>
        AtTwo(d, 0, 0, if fin then 1 else 0, payload);
        assert d[2..] == payload;
    }
  }

  /** Decoded texts are short, since their lengths are signed 16 bit numbers. */
  lemma {:induction false} DecodedFits(d: seq<Byte>, p: nat)
    requires Decode(d, p).Ok?
    ensures Fits(Decode(d, p).value)
    decreases |d| - p, 0, 0
  {
    hide GetText16;
    if d[p] == 7 {
      var n := GetShort(d, p + 2).value;
      DecodedTailsFit(d, p + 4, if n < 0 then 0 else n);
    }
  }

  lemma {:induction false} DecodedTailsFit(d: seq<Byte>, p: nat, n: nat)
    requires p <= |d| && DecodeTails(d, p, n).Ok?
    ensures forall k :: 0 <= k < |DecodeTails(d, p, n).value| ==> Fits(DecodeTails(d, p, n).value[k])
    decreases |d| - p, 1, n
  {
    hide Decode;
    if n > 0 {
      DecodedFits(d, p);
      DecodedTailsFit(d, Decode(d, p).next, n - 1);
    }
  }

  /** The server decodes what the client encoded exactly when the message keeps within the
    * bounds of the wire format. */
  lemma RoundTrip(m: Msg)
    requires WellTyped(m)
    ensures var r := Decode(Encode(m), 0); (r.Ok? && r.value == Received(m)) <==> Fits(m)
  {
    hide Decode, Encode;
    var d := Encode(m);
    if Fits(m) {
      assert At(d, 0, Encode(m)) by { assert d[0..|d|] == d; }
      match m {
        case Query(query, format) => AtQuery(d, 0, query, format);
        case Schema(_, _, _) => AtSchema(d, 0, m);
        case Tail(_, _, _, _, _) => AtTail(d, 0, m);
        case TailBatch(requests) => AtBatch(d, 0, requests);
        case _ => AtOthers(d, m);
      }
    } else if Decode(d, 0).Ok? && Decode(d, 0).value == Received(m) {
      DecodedFits(d, 0);
    }
  }
}