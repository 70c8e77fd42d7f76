/** What the server makes of messages that no client encodes: cut short, of a type it does not
  * know, out of bounds, or with bits set that have no meaning. */
module ProtoErrors {
  import opened Bytes
  import opened Options
  import opened ProtoCodec

  // ------------------------------------------------------------------------------------------
  // Messages that are cut short
  // ------------------------------------------------------------------------------------------

  /** On fewer bytes a read gives the same or runs out of them. */
  predicate SameOrShort<T(==)>(less: Read<T>, more: Read<T>) {
    less == more || less == Failed(Underflow)
  }

  lemma NumbersShort(d: seq<Byte>, e: seq<Byte>, p: nat)
    ensures SameOrShort(GetByte(d, p), GetByte(d + e, p)) && SameOrShort(GetShort(d, p), GetShort(d + e, p))
    ensures SameOrShort(GetInt(d, p), GetInt(d + e, p)) && SameOrShort(GetULong(d, p), GetULong(d + e, p))
  {
  }

  lemma BytesShort(d: seq<Byte>, e: seq<Byte>, p: nat, n: int)
    ensures SameOrShort(GetBytes(d, p, n), GetBytes(d + e, p, n))
  {
    if 0 <= n && p + n <= |d| { assert (d + e)[p..p + n] == d[p..p + n]; }
  }

  lemma TextShort(d: seq<Byte>, e: seq<Byte>, p: nat)
    ensures SameOrShort(GetText16(d, p), GetText16(d + e, p))
  {
    hide GetShort, GetBytes;
    NumbersShort(d, e, p);
    match GetShort(d, p) {
      case Ok(n, q) => BytesShort(d, e, q, n);
      case Failed(_) =>
    }
  }

  lemma QueryShort(d: seq<Byte>, e: seq<Byte>, p: nat)
    ensures SameOrShort(DecodeQuery(d, p), DecodeQuery(d + e, p))
  {
    hide GetByte, GetInt, GetBytes;
    NumbersShort(d, e, p);
    if GetByte(d, p).Ok? {
      var q := GetByte(d, p).next;
      NumbersShort(d, e, q);
      if GetInt(d, q).Ok? { BytesShort(d, e, GetInt(d, q).next, GetInt(d, q).value); }
    }
  }

  lemma TailShort(d: seq<Byte>, e: seq<Byte>, p: nat)
    ensures SameOrShort(DecodeTail(d, p), DecodeTail(d + e, p))
  {
    hide GetULong, GetText16;
    NumbersShort(d, e, p + 3);
    if GetULong(d, p + 3).Ok? {
      var p1 := GetULong(d, p + 3).next;
      TextShort(d, e, p1);
      if GetText16(d, p1).Ok? {
        var p2 := GetText16(d, p1).next;
        TextShort(d, e, p2);
        if GetText16(d, p2).Ok? {
          var p3 := GetText16(d, p2).next;
          TextShort(d, e, p3);
          if GetText16(d, p3).Ok? { TextShort(d, e, GetText16(d, p3).next); }
        }
      }
    }
  }

  lemma SchemaShort(d: seq<Byte>, e: seq<Byte>, p: nat)
    ensures SameOrShort(DecodeSchema(d, p), DecodeSchema(d + e, p))
  {
    hide GetByte, GetShort, GetBytes, GetText16;
    NumbersShort(d, e, p);
    if GetByte(d, p).Ok? {
      var q := GetByte(d, p).next;
      NumbersShort(d, e, q);
      if GetShort(d, q).Ok? {
        var q', n := GetShort(d, q).next, GetShort(d, q).value;
        BytesShort(d, e, q', n);
        if GetBytes(d, q', n).Ok? { TextShort(d, e, GetBytes(d, q', n).next); }
      }
    }
  }

  /** A message that does not reach to the end of the buffer reads the same without the end, or
    * there are too few bytes. */
  lemma {:induction false} MessageShort(d: seq<Byte>, e: seq<Byte>, p: nat)
    requires p < |d| ==> d[p] != 0
    ensures SameOrShort(Decode(d, p), Decode(d + e, p))
    decreases |d| - p, 0, 0
  {
    hide GetText16, GetShort, DecodeQuery, DecodeTail, DecodeSchema;
    if p < |d| {
      assert (d + e)[p] == d[p];
      match d[p] {
        case 1 => QueryShort(d, e, p + 1);
        case 2 => TailShort(d, e, p + 1);
        case 3 => TextShort(d, e, p + 4);
        case 4 => SchemaShort(d, e, p + 1);
        case 5 => TextShort(d, e, p + 1);
        case 7 =>
          NumbersShort(d, e, p + 2);
          if GetShort(d, p + 2).Ok? {
            ShortNext(d, p + 2);
            var n := GetShort(d, p + 2).value;
            BatchShort(d, e, p + 4, if n < 0 then 0 else n);
          }
        case _ =>
      }
    }
  }

  lemma ShortNext(d: seq<Byte>, p: nat)
    requires GetShort(d, p).Ok?
    ensures GetShort(d, p).next == p + 2 <= |d|
  {
  }

  lemma {:induction false} BatchShort(d: seq<Byte>, e: seq<Byte>, p: nat, n: nat)
    requires p <= |d|
    ensures SameOrShort(DecodeTails(d, p, n), DecodeTails(d + e, p, n))
    decreases |d| - p, 1, n
  {
    hide Decode;
    if n > 0 {
      if p < |d| && d[p] == 0 {
        ChunkNoTail(d, e, p);
      } else {
        MessageShort(d, e, p);
        if Decode(d, p).Ok? { BatchShort(d, e, Decode(d, p).next, n - 1); }
      }
    }
  }

  /** A chunk in a batch is no tail request, however much of it there is. */
  lemma ChunkNoTail(d: seq<Byte>, e: seq<Byte>, p: nat)
    requires p < |d| && d[p] == 0
    ensures Decode(d, p) == Failed(Underflow) || (Decode(d, p).Ok? && Decode(d, p).value.Chunk?)
    ensures Decode(d, p).Ok? ==> Decode(d + e, p).Ok? && Decode(d + e, p).value.Chunk?
  {
  }

  /** How much of an encoded message the server needs: without a name a schema query ends behind
    * the length of the name, and a chunk behind its flags. */
  function Needed(m: Msg): nat
    requires WellTyped(m)
  {
    if m.Chunk? then 2 else if m.Schema? && OrEmpty(m.name) == [] then 4 else |Encode(m)|
  }

  lemma SchemaNeeds(m: Msg)
    requires m.Schema? && Fits(m)
    ensures Decode(Encode(m), 0).Ok? && Decode(Encode(m), 0).next == Needed(m) <= |Encode(m)|
  {
    hide At, Text16, GetText16, Encode, GetBytes, GetShort;
    var d := Encode(m);
    var name, suffix := OrEmpty(m.name), OrEmpty(m.suffix);
    AtWhole(d);
    SchemaBytes(m.name, m.scope, m.suffix);
    var body := [ScopeCode(m.scope)] + (Text16(name) + Text16(suffix));
    AtSplit(d, 0, [4], body);
    AtByte(d, 0, 4);
    AtSplit(d, 1, [ScopeCode(m.scope)], Text16(name) + Text16(suffix));
    assert GetByte(d, 1) == Ok(ScopeCode(m.scope), 2) by { AtByte(d, 1, ScopeCode(m.scope)); }
    AtSplit(d, 2, Text16(name), Text16(suffix));
    AtLength(d, 2, name);
    if name != [] { AtText16(d, 4 + |name|, suffix); }
  }

  lemma OthersNeed(m: Msg)
    requires m.PushPromise? || m.CreateDatabase? || m.CreateUser? || m.Chunk?
    requires Fits(m)
    ensures Decode(Encode(m), 0).Ok? && Decode(Encode(m), 0).next == Needed(m) <= |Encode(m)|
  {
    hide Put16, Text16, GetText16, At;
    var d := Encode(m);
    AtWhole(d);
    match m {
      case PushPromise(schemas) =>
        AtSplit(d, 0, [3, 0, 0, 0], Text16(schemas));
        AtText16(d, 4, schemas);
      case CreateDatabase(db) =>
        AtSplit(d, 0, [5], Text16(db));
        AtText16(d, 1, db);
      case _ =>
    }
  }

  lemma BatchNeeds(requests: seq<Msg>)
    requires AllTails(requests) && Fits(TailBatch(requests))
    ensures var m := TailBatch(requests);
      Decode(Encode(m), 0).Ok? && Decode(Encode(m), 0).next == |Encode(m)|
  {
    hide At, Put16, DecodeTails, EncodeTails;
    var d := Encode(TailBatch(requests));
    AtWhole(d);
    Length16(|requests|);
    AtTwo(d, 0, 7, 0, Put16(|requests|) + EncodeTails(requests));
    AtSplit(d, 2, Put16(|requests|), EncodeTails(requests));
    AtWord16(d, 2, |requests|);
    AtTails(d, 4, requests);
  }

  lemma ReadsNeeded(m: Msg)
    requires WellTyped(m) && Fits(m)
    ensures Decode(Encode(m), 0).Ok? && Decode(Encode(m), 0).next == Needed(m) <= |Encode(m)|
  {
    hide Decode, Encode;
    var d := Encode(m);
    AtWhole(d);
    match m {
      case Query(query, format) => AtQuery(d, 0, query, format);
      case Schema(_, _, _) => SchemaNeeds(m);
      case Tail(_, _, _, _, _) => AtTail(d, 0, m);
      case TailBatch(requests) => BatchNeeds(requests);
      case _ => OthersNeed(m);
    }
  }

  /** A message that was cut short is accepted exactly when all that the server needs of it is
    * there; otherwise it runs out of bytes. */
  lemma CutShort(m: Msg, k: nat)
    requires WellTyped(m) && Fits(m) && k <= |Encode(m)|
    ensures var r := Decode(Encode(m)[..k], 0);
      if k < Needed(m) then r == Failed(Underflow) else r.Ok? && r.next == Needed(m)
  {
    hide Decode, Encode;
    var d, e := Encode(m)[..k], Encode(m)[k..];
    assert d + e == Encode(m);
    ReadsNeeded(m);
    if m.Chunk? {
      ChunkCut(m, k);
    } else {
      FirstByte(m);
      MessageShort(d, e, 0);
      if k < Needed(m) {
        NextWithin(d);
      } else if k == |Encode(m)| {
        assert d == Encode(m);
      } else {
        SchemaCut(m, k);
      }
    }
  }

  lemma NextWithin(d: seq<Byte>)
    ensures Decode(d, 0).Ok? ==> Decode(d, 0).next <= |d|
  {
  }

  lemma FirstByte(m: Msg)
    requires WellTyped(m) && !m.Chunk?
    ensures |Encode(m)| > 0 && Encode(m)[0] != 0
  {
    hide Put16, Put32, Put64, Text16;
  }

  lemma ChunkCut(m: Msg, k: nat)
    requires m.Chunk? && k <= |Encode(m)|
    ensures var r := Decode(Encode(m)[..k], 0); if k < 2 then r == Failed(Underflow) else r.Ok? && r.next == 2
  {
  }

  lemma SchemaCut(m: Msg, k: nat)
    requires m.Schema? && OrEmpty(m.name) == [] && 4 <= k <= |Encode(m)|
    ensures Decode(Encode(m)[..k], 0).Ok? && Decode(Encode(m)[..k], 0).next == 4
  {
  }

  // ------------------------------------------------------------------------------------------
  // Messages out of bounds
  // ------------------------------------------------------------------------------------------

  lemma UnknownRefused(d: seq<Byte>, p: nat)
    requires p < |d| && d[p] >= 8
    ensures Decode(d, p) == Failed(Unknown)
  {
  }

  /** A query whose format is unknown, or whose length is beyond the bound or negative, is refused
    * before any of its text is read. */
  lemma QueryRefused(d: seq<Byte>, p: nat, code: Byte, n: nat)
    requires At(d, p, [1, code] + Put32(n)) && n < 0x1_0000_0000
    ensures code % 16 >= 3 ==> Decode(d, p) == Failed(BadIndex)
    ensures code % 16 < 3 && MAX_QUERY_LENGTH < n < 0x8000_0000 ==> Decode(d, p) == Failed(QueryTooLong)
    ensures code % 16 < 3 && 0x8000_0000 <= n ==> Decode(d, p) == Failed(NegativeSize)
  {
    hide Put32, At, Word32;
    AtTwo(d, p, 1, code, Put32(n));
    AtWord32(d, p + 2, n);
  }

  lemma SchemaRefused(d: seq<Byte>, p: nat)
    requires p + 2 <= |d| && d[p] == 4 && d[p + 1] % 16 >= 4
    ensures Decode(d, p) == Failed(BadIndex)
  {
  }

  /** A batch is refused when a message of another type stands where a request is due. */
  lemma {:induction false} OtherInBatch(d: seq<Byte>, p: nat, requests: seq<Msg>, n: nat)
    requires AllTails(requests) && At(d, p, EncodeTails(requests)) && |requests| < n
    requires forall k :: 0 <= k < |requests| ==> Fits(requests[k])
    requires var r := Decode(d, p + |EncodeTails(requests)|); r.Ok? && !r.value.Tail?
    ensures DecodeTails(d, p, n) == Failed(NotATail)
    decreases |requests|
  {
    hide At, Decode, EncodeTail;
    if requests != [] {
      var m, rest := requests[0], requests[1..];
      assert EncodeTails(requests) == Encode(m) + EncodeTails(rest);
      AtSplit(d, p, Encode(m), EncodeTails(rest));
      AtTail(d, p, m);
      OtherInBatch(d, p + |Encode(m)|, rest, n - 1);
    }
  }

  // ------------------------------------------------------------------------------------------
  // Bits without a meaning
  // ------------------------------------------------------------------------------------------

  /** The buffers agree from `p` on. */
  ghost predicate AgreeFrom(d: seq<Byte>, d': seq<Byte>, p: nat) {
    |d| == |d'| && p <= |d| && d[p..] == d'[p..]
  }

  /** The buffers hold the same message but for bits that have no meaning: the flags of a chunk
    * above the lowest, the upper half of the byte with the format or the scope, and the bytes that
    * are reserved in the other messages. */
  ghost predicate Alike(d: seq<Byte>, d': seq<Byte>, p: nat) {
    && |d| == |d'| && (p < |d| ==> d[p] == d'[p])
    && (p + 1 < |d| ==> SecondAlike(d[p], d[p + 1], d'[p + 1]))
    && (p < |d| && Meant(d[p], p) <= |d| ==> AgreeFrom(d, d', Meant(d[p], p)))
  }

  predicate SecondAlike(kind: Byte, b: Byte, b': Byte) {
    && (kind == 0 ==> b % 2 == b' % 2) && (kind == 1 || kind == 4 ==> b % 16 == b' % 16)
    && (kind == 5 || kind == 6 || kind >= 8 ==> b == b')
  }

  /** From where on all bits have a meaning. */
  function Meant(kind: Byte, p: nat): nat {
    if kind == 2 || kind == 3 then p + 4 else if kind == 5 || kind == 6 || kind >= 8 then p + 1 else p + 2
  }

  lemma ByteAgrees(d: seq<Byte>, d': seq<Byte>, p: nat, q: nat)
    requires AgreeFrom(d, d', p) && p <= q < |d|
    ensures d[q] == d'[q]
  {
    assert d[q] == d[p..][q - p] && d'[q] == d'[p..][q - p];
  }

  lemma AgreeLater(d: seq<Byte>, d': seq<Byte>, p: nat, q: nat)
    requires AgreeFrom(d, d', p) && p <= q <= |d|
    ensures AgreeFrom(d, d', q)
  {
    assert d[q..] == d[p..][q - p..] && d'[q..] == d'[p..][q - p..];
  }

  lemma NumbersAgree(d: seq<Byte>, d': seq<Byte>, p: nat, q: nat)
    requires AgreeFrom(d, d', p) && p <= q
    ensures GetByte(d, q) == GetByte(d', q) && GetShort(d, q) == GetShort(d', q) && GetInt(d, q) == GetInt(d', q)
    ensures GetULong(d, q) == GetULong(d', q)
  {
    forall k | q <= k < |d| ensures d[k] == d'[k] { ByteAgrees(d, d', p, k); }
  }

  lemma BytesAgree(d: seq<Byte>, d': seq<Byte>, p: nat, q: nat, n: int)
    requires AgreeFrom(d, d', p) && p <= q
    ensures GetBytes(d, q, n) == GetBytes(d', q, n)
  {
    if 0 <= n && q + n <= |d| {
      forall k | q <= k < |d| ensures d[k] == d'[k] { ByteAgrees(d, d', p, k); }
      assert d[q..q + n] == d'[q..q + n];
    }
  }

  lemma TextAgrees(d: seq<Byte>, d': seq<Byte>, p: nat, q: nat)
    requires AgreeFrom(d, d', p) && p <= q
    ensures GetText16(d, q) == GetText16(d', q)
  {
    hide GetShort, GetBytes, AgreeFrom;
    NumbersAgree(d, d', p, q);
    if GetShort(d, q).Ok? {
      ShortNext(d, q);
      BytesAgree(d, d', p, q + 2, GetShort(d, q).value);
    }
  }

  lemma QueryAgrees(d: seq<Byte>, d': seq<Byte>, p: nat)
    requires |d| == |d'| && (p < |d| ==> d[p] % 16 == d'[p] % 16 && AgreeFrom(d, d', p + 1))
    ensures DecodeQuery(d, p) == DecodeQuery(d', p)
  {
    hide GetInt, GetBytes, AgreeFrom;
    if p < |d| {
      NumbersAgree(d, d', p + 1, p + 1);
      if GetInt(d, p + 1).Ok? {
        IntNext(d, p + 1);
        BytesAgree(d, d', p + 1, p + 5, GetInt(d, p + 1).value);
      }
    }
  }

  lemma IntNext(d: seq<Byte>, p: nat)
    requires GetInt(d, p).Ok?
    ensures GetInt(d, p).next == p + 4
  {
  }

  lemma TailAgrees(d: seq<Byte>, d': seq<Byte>, p: nat)
    requires |d| == |d'| && (p + 3 <= |d| ==> AgreeFrom(d, d', p + 3))
    ensures DecodeTail(d, p) == DecodeTail(d', p)
  {
    hide GetText16, AgreeFrom, GetULong;
    if p + 3 <= |d| {
      NumbersAgree(d, d', p + 3, p + 3);
      if GetULong(d, p + 3).Ok? {
        ULongNext(d, p + 3);
        var p1 := p + 11;
        TextAgrees(d, d', p + 3, p1);
        if GetText16(d, p1).Ok? {
          var p2 := GetText16(d, p1).next;
          TextAgrees(d, d', p + 3, p2);
          if GetText16(d, p2).Ok? {
            var p3 := GetText16(d, p2).next;
            TextAgrees(d, d', p + 3, p3);
            if GetText16(d, p3).Ok? { TextAgrees(d, d', p + 3, GetText16(d, p3).next); }
          }
        }
      }
    }
  }

  lemma ULongNext(d: seq<Byte>, p: nat)
    requires GetULong(d, p).Ok?
    ensures GetULong(d, p).next == p + 8
  {
  }

  lemma SchemaAgrees(d: seq<Byte>, d': seq<Byte>, p: nat)
    requires |d| == |d'| && (p < |d| ==> d[p] % 16 == d'[p] % 16 && AgreeFrom(d, d', p + 1))
    ensures DecodeSchema(d, p) == DecodeSchema(d', p)
  {
    hide GetShort, GetBytes, GetText16, AgreeFrom;
    if p < |d| {
      NumbersAgree(d, d', p + 1, p + 1);
      if GetShort(d, p + 1).Ok? {
        ShortNext(d, p + 1);
        var n := GetShort(d, p + 1).value;
        BytesAgree(d, d', p + 1, p + 3, n);
        if GetBytes(d, p + 3, n).Ok? {
          BytesNext(d, p + 3, n);
          TextAgrees(d, d', p + 1, p + 3 + n);
        }
      }
    }
  }

  lemma BytesNext(d: seq<Byte>, p: nat, n: int)
    requires GetBytes(d, p, n).Ok?
    ensures n >= 0 && GetBytes(d, p, n).next == p + n
  {
  }

  lemma {:induction false} TailsAgree(d: seq<Byte>, d': seq<Byte>, p: nat, n: nat)
    requires AgreeFrom(d, d', p)
    ensures DecodeTails(d, p, n) == DecodeTails(d', p, n)
    decreases |d| - p, 1, n
  {
    hide Decode, Alike;
    if n > 0 {
      AgreeAlike(d, d', p);
      SpareIgnored(d, d', p);
      if Decode(d, p).Ok? {
        AgreeLater(d, d', p, Decode(d, p).next);
        TailsAgree(d, d', Decode(d, p).next, n - 1);
      }
    }
  }

  lemma AgreeAlike(d: seq<Byte>, d': seq<Byte>, p: nat)
    requires AgreeFrom(d, d', p)
    ensures Alike(d, d', p)
  {
  }

  /** The server makes the same of messages that differ in bits without a meaning only, whether it
    * accepts them or not. */
  lemma {:induction false} SpareIgnored(d: seq<Byte>, d': seq<Byte>, p: nat)
    requires Alike(d, d', p)
    ensures Decode(d, p) == Decode(d', p)
    decreases |d| - p, 0, 0
  {
    hide GetText16, GetShort, DecodeQuery, DecodeTail, DecodeSchema, AgreeFrom;
    if p < |d| {
      match d[p] {
        case 0 => if p + 2 <= |d| { RestAgrees(d, d', p + 2); }
        case 1 => QueryAgrees(d, d', p + 1);
        case 2 => TailAgrees(d, d', p + 1);
        case 3 => if p + 4 <= |d| { TextAgrees(d, d', p + 4, p + 4); }
        case 4 => SchemaAgrees(d, d', p + 1);
        case 5 => TextAgrees(d, d', p + 1, p + 1);
        case 7 =>
          if p + 2 <= |d| {
            NumbersAgree(d, d', p + 2, p + 2);
            if GetShort(d, p + 2).Ok? {
              ShortNext(d, p + 2);
              AgreeLater(d, d', p + 2, p + 4);
              var n := GetShort(d, p + 2).value;
              TailsAgree(d, d', p + 4, if n < 0 then 0 else n);
            }
          }
        case _ =>
      }
    }
  }

  lemma RestAgrees(d: seq<Byte>, d': seq<Byte>, p: nat)
    requires AgreeFrom(d, d', p)
    ensures |d| == |d'| && p <= |d| && d[p..] == d'[p..]
  {
  }
}
