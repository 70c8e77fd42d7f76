/** The orchestration codecs as they run: the client fills buffers through views, the server reads
  * on from the position of a shared buffer. */
module ProtoWire {
  import opened Bytes
  import opened Options
  import opened ProtoCodec

  // ------------------------------------------------------------------------------------------
  // The server
  // ------------------------------------------------------------------------------------------

  /** A buffer whose position every read moves on. */
  class ByteBuffer {
    const data: seq<Byte>
    var position: nat

    constructor (data: seq<Byte>)
      ensures this.data == data && position == 0
    {
      this.data, position := data, 0;
    }

    method Get() returns (r: Read<Byte>)
      modifies this
      ensures r == GetByte(data, old(position)) && position == if r.Ok? then r.next else old(position)
    {
      if position + 1 > |data| {
        return Failed(Underflow);
      }
      position := position + 1;
      return Ok(data[position - 1], position);
    }

    method Skip(n: nat) returns (ok: bool)
      modifies this
      ensures ok <==> old(position) + n <= |data|
      ensures position == if ok then old(position) + n else old(position)
    {
      if position + n > |data| {
        return false;
      }
      position := position + n;
      return true;
    }

    method Short() returns (r: Read<int>)
      modifies this
      ensures r == GetShort(data, old(position)) && position == if r.Ok? then r.next else old(position)
    {
      r := GetShort(data, position);
      if r.Ok? {
        position := r.next;
      }
    }

    method Int() returns (r: Read<int>)
      modifies this
      ensures r == GetInt(data, old(position)) && position == if r.Ok? then r.next else old(position)
    {
      r := GetInt(data, position);
      if r.Ok? {
        position := r.next;
      }
    }

    method Long() returns (r: Read<nat>)
      modifies this
      ensures r == GetULong(data, old(position)) && position == if r.Ok? then r.next else old(position)
    {
      r := GetULong(data, position);
      if r.Ok? {
        position := r.next;
      }
    }

    method Fill(n: int) returns (r: Read<seq<Byte>>)
      modifies this
      ensures r == GetBytes(data, old(position), n) && position == if r.Ok? then r.next else old(position)
    {
      if n < 0 {
        return Failed(NegativeSize);
      }
      if position + n > |data| {
        return Failed(Underflow);
      }
      position := position + n;
      return Ok(data[position - n..position], position);
    }

    method ShortText() returns (r: Read<Text>)
      modifies this
      ensures r == GetText16(data, old(position)) && (r.Ok? ==> position == r.next)
    {
      var n := Short();
      match n {
        case Failed(e) => return Failed(e);
        case Ok(length, _) => r := Fill(length);
      }
    }
  }

  /** The rest of a batch put behind what was decoded before. */
  function After(done: seq<Msg>, rest: Read<seq<Msg>>): Read<seq<Msg>> {
    match rest
    case Failed(e) => Failed(e)
    case Ok(requests, next) => Ok(done + requests, next)
  }

  lemma AfterStep(done: seq<Msg>, d: seq<Byte>, p: nat, n: nat)
    requires p <= |d| && n > 0
    ensures match Decode(d, p)
      case Failed(e) => After(done, DecodeTails(d, p, n)) == Failed(e)
      case Ok(m, q) =>
        After(done, DecodeTails(d, p, n)) == if m.Tail? then After(done + [m], DecodeTails(d, q, n - 1)) else Failed(NotATail)
  {
    hide Decode;
    if Decode(d, p).Ok? && DecodeTails(d, p, n).Ok? {
      var m, q := Decode(d, p).value, Decode(d, p).next;
      assert done + ([m] + DecodeTails(d, q, n - 1).value) == (done + [m]) + DecodeTails(d, q, n - 1).value;
    }
  }

  method DecodeQueryMsg(buf: ByteBuffer) returns (r: Read<Msg>)
    modifies buf
    ensures r == DecodeQuery(buf.data, old(buf.position)) && (r.Ok? ==> buf.position == r.next)
  {
    var code := buf.Get();
    if code.Failed? {
      return Failed(code.error);
    }
    var format := FormatAt(code.value % 16);
    if format.None? {
      return Failed(BadIndex);
    }
    var length := buf.Int();
    if length.Failed? {
      return Failed(length.error);
    }
    if length.value > MAX_QUERY_LENGTH {
      return Failed(QueryTooLong);
    }
    var query := buf.Fill(length.value);
    if query.Failed? {
      return Failed(query.error);
    }
    return Ok(Query(query.value, format.value), buf.position);
  }

  method DecodeTailMsg(buf: ByteBuffer) returns (r: Read<Msg>)
    modifies buf
    ensures r == DecodeTail(buf.data, old(buf.position)) && (r.Ok? ==> buf.position == r.next)
  {
    hide GetText16;
    var ok := buf.Skip(3);
    if !ok {
      return Failed(Underflow);
    }
    var since := buf.Long();
    if since.Failed? {
      return Failed(since.error);
    }
    var table := buf.ShortText();
    if table.Failed? {
      return Failed(table.error);
    }
    var columns := buf.ShortText();
    if columns.Failed? {
      return Failed(columns.error);
    }
    var filter := buf.ShortText();
    if filter.Failed? {
      return Failed(filter.error);
    }
    var params := buf.ShortText();
    if params.Failed? {
      return Failed(params.error);
    }
    return Ok(Tail(table.value, columns.value, since.value, filter.value, params.value), buf.position);
  }

  method DecodeSchemaMsg(buf: ByteBuffer) returns (r: Read<Msg>)
    modifies buf
    ensures r == DecodeSchema(buf.data, old(buf.position)) && (r.Ok? ==> buf.position == r.next)
  {
    var code := buf.Get();
    if code.Failed? {
      return Failed(code.error);
    }
    var scope := ScopeAt(code.value % 16);
    if scope.None? {
      return Failed(BadIndex);
    }
    var length := buf.Short();
    if length.Failed? {
      return Failed(length.error);
    }
    if length.value < 1 {
      return Ok(Schema(None, scope.value, None), buf.position);
    }
    var name := buf.Fill(length.value);
    if name.Failed? {
      return Failed(name.error);
    }
    var suffix := buf.ShortText();
    if suffix.Failed? {
      return Failed(suffix.error);
    }
    return Ok(Schema(Some(name.value), scope.value, Some(suffix.value)), buf.position);
  }

  lemma AfterEnds(rest: Read<seq<Msg>>, done: seq<Msg>, d: seq<Byte>, p: nat)
    ensures After([], rest) == rest
    ensures p <= |d| ==> After(done, DecodeTails(d, p, 0)) == Ok(done, p)
  {
    if rest.Ok? { assert [] + rest.value == rest.value; }
    assert done + [] == done;
  }

  function AtLeast0(n: int): nat {
    if n < 0 then 0 else n
  }

  /** The requests of a batch, one after the other off the same buffer. */
  method DecodeRequests(buf: ByteBuffer, n: int) returns (r: Read<seq<Msg>>)
    requires buf.position <= |buf.data|
    modifies buf
    ensures r == DecodeTails(buf.data, old(buf.position), AtLeast0(n)) && (r.Ok? ==> buf.position == r.next)
    decreases |buf.data| - buf.position, 1
  {
    hide Decode, DecodeTails, After;
    ghost var from := buf.position;
    var requests: seq<Msg>, i: int := [], 0;
    AfterEnds(DecodeTails(buf.data, from, AtLeast0(n)), [], buf.data, from);
    while i < n
      invariant 0 <= i <= AtLeast0(n) && from <= buf.position <= |buf.data|
      invariant After(requests, DecodeTails(buf.data, buf.position, AtLeast0(n) - i)) == DecodeTails(buf.data, from, AtLeast0(n))
    {
      AfterStep(requests, buf.data, buf.position, n - i);
      var req := DecodeProtoMsg(buf);
      if req.Failed? {
        return Failed(req.error);
      }
      if !req.value.Tail? {
        return Failed(NotATail);
      }
      requests := requests + [req.value];
      i := i + 1;
    }
    AfterEnds(DecodeTails(buf.data, from, AtLeast0(n)), requests, buf.data, buf.position);
    return Ok(requests, buf.position);
  }

  method DecodeBatchMsg(buf: ByteBuffer) returns (r: Read<Msg>)
    modifies buf
    requires 0 < buf.position <= |buf.data| && buf.data[buf.position - 1] == 7
    ensures r == Decode(buf.data, old(buf.position) - 1) && (r.Ok? ==> buf.position == r.next)
    decreases |buf.data| - buf.position, 1
  {
    hide DecodeTails;
    var ok := buf.Skip(1);
    if !ok {
      return Failed(Underflow);
    }
    var n := buf.Short();
    if n.Failed? {
      return Failed(n.error);
    }
    var requests := DecodeRequests(buf, n.value);
    if requests.Failed? {
      return Failed(requests.error);
    }
    return Ok(TailBatch(requests.value), buf.position);
  }

  /** The next message in the buffer. */
  method DecodeProtoMsg(buf: ByteBuffer) returns (r: Read<Msg>)
    modifies buf
    ensures r == Decode(buf.data, old(buf.position)) && (r.Ok? ==> buf.position == r.next)
    decreases |buf.data| - buf.position, 0
  {
    hide GetText16, DecodeQuery, DecodeTail, DecodeSchema;
    var code := buf.Get();
    if code.Failed? {
      return Failed(code.error);
    }
    match code.value {
      case 0 =>
        var flags := buf.Get();
        if flags.Failed? {
          return Failed(flags.error);
        }
        return Ok(Chunk(buf.data[buf.position..], flags.value % 2 == 1), buf.position);
      case 1 => r := DecodeQueryMsg(buf);
      case 2 => r := DecodeTailMsg(buf);
      case 3 =>
        var ok := buf.Skip(3);
        if !ok {
          return Failed(Underflow);
        }
        var schemas := buf.ShortText();
        if schemas.Failed? {
          return Failed(schemas.error);
        }
        return Ok(PushPromise(schemas.value), buf.position);
      case 4 => r := DecodeSchemaMsg(buf);
      case 5 =>
        var db := buf.ShortText();
        if db.Failed? {
          return Failed(db.error);
        }
        return Ok(CreateDatabase(db.value), buf.position);
      case 6 => return Ok(CreateUser, buf.position);
      case 7 => r := DecodeBatchMsg(buf);
      case _ => return Failed(Unknown);
    }
  }
}
