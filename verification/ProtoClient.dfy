/** The encoder of the JavaScript client: a buffer is allocated from the lengths of the strings in
  * UTF-16 units, filled through views, and cut to what was written. */
module ProtoClient {
  import opened Bytes
  import opened Buffers
  import opened Options
  import opened ProtoCodec

  /** A string: its length in UTF-16 units and its bytes in UTF-8, at most three a unit. */
  datatype JsString = JsString(units: nat, utf8: Text)

  predicate Sized(s: JsString) {
    |s.utf8| <= 3 * s.units
  }

  method SetUint8(buf: array<Byte>, at: nat, v: nat)
    requires at + 1 <= buf.Length
    modifies buf
    ensures buf[..] == Written(old(buf[..]), at, Put8(v))
  {
    buf[at] := v % 256;
  }

  method SetUint16(buf: array<Byte>, at: nat, v: nat)
    requires at + 2 <= buf.Length
    modifies buf
    ensures buf[..] == Written(old(buf[..]), at, Put16(v))
  {
    buf[at] := v / 256 % 256;
    buf[at + 1] := v % 256;
  }

  method SetUint32(buf: array<Byte>, at: nat, v: nat)
    requires at + 4 <= buf.Length
    modifies buf
    ensures |Put32(v)| == 4 && buf[..] == Written(old(buf[..]), at, Put32(v))
  {
    hide Put16, Written;
    Length16(v);
    Length16(v / 65536);
    SetUint16(buf, at, v / 65536);
    SetUint16(buf, at + 2, v);
    WrittenOn(old(buf[..]), at, Put16(v / 65536), Put16(v));
  }

  method SetBigUint64(buf: array<Byte>, at: nat, v: nat)
    requires at + 8 <= buf.Length
    modifies buf
    ensures |Put64(v)| == 8 && buf[..] == Written(old(buf[..]), at, Put64(v))
  {
    hide Put32, Written;
    Length64(v);
    SetUint32(buf, at, v / 0x1_0000_0000);
    SetUint32(buf, at + 4, v);
    WrittenOn(old(buf[..]), at, Put32(v / 0x1_0000_0000), Put32(v));
  }

  /** Copies bytes into the buffer. */
  method Copy(buf: array<Byte>, at: nat, bytes: seq<Byte>)
    requires at + |bytes| <= buf.Length
    modifies buf
    ensures buf[..] == Written(old(buf[..]), at, bytes)
  {
    forall k | 0 <= k < |bytes| {
      buf[at + k] := bytes[k];
    }
  }

  lemma LengthText16(t: Text)
    ensures |Text16(t)| == 2 + |t|
  {
  }

  /** The text two bytes further on, then its length in front of it. */
  method PutText16(buf: array<Byte>, at: nat, t: JsString) returns (next: nat)
    requires at + 2 + |t.utf8| <= buf.Length
    modifies buf
    ensures |Text16(t.utf8)| == 2 + |t.utf8| && next == at + |Text16(t.utf8)|
    ensures buf[..] == Written(old(buf[..]), at, Text16(t.utf8))
  {
    hide Written, Put16;
    LengthText16(t.utf8);
    Length16(|t.utf8|);
    Copy(buf, at + 2, t.utf8);
    SetUint16(buf, at, |t.utf8|);
    WrittenBefore(old(buf[..]), at, Put16(|t.utf8|), t.utf8);
    next := at + 2 + |t.utf8|;
  }

  /** All that was written so far is `done`, from the start of the buffer. */
  ghost predicate Holds(buf: seq<Byte>, done: seq<Byte>) {
    |done| <= |buf| && buf[..|done|] == done
  }

  lemma HoldsMore(before: seq<Byte>, done: seq<Byte>, piece: seq<Byte>)
    requires Holds(before, done) && |done| + |piece| <= |before|
    ensures Holds(Written(before, |done|, piece), done + piece)
  {
  }

  /** A text with its length goes behind what was written. */
  method AppendText16(buf: array<Byte>, at: nat, t: JsString, ghost done: seq<Byte>) returns (next: nat)
    requires Holds(buf[..], done) && |done| == at && at + 2 + |t.utf8| <= buf.Length
    modifies buf
    ensures Holds(buf[..], done + Text16(t.utf8)) && next == |done + Text16(t.utf8)| == at + 2 + |t.utf8|
  {
    hide Text16, Written, Holds;
    LengthText16(t.utf8);
    HoldsMore(buf[..], done, Text16(t.utf8));
    next := PutText16(buf, at, t);
  }

  method NewBuffer(n: nat) returns (buf: array<Byte>)
    ensures fresh(buf) && buf.Length == n && forall k :: 0 <= k < n ==> buf[k] == 0
  {
    buf := new Byte[n](_ => 0);
  }

  /** Sets the first two bytes of a new buffer; the two that follow are still zero. */
  method PutHead(buf: array<Byte>, kind: Byte, second: Byte)
    requires buf.Length >= 2 && forall k :: 0 <= k < buf.Length ==> buf[k] == 0
    modifies buf
    ensures Holds(buf[..], [kind, second]) && (buf.Length >= 4 ==> Holds(buf[..], [kind, second, 0, 0]))
  {
    SetUint8(buf, 0, kind);
    SetUint8(buf, 1, second);
    assert buf[0] == kind && buf[1] == second;
    assert forall k :: 2 <= k < buf.Length ==> buf[k] == 0;
  }

  method EncodeQueryMsg(query: JsString, format: Format) returns (r: seq<Byte>)
    requires Sized(query)
    ensures r == Encode(Query(query.utf8, format))
  {
    hide Put32, Written, Holds;
    var buf := NewBuffer(6 + query.units * 4);
    PutHead(buf, 1, FormatCode(format));
    ghost var done: seq<Byte> := [1, FormatCode(format)];
    Length32(|query.utf8|);
    HoldsMore(buf[..], done, Put32(|query.utf8|));
    SetUint32(buf, 2, |query.utf8|);
    HoldsMore(buf[..], done + Put32(|query.utf8|), query.utf8);
    Copy(buf, 6, query.utf8);
    r := buf[..6 + |query.utf8|];
    HeldPrefix(buf[..], done + Put32(|query.utf8|) + query.utf8);
    assert done + (Put32(|query.utf8|) + query.utf8) == done + Put32(|query.utf8|) + query.utf8;
  }

  method EncodeSchemaMsg(name: Option<JsString>, scope: Scope, suffix: Option<JsString>) returns (r: seq<Byte>)
    requires (name.Some? ==> Sized(name.value)) && (suffix.Some? ==> Sized(suffix.value))
    ensures r == Encode(Schema(Utf8Of(name), scope, Utf8Of(suffix)))
  {
    hide Text16, Written, Holds;
    var name' := if name.Some? then name.value else JsString(0, []);
    var suffix' := if suffix.Some? then suffix.value else JsString(0, []);
    var buf := NewBuffer(6 + name'.units * 4 + suffix'.units * 4);
    PutHead(buf, 4, ScopeCode(scope));
    ghost var done: seq<Byte> := [4, ScopeCode(scope)];
    var suffixIdx := AppendText16(buf, 2, name', done);
    var end := AppendText16(buf, suffixIdx, suffix', done + Text16(name'.utf8));
    r := buf[..end];
    HeldPrefix(buf[..], done + Text16(name'.utf8) + Text16(suffix'.utf8));
    assert done + (Text16(name'.utf8) + Text16(suffix'.utf8)) == done + Text16(name'.utf8) + Text16(suffix'.utf8);
  }

  function Utf8Of(s: Option<JsString>): Option<Text> {
    if s.Some? then Some(s.value.utf8) else None
  }

  method EncodeTailMsg(table: JsString, columns: JsString, since: nat, filter: JsString, params: JsString)
    returns (r: seq<Byte>)
    requires Sized(table) && Sized(columns) && Sized(filter) && Sized(params)
    ensures r == EncodeTail(table.utf8, columns.utf8, since, filter.utf8, params.utf8)
  {
    hide Text16, Written, Put64, Holds;
    var buf := NewBuffer(20 + table.units * 4 + columns.units * 4 + filter.units * 4 + params.units * 4);
    PutHead(buf, 2, 0);
    ghost var head: seq<Byte> := [2, 0, 0, 0];
    Length64(since);
    HoldsMore(buf[..], head, Put64(since));
    SetBigUint64(buf, 4, since);
    ghost var d1 := head + Put64(since);
    var expectedColsOffset := AppendText16(buf, 12, table, d1);
    ghost var d2 := d1 + Text16(table.utf8);
    var filterExprOffset := AppendText16(buf, expectedColsOffset, columns, d2);
    ghost var d3 := d2 + Text16(columns.utf8);
    var paramsOffset := AppendText16(buf, filterExprOffset, filter, d3);
    ghost var d4 := d3 + Text16(filter.utf8);
    var end := AppendText16(buf, paramsOffset, params, d4);
    r := buf[..end];
    HeldPrefix(buf[..], d4 + Text16(params.utf8));
    FourTexts(head, Put64(since), Text16(table.utf8), Text16(columns.utf8), Text16(filter.utf8), Text16(params.utf8));
  }

  lemma HeldPrefix(buf: seq<Byte>, done: seq<Byte>)
    requires Holds(buf, done)
    ensures |done| <= |buf| && buf[..|done|] == done
  {
  }

  lemma FourTexts(h: seq<Byte>, s: seq<Byte>, a: seq<Byte>, b: seq<Byte>, c: seq<Byte>, d: seq<Byte>)
    ensures h + s + a + b + c + d == h + (s + (a + (b + (c + d))))
  {
  }

  datatype TailRequest = TailRequest(table: JsString, columns: JsString, since: nat, filter: JsString, params: JsString)

  predicate RequestSized(t: TailRequest) {
    Sized(t.table) && Sized(t.columns) && Sized(t.filter) && Sized(t.params)
  }

  function AsTail(t: TailRequest): Msg {
    Tail(t.table.utf8, t.columns.utf8, t.since, t.filter.utf8, t.params.utf8)
  }

  function Requests(ts: seq<TailRequest>): (r: seq<Msg>)
    ensures |r| == |ts| && AllTails(r)
  {
    seq(|ts|, k requires 0 <= k < |ts| => AsTail(ts[k]))
  }

  method EncodeTailRequest(t: TailRequest) returns (r: seq<Byte>)
    requires RequestSized(t)
    ensures r == Encode(AsTail(t))
  {
    hide EncodeTail;
    r := EncodeTailMsg(t.table, t.columns, t.since, t.filter, t.params);
  }

  function Joined(buffers: seq<seq<Byte>>): seq<Byte> {
    if buffers == [] then [] else buffers[0] + Joined(buffers[1..])
  }

  lemma {:induction false} JoinedSnoc(buffers: seq<seq<Byte>>, b: seq<Byte>)
    ensures Joined(buffers + [b]) == Joined(buffers) + b
  {
    if buffers == [] {
      assert [b][1..] == [];
      assert b + [] == b;
    } else {
      assert (buffers + [b])[1..] == buffers[1..] + [b];
      JoinedSnoc(buffers[1..], b);
    }
  }

  lemma {:induction false} TailsJoined(requests: seq<Msg>, buffers: seq<seq<Byte>>)
    requires AllTails(requests) && |requests| == |buffers|
    requires forall k :: 0 <= k < |requests| ==> buffers[k] == Encode(requests[k])
    ensures Joined(buffers) == EncodeTails(requests)
  {
    if requests != [] {
      TailsJoined(requests[1..], buffers[1..]);
    }
  }

  /** Each request into a buffer of its own; then their sizes are added up and they are copied. */
  method EncodeTailBatchMsg(ts: seq<TailRequest>) returns (r: seq<Byte>)
    requires forall k :: 0 <= k < |ts| ==> RequestSized(ts[k])
    ensures r == Encode(TailBatch(Requests(ts)))
  {
    hide Joined, Encode, EncodeTails;
    var buffers := [];
    var size := 0;
    JoinedNothing();
    for i := 0 to |ts|
      invariant |buffers| == i && size == |Joined(buffers)|
      invariant forall k :: 0 <= k < i ==> buffers[k] == Encode(AsTail(ts[k]))
    {
      var b := EncodeTailRequest(ts[i]);
      JoinedSnoc(buffers, b);
      buffers := buffers + [b];
      size := size + |b|;
    }
    TailsJoined(Requests(ts), buffers);
    r := FillBatch(|ts|, buffers, size);
    BatchEncoded(Requests(ts));
  }

  lemma JoinedNothing()
    ensures Joined([]) == []
  {
  }

  lemma BatchEncoded(requests: seq<Msg>)
    requires AllTails(requests)
    ensures Encode(TailBatch(requests)) == [7, 0] + Put16(|requests|) + EncodeTails(requests)
  {
    hide EncodeTails, Put16;
    assert [7, 0] + (Put16(|requests|) + EncodeTails(requests)) == [7, 0] + Put16(|requests|) + EncodeTails(requests);
  }

  method FillBatch(n: nat, buffers: seq<seq<Byte>>, size: nat) returns (r: seq<Byte>)
    requires size == |Joined(buffers)|
    ensures r == [7, 0] + Put16(n) + Joined(buffers)
  {
    hide Put16, Written;
    Length16(n);
    var buf := NewBuffer(4 + size);
    PutHead(buf, 7, 0);
    ghost var head: seq<Byte> := [7, 0];
    HoldsMore(buf[..], head, Put16(n));
    SetUint16(buf, 2, n);
    var offset := 4;
    assert buffers[..0] == [] && head + Put16(n) + [] == head + Put16(n);
    for i := 0 to |buffers|
      invariant offset == 4 + |Joined(buffers[..i])| && buf.Length == 4 + size
      invariant Holds(buf[..], head + Put16(n) + Joined(buffers[..i]))
    {
      assert buffers[..i + 1] == buffers[..i] + [buffers[i]];
      JoinedSnoc(buffers[..i], buffers[i]);
      JoinedPrefix(buffers, i + 1);
      HoldsMore(buf[..], head + Put16(n) + Joined(buffers[..i]), buffers[i]);
      Copy(buf, offset, buffers[i]);
      offset := offset + |buffers[i]|;
      assert head + Put16(n) + Joined(buffers[..i]) + buffers[i] == head + Put16(n) + Joined(buffers[..i + 1]);
    }
    assert buffers[..|buffers|] == buffers;
    r := buf[..];
  }

  lemma {:induction false} JoinedPrefix(buffers: seq<seq<Byte>>, n: nat)
    requires n <= |buffers|
    ensures |Joined(buffers[..n])| <= |Joined(buffers)|
  {
    if n > 0 {
      assert buffers[..n][1..] == buffers[1..][..n - 1];
      JoinedPrefix(buffers[1..], n - 1);
    }
  }

  /** Serialised JSON has at least two units of one byte, for its brackets; the buffer is two
    * bytes short of the general bound. */
  method EncodePushPromiseMsg(schemas: JsString) returns (r: seq<Byte>)
    requires |schemas.utf8| + 2 <= 4 * schemas.units
    ensures r == Encode(PushPromise(schemas.utf8))
  {
    hide Text16, Written;
    var buf := NewBuffer(4 + schemas.units * 4);
    PutHead(buf, 3, 0);
    LengthText16(schemas.utf8);
    HoldsMore(buf[..], [3, 0, 0, 0], Text16(schemas.utf8));
    var end := PutText16(buf, 4, schemas);
    r := buf[..end];
  }

  method EncodeCreateDatabaseMsg(name: JsString) returns (r: seq<Byte>)
    requires Sized(name)
    ensures r == Encode(CreateDatabase(name.utf8))
  {
    hide Text16;
    var buf := NewBuffer(3 + name.units * 4);
    SetUint8(buf, 0, 5);
    LengthText16(name.utf8);
    HoldsMore(buf[..], [5], Text16(name.utf8));
    var end := PutText16(buf, 1, name);
    r := buf[..end];
  }

  method EncodeCreateUserMsg() returns (r: seq<Byte>)
    ensures r == Encode(CreateUser)
  {
    var buf := NewBuffer(1);
    SetUint8(buf, 0, 6);
    r := buf[..];
  }

  /** The client never splits its data: the fin flag is always set. */
  method EncodeDataMsg(payload: seq<Byte>) returns (r: seq<Byte>)
    ensures r == Encode(Chunk(payload, true))
  {
    var buf := NewBuffer(2 + |payload|);
    PutHead(buf, 0, 1);
    HoldsMore(buf[..], [0, 1], payload);
    Copy(buf, 2, payload);
    r := buf[..];
  }
}
