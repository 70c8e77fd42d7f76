/** The client's decoder of responses: chunks of data are collected until one has the fin flag. */
module ChunkDecoder {
  import opened Bytes
  import opened Options

  datatype Response = Credentials(accessKey: seq<Byte>, privateKey: seq<Byte>) | Payload(bytes: seq<Byte>)

  function Concat(bufs: seq<seq<Byte>>): seq<Byte> {
    if bufs == [] then [] else Concat(bufs[..|bufs| - 1]) + bufs[|bufs| - 1]
  }

  lemma {:induction false} ConcatPrefix(bufs: seq<seq<Byte>>, n: nat)
    requires n <= |bufs|
    ensures |Concat(bufs[..n])| <= |Concat(bufs)|
  {
    if n < |bufs| {
      assert bufs[..|bufs| - 1][..n] == bufs[..n];
      ConcatPrefix(bufs[..|bufs| - 1], n);
    } else {
      assert bufs[..n] == bufs;
    }
  }

  /** What has been pushed and not yet turned into a message, and the messages. */
  datatype State = State(pending: seq<Byte>, msgs: seq<Option<Response>>)

  /** The index of the first zero among the 27 bytes of the key, or 27. */
  function KeyLength(key: seq<Byte>, k: nat): (n: nat)
    requires k <= |key|
    ensures k <= n <= |key|
    decreases |key| - k
  {
    if k == |key| || key[k] == 0 then k else KeyLength(key, k + 1)
  }

  /** A frame that is too short for its type makes the view throw. */
  predicate LongEnough(msg: seq<Byte>) {
    |msg| >= 1 && (msg[0] == 0x80 ==> |msg| >= 60) && (msg[0] == 0 ==> |msg| >= 2)
  }

  /** The state after a push, and whether a message is ready. */
  function Pushed(s: State, msg: seq<Byte>): (State, bool)
    requires LongEnough(msg)
  {
    if msg[0] == 0x80 then
      (s.(msgs := s.msgs + [Some(Credentials(WithoutBom(msg[1..28][..KeyLength(msg[1..28], 0)]), msg[28..60]))]), true)
    else if msg[0] == 0 then
      if msg[1] % 2 == 1 then (State([], s.msgs + [Some(Payload(s.pending + msg[2..]))]), true)
      else (s.(pending := s.pending + msg[2..]), false)
    else (s.(msgs := s.msgs + [None]), true)
  }

  class Decoder {
    var bufs: seq<seq<Byte>>
    var msgs: seq<Option<Response>>

    ghost function Abs(): State
      reads this
    {
      State(Concat(bufs), msgs)
    }

    constructor ()
      ensures Abs() == State([], [])
    {
      bufs, msgs := [], [];
    }

    /** Takes all that was collected, without a copy when it is one buffer. */
    method PopBufs() returns (acc: seq<Byte>)
      modifies this`bufs
      ensures acc == Concat(old(bufs)) && bufs == []
    {
      if |bufs| == 1 {
        acc := bufs[0];
        assert bufs[..0] == [] && [] + bufs[0] == bufs[0];
        bufs := [];
        return;
      }
      var bytes, i := 0, 0;
      while i < |bufs|
        invariant 0 <= i <= |bufs| && bytes == |Concat(bufs[..i])|
      {
        assert bufs[..i + 1][..i] == bufs[..i];
        bytes := bytes + |bufs[i]|;
        i := i + 1;
      }
      assert bufs[..i] == bufs;
      var view := new Byte[bytes];
      var offset := 0;
      i := 0;
      while i < |bufs|
        invariant 0 <= i <= |bufs| && offset == |Concat(bufs[..i])| <= bytes == |Concat(bufs)|
        invariant bufs == old(bufs) && view[..offset] == Concat(bufs[..i])
      {
        assert bufs[..i + 1][..i] == bufs[..i];
        ConcatPrefix(bufs, i + 1);
        CopyAt(view, offset, bufs[i]);
        assert view[..offset + |bufs[i]|] == view[..offset] + view[offset..offset + |bufs[i]|];
        offset := offset + |bufs[i]|;
        i := i + 1;
      }
      assert bufs[..i] == bufs;
      assert view[..offset] == view[..];
      acc := view[..];
      bufs := [];
    }

    method CopyAt(view: array<Byte>, at: nat, b: seq<Byte>)
      requires at + |b| <= view.Length
      modifies view
      ensures view[..at] == old(view[..at]) && view[at..at + |b|] == b
    {
      forall k | 0 <= k < |b| {
        view[at + k] := b[k];
      }
    }

    /** True when a new message can be popped. */
    method Push(msg: seq<Byte>) returns (ready: bool)
      requires LongEnough(msg)
      modifies this
      ensures (Abs(), ready) == Pushed(old(Abs()), msg)
    {
      match msg[0] {
        case 0x80 =>
          var key := msg[1..28];
          msgs := msgs + [Some(Credentials(WithoutBom(key[..KeyLength(key, 0)]), msg[28..60]))];
          return true;
        case 0 =>
          assert (bufs + [msg[2..]])[..|bufs|] == bufs;
          bufs := bufs + [msg[2..]];
          if msg[1] % 2 == 1 {
            var payload := PopBufs();
            msgs := msgs + [Some(Payload(payload))];
            return true;
          }
          return false;
        case _ =>
          msgs := msgs + [None];
          return true;
      }
    }

    /** The last message, none when there is none. */
    method TryPop() returns (r: Option<Response>)
      modifies this`msgs
      ensures old(msgs) == [] ==> r == None && msgs == []
      ensures old(msgs) != [] ==> old(msgs) == msgs + [r]
    {
      if msgs == [] {
        return None;
      }
      r := msgs[|msgs| - 1];
      msgs := msgs[..|msgs| - 1];
    }
  }

  // ------------------------------------------------------------------------------------------
  // Any chunking is undone
  // ------------------------------------------------------------------------------------------

  /** The frame of a chunk. */
  function ChunkFrame(chunk: seq<Byte>, fin: bool): (r: seq<Byte>)
    ensures LongEnough(r)
  {
    [0, if fin then 1 else 0] + chunk
  }

  /** The chunks of one payload, the last one with the fin flag. */
  function PushChunks(s: State, chunks: seq<seq<Byte>>): State
    requires chunks != []
    decreases |chunks|
  {
    var s' := Pushed(s, ChunkFrame(chunks[0], |chunks| == 1)).0;
    if |chunks| == 1 then s' else PushChunks(s', chunks[1..])
  }

  function Flatten(chunks: seq<seq<Byte>>): seq<Byte> {
    if chunks == [] then [] else chunks[0] + Flatten(chunks[1..])
  }

  lemma {:induction false} ChunksReassembled(s: State, chunks: seq<seq<Byte>>)
    requires chunks != []
    ensures PushChunks(s, chunks) == State([], s.msgs + [Some(Payload(s.pending + Flatten(chunks)))])
    decreases |chunks|
  {
    var frame := ChunkFrame(chunks[0], |chunks| == 1);
    assert frame[2..] == chunks[0];
    if |chunks| == 1 {
      assert Flatten(chunks[1..]) == [];
      assert chunks[0] + [] == chunks[0];
    } else {
      ChunksReassembled(Pushed(s, frame).0, chunks[1..]);
      assert (s.pending + chunks[0]) + Flatten(chunks[1..]) == s.pending + (chunks[0] + Flatten(chunks[1..]));
    }
  }

  /** Payloads one after the other, each cut into chunks in any way. */
  function PushAll(s: State, payloads: seq<seq<seq<Byte>>>): State
    requires forall k :: 0 <= k < |payloads| ==> payloads[k] != []
    decreases |payloads|
  {
    if payloads == [] then s else PushAll(PushChunks(s, payloads[0]), payloads[1..])
  }

  /** One message for each payload. */
  function Whole(payloads: seq<seq<seq<Byte>>>): seq<Option<Response>> {
    if payloads == [] then [] else [Some(Payload(Flatten(payloads[0])))] + Whole(payloads[1..])
  }

  /** Every payload arrives whole, in order, however it was cut. */
  lemma {:induction false} AnyChunking(s: State, payloads: seq<seq<seq<Byte>>>)
    requires s.pending == [] && forall k :: 0 <= k < |payloads| ==> payloads[k] != []
    ensures PushAll(s, payloads) == State([], s.msgs + Whole(payloads))
    decreases |payloads|
  {
    hide PushChunks, Flatten;
    if payloads == [] {
      assert s.msgs + [] == s.msgs;
    } else {
      ChunksReassembled(s, payloads[0]);
      assert [] + Flatten(payloads[0]) == Flatten(payloads[0]);
      AnyChunking(PushChunks(s, payloads[0]), payloads[1..]);
      var first := [Some(Payload(Flatten(payloads[0])))];
      assert (s.msgs + first) + Whole(payloads[1..]) == s.msgs + (first + Whole(payloads[1..]));
    }
  }

  /** Of the flags of a chunk only the lowest bit matters. */
  lemma FlagsIgnored(s: State, flags: Byte, chunk: seq<Byte>)
    ensures Pushed(s, [0, flags] + chunk) == Pushed(s, ChunkFrame(chunk, flags % 2 == 1))
  {
    assert ([0, flags] + chunk)[2..] == chunk == ChunkFrame(chunk, flags % 2 == 1)[2..];
  }

  // ------------------------------------------------------------------------------------------
  // Credentials and messages of a future schema
  // ------------------------------------------------------------------------------------------

  /** What fills the key's field of 27 bytes up: nothing, or a zero and anything behind it. */
  predicate Fills(key: seq<Byte>, fill: seq<Byte>) {
    |key| + |fill| == 27 && 0 !in key && (fill != [] ==> fill[0] == 0)
  }

  /** The frame of credentials. What comes behind the 60th byte is not looked at. */
  function CredentialsFrame(key: seq<Byte>, fill: seq<Byte>, priv: seq<Byte>, more: seq<Byte>): seq<Byte> {
    [0x80] + (key + fill) + priv + more
  }

  lemma {:induction false} KeyStops(key: seq<Byte>, fill: seq<Byte>, k: nat)
    requires 0 !in key && (fill != [] ==> fill[0] == 0) && k <= |key|
    ensures KeyLength(key + fill, k) == |key|
    decreases |key| - k
  {
    if k < |key| {
      assert (key + fill)[k] == key[k] && key[k] in key;
      KeyStops(key, fill, k + 1);
    }
  }

  lemma FrameParts(key: seq<Byte>, fill: seq<Byte>, priv: seq<Byte>, more: seq<Byte>)
    requires Fills(key, fill) && |priv| == 32
    ensures var msg := CredentialsFrame(key, fill, priv, more);
      |msg| >= 60 && msg[0] == 0x80 && msg[1..28] == key + fill && msg[28..60] == priv
  {
    var field := key + fill;
    assert |field| == 27;
    assert (([0x80] + field) + priv + more)[28..60] == priv;
  }

  /** Credentials yield the key up to its first zero and the 32 bytes of the private key, and leave
    * the pending chunks alone. A leading mark of byte order is the only part of a key that is lost. */
  lemma CredentialsRead(s: State, key: seq<Byte>, fill: seq<Byte>, priv: seq<Byte>, more: seq<Byte>)
    requires Fills(key, fill) && |priv| == 32
    ensures var msg := CredentialsFrame(key, fill, priv, more);
      && LongEnough(msg) && Pushed(s, msg).1
      && Pushed(s, msg).0 == State(s.pending, s.msgs + [Some(Credentials(if HasBom(key) then key[3..] else key, priv))])
  {
    FrameParts(key, fill, priv, more);
    KeyStops(key, fill, 0);
    assert (key + fill)[..|key|] == key;
  }

  /** Every credentials frame that is long enough has that form. */
  lemma CredentialsForm(msg: seq<Byte>)
    returns (key: seq<Byte>, fill: seq<Byte>, priv: seq<Byte>, more: seq<Byte>)
    requires |msg| >= 60 && msg[0] == 0x80
    ensures Fills(key, fill) && |priv| == 32 && msg == CredentialsFrame(key, fill, priv, more)
  {
    var field := msg[1..28];
    var n := FirstZero(field, 0);
    key, fill, priv, more := field[..n], field[n..], msg[28..60], msg[60..];
    assert key + fill == field;
    assert msg == [msg[0]] + field + priv + more;
  }

  lemma {:induction false} FirstZero(field: seq<Byte>, k: nat) returns (n: nat)
    requires k <= |field| && 0 !in field[..k]
    ensures n <= |field| && 0 !in field[..n] && (n < |field| ==> field[n] == 0)
    decreases |field| - k
  {
    if k < |field| && field[k] != 0 {
      assert field[..k + 1] == field[..k] + [field[k]];
      n := FirstZero(field, k + 1);
    } else {
      n := k;
    }
  }

  /** A message of another type is put on the stack as one that is not understood. */
  lemma UnknownNoted(s: State, msg: seq<Byte>)
    requires msg != [] && msg[0] != 0 && msg[0] != 0x80
    ensures LongEnough(msg) && Pushed(s, msg) == (State(s.pending, s.msgs + [None]), true)
  {
  }
}
