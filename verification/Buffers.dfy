/** Writing a piece into a buffer at an offset. */
module Buffers {
  /** The buffer with `piece` written at `at`. */
  function Written<T>(buffer: seq<T>, at: nat, piece: seq<T>): (r: seq<T>)
    requires at + |piece| <= |buffer|
    ensures |r| == |buffer|
  {
    buffer[..at] + piece + buffer[at + |piece|..]
  }

  lemma WrittenOn<T>(buffer: seq<T>, at: nat, a: seq<T>, b: seq<T>)
    requires at + |a| + |b| <= |buffer|
    ensures Written(Written(buffer, at, a), at + |a|, b) == Written(buffer, at, a + b)
  {
  }

  /** The second piece may be written first. */
  lemma WrittenBefore<T>(buffer: seq<T>, at: nat, a: seq<T>, b: seq<T>)
    requires at + |a| + |b| <= |buffer|
    ensures Written(Written(buffer, at + |a|, b), at, a) == Written(buffer, at, a + b)
  {
  }

  lemma WrittenNothing<T>(buffer: seq<T>, at: nat)
    requires at <= |buffer|
    ensures Written(buffer, at, []) == buffer
  {
  }
}
