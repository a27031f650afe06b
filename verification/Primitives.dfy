/**
 What the protocols take from outside: a hash, a stateful pseudorandom generator and a FIFO byte
 channel. The hash and the generator are arbitrary functions, so every theorem holds for all of them.
 */
module Primitives {
  import opened Blocks
  import opened Memory

  /**
   `hash` is the block-to-block hash. `create` turns a seed into a generator state; asked for `n` bytes
   in state `s`, the generator yields the bytes `byteAt(s, n, 0 .. n-1)` and moves to `next(s, n)`.
   */
  datatype Primitives<!S> = Primitives(
    hash: Block -> Block,
    create: Block -> S,
    byteAt: (S, nat, nat) -> bv8,
    next: (S, nat) -> S)

  /** The blocks a `generate(n * sizeof(block))` call writes. */
  function Generate<S>(p: Primitives<S>, s: S, n: nat): (v: seq<Block>)
    ensures |v| == n
  {
    seq(n, c requires 0 <= c < n => seq(16, b requires 0 <= b < 16 => p.byteAt(s, 16 * n, 16 * c + b)))
  }

  function Advance<S>(p: Primitives<S>, s: S, n: nat): S {
    p.next(s, 16 * n)
  }

  /** The hash tells blocks apart. */
  ghost predicate Injective<S>(p: Primitives<S>) {
    forall a: Block, b: Block :: p.hash(a) == p.hash(b) ==> a == b
  }

  /** The generated blocks hold the generated bytes in order. */
  lemma GenerateBytes<S>(p: Primitives<S>, s: S, n: nat, x: nat)
    requires x < 16 * n
    ensures Flatten(Generate(p, s, n))[x] == p.byteAt(s, 16 * n, x)
  {
    assert x == 16 * (x / 16) + x % 16;
  }

  /** The generator is a byte stream: `n` bytes are the first `a`, then `n - a` more from the state after them. */
  ghost predicate ByteStream<S(!new)>(p: Primitives<S>) {
    forall s: S, a: nat, n: nat, i: nat | a <= n && i < n :: SplitsAt(p, s, a, n, i)
  }

  predicate SplitsAt<S(==)>(p: Primitives<S>, s: S, a: nat, n: nat, i: nat)
    requires a <= n && i < n
  {
    p.byteAt(s, n, i) == if i < a then p.byteAt(s, a, i) else p.byteAt(p.next(s, a), n - a, i - a)
  }

  /** Two calls in a row yield what one call for both sizes yields: the first moves the state past its own bytes. */
  lemma StreamSplit<S(!new)>(p: Primitives<S>, s: S, m: nat, n: nat)
    requires ByteStream(p)
    ensures Generate(p, s, m) + Generate(p, Advance(p, s, m), n) == Generate(p, s, m + n)
  {
    var both := Generate(p, s, m) + Generate(p, Advance(p, s, m), n);
    forall c | 0 <= c < m + n ensures both[c] == Generate(p, s, m + n)[c] {
      forall b | 0 <= b < 16 ensures both[c][b] == Generate(p, s, m + n)[c][b] {
        var x := 16 * c + b;
        assert SplitsAt(p, s, 16 * m, 16 * (m + n), x);
      }
    }
  }

  datatype Counter = Counter(seed: Block, position: nat)

  /** A generator in counter mode. */
  function CounterMode(hash: Block -> Block, stream: (Block, nat) -> bv8): Primitives<Counter> {
    Primitives(hash, (seed: Block) => Counter(seed, 0),
               (s: Counter, n: nat, i: nat) => stream(s.seed, s.position + i),
               (s: Counter, n: nat) => Counter(s.seed, s.position + n))
  }

  lemma CounterModeIsStream(hash: Block -> Block, stream: (Block, nat) -> bv8)
    ensures ByteStream(CounterMode(hash, stream))
  {
    var p := CounterMode(hash, stream);
    forall s: Counter, a: nat, n: nat, i: nat | a <= n && i < n ensures SplitsAt(p, s, a, n, i) {
      assert i >= a ==> s.position + i == s.position + a + (i - a);
    }
  }

  /** One direction of the network: bytes arrive in the order they were sent. */
  class Channel {
    var bytes: seq<bv8>

    constructor ()
      ensures bytes == []
    {
      bytes := [];
    }

    method SendData(data: seq<bv8>)
      modifies this
      ensures bytes == old(bytes) + data
    {
      bytes := bytes + data;
    }

    /** The caller is blocked until `n` bytes have arrived. */
    method RecvData(n: nat) returns (data: seq<bv8>)
      requires n <= |bytes|
      modifies this
      ensures data == old(bytes)[..n] && bytes == old(bytes)[n..]
    {
      data := bytes[..n];
      bytes := bytes[n..];
    }

    /** `send_block` */
    method SendBlock(data: seq<Block>)
      modifies this
      ensures bytes == old(bytes) + Flatten(data)
    {
      SendData(Flatten(data));
    }

    /** `recv_block` */
    method RecvBlock(nblock: nat) returns (data: seq<Block>)
      requires 16 * nblock <= |bytes|
      modifies this
      ensures data == Parse(old(bytes)[..16 * nblock]) && bytes == old(bytes)[16 * nblock..]
      ensures old(bytes) == Flatten(data) + bytes
    {
      var raw := RecvData(16 * nblock);
      data := Parse(raw);
      FlattenParse(raw);
    }
  }
}
