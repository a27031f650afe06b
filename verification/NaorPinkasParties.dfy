/**
 `NaorPinkasSender` and `NaorPinkasReceiver`, proved against the functions of module `NaorPinkas`. The
 sender's `send` waits for a reply in the middle, so it is split there; secret keys are parameters.
 */
module NaorPinkasParties {
  import opened Blocks
  import opened Curves
  import opened Memory
  import opened Primitives
  import opened NaorPinkas

  /** `point_to_bytes` into a slot of a flat buffer: 33 bytes change, the rest stays. */
  method PutPoint(buff: array<bv8>, offset: nat, bytes: PointBytes)
    requires offset + 33 <= buff.Length
    modifies buff
    ensures buff[offset..offset + 33] == bytes
    ensures buff[..offset] == old(buff[..offset]) && buff[offset + 33..] == old(buff[offset + 33..])
  {
    for b := 0 to 33
      invariant forall x | 0 <= x < buff.Length :: buff[x] == if offset <= x < offset + b then bytes[x - offset] else old(buff[x])
    {
      buff[offset + b] := bytes[b];
    }
  }

  lemma FlattenAppend<P>(c: Curve<P>, points: seq<P>, i: nat)
    requires i < |points|
    ensures FlattenPoints(c, points[..i + 1]) == FlattenPoints(c, points[..i]) + c.toBytes(points[i])
  {
  }

  /** The point after the first `i`. */
  method PutNext<P>(c: Curve<P>, points: seq<P>, buff: array<bv8>, start: nat, i: nat)
    requires i < |points| && start + 33 * i + 33 <= buff.Length
    requires buff[start..start + 33 * i] == FlattenPoints(c, points[..i])
    modifies buff
    ensures buff[..start] == old(buff[..start])
    ensures buff[start..start + 33 * i + 33] == FlattenPoints(c, points[..i + 1])
    ensures buff[start + 33 * i + 33..] == old(buff[start + 33 * i + 33..])
  {
    var at := start + i * 33;
    ghost var before := buff[..];
    PutPoint(buff, at, c.toBytes(points[i]));
    FlattenAppend(c, points, i);
    assert buff[start..at] == before[start..at];
    assert buff[start..at + 33] == buff[start..at] + buff[at..at + 33];
  }

  /** Writes points into consecutive slots from byte `start`; the rest of the buffer keeps its bytes. */
  method PutPoints<P>(c: Curve<P>, points: seq<P>, buff: array<bv8>, start: nat)
    requires start + 33 * |points| <= buff.Length
    modifies buff
    ensures buff[..] == old(buff[..start]) + FlattenPoints(c, points) + old(buff[start + 33 * |points|..])
  {
    ghost var m := buff[..];
    for i := 0 to |points|
      invariant buff[..start] == m[..start]
      invariant buff[start..start + 33 * i] == FlattenPoints(c, points[..i])
      invariant buff[start + 33 * i..] == m[start + 33 * i..]
    {
      ghost var at := start + 33 * i;
      assert buff[at + 33..] == buff[at..][33..] == m[at..][33..] == m[at + 33..];
      PutNext(c, points, buff, start, i);
    }
    assert points[..|points|] == points;
  }

  /** Slot `i` from byte `start` holds `bytes`. */
  predicate SlotIs(m: seq<bv8>, start: nat, i: nat, bytes: PointBytes) {
    start + 33 * i + 33 <= |m| && m[start + 33 * i..start + 33 * i + 33] == bytes
  }

  lemma SlotKept(m: seq<bv8>, m': seq<bv8>, bound: nat, start: nat, i: nat, bytes: PointBytes)
    requires bound <= |m| && bound <= |m'| && m[..bound] == m'[..bound]
    requires SlotIs(m, start, i, bytes) && start + 33 * i + 33 <= bound
    ensures SlotIs(m', start, i, bytes)
  {
  }

  method PutTaggedPoint(buff: array<bv8>, start: nat, i: nat, bytes: PointBytes, tag: bool)
    requires start + 33 * i + 33 <= buff.Length
    modifies buff
    ensures SlotIs(buff[..], start, i, Tagged(bytes, tag))
    ensures buff[start + 33 * i] == if tag then bytes[0] ^ 1 else bytes[0]
    ensures buff[start + 33 * i + 1..start + 33 * i + 33] == bytes[1..]
    ensures buff[..start + 33 * i] == old(buff[..start + 33 * i])
    ensures buff[start + 33 * i + 33..] == old(buff[start + 33 * i + 33..])
  {
    PutPoint(buff, start + i * 33, bytes);
    buff[start + i * 33] := buff[start + i * 33] ^ (if tag then 1 else 0);
  }

  /** Points written into slots from byte `start`, the first byte of each then XORed with its tag. */
  method PutTaggedPoints<P>(c: Curve<P>, points: seq<P>, tags: seq<bool>, buff: array<bv8>, start: nat)
    requires |tags| == |points| && start + 33 * |points| <= buff.Length
    modifies buff
    ensures buff[..start] == old(buff[..start])
    ensures buff[start + 33 * |points|..] == old(buff[start + 33 * |points|..])
    ensures forall i: nat | i < |points| :: SlotIs(buff[..], start, i, Tagged(c.toBytes(points[i]), tags[i]))
  {
    for i := 0 to |points|
      invariant buff[..start] == old(buff[..start])
      invariant buff[start + 33 * i..] == old(buff[start + 33 * i..])
      invariant forall k: nat | k < i :: SlotIs(buff[..], start, k, Tagged(c.toBytes(points[k]), tags[k]))
    {
      ghost var before := buff[..];
      PutTaggedPoint(buff, start, i, c.toBytes(points[i]), tags[i]);
      forall k: nat | k < i ensures SlotIs(buff[..], start, k, Tagged(c.toBytes(points[k]), tags[k])) {
        SlotKept(before, buff[..], start + 33 * i, start, k, Tagged(c.toBytes(points[k]), tags[k]));
      }
      assert buff[..start] == buff[..start + 33 * i][..start];
      assert before[..start] == before[..start + 33 * i][..start];
      assert before[start + 33 * i + 33..] == before[start + 33 * i..][33..];
    }
  }

  /** A received message lands at the front of the buffer. */
  method ReceiveInto(net: Channel, n: nat, buff: array<bv8>)
    requires n <= |net.bytes| && n <= buff.Length
    modifies net, buff
    ensures buff[..n] == old(net.bytes)[..n] && net.bytes == old(net.bytes)[n..]
    ensures buff[n..] == old(buff[n..])
  {
    var data := net.RecvData(n);
    for b := 0 to n
      invariant buff[..b] == data[..b] && buff[b..] == old(buff[b..])
      invariant net.bytes == old(net.bytes)[n..]
    {
      buff[b] := data[b];
    }
  }

  method DerivePublicKeys<P>(c: Curve<P>, secrets: seq<nat>) returns (keys: seq<P>)
    ensures keys == PublicKeys(c, secrets)
  {
    keys := [];
    for i := 0 to |secrets|
      invariant keys == PublicKeys(c, secrets)[..i]
    {
      keys := keys + [PublicKey(c, secrets[i])];
    }
  }

  class Sender<P> {
    const curve: Curve<P>
    const hash: PointHash
    const baseOtSizes: nat

    constructor (curve: Curve<P>, hash: PointHash, baseOtSizes: nat)
      ensures this.curve == curve && this.hash == hash && this.baseOtSizes == baseOtSizes
    {
      this.curve, this.hash, this.baseOtSizes := curve, hash, baseOtSizes;
    }

    /** `send` up to the point where it waits for the reply. */
    method SendKeys(net: Channel, cSk: seq<nat>, grSk: seq<nat>) returns (cPk: seq<P>, buff: array<bv8>)
      requires |cSk| == |grSk| == baseOtSizes
      modifies net
      ensures net.bytes == old(net.bytes) + KeyMessage(curve, cSk, grSk)
      ensures cPk == PublicKeys(curve, cSk)
      ensures fresh(buff) && buff.Length == 2 * baseOtSizes * 33
    {
      cPk := DerivePublicKeys(curve, cSk);
      var grPk := DerivePublicKeys(curve, grSk);
      buff := new bv8[2 * baseOtSizes * 33];
      PutPoints(curve, cPk, buff, 0);
      assert buff[..33 * baseOtSizes] == FlattenPoints(curve, cPk);
      PutPoints(curve, grPk, buff, 33 * baseOtSizes);
      net.SendData(buff[..]);
    }

    method DerivePairs(cPk: seq<P>, grSk: seq<nat>, buff: array<bv8>) returns (pk0R: seq<P>, pk1R: seq<P>)
      requires |cPk| == |grSk| == baseOtSizes && 33 * baseOtSizes <= buff.Length
      ensures |pk0R| == |pk1R| == baseOtSizes
      ensures forall i: nat | i < baseOtSizes ::
        && pk0R[i] == Mul(curve, grSk[i], PointAt(curve, buff[..33 * baseOtSizes], 0, i))
        && pk1R[i] == curve.add(Mul(curve, grSk[i], cPk[i]), curve.invert(pk0R[i]))
    {
      pk0R := [];
      for i := 0 to baseOtSizes
        invariant |pk0R| == i
        invariant forall k: nat | k < i :: pk0R[k] == Mul(curve, grSk[k], PointAt(curve, buff[..33 * baseOtSizes], 0, k))
      {
        assert buff[33 * i..33 * i + 33] == buff[..33 * baseOtSizes][33 * i..33 * i + 33];
        pk0R := pk0R + [Mul(curve, grSk[i], curve.fromBytes(buff[i * 33..i * 33 + 33]))];
      }
      var cR: seq<P> := [];
      for i := 0 to baseOtSizes
        invariant |cR| == i
        invariant forall k: nat | k < i :: cR[k] == Mul(curve, grSk[k], cPk[k])
      {
        cR := cR + [Mul(curve, grSk[i], cPk[i])];
      }
      pk1R := [];
      for i := 0 to baseOtSizes
        invariant |pk1R| == i
        invariant forall k: nat | k < i :: pk1R[k] == curve.add(cR[k], curve.invert(pk0R[k]))
      {
        var inverted := curve.invert(pk0R[i]);
        pk1R := pk1R + [curve.add(cR[i], inverted)];
      }
    }

    /** `send` from the moment the reply has arrived, in the same buffer. */
    method Finish(net: Channel, cPk: seq<P>, grSk: seq<nat>, buff: array<bv8>, ghost cSk: seq<nat>)
      returns (messages: seq<(Block, Block)>)
      requires |cSk| == |grSk| == baseOtSizes && cPk == PublicKeys(curve, cSk)
      requires buff.Length == 2 * baseOtSizes * 33 && 33 * baseOtSizes <= |net.bytes|
      modifies net, buff
      ensures net.bytes == old(net.bytes)[33 * baseOtSizes..]
      ensures messages == SenderMessages(curve, hash, cSk, grSk, old(net.bytes)[..33 * baseOtSizes])
    {
      ghost var reply := net.bytes[..33 * baseOtSizes];
      ReceiveInto(net, 33 * baseOtSizes, buff);
      var pk0R, pk1R := DerivePairs(cPk, grSk, buff);
      messages := HashPairs(pk0R, pk1R);
      assert forall i: nat | i < baseOtSizes ::
        messages[i] == SenderPair(curve, hash, PublicKey(curve, cSk[i]), grSk[i], PointAt(curve, reply, 0, i));
    }

    /** The buffer `msg`: plain points in its first half, tagged ones in its second. */
    method FillMessages(pk0R: seq<P>, pk1R: seq<P>) returns (msg: array<bv8>)
      requires |pk0R| == |pk1R| == baseOtSizes
      ensures forall i: nat | i < baseOtSizes ::
        && SlotIs(msg[..], 0, i, Tagged(curve.toBytes(pk0R[i]), false))
        && SlotIs(msg[..], 33 * baseOtSizes, i, Tagged(curve.toBytes(pk1R[i]), true))
    {
      var n := baseOtSizes;
      msg := new bv8[2 * n * 33];
      PutTaggedPoints(curve, pk0R, seq(n, _ => false), msg, 0);
      ghost var before := msg[..];
      PutTaggedPoints(curve, pk1R, seq(n, _ => true), msg, 33 * n);
      forall k: nat | k < n ensures SlotIs(msg[..], 0, k, Tagged(curve.toBytes(pk0R[k]), false)) {
        SlotKept(before, msg[..], 33 * n, 0, k, Tagged(curve.toBytes(pk0R[k]), false));
      }
    }

    method HashPairs(pk0R: seq<P>, pk1R: seq<P>) returns (messages: seq<(Block, Block)>)
      requires |pk0R| == |pk1R| == baseOtSizes
      ensures |messages| == baseOtSizes
      ensures forall i: nat | i < baseOtSizes ::
        messages[i] == (hash(Tagged(curve.toBytes(pk0R[i]), false)), hash(Tagged(curve.toBytes(pk1R[i]), true)))
    {
      var n := baseOtSizes;
      var msg := FillMessages(pk0R, pk1R);
      messages := [];
      for i := 0 to n
        invariant |messages| == i
        invariant forall k: nat | k < i ::
          messages[k] == (hash(Tagged(curve.toBytes(pk0R[k]), false)), hash(Tagged(curve.toBytes(pk1R[k]), true)))
      {
        assert SlotIs(msg[..], 0, i, Tagged(curve.toBytes(pk0R[i]), false));
        assert SlotIs(msg[..], 33 * n, i, Tagged(curve.toBytes(pk1R[i]), true));
        var message0 := hash(msg[i * 33..i * 33 + 33]);
        var message1 := hash(msg[33 * n + 33 * i..33 * n + 33 * i + 33]);
        messages := messages + [(message0, message1)];
      }
    }
  }

  class Receiver<P> {
    const curve: Curve<P>
    const hash: PointHash
    const baseOtSizes: nat

    constructor (curve: Curve<P>, hash: PointHash, baseOtSizes: nat)
      ensures this.curve == curve && this.hash == hash && this.baseOtSizes == baseOtSizes
    {
      this.curve, this.hash, this.baseOtSizes := curve, hash, baseOtSizes;
    }

    /** Both runs of points of the key message. */
    method ReadKeys(buff: array<bv8>, ghost s: seq<bv8>) returns (cPk: seq<P>, grPk: seq<P>)
      requires buff.Length == 66 * baseOtSizes && buff[..] == s
      ensures |cPk| == |grPk| == baseOtSizes
      ensures forall i: nat | i < baseOtSizes ::
        cPk[i] == PointAt(curve, s, 0, i) && grPk[i] == PointAt(curve, s, 33 * baseOtSizes, i)
    {
      cPk := [];
      for i := 0 to baseOtSizes
        invariant |cPk| == i
        invariant forall k: nat | k < i :: cPk[k] == PointAt(curve, s, 0, k)
      {
        assert buff[33 * i..33 * i + 33] == s[0 + 33 * i..0 + 33 * i + 33];
        cPk := cPk + [curve.fromBytes(buff[i * 33..i * 33 + 33])];
      }
      grPk := [];
      for i := 0 to baseOtSizes
        invariant |grPk| == i
        invariant forall k: nat | k < i :: grPk[k] == PointAt(curve, s, 33 * baseOtSizes, k)
      {
        var at := 33 * baseOtSizes + i * 33;
        assert buff[at..at + 33] == s[at..at + 33];
        grPk := grPk + [curve.fromBytes(buff[at..at + 33])];
      }
    }

    /** The keys `PK0`, updated in place where the choice bit is set. */
    method ChooseKeys(cPk: seq<P>, kSigmaSk: seq<nat>, choices: seq<Block>) returns (kSigmaPk: seq<P>)
      requires |cPk| == |kSigmaSk| == baseOtSizes <= 128 * |choices|
      ensures |kSigmaPk| == baseOtSizes
      ensures forall i: nat | i < baseOtSizes :: kSigmaPk[i] == ReplyKey(curve, kSigmaSk[i], cPk[i], BitFromBlocks(choices, i))
    {
      kSigmaPk := DerivePublicKeys(curve, kSigmaSk);
      for i := 0 to baseOtSizes
        invariant |kSigmaPk| == baseOtSizes
        invariant forall k: nat | k < i :: kSigmaPk[k] == ReplyKey(curve, kSigmaSk[k], cPk[k], BitFromBlocks(choices, k))
        invariant forall k: nat | i <= k < baseOtSizes :: kSigmaPk[k] == PublicKey(curve, kSigmaSk[k])
      {
        if BitFromBlocks(choices, i) {
          kSigmaPk := kSigmaPk[i := curve.invert(kSigmaPk[i])];
          kSigmaPk := kSigmaPk[i := curve.add(kSigmaPk[i], cPk[i])];
        }
      }
    }

    /** The points both parties share, and the choice bits that tag them. */
    method SharedPoints(grPk: seq<P>, kSigmaSk: seq<nat>, choices: seq<Block>) returns (shared: seq<P>, tags: seq<bool>)
      requires |grPk| == |kSigmaSk| == baseOtSizes <= 128 * |choices|
      ensures |shared| == |tags| == baseOtSizes
      ensures forall i: nat | i < baseOtSizes ::
        shared[i] == Mul(curve, kSigmaSk[i], grPk[i]) && tags[i] == BitFromBlocks(choices, i)
    {
      shared, tags := [], [];
      for i := 0 to baseOtSizes
        invariant |shared| == |tags| == i
        invariant forall k: nat | k < i ::
          shared[k] == Mul(curve, kSigmaSk[k], grPk[k]) && tags[k] == BitFromBlocks(choices, k)
      {
        shared := shared + [Mul(curve, kSigmaSk[i], grPk[i])];
        tags := tags + [BitFromBlocks(choices, i)];
      }
    }

    method HashShared(grPk: seq<P>, kSigmaSk: seq<nat>, choices: seq<Block>) returns (messages: seq<Block>)
      requires |grPk| == |kSigmaSk| == baseOtSizes <= 128 * |choices|
      ensures |messages| == baseOtSizes
      ensures forall i: nat | i < baseOtSizes ::
        messages[i] == ReceiverMessage(curve, hash, kSigmaSk[i], grPk[i], BitFromBlocks(choices, i))
    {
      var n := baseOtSizes;
      var shared, tags := SharedPoints(grPk, kSigmaSk, choices);
      var msg := new bv8[33 * n];
      PutTaggedPoints(curve, shared, tags, msg, 0);
      messages := [];
      for i := 0 to n
        invariant |messages| == i
        invariant forall k: nat | k < i ::
          messages[k] == ReceiverMessage(curve, hash, kSigmaSk[k], grPk[k], BitFromBlocks(choices, k))
      {
        assert SlotIs(msg[..], 0, i, Tagged(curve.toBytes(shared[i]), tags[i]));
        messages := messages + [hash(msg[i * 33..i * 33 + 33])];
      }
    }

    /** Blocks until the key message has arrived on `input`, then replies on `output`. */
    method Receive(input: Channel, output: Channel, choices: seq<Block>,
                   kSigmaSk: seq<nat>) returns (messages: seq<Block>)
      requires input != output && |kSigmaSk| == baseOtSizes <= 128 * |choices|
      requires 66 * baseOtSizes <= |input.bytes|
      modifies input, output
      ensures (var s := old(input.bytes)[..66 * baseOtSizes];
               && input.bytes == old(input.bytes)[66 * baseOtSizes..]
               && output.bytes == old(output.bytes) + ReplyMessage(curve, s, kSigmaSk, choices)
               && messages == ReceiverMessages(curve, hash, s, kSigmaSk, choices))
    {
      var n := baseOtSizes;
      ghost var s := input.bytes[..66 * n];
      var buff := new bv8[66 * n];
      ReceiveInto(input, 66 * n, buff);
      assert buff[..] == buff[..66 * n] == s;
      var cPk, grPk := ReadKeys(buff, s);
      var kSigmaPk := ChooseKeys(cPk, kSigmaSk, choices);
      assert kSigmaPk == ReplyKeys(curve, s, kSigmaSk, choices);
      PutPoints(curve, kSigmaPk, buff, 0);
      assert buff[..33 * n] == ReplyMessage(curve, s, kSigmaSk, choices);
      output.SendData(buff[..33 * n]);
      messages := HashShared(grPk, kSigmaSk, choices);
      assert messages == ReceiverMessages(curve, hash, s, kSigmaSk, choices);
    }
  }
}
