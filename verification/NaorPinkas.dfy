/** The Naor-Pinkas base OT as functions of secret keys, choices and the bytes on the wire. */
module NaorPinkas {
  import opened Blocks
  import opened Curves
  import opened Indexing
  import opened Memory

  type PointHash = PointBytes -> Block

  // ---------- flattened points ----------

  /** `n` points in `n` consecutive 33-byte slots. */
  function FlattenPoints<P>(c: Curve<P>, points: seq<P>): (s: seq<bv8>)
    ensures |s| == 33 * |points|
  {
    RowMajor(PointRows(c, points), |points|, 33)
  }

  function PointRows<P>(c: Curve<P>, points: seq<P>): (m: seq<seq<bv8>>)
    ensures Dims(m, |points|, 33)
  {
    seq(|points|, i requires 0 <= i < |points| => PointRow(c, points[i]))
  }

  function PointRow<P>(c: Curve<P>, point: P): (b: seq<bv8>)
    ensures |b| == 33
  {
    c.toBytes(point)
  }

  /** The point in slot `i`, counted from byte `start`. */
  function PointAt<P>(c: Curve<P>, s: seq<bv8>, start: nat, i: nat): P
    requires start + 33 * i + 33 <= |s|
  {
    c.fromBytes(s[start + 33 * i..start + 33 * i + 33])
  }

  lemma SlotBytes<P>(c: Curve<P>, points: seq<P>, i: nat)
    requires i < |points|
    ensures FlattenPoints(c, points)[33 * i..33 * i + 33] == c.toBytes(points[i])
  {
  }

  /** Two runs of points sent in one buffer come back index for index. */
  lemma WireRoundTrip<P(!new)>(c: Curve<P>, first: seq<P>, second: seq<P>, i: nat)
    requires Laws(c) && i < |first| && i < |second|
    ensures (var s := FlattenPoints(c, first) + FlattenPoints(c, second);
             PointAt(c, s, 0, i) == first[i] && PointAt(c, s, 33 * |first|, i) == second[i])
  {
    SlotBytes(c, first, i);
    SlotBytes(c, second, i);
    var s1, s2 := FlattenPoints(c, first), FlattenPoints(c, second);
    assert (s1 + s2)[33 * i..33 * i + 33] == s1[33 * i..33 * i + 33];
    assert (s1 + s2)[33 * |first| + 33 * i..33 * |first| + 33 * i + 33] == s2[33 * i..33 * i + 33];
  }

  // ---------- the two parties ----------

  function PublicKeys<P>(c: Curve<P>, secrets: seq<nat>): (keys: seq<P>)
    ensures |keys| == |secrets|
  {
    seq(|secrets|, i requires 0 <= i < |secrets| => PublicKey(c, secrets[i]))
  }

  /** The sender's first message: all points C, then all points R. */
  function KeyMessage<P>(c: Curve<P>, cs: seq<nat>, rs: seq<nat>): (s: seq<bv8>)
    ensures |s| == 33 * |cs| + 33 * |rs|
  {
    FlattenPoints(c, PublicKeys(c, cs)) + FlattenPoints(c, PublicKeys(c, rs))
  }

  /** C comes first: point `i` of each run is where the receiver reads it. */
  lemma KeyMessageSlots<P>(c: Curve<P>, cs: seq<nat>, rs: seq<nat>, i: nat)
    requires |cs| == |rs| && i < |cs|
    ensures (var s, r := KeyMessage(c, cs, rs), 33 * |cs| + 33 * i;
             && s[33 * i..33 * i + 33] == c.toBytes(PublicKey(c, cs[i]))
             && s[r..r + 33] == c.toBytes(PublicKey(c, rs[i])))
  {
    SlotBytes(c, PublicKeys(c, cs), i);
    SlotBytes(c, PublicKeys(c, rs), i);
    var first, second := FlattenPoints(c, PublicKeys(c, cs)), FlattenPoints(c, PublicKeys(c, rs));
    assert (first + second)[33 * i..33 * i + 33] == first[33 * i..33 * i + 33];
    assert (first + second)[33 * |cs| + 33 * i..33 * |cs| + 33 * i + 33] == second[33 * i..33 * i + 33];
  }

  /** The receiver's key `PK0`: `k * G`, or `C - k * G` for choice one. */
  function ReplyKey<P>(c: Curve<P>, k: nat, point: P, bit: bool): P {
    if bit then c.add(c.invert(PublicKey(c, k)), point) else PublicKey(c, k)
  }

  /** The receiver's reply to the key message `s`. */
  function ReplyKeys<P>(c: Curve<P>, s: seq<bv8>, ks: seq<nat>, choices: seq<Block>): (keys: seq<P>)
    requires |s| == 66 * |ks| && |ks| <= 128 * |choices|
    ensures |keys| == |ks|
  {
    seq(|ks|, i requires 0 <= i < |ks| => ReplyKey(c, ks[i], PointAt(c, s, 0, i), BitFromBlocks(choices, i)))
  }

  function ReplyMessage<P>(c: Curve<P>, s: seq<bv8>, ks: seq<nat>, choices: seq<Block>): (reply: seq<bv8>)
    requires |s| == 66 * |ks| && |ks| <= 128 * |choices|
    ensures |reply| == 33 * |ks|
  {
    FlattenPoints(c, ReplyKeys(c, s, ks, choices))
  }

  /** Slot `i` of the reply is the key `PK0` of OT `i`. */
  lemma ReplySlots<P>(c: Curve<P>, s: seq<bv8>, ks: seq<nat>, choices: seq<Block>, i: nat)
    requires |s| == 66 * |ks| && |ks| <= 128 * |choices| && i < |ks|
    ensures ReplyMessage(c, s, ks, choices)[33 * i..33 * i + 33]
         == c.toBytes(ReplyKey(c, ks[i], PointAt(c, s, 0, i), BitFromBlocks(choices, i)))
  {
    SlotBytes(c, ReplyKeys(c, s, ks, choices), i);
  }

  /** Domain separation: the first byte of a choice-one point is flipped before hashing. */
  function Tagged(b: PointBytes, bit: bool): PointBytes {
    b[0 := b[0] ^ (if bit then 1 else 0)]
  }

  /** The tag flips the lowest bit of the first byte and leaves the other 32 bytes. */
  lemma TaggedBytes(b: PointBytes, bit: bool, k: nat)
    requires k < 33
    ensures Tagged(b, bit)[k] == if k == 0 && bit then b[0] ^ 1 else b[k]
  {
  }

  lemma TagsDiffer(b: PointBytes)
    ensures Tagged(b, true) != Tagged(b, false)
  {
    TaggedBytes(b, true, 0);
    TaggedBytes(b, false, 0);
  }

  function ReceiverMessage<P>(c: Curve<P>, hash: PointHash, k: nat, r: P, bit: bool): Block {
    hash(Tagged(c.toBytes(Mul(c, k, r)), bit))
  }

  function ReceiverMessages<P>(c: Curve<P>, hash: PointHash, s: seq<bv8>, ks: seq<nat>,
                               choices: seq<Block>): (messages: seq<Block>)
    requires |s| == 66 * |ks| && |ks| <= 128 * |choices|
    ensures |messages| == |ks|
  {
    seq<Block>(|ks|, i requires 0 <= i < |ks| =>
      ReceiverMessage(c, hash, ks[i], PointAt(c, s, 33 * |ks|, i), BitFromBlocks(choices, i)))
  }

  /** The sender's pair from the key `pk0` it got back. */
  function SenderPair<P>(c: Curve<P>, hash: PointHash, cKey: P, r: nat, pk0: P): (Block, Block) {
    var k0 := Mul(c, r, pk0);
    var k1 := c.add(Mul(c, r, cKey), c.invert(k0));
    (hash(Tagged(c.toBytes(k0), false)), hash(Tagged(c.toBytes(k1), true)))
  }

  /**
   Domain separation, for all secrets: the slots of a pair hash the first candidate's encoding and the second
   one's with the lowest bit of its first byte flipped. The two strings differ when both candidates are the same
   point, and a hash that tells these two apart gives equal slots exactly when they are equal.
   */
  lemma SlotsSeparate<P>(c: Curve<P>, hash: PointHash, cKey: P, r: nat, pk0: P)
    ensures (var pair := SenderPair(c, hash, cKey, r, pk0);
             var k0 := Mul(c, r, pk0);
             var k1 := c.add(Mul(c, r, cKey), c.invert(k0));
             var s0, s1 := c.toBytes(k0), c.toBytes(k1)[0 := c.toBytes(k1)[0] ^ 1];
             && pair == (hash(s0), hash(s1))
             && (k0 == k1 ==> s0 != s1)
             && ((hash(s0) == hash(s1) ==> s0 == s1) ==> (pair.0 == pair.1 <==> s0 == s1)))
  {
    var k0 := Mul(c, r, pk0);
    var b0, b1 := c.toBytes(k0), c.toBytes(c.add(Mul(c, r, cKey), c.invert(k0)));
    TagsDiffer(b0);
    forall k: nat | k < 33 ensures Tagged(b0, false)[k] == b0[k] && Tagged(b1, true)[k] == b1[0 := b1[0] ^ 1][k] {
      TaggedBytes(b0, false, k);
      TaggedBytes(b1, true, k);
    }
    assert Tagged(b0, false) == b0 && Tagged(b1, true) == b1[0 := b1[0] ^ 1];
  }

  function SenderMessages<P>(c: Curve<P>, hash: PointHash, cs: seq<nat>, rs: seq<nat>,
                             reply: seq<bv8>): (messages: seq<(Block, Block)>)
    requires |rs| == |cs| && |reply| == 33 * |cs|
    ensures |messages| == |cs|
  {
    seq<(Block, Block)>(|cs|, i requires 0 <= i < |cs| =>
      SenderPair(c, hash, PublicKey(c, cs[i]), rs[i], PointAt(c, reply, 0, i)))
  }

  // ---------- correctness ----------

  /** The sender's point for the chosen slot is `k * (r * G)`, the receiver's. */
  lemma ChosenPoint<P(!new)>(c: Curve<P>, cKey: P, r: nat, k: nat, bit: bool)
    requires Laws(c)
    ensures (var k0 := Mul(c, r, ReplyKey(c, k, cKey, bit));
             (if bit then c.add(Mul(c, r, cKey), c.invert(k0)) else k0) == Mul(c, k, PublicKey(c, r)))
  {
    MulCommutes(c, r, k, c.generator);
    if bit {
      var kG := PublicKey(c, k);
      MulAdd(c, r, c.invert(kG), cKey);
      MulInvert(c, r, kG);
      SubtractBack(c, Mul(c, r, cKey), Mul(c, r, kG));
    }
  }

  /** A whole exchange, any number of OTs: the receiver gets the slot it chose, for all secrets and choices. */
  lemma Correct<P(!new)>(c: Curve<P>, hash: PointHash, cs: seq<nat>, rs: seq<nat>, ks: seq<nat>, choices: seq<Block>,
                         i: nat)
    requires Laws(c) && |cs| == |rs| == |ks| <= 128 * |choices| && i < |ks|
    ensures (var keys := KeyMessage(c, cs, rs);
             var reply := ReplyMessage(c, keys, ks, choices);
             ReceiverMessages(c, hash, keys, ks, choices)[i]
             == Slot(SenderMessages(c, hash, cs, rs, reply)[i], BitFromBlocks(choices, i)))
  {
    var bit := BitFromBlocks(choices, i);
    var keys := KeyMessage(c, cs, rs);
    WireRoundTrip(c, PublicKeys(c, cs), PublicKeys(c, rs), i);
    var replyKeys := ReplyKeys(c, keys, ks, choices);
    SlotBytes(c, replyKeys, i);
    ChosenPoint(c, PublicKey(c, cs[i]), rs[i], ks[i], bit);
  }

  /** `r * PK0 == r * C - k * R` for the choice that is not taken: the sender's other point. */
  lemma OtherPoint<P(!new)>(c: Curve<P>, cKey: P, r: nat, k: nat, bit: bool)
    requires Laws(c)
    ensures (var k0 := Mul(c, r, ReplyKey(c, k, cKey, bit));
             (if bit then k0 else c.add(Mul(c, r, cKey), c.invert(k0)))
             == c.add(Mul(c, r, cKey), c.invert(Mul(c, k, PublicKey(c, r)))))
  {
    MulCommutes(c, r, k, c.generator);
    if bit {
      var kG := PublicKey(c, k);
      MulAdd(c, r, c.invert(kG), cKey);
      MulInvert(c, r, kG);
    }
  }

  /**
   Both slots of pair `i`. With `p` the shared point `k * (r * G)`: the chosen slot, which is the receiver's
   message, hashes `p`, and the other one hashes `r * C - p`, each tagged by the slot it is in.
   */
  lemma BothSlots<P(!new)>(c: Curve<P>, hash: PointHash, cs: seq<nat>, rs: seq<nat>, ks: seq<nat>, choices: seq<Block>,
                           i: nat)
    requires Laws(c) && |cs| == |rs| == |ks| <= 128 * |choices| && i < |ks|
    ensures (var bit := BitFromBlocks(choices, i);
             var keys := KeyMessage(c, cs, rs);
             var pair := SenderMessages(c, hash, cs, rs, ReplyMessage(c, keys, ks, choices))[i];
             var p := Mul(c, ks[i], PublicKey(c, rs[i]));
             var other := c.add(Mul(c, rs[i], PublicKey(c, cs[i])), c.invert(p));
             && ReceiverMessages(c, hash, keys, ks, choices)[i] == hash(Tagged(c.toBytes(p), bit))
             && pair == if bit then (hash(Tagged(c.toBytes(other), false)), hash(Tagged(c.toBytes(p), true)))
                        else (hash(Tagged(c.toBytes(p), false)), hash(Tagged(c.toBytes(other), true))))
  {
    var bit := BitFromBlocks(choices, i);
    var keys := KeyMessage(c, cs, rs);
    WireRoundTrip(c, PublicKeys(c, cs), PublicKeys(c, rs), i);
    SlotBytes(c, ReplyKeys(c, keys, ks, choices), i);
    ChosenPoint(c, PublicKey(c, cs[i]), rs[i], ks[i], bit);
    OtherPoint(c, PublicKey(c, cs[i]), rs[i], ks[i], bit);
  }
}
