/** `IknpOtExtSender` and `IknpOtExtReceiver`, proved against the functions of module `Iknp`. */
module IknpParties {
  import opened Blocks
  import opened Indexing
  import opened Memory
  import opened Outcome
  import opened Primitives
  import opened Extension
  import opened Tiles
  import Iknp
  import Transpose

  /** Every tile of the transpose loop: `output[i][k]` is column `128i + k`. */
  method TransposeTiles(t: seq<seq<Block>>, cols: nat) returns (output: seq<seq<Block>>)
    requires Dims(t, 128, cols)
    ensures Dims(output, cols, 128)
    ensures forall i: nat, k: nat | i < cols && k < 128 :: output[i][k] == Column(t, 0, 128 * i + k)
  {
    var input := new Block[128];
    output := [];
    for i := 0 to cols
      invariant Dims(output, i, 128)
      invariant forall i': nat, k: nat | i' < i && k < 128 :: output[i'][k] == Column(t, 0, 128 * i' + k)
    {
      var tile := new Block[128];
      TransposeTile(t, 128, cols, 0, i, input, tile);
      assert forall k: nat | k < 128 :: tile[..][k] == Column(t, 0, 128 * i + k);
      output := output + [tile[..]];
    }
  }

  // ---------- the sizes a round can be served with ----------

  /** `matrix_transpose(input, rows, rows, output[i])` stays inside its two vectors of `rows` blocks. */
  ghost predicate TileFits(rows: nat) {
    Transpose.LoadsBelow(rows, rows, 16 * rows) && Transpose.StoresBelow(rows, rows, 16 * rows)
  }

  /** Among the sizes the receiver's check accepts, those up to 128 keep the loads, and the stores, in bounds. */
  lemma TileFitsIff(rows: nat)
    requires rows % 128 == 0
    ensures Transpose.LoadsBelow(rows, rows, 16 * rows) <==> rows <= 128
    ensures Transpose.StoresBelow(rows, rows, 16 * rows) <==> rows <= 128
  {
    Transpose.LoadsBelowIff(rows, rows, 16 * rows);
    Transpose.StoresBelowIff(rows, rows, 16 * rows);
    SquareFits(rows / 128, rows);
  }

  lemma SquareFits(c: nat, rows: nat)
    requires rows == 128 * c
    ensures rows * (rows / 8) <= 16 * rows <==> c <= 1
  {
    assert rows / 8 == 16 * c;
    assert rows * (rows / 8) == 16 * (rows * c);
    if c >= 2 {
      ScaledOrder(2, c, rows);
    }
  }

  /** `output[i / rows]` and `output[i / rows][i % rows]` exist for every message index. */
  ghost predicate HashLoopDefined(rows: nat, cols: nat, ext: nat) {
    ext > 0 ==> rows > 0 && forall i: nat | i < ext :: i / rows < cols
  }

  /** What both checks of the receiver accept can be served, for a positive extension size, exactly with base size 128. */
  lemma ServedIff(rows: nat, ext: nat)
    requires rows % 128 == 0 && ext % 128 == 0 && ext > 0
    ensures TileFits(rows) && HashLoopDefined(rows, ext / 128, ext) <==> rows == 128
  {
    TileFitsIff(rows);
  }

  /** Base size 256 passes the receiver's check, and the last load and the last store are out of bounds. */
  lemma BaseSize256()
    ensures 256 % 128 == 0 && !TileFits(256)
    ensures Transpose.Tile(256, 256, 15, 31)
    ensures Transpose.LoadAddress(240, 248, 15, 256) == 8191 && Transpose.StoreAddress(240, 248, 8, 256) == 8190
    ensures 16 * 256 == 4096
  {
    TileFitsIff(256);
  }

  class Sender<S> {
    const prims: Primitives<S>
    const baseOtSizes: nat
    const extOtSizes: nat
    var prng: seq<S>
    var baseChoices: seq<Block>

    constructor (prims: Primitives<S>, baseOtSizes: nat, extOtSizes: nat)
      ensures this.prims == prims && this.baseOtSizes == baseOtSizes && this.extOtSizes == extOtSizes
      ensures prng == [] && baseChoices == []
    {
      this.prims, this.baseOtSizes, this.extOtSizes := prims, baseOtSizes, extOtSizes;
      prng, baseChoices := [], [];
    }

    /** Seeds go to the back of the generators, choices to the front of the choices. */
    method SetBaseOts(choices: seq<Block>, baseRecvOts: seq<Block>)
      modifies this
      ensures prng == old(prng) + Seed(prims, baseRecvOts)
      ensures baseChoices == choices + old(baseChoices)
    {
      for i := 0 to |baseRecvOts|
        invariant prng == old(prng) + Seed(prims, baseRecvOts)[..i]
        invariant baseChoices == old(baseChoices)
      {
        prng := prng + [prims.create(baseRecvOts[i])];
      }
      baseChoices := choices + baseChoices;
    }

    /** `ext_matrix[i] ^= recv_matrix[i]`, block by block. */
    static method CorrectRow(g: seq<Block>, received: seq<Block>, cols: nat, i: nat) returns (row: seq<Block>)
      requires |g| == cols && |received| == 128 * cols && i < 128
      ensures row == Iknp.CorrectedRow(g, RowsOf(received, 128, cols)[i], true)
    {
      row := g;
      for j := 0 to cols
        invariant |row| == cols
        invariant forall c | 0 <= c < cols :: row[c] == if c < j then Xor(g[c], RowsOf(received, 128, cols)[i][c]) else g[c]
      {
        AddressInRange(128, cols, i, j);
        row := row[j := Xor(row[j], received[i * cols + j])];
      }
    }

    /** The rows of `ext_matrix`, generated and corrected. */
    method ExtendRows(received: seq<Block>, cols: nat) returns (ext: seq<seq<Block>>)
      requires |received| == 128 * cols && 128 <= |prng| && 1 <= |baseChoices|
      modifies `prng
      ensures prng == AdvanceRows(prims, old(prng), 128, cols)
      ensures ext == Iknp.SenderMatrix(prims, baseChoices, old(prng), RowsOf(received, 128, cols), cols)
    {
      ext := [];
      for i := 0 to 128
        invariant |prng| == |old(prng)|
        invariant forall k | 0 <= k < |prng| :: prng[k] == if k < i then Advance(prims, old(prng)[k], cols) else old(prng)[k]
        invariant ext == Iknp.SenderMatrix(prims, baseChoices, old(prng), RowsOf(received, 128, cols), cols)[..i]
      {
        var row := Generate(prims, prng[i], cols);
        prng := prng[i := Advance(prims, prng[i], cols)];
        if BitFromBlocks(baseChoices, i) {
          row := CorrectRow(row, received, cols, i);
        }
        ext := ext + [row];
      }
    }

    /** The hash loop over the transposed columns. */
    method HashPairs(ghost q: seq<seq<Block>>, output: seq<seq<Block>>, cols: nat)
    returns (messages: seq<(Block, Block)>)
      requires 1 <= |baseChoices| && Dims(q, 128, cols) && Dims(output, cols, 128)
      requires forall i: nat, k: nat | i < cols && k < 128 :: output[i][k] == Column(q, 0, 128 * i + k)
      ensures |messages| == 128 * cols
      ensures forall i: nat | i < 128 * cols ::
        messages[i] == (prims.hash(Iknp.Tweaked(q, cols, i)), prims.hash(Xor(Iknp.Tweaked(q, cols, i), baseChoices[0])))
    {
      messages := [];
      for i := 0 to 128 * cols
        invariant |messages| == i
        invariant forall k: nat | k < i ::
          messages[k] == (prims.hash(Iknp.Tweaked(q, cols, k)), prims.hash(Xor(Iknp.Tweaked(q, cols, k), baseChoices[0])))
      {
        var x := Xor(output[i / 128][i % 128], LowLane(i));
        assert x == Iknp.Tweaked(q, cols, i);
        var message0 := prims.hash(x);
        x := Xor(x, baseChoices[0]);
        messages := messages + [(message0, prims.hash(x))];
      }
    }

    /** Blocks until the matrix has arrived; a rejected size changes nothing. */
    method Send(net: Channel) returns (status: Status, messages: seq<(Block, Block)>)
      requires baseOtSizes == 0 ==> extOtSizes % 128 != 0
      requires baseOtSizes == 128 && extOtSizes % 128 == 0 ==>
        && extOtSizes > 0 && 128 <= |prng| && 1 <= |baseChoices| && 16 * extOtSizes <= |net.bytes|
      modifies `prng, net
      ensures baseOtSizes > 128 ==> status == InvalidArgument("IKNP is only supported by 128-bit base-OT.")
      ensures 0 < baseOtSizes < 128 ==> status == InvalidArgument("OT base size is not supported.")
      ensures (baseOtSizes == 0 || baseOtSizes == 128) && extOtSizes % 128 != 0 ==>
        status == InvalidArgument("OT extension size is not supported.")
      ensures status.InvalidArgument? ==> prng == old(prng) && net.bytes == old(net.bytes) && messages == []
      ensures baseOtSizes == 128 && extOtSizes % 128 == 0 ==>
        && status == Ok
        && prng == AdvanceRows(prims, old(prng), 128, extOtSizes / 128)
        && net.bytes == old(net.bytes)[16 * extOtSizes..]
        && messages == Iknp.SenderMessages(prims, baseChoices, old(prng),
                                           RowsOf(Parse(old(net.bytes)[..16 * extOtSizes]), 128, extOtSizes / 128), extOtSizes / 128)
    {
      if baseOtSizes > 128 {
        return InvalidArgument("IKNP is only supported by 128-bit base-OT."), [];
      }
      if baseOtSizes % 128 != 0 {
        return InvalidArgument("OT base size is not supported."), [];
      }
      if extOtSizes % 128 != 0 {
        return InvalidArgument("OT extension size is not supported."), [];
      }
      var cols := extOtSizes / 128;
      var received := net.RecvBlock(128 * cols);
      var ext := ExtendRows(received, cols);
      var output := TransposeTiles(ext, cols);
      messages := HashPairs(ext, output, cols);
      status := Ok;
    }
  }

  class Receiver<S> {
    const prims: Primitives<S>
    const baseOtSizes: nat
    const extOtSizes: nat
    var prng: seq<(S, S)>

    constructor (prims: Primitives<S>, baseOtSizes: nat, extOtSizes: nat)
      ensures this.prims == prims && this.baseOtSizes == baseOtSizes && this.extOtSizes == extOtSizes
      ensures prng == []
    {
      this.prims, this.baseOtSizes, this.extOtSizes := prims, baseOtSizes, extOtSizes;
      prng := [];
    }

    method SetBaseOts(baseSendOts: seq<(Block, Block)>)
      modifies this
      ensures prng == old(prng) + SeedPairs(prims, baseSendOts)
    {
      for i := 0 to |baseSendOts|
        invariant prng == old(prng) + SeedPairs(prims, baseSendOts)[..i]
      {
        prng := prng + [(prims.create(baseSendOts[i].0), prims.create(baseSendOts[i].1))];
      }
    }

    /** The rows of `t0` and of the matrix to send, stored row after row. */
    method ExtendRows(choices: seq<Block>, cols: nat) returns (t0: seq<seq<Block>>, sendMatrix: seq<Block>)
      requires 128 <= |prng| && cols <= |choices|
      modifies `prng
      ensures prng == AdvancePairs(prims, old(prng), 128, cols)
      ensures t0 == GenerateRows(prims, Side(old(prng), false), 128, cols)
      ensures sendMatrix == RowMajor(Iknp.CorrectionMatrix(prims, old(prng), choices, cols), 128, cols)
    {
      t0, sendMatrix := [], [];
      ghost var u := Iknp.CorrectionMatrix(prims, prng, choices, cols);
      for i := 0 to 128
        invariant |prng| == |old(prng)|
        invariant forall k | 0 <= k < |prng| ::
          prng[k] == if k < i then (Advance(prims, old(prng)[k].0, cols), Advance(prims, old(prng)[k].1, cols)) else old(prng)[k]
        invariant t0 == GenerateRows(prims, Side(old(prng), false), 128, cols)[..i]
        invariant sendMatrix == RowMajor(u[..i], i, cols)
      {
        var row0 := Generate(prims, prng[i].0, cols);
        var row1 := Generate(prims, prng[i].1, cols);
        prng := prng[i := (Advance(prims, prng[i].0, cols), Advance(prims, prng[i].1, cols))];
        var row := [];
        for j := 0 to cols
          invariant row == Iknp.CorrectionRow(row0, row1, choices, cols)[..j]
        {
          row := row + [Xor(Xor(row0[j], row1[j]), choices[j])];
        }
        assert row == u[i];
        t0 := t0 + [row0];
        RowMajorAppend(u[..i], row, i, cols);
        assert u[..i] + [row] == u[..i + 1];
        sendMatrix := sendMatrix + row;
      }
      assert u[..128] == u;
    }

    /** The hash loop over the transposed columns. */
    method HashColumns(ghost t0: seq<seq<Block>>, output: seq<seq<Block>>, cols: nat) returns (messages: seq<Block>)
      requires Dims(t0, 128, cols) && Dims(output, cols, 128)
      requires forall i: nat, k: nat | i < cols && k < 128 :: output[i][k] == Column(t0, 0, 128 * i + k)
      ensures |messages| == 128 * cols
      ensures forall i: nat | i < 128 * cols :: messages[i] == prims.hash(Iknp.Tweaked(t0, cols, i))
    {
      messages := [];
      for i := 0 to 128 * cols
        invariant |messages| == i
        invariant forall k: nat | k < i :: messages[k] == prims.hash(Iknp.Tweaked(t0, cols, k))
      {
        var x := Xor(output[i / 128][i % 128], LowLane(i));
        assert x == Iknp.Tweaked(t0, cols, i);
        messages := messages + [prims.hash(x)];
      }
    }

    /** Sends the matrix and returns without waiting for the sender; a rejected size changes nothing. */
    method Receive(net: Channel, choices: seq<Block>) returns (status: Status, messages: seq<Block>)
      requires baseOtSizes % 128 == 0 && extOtSizes % 128 == 0 ==>
        baseOtSizes == 128 && extOtSizes > 0 && 128 <= |prng| && extOtSizes <= 128 * |choices|
      modifies `prng, net
      ensures baseOtSizes % 128 != 0 ==> status == InvalidArgument("OT base size is not supported.")
      ensures baseOtSizes % 128 == 0 && extOtSizes % 128 != 0 ==> status == InvalidArgument("OT extension size is not supported.")
      ensures status.InvalidArgument? ==> prng == old(prng) && net.bytes == old(net.bytes) && messages == []
      ensures baseOtSizes % 128 == 0 && extOtSizes % 128 == 0 ==>
        && status == Ok
        && prng == AdvancePairs(prims, old(prng), 128, extOtSizes / 128)
        && net.bytes == old(net.bytes)
           + Flatten(RowMajor(Iknp.CorrectionMatrix(prims, old(prng), choices, extOtSizes / 128), 128, extOtSizes / 128))
        && messages == Iknp.ReceiverMessages(prims, old(prng), extOtSizes / 128)
    {
      if baseOtSizes % 128 != 0 {
        return InvalidArgument("OT base size is not supported."), [];
      }
      if extOtSizes % 128 != 0 {
        return InvalidArgument("OT extension size is not supported."), [];
      }
      var cols := extOtSizes / 128;
      var t0, sendMatrix := ExtendRows(choices, cols);
      net.SendBlock(sendMatrix);
      var output := TransposeTiles(t0, cols);
      messages := HashColumns(t0, output, cols);
      status := Ok;
    }
  }
}
