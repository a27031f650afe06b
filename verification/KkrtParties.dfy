/** `KkrtNcoOtExtSender` and `KkrtNcoOtExtReceiver`, proved against the functions of module `Kkrt`. */
module KkrtParties {
  import opened Blocks
  import opened Indexing
  import opened Memory
  import opened Outcome
  import opened Primitives
  import opened Extension
  import opened Tiles
  import Kkrt

  /** Tiles left of `i`, and in tile column `i` those above `j`, hold what is wanted. */
  predicate Filled(m: seq<seq<Block>>, want: seq<seq<Block>>, th: nat, cols: nat, i: nat, j: nat) {
    && Dims(m, 128 * cols, th) && Dims(want, 128 * cols, th)
    && forall r: nat, c: nat | r < 128 * cols && c < th && (r < 128 * i || (r < 128 * i + 128 && c < j)) :: m[r][c] == want[r][c]
  }

  lemma FilledEnd(m: seq<seq<Block>>, want: seq<seq<Block>>, th: nat, cols: nat)
    requires Filled(m, want, th, cols, cols, 0)
    ensures m == want
  {
    forall r | 0 <= r < 128 * cols ensures m[r] == want[r] {
      forall c | 0 <= c < th ensures m[r][c] == want[r][c] {
      }
    }
  }

  /** `m[r][j] = block` */
  function WithEntry(m: seq<seq<Block>>, r: nat, j: nat, block: Block): (m': seq<seq<Block>>)
    requires r < |m| && j < |m[r]|
    ensures |m'| == |m|
  {
    var row: seq<Block> := m[r][j := block];
    m[r := row]
  }

  /** The innermost loop of the receiver's transposes: `m[128i + k][j] = output[k]`. */
  method StoreTile(m: seq<seq<Block>>, output: array<Block>, th: nat, cols: nat, i: nat, j: nat,
                   ghost want: seq<seq<Block>>)
    returns (m': seq<seq<Block>>)
    requires output.Length == 128 && i < cols && j < th && Filled(m, want, th, cols, i, j)
    requires forall k: nat | k < 128 :: output[k] == want[128 * i + k][j]
    ensures Filled(m', want, th, cols, i, j + 1)
  {
    m' := m;
    for k := 0 to 128
      invariant Filled(m', want, th, cols, i, j)
      invariant forall r: nat | 128 * i <= r < 128 * i + k :: m'[r][j] == want[r][j]
    {
      m' := WithEntry(m', i * 128 + k, j, output[k]);
    }
  }

  /** The receiver's tiled transpose equals one transpose of the whole matrix. */
  method TransposeTiles(t: seq<seq<Block>>, th: nat, cols: nat) returns (m: seq<seq<Block>>)
    requires Dims(t, 128 * th, cols)
    ensures m == Kkrt.Columns(t, th, cols)
  {
    var input, output := new Block[128], new Block[128];
    ghost var want := Kkrt.Columns(t, th, cols);
    m := seq(128 * cols, _ => seq(th, _ => Zero()));
    for i := 0 to cols
      invariant Filled(m, want, th, cols, i, 0)
    {
      for j := 0 to th
        invariant Filled(m, want, th, cols, i, j)
      {
        TransposeTile(t, 128 * th, cols, j, i, input, output);
        m := StoreTile(m, output, th, cols, i, j, want);
      }
    }
    FilledEnd(m, want, th, cols);
  }

  /** `q_mat.resize`: what was there stays where it fits. */
  function Resized(m: seq<seq<Block>>, rows: nat, cols: nat): (m': seq<seq<Block>>)
    ensures Dims(m', rows, cols)
  {
    seq(rows, r requires 0 <= r < rows =>
      seq<Block>(cols, c requires 0 <= c < cols => EntryOrZero(m, r, c)))
  }

  function EntryOrZero(m: seq<seq<Block>>, r: nat, c: nat): Block {
    if r < |m| && c < |m[r]| then m[r][c] else Zero()
  }

  class Sender<S> {
    const prims: Primitives<S>
    const baseOtSizes: nat
    var extOtSizes: nat
    var prng: seq<S>
    var baseChoices: seq<Block>
    var qMat: seq<seq<Block>>

    constructor (prims: Primitives<S>, baseOtSizes: nat)
      ensures this.prims == prims && this.baseOtSizes == baseOtSizes
      ensures prng == [] && baseChoices == [] && qMat == [] && extOtSizes == 0
    {
      this.prims, this.baseOtSizes := prims, baseOtSizes;
      prng, baseChoices, qMat, extOtSizes := [], [], [], 0;
    }

    /** Seeds go to the back of the generators, choices to the front of the choices. */
    method SetBaseOts(choices: seq<Block>, baseRecvOts: seq<Block>)
      modifies `prng, `baseChoices
      ensures prng == old(prng) + Seed(prims, baseRecvOts)
      ensures baseChoices == choices + old(baseChoices)
    {
      for i := 0 to |baseRecvOts|
        invariant prng == old(prng) + Seed(prims, baseRecvOts)[..i]
        invariant baseChoices == old(baseChoices)
      {
        prng := prng + [prims.create(baseRecvOts[i])];
      }
      baseChoices := choices + baseChoices;
    }

    method GenerateExt(rows: nat, cols: nat) returns (ext: seq<seq<Block>>)
      requires rows <= |prng|
      modifies `prng
      ensures prng == AdvanceRows(prims, old(prng), rows, cols)
      ensures ext == GenerateRows(prims, old(prng), rows, cols)
    {
      ext := [];
      for i := 0 to rows
        invariant |prng| == |old(prng)|
        invariant forall k | 0 <= k < |prng| :: prng[k] == if k < i then Advance(prims, old(prng)[k], cols) else old(prng)[k]
        invariant ext == GenerateRows(prims, old(prng), rows, cols)[..i]
      {
        ext := ext + [Generate(prims, prng[i], cols)];
        prng := prng[i := Advance(prims, prng[i], cols)];
      }
    }

    /** The innermost loop of `send`: store a transposed block, then correct it under the secret mask. */
    method StoreCorrected(m: seq<seq<Block>>, output: array<Block>, received: seq<Block>, th: nat, cols: nat, i: nat,
                          j: nat,
                          ghost want: seq<seq<Block>>)
      returns (m': seq<seq<Block>>)
      requires output.Length == 128 && i < cols && j < th && th <= |baseChoices|
      requires |received| == 128 * cols * th && Filled(m, want, th, cols, i, j)
      requires forall k: nat | k < 128 ::
        want[128 * i + k][j] == Xor(output[k], And(RowsOf(received, 128 * cols, th)[128 * i + k][j], baseChoices[j]))
      ensures Filled(m', want, th, cols, i, j + 1)
    {
      m' := m;
      for k := 0 to 128
        invariant Filled(m', want, th, cols, i, j)
        invariant forall r: nat | 128 * i <= r < 128 * i + k :: m'[r][j] == want[r][j]
      {
        var r := i * 128 + k;
        AddressInRange(128 * cols, th, r, j);
        var block: Block := output[k];
        block := Xor(block, And(received[r * th + j], baseChoices[j]));
        m' := WithEntry(m', r, j, block);
      }
    }

    /** The body of the tile loops of `send`. */
    method CorrectTile(m: seq<seq<Block>>, ext: seq<seq<Block>>, input: array<Block>, output: array<Block>,
                       received: seq<Block>, th: nat, cols: nat, i: nat, j: nat, ghost want: seq<seq<Block>>)
      returns (m': seq<seq<Block>>)
      requires input != output && input.Length == 128 && output.Length == 128
      requires Dims(ext, 128 * th, cols) && |received| == 128 * cols * th && th <= |baseChoices|
      requires want == Kkrt.CorrectedColumns(baseChoices, Kkrt.Columns(ext, th, cols), RowsOf(received, 128 * cols, th), th, cols)
      requires i < cols && j < th && Filled(m, want, th, cols, i, j)
      modifies input, output
      ensures Filled(m', want, th, cols, i, j + 1)
    {
      TransposeTile(ext, 128 * th, cols, j, i, input, output);
      m' := StoreCorrected(m, output, received, th, cols, i, j, want);
    }

    /** The tile loops of `send`, on whatever the last round left in `q_mat`. */
    method CorrectTiles(ext: seq<seq<Block>>, received: seq<Block>, th: nat, cols: nat)
      requires Dims(ext, 128 * th, cols) && |received| == 128 * cols * th && th <= |baseChoices|
      modifies `qMat
      ensures qMat == Kkrt.CorrectedColumns(baseChoices, Kkrt.Columns(ext, th, cols), RowsOf(received, 128 * cols, th), th, cols)
    {
      var input, output := new Block[128], new Block[128];
      ghost var want := Kkrt.CorrectedColumns(baseChoices, Kkrt.Columns(ext, th, cols), RowsOf(received, 128 * cols, th), th, cols);
      qMat := Resized(qMat, 128 * cols, th);
      for i := 0 to cols
        invariant Filled(qMat, want, th, cols, i, 0)
      {
        for j := 0 to th
          invariant Filled(qMat, want, th, cols, i, j)
        {
          qMat := CorrectTile(qMat, ext, input, output, received, th, cols, i, j, want);
        }
      }
      FilledEnd(qMat, want, th, cols);
    }

    /**
     Blocks until the matrix has arrived; a rejected base size changes nothing. After `RoundUp` the size is
     always whole, so the check that follows it in the source can never reject.
     */
    method Send(net: Channel, size: nat) returns (status: Status)
      requires baseOtSizes % 128 == 0 ==>
        && (size > 0 || baseOtSizes == 0) && baseOtSizes <= |prng| && baseOtSizes <= 128 * |baseChoices|
        && 16 * (baseOtSizes * (Kkrt.RoundUp(size) / 128)) <= |net.bytes|
      modifies `extOtSizes, `prng, `qMat, net
      ensures baseOtSizes % 128 != 0 ==>
        && status == InvalidArgument("OT base size is not supported.")
        && extOtSizes == old(extOtSizes) && prng == old(prng) && qMat == old(qMat) && net.bytes == old(net.bytes)
      ensures baseOtSizes % 128 == 0 ==>
        var th, cols := baseOtSizes / 128, Kkrt.RoundUp(size) / 128;
        var taken := 16 * (baseOtSizes * cols);
        && status == Ok
        && extOtSizes == Kkrt.RoundUp(size)
        && prng == AdvanceRows(prims, old(prng), baseOtSizes, cols)
        && net.bytes == old(net.bytes)[taken..]
        && |Parse(old(net.bytes)[..taken])| == 128 * cols * th
        && qMat == Kkrt.QMatrix(prims, baseChoices, old(prng), RowsOf(Parse(old(net.bytes)[..taken]), 128 * cols, th), th, cols)
    {
      if baseOtSizes % 128 != 0 {
        return InvalidArgument("OT base size is not supported.");
      }
      extOtSizes := Kkrt.RoundUp(size);
      var rows, cols, th := baseOtSizes, extOtSizes / 128, baseOtSizes / 128;
      SameArea(rows, cols, th);
      var received := net.RecvBlock(rows * cols);
      var ext := GenerateExt(rows, cols);
      CorrectTiles(ext, received, th, cols);
      status := Ok;
    }

    /** The message of OT `idx` for the choice value `input`. */
    method Encode(idx: nat, input: Block) returns (output: Block)
      requires idx < |qMat| && |qMat[idx]| == baseOtSizes / 128 <= |baseChoices|
      ensures output == Kkrt.Encode(prims, baseChoices, qMat[idx], idx, input)
    {
      var th := baseOtSizes / 128;
      ghost var inputs := Kkrt.EncodeInputs(prims, baseChoices, qMat[idx], input);
      var encInput: seq<Block> := [];
      for j := 0 to th
        invariant |encInput| == j
        invariant forall k: nat | k < j :: encInput[k] == And(baseChoices[k], Kkrt.Code(prims, input, k))
      {
        var hashed := prims.hash(Xor(input, LowLane(j)));
        encInput := encInput + [And(baseChoices[j], Xor(hashed, input))];
      }
      output := LowLane(0);
      for j := 0 to th
        invariant output == Kkrt.Chain(prims, inputs[..j], idx)
      {
        assert inputs[..j + 1][..j] == inputs[..j];
        output := Xor(output, Xor(Xor(encInput[j], qMat[idx][j]), LowLane(idx)));
        output := prims.hash(output);
      }
      assert inputs[..th] == inputs;
    }
  }

  /** `rows * cols` blocks are as many as `128 * cols` rows of `th`. */
  lemma SameArea(rows: nat, cols: nat, th: nat)
    requires rows == 128 * th
    ensures rows * cols == 128 * cols * th
  {
  }

  class Receiver<S> {
    const prims: Primitives<S>
    const baseOtSizes: nat
    var extOtSizes: nat
    var prng: seq<(S, S)>

    constructor (prims: Primitives<S>, baseOtSizes: nat)
      ensures this.prims == prims && this.baseOtSizes == baseOtSizes
      ensures prng == [] && extOtSizes == 0
    {
      this.prims, this.baseOtSizes := prims, baseOtSizes;
      prng, extOtSizes := [], 0;
    }

    method SetBaseOts(baseSendOts: seq<(Block, Block)>)
      modifies `prng
      ensures prng == old(prng) + SeedPairs(prims, baseSendOts)
    {
      for i := 0 to |baseSendOts|
        invariant prng == old(prng) + SeedPairs(prims, baseSendOts)[..i]
      {
        prng := prng + [(prims.create(baseSendOts[i].0), prims.create(baseSendOts[i].1))];
      }
    }

    method GenerateBoth(rows: nat, cols: nat) returns (t0: seq<seq<Block>>, t1: seq<seq<Block>>)
      requires rows <= |prng|
      modifies `prng
      ensures prng == AdvancePairs(prims, old(prng), rows, cols)
      ensures t0 == GenerateRows(prims, Side(old(prng), false), rows, cols)
      ensures t1 == GenerateRows(prims, Side(old(prng), true), rows, cols)
    {
      t0, t1 := [], [];
      for i := 0 to rows
        invariant |prng| == |old(prng)|
        invariant forall k | 0 <= k < |prng| ::
          prng[k] == if k < i then (Advance(prims, old(prng)[k].0, cols), Advance(prims, old(prng)[k].1, cols)) else old(prng)[k]
        invariant t0 == GenerateRows(prims, Side(old(prng), false), rows, cols)[..i]
        invariant t1 == GenerateRows(prims, Side(old(prng), true), rows, cols)[..i]
      {
        t0 := t0 + [Generate(prims, prng[i].0, cols)];
        t1 := t1 + [Generate(prims, prng[i].1, cols)];
        prng := prng[i := (Advance(prims, prng[i].0, cols), Advance(prims, prng[i].1, cols))];
      }
    }

    /** Row `i` of the matrix to send; rows past the last choice are padded. */
    method CorrectionRow(choices: seq<Block>, i: nat, row0: seq<Block>, row1: seq<Block>,
                         th: nat) returns (row: seq<Block>)
      requires |row0| == th && |row1| == th
      ensures row == Kkrt.CorrectionRow(prims, Kkrt.ChoiceAt(choices, i), row0, row1, th)
    {
      row := [];
      for j := 0 to th
        invariant row == Kkrt.CorrectionRow(prims, Kkrt.ChoiceAt(choices, i), row0, row1, th)[..j]
      {
        var entry: Block;
        if i < |choices| {
          entry := prims.hash(Xor(choices[i], LowLane(j)));
          ChoiceEntry(entry, row0[j], row1[j], choices[i]);
          entry := Xor(entry, Xor(Xor(row0[j], row1[j]), choices[i]));
        } else {
          entry := prims.hash(LowLane(j));
          PaddingEntry(entry, LowLane(j));
          entry := Xor(entry, Xor(row0[j], row1[j]));
        }
        row := row + [entry];
      }
    }

    method CorrectionMatrix(choices: seq<Block>, rowMat0: seq<seq<Block>>, rowMat1: seq<seq<Block>>, th: nat, cols: nat)
      returns (rowMat: seq<Block>)
      requires Dims(rowMat0, 128 * cols, th) && Dims(rowMat1, 128 * cols, th)
      ensures |rowMat| == 128 * cols * th
      ensures forall i: nat | i < 128 * cols ::
        RowsOf(rowMat, 128 * cols, th)[i] == Kkrt.CorrectionRow(prims, Kkrt.ChoiceAt(choices, i), rowMat0[i], rowMat1[i], th)
    {
      rowMat := [];
      ghost var m: seq<seq<Block>> := [];
      for i := 0 to 128 * cols
        invariant Dims(m, i, th) && rowMat == RowMajor(m, i, th)
        invariant forall k: nat | k < i :: m[k] == Kkrt.CorrectionRow(prims, Kkrt.ChoiceAt(choices, k), rowMat0[k], rowMat1[k], th)
      {
        var row := CorrectionRow(choices, i, rowMat0[i], rowMat1[i], th);
        RowMajorAppend(m, row, i, th);
        rowMat, m := rowMat + row, m + [row];
      }
      RowsOfRowMajor(m, 128 * cols, th);
    }

    method HashChains(rowMat0: seq<seq<Block>>, n: nat, th: nat, cols: nat) returns (messages: seq<Block>)
      requires Dims(rowMat0, 128 * cols, th) && n <= 128 * cols
      ensures |messages| == n
      ensures forall i: nat | i < n :: messages[i] == Kkrt.Chain(prims, rowMat0[i], i)
    {
      messages := [];
      for i := 0 to n
        invariant |messages| == i
        invariant forall k: nat | k < i :: messages[k] == Kkrt.Chain(prims, rowMat0[k], k)
      {
        var hashIn := LowLane(0);
        for j := 0 to th
          invariant hashIn == Kkrt.Chain(prims, rowMat0[i][..j], i)
        {
          assert rowMat0[i][..j + 1][..j] == rowMat0[i][..j];
          hashIn := Xor(hashIn, Xor(rowMat0[i][j], LowLane(i)));
          hashIn := prims.hash(hashIn);
        }
        assert rowMat0[i][..th] == rowMat0[i];
        messages := messages + [hashIn];
      }
    }

    /** Sends the matrix and returns without waiting for the sender; a rejected base size changes nothing. */
    method Receive(net: Channel, choices: seq<Block>) returns (status: Status, messages: seq<Block>)
      requires baseOtSizes % 128 == 0 ==> (|choices| > 0 || baseOtSizes == 0) && baseOtSizes <= |prng|
      modifies `extOtSizes, `prng, net
      ensures baseOtSizes % 128 != 0 ==>
        && status == InvalidArgument("OT base size is not supported.") && messages == []
        && extOtSizes == old(extOtSizes) && prng == old(prng) && net.bytes == old(net.bytes)
      ensures baseOtSizes % 128 == 0 ==>
        var th, cols := baseOtSizes / 128, Kkrt.RoundUp(|choices|) / 128;
        && status == Ok
        && extOtSizes == Kkrt.RoundUp(|choices|)
        && prng == AdvancePairs(prims, old(prng), baseOtSizes, cols)
        && net.bytes == old(net.bytes) + Flatten(RowMajor(Kkrt.CorrectionMatrix(prims, old(prng), choices, th, cols), 128 * cols, th))
        && messages == Kkrt.ReceiverMessages(prims, old(prng), |choices|, th, cols)
    {
      if baseOtSizes % 128 != 0 {
        return InvalidArgument("OT base size is not supported."), [];
      }
      extOtSizes := Kkrt.RoundUp(|choices|);
      var rows, cols, th := baseOtSizes, extOtSizes / 128, baseOtSizes / 128;
      var t0, t1 := GenerateBoth(rows, cols);
      var rowMat0 := TransposeTiles(t0, th, cols);
      var rowMat1 := TransposeTiles(t1, th, cols);
      var rowMat := CorrectionMatrix(choices, rowMat0, rowMat1, th, cols);
      assert RowsOf(rowMat, 128 * cols, th) == Kkrt.CorrectionMatrix(prims, old(prng), choices, th, cols);
      RowMajorOfRows(rowMat, 128 * cols, th);
      net.SendBlock(rowMat);
      messages := HashChains(rowMat0, |choices|, th, cols);
      status := Ok;
    }
  }

  lemma ChoiceEntry(h: Block, a: Block, b: Block, x: Block)
    ensures Xor(h, Xor(Xor(a, b), x)) == Xor(Xor(h, x), Xor(a, b))
  {
  }

  lemma PaddingEntry(h: Block, tweak: Block)
    ensures Xor(h, Zero()) == h && Xor(Zero(), tweak) == tweak
  {
  }
}
