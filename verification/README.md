# Functional correctness of the PETAce-Verse oblivious transfer stack

PETAce-Verse implements three oblivious transfers as stateful two-party code: the Naor-Pinkas base OT, the
IKNP 1-out-of-2 extension and the KKRT 1-out-of-n extension. Both extensions rest on a SIMD bit transpose.
This project models that stack in Dafny, from the 16-bit stores of the transpose up to whole sessions under
every schedule, and proves that honest runs compute what the protocols promise.

## How the model is built

| file | models |
|---|---|
| `Blocks.dfy`, `Memory.dfy`, `Indexing.dfy` | the 128-bit block as 16 bytes, its bits, XOR and AND, the index tweak, byte views of block vectors, row-major indexing |
| `Simd.dfy`, `Transpose.dfy` | `_mm_set_epi8`, `_mm_slli_epi64`, `_mm_movemask_epi8` on two 64-bit lanes, and `matrix_transpose` on real arrays for all sizes that are multiples of 128 |
| `Primitives.dfy` | the hash, the stateful generator and a FIFO byte channel |
| `Extension.dfy`, `Tiles.dfy` | generator rows chosen by secret bits, the columns a tiled transpose reads, lockstep of the two parties' generators |
| `Iknp.dfy`, `Kkrt.dfy`, `NaorPinkas.dfy`, `Curves.dfy` | what each protocol computes, as functions, and the theorems about it |
| `IknpParties.dfy`, `KkrtParties.dfy`, `NaorPinkasParties.dfy` | the sender and receiver classes, method by method, proved against those functions |
| `Rounds.dfy`, `Session.dfy` | any number of rounds, and whole sessions as a transition system with byte-by-byte delivery |
| `Schedules.dfy`, `Drivers.dfy` | orders of turns and how many rounds they complete; the party objects themselves under every order of turns, from base OTs to the last round |
| `Streams.dfy` | the generators over whole runs, as streams |
| `Interleavings.dfy` | how far the two parties of a session can be apart |
| `SecondSetup.dfy` | what a second `set_base_ots` on the same objects does to the rounds after it |

The hash is an arbitrary function from blocks to blocks (in Naor-Pinkas, from 33 bytes to blocks) and the
generator an arbitrary deterministic transition, so every theorem holds for all of them. The curve is an
arbitrary abelian group with a 33-byte codec that gives every point back, the identity included; the laws
are the predicate `Curves.Laws`, and the integers modulo 31 satisfy them. Secret keys, base choices and
extension choices are universally quantified.

The main results:

- `Transpose.MatrixTranspose`: output bit (y, x) is input bit (x, y), whatever the output buffer held
  before, for all row and column counts that are multiples of 128. Its core is the lane-shift invariant
  `Simd.LaneInvariant`.
- `Iknp.MessagePair` and `Kkrt.EncodeRelation`: what both slots of an IKNP pair are, and what KKRT's
  `encode(i, x)` is for every block `x`, chosen or not.
- `NaorPinkas.Correct`: the receiver gets the slot it chose, for any number of OTs and all secrets.
- `Session.EveryCompletedRoundAgrees`, `Session.EveryStateInLockstep`: in every state of every schedule of a
  whole session, with the receiver any number of rounds ahead, completed rounds agree, generators are in
  lockstep and the link holds exactly the matrices in between.
- `Interleavings.ReceiverNeverWaits`, `Interleavings.LeadsReachedIff`: the receiver never waits once it is set
  up, and every lead it can have over the sender is reached by some schedule.
- `Streams.RowsAreOneStretch`: for generators that are byte streams, the rows of successive rounds are
  successive stretches of one stream.
- `Kkrt.ChainTellsLinks`, `NaorPinkas.BothSlots`: every link of KKRT's hash chain counts, and what both slots of a
  Naor-Pinkas pair are.
- `Session.NoDeadlock`, `Session.FairSchedulesFinish`: no schedule deadlocks, and every schedule that keeps
  giving everybody a turn ends, all of them in the same state with both links empty.
- `Drivers.IknpSession`, `Drivers.KkrtSession`: the objects and their methods, under any order of turns,
  complete exactly the rounds the order leads to, end in the state those rounds determine, and return the
  messages of the transition system. `Schedules.SenderTurns` and `Schedules.CompleteIff` say how many rounds
  an order of turns completes, and which orders complete all of them.
- `Session.EncodeInEveryState`: in every state of every schedule, `encode(i, x)` on the matrix the sender
  holds is the receiver's chain with the masked codeword differences, for every block `x`.

Two properties one might expect are false of the code.

`set_base_ots` is documented as setting the base OTs, but a second call appends the new seeds behind the old
ones and inserts the new choices in front of the old ones. `SecondSetup.SecondSetupFails` and, for the
objects, `SecondSetup.EchoSetUpTwice` give an input on which the round after two good setups goes wrong.
`Extension.SecondSetupMatchesIff` is the exact condition for lockstep, and `SecondSetup.IknpAgreesIff` and
`SecondSetup.ChainsAgreeIff` are the exact conditions for the rounds: old and new choice bits agree wherever
the two old generators yield different rows. Everywhere else the model calls `set_base_ots` once per object.

The IKNP receiver's checks accept more base sizes than it can serve. The sender rejects base sizes over 128;
the receiver accepts every multiple of 128, and for 256 the last load of its transpose lies past `input` and
the last store past `output[i]` (`IknpParties.BaseSize256`). `IknpParties.TileFitsIff` shows that the accepted
sizes that stay in bounds are those up to 128, and `IknpParties.ServedIff` that 128 is the only one that
serves a positive extension size: base size 0 passes all checks of both IKNP parties and then divides by zero
in `i / rows`. Other things the code relies on without checking are preconditions of the model: a seed for
every base index, enough base choices (so a non-empty `base_choices_`), in IKNP a choice bit for every message,
and positive extension sizes.

## Model

| member | source | states |
|---|---|---|
| Memory.PackedBitOrder | src/verse/util/common.h:36-40 | `bit_from_blocks(v, i)` is bit `i % 128` of `v[i / 128]` |
| Memory.LoadShiftMask | src/verse/util/common.h:37-39 | a byte load, a shift and a mask compute that bit |
| Memory.FlattenAt | src/verse/util/common.h:70-72 | byte `b` of block `c` is sent as byte `16c + b` |
| Memory.ParseAt | src/verse/util/common.h:74-76 | byte `16c + b` received is byte `b` of block `c` |
| Memory.ParseFlatten | src/verse/util/common.h:70-76 | blocks sent as bytes are read back unchanged |
| Memory.FlattenParse | src/verse/util/common.h:70-76 | bytes read as blocks flatten to the same bytes |
| Blocks.LowLaneBits | src/verse/two-choose-one/iknp/iknp_ot_ext.cpp:75 | bit `i` of `_mm_set_epi64x(0, n)` is set exactly when `i < 64` and `n / 2^i` is odd |
| Blocks.LowLaneInjective | src/verse/two-choose-one/iknp/iknp_ot_ext.cpp:75 | indices of at most 64 bits have different tweaks `_mm_set_epi64x(0, i)` |
| Blocks.LowLaneZero | src/verse/n-choose-one/kkrt/kkrt_nco_ot_ext.cpp:96 | the block the chain starts from, `_mm_set_epi64x(0, 0)`, is zero |
| Kkrt.OneLink | src/verse/n-choose-one/kkrt/kkrt_nco_ot_ext.cpp:194-203 | with base size 128 the chain is one hash of the tweaked block |
| Kkrt.TwoLinks | src/verse/n-choose-one/kkrt/kkrt_nco_ot_ext.cpp:194-203 | with base size 256 the hash of the first tweaked block is XORed into the second |
| Kkrt.ChainTellsLinks | src/verse/n-choose-one/kkrt/kkrt_nco_ot_ext.cpp:96-101 | with an injective hash, changing any one link, of any number, changes the chain |
| Kkrt.ChainOfIdentity | src/verse/n-choose-one/kkrt/kkrt_nco_ot_ext.cpp:96-101 | under a hash that keeps its input the chain is the XOR of all links, and of the index tweak if their number is odd |
| Kkrt.CodeWord | src/verse/n-choose-one/kkrt/kkrt_nco_ot_ext.cpp:89-92 | word `j` of the codeword of `x` is the hash of `x` tweaked by `j`, with `x` XORed in again |
| Kkrt.CodeWordsDiffer | src/verse/n-choose-one/kkrt/kkrt_nco_ot_ext.cpp:89-92 | so words of different blocks differ even where the hash gives them the same value |
| Iknp.TweakedBits | src/verse/two-choose-one/iknp/iknp_ot_ext.cpp:134-136 | bit `b` of the block hashed for message `i` is bit `i` of row `b`, flipped where `b < 64` and `i / 2^b` is odd |
| Iknp.TweaksSeparate | src/verse/two-choose-one/iknp/iknp_ot_ext.cpp:134-137 | equal columns at different indices are hashed as different blocks |
| Simd.LaneInvariant | src/verse/util/common.h:60-63 | after `s` shifts of a lane, every bit `t >= s` of every byte is that byte's original bit `t - s`: cross-byte carries stay below bit `s` |
| Simd.LaneColumn | src/verse/util/common.h:60-63 | so for `s < 8` the mask of a lane is bit `7 - s` of each of its bytes |
| Simd.MovemaskColumn | src/verse/util/common.h:56-63 | for any 16 bytes, movemask after `s` shifts gathers bit `7 - s` of all of them |
| Transpose.TileColumn | src/verse/util/common.h:56-63 | iteration `k` of a tile reads bit column `j + k - 1` of the 16 gathered rows |
| Transpose.OffsetForm | src/verse/util/common.h:51-52 | the offsets `f` and `g` compute are row times bytes per row, plus the byte of the column |
| Transpose.LoadTileGathers | src/verse/util/common.h:56-58 | the 16 loads gather byte column `j / 8` of rows `i .. i+15` |
| Transpose.Store16 | src/verse/util/common.h:61 | a 16-bit store changes two bytes of the buffer, low byte first, and nothing else |
| Transpose.StoreColumn | src/verse/util/common.h:51-61 | the store goes to bytes `i/8` and `i/8 + 1` of output row `y`; every other byte of every row stays |
| Transpose.StoreStep | src/verse/util/common.h:60-63 | one iteration of the `k` loop moves the tile invariant one column on |
| Transpose.StoreTile | src/verse/util/common.h:60-63 | the `k` loop fills exactly its 8 by 2 bytes with the transposed bits |
| Transpose.StoreTileRow | src/verse/util/common.h:55-64 | the `j` loop completes two bytes of every output row |
| Transpose.StoreTiles | src/verse/util/common.h:54-65 | all tiles together transpose the matrix and touch nothing past it |
| Transpose.MatrixTranspose | src/verse/util/common.h:42-68 | output bit (y, x) is input bit (x, y), bytes past the matrix stay, other sizes are rejected with the buffer untouched |
| Transpose.TransposeUnique | src/verse/util/common.h:42-68 | the result does not depend on what the output buffer held |
| Transpose.TransposeInvolutive | src/verse/util/common.h:42-68 | transposing back gives the matrix back |
| Transpose.TransposeTwice | src/verse/util/common.h:42-68 | two calls on mutable buffers rebuild the input byte for byte |
| Transpose.WriterIff | src/verse/util/common.h:60-61 | iteration `k` on the tile at row `16b`, column `8w` writes byte `q` of output row `y` exactly when `b` is `q / 2` and `y` is `8w + k - 1` |
| Transpose.StoresPartition | src/verse/util/common.h:54-65 | every output byte is written by exactly one iteration of the three loops |
| Transpose.LoadsBelowIff | src/verse/util/common.h:54-58 | the loads stay inside a buffer exactly when it holds the whole matrix |
| Transpose.StoresBelowIff | src/verse/util/common.h:54-65 | the stores stay inside a buffer exactly when it holds the whole transposed matrix |
| Primitives.GenerateBytes | src/verse/two-choose-one/iknp/iknp_ot_ext.cpp:55 | a generated row holds the generator's bytes in order |
| Primitives.StreamSplit | src/verse/two-choose-one/iknp/iknp_ot_ext.cpp:55 | for a byte-stream generator two calls in a row yield what one call for both sizes yields |
| Primitives.CounterModeIsStream | src/verse/two-choose-one/iknp/iknp_ot_ext.cpp:26-31 | generators in counter mode are byte streams, whatever their stream |
| Streams.StateStep | src/verse/two-choose-one/iknp/iknp_ot_ext.cpp:53-55 | the state a row leaves is the one the next round's row starts from |
| Streams.RowsAreOneStretch | bench/verse_bench.cpp:103-115 | for byte-stream generators the rows of any run of rounds, one after the other, are one stretch of the stream |
| Streams.RowsOfSeed | bench/verse_bench.cpp:103-115 | the rows of the first `k` rounds are the front of the stream of the seed, for the sender's and both of the receiver's generators |
| Extension.SeedsTellKeys | src/verse/n-choose-one/kkrt/kkrt_nco_ot_ext.cpp:26-30 | where different seeds give different states, generator `i` of the sender is determined by key `i` and by no other |
| Extension.SeedPairsTellKeys | src/verse/n-choose-one/kkrt/kkrt_nco_ot_ext.cpp:107-114 | the same for the receiver's pairs |
| Indexing.RowsOfEntry | src/verse/two-choose-one/iknp/iknp_ot_ext.cpp:58 | entry `j` of row `i` of a flat matrix is element `i * cols + j` |
| Indexing.RowMajorEntry | src/verse/two-choose-one/iknp/iknp_ot_ext.cpp:119 | the flat matrix has entry (i, j) at element `i * cols + j` |
| Primitives.Channel.constructor | src/verse/util/defines.h:35-39 | a new channel is empty |
| Primitives.Channel.SendData | src/verse/base-ot/naor-pinkas-ot/naor_pinkas_ot.cpp:52 | bytes are appended in order |
| Primitives.Channel.RecvData | src/verse/base-ot/naor-pinkas-ot/naor_pinkas_ot.cpp:62 | the oldest bytes are taken, the rest stays |
| Primitives.Channel.SendBlock | src/verse/util/common.h:70-72 | `nblock` blocks put exactly their 16 * `nblock` bytes on the wire |
| Primitives.Channel.RecvBlock | src/verse/util/common.h:74-76 | takes exactly 16 * `nblock` bytes: the blocks it returns, then what is left, are what was there |
| Tiles.TileIsColumns | src/verse/n-choose-one/kkrt/kkrt_nco_ot_ext.cpp:68-74 | transposing block column `i` of 128 rows yields columns `128i .. 128i+127` of those rows |
| Tiles.TransposeTile | src/verse/n-choose-one/kkrt/kkrt_nco_ot_ext.cpp:149-156 | the gather loop and the transpose on reused buffers put those columns into `output` |
| Extension.ColumnBit | src/verse/n-choose-one/kkrt/kkrt_nco_ot_ext.cpp:69-74 | bit `k` of column word `j` is the bit of row `128j + k` |
| Extension.ColumnXor | src/verse/two-choose-one/iknp/iknp_ot_ext.cpp:54-69 | transposition distributes over XOR of rows |
| Extension.SelectedColumn | src/verse/n-choose-one/kkrt/kkrt_nco_ot_ext.cpp:66-79 | choosing rows by the bits of `s` and transposing gives `TA ^ (s & (TA ^ TB))` |
| Extension.CorrectedColumn | src/verse/two-choose-one/iknp/iknp_ot_ext.cpp:54-70 | XORing choices into the rows the secret selects XORs the secret into the columns the choices select |
| Extension.MatchedAdvance | src/verse/two-choose-one/iknp/iknp_ot_ext.cpp:54-61 | lockstep of the generators survives a round |
| Extension.MatchedRows | src/verse/n-choose-one/kkrt/kkrt_nco_ot_ext.cpp:53-56 | in lockstep, sender row `i` is the receiver row that bit `i` of the secret names |
| SecondSetup.SecondSetupFails | src/verse/two-choose-one/iknp/iknp_ot_ext.cpp:30-32 | an input: base choices all zero, then all one, each setup in lockstep, the two in a row not, and the round after them does not agree |
| SecondSetup.EchoSetUpTwice | src/verse/two-choose-one/iknp/iknp_ot_ext.h:50-55 | the objects on that input: some message is not the slot the receiver chose |
| SecondSetup.DriftedPair | src/verse/two-choose-one/iknp/iknp_ot_ext.cpp:53-81 | what both slots are when the generators follow the old choices and the corrections the new ones, for any hash |
| SecondSetup.IknpAgreesIff | src/verse/two-choose-one/iknp/iknp_ot_ext.cpp:53-140 | with an injective hash, an IKNP round agrees exactly when the choice bits agree wherever the old generators yield different rows |
| SecondSetup.IknpSetUpTwice | src/verse/two-choose-one/iknp/iknp_ot_ext.cpp:25-143 | the objects: two setups per side and a round agree exactly under that condition |
| SecondSetup.DriftedInput | src/verse/n-choose-one/kkrt/kkrt_nco_ot_ext.cpp:66-98 | after a second setup link `j` of `encode(i, x)` has the masked difference of `t0` and `t1` XORed in as well |
| SecondSetup.ChainsAgreeIff | src/verse/n-choose-one/kkrt/kkrt_nco_ot_ext.cpp:84-103 | then `encode(i, choices[i])` chains the receiver's blocks exactly when that mask hides every difference in row `i` |
| SecondSetup.KkrtAgreesIff | src/verse/n-choose-one/kkrt/kkrt_nco_ot_ext.cpp:84-103 | with base size 128 and an injective hash, message `i` agrees exactly under that condition |
| SecondSetup.SecondSeedsUnused | src/verse/n-choose-one/kkrt/kkrt_nco_ot_ext.cpp:24-33 | no row comes from the seeds of the second setup and no round moves their generators |
| SecondSetup.SecondSetupAgrees | src/verse/n-choose-one/kkrt/kkrt_nco_ot_ext.cpp:24-33 | under the lockstep condition every round after a second setup keeps its promise, for any hash |
| Extension.SecondSetupMatchesIff | src/verse/n-choose-one/kkrt/kkrt_nco_ot_ext.cpp:24-33 | after a second `set_base_ots` on both sides the parties match exactly when old and new choice bits agree wherever the old seeds' generators differ |
| Iknp.SenderMatrixRelation | src/verse/two-choose-one/iknp/iknp_ot_ext.cpp:53-61 | the sender's corrected rows are `t0`, with the choices XORed in where the secret bit is set |
| Iknp.SenderColumn | src/verse/two-choose-one/iknp/iknp_ot_ext.cpp:63-75 | the sender's tweaked column is the receiver's, offset by the secret where the choice bit is set |
| Iknp.MessagePair | src/verse/two-choose-one/iknp/iknp_ot_ext.cpp:72-81 | slot `r_i` is `H(t_i ^ i)`, the receiver's message, and slot `1 - r_i` is `H(t_i ^ i ^ s)` |
| IknpParties.TileFitsIff | src/verse/two-choose-one/iknp/iknp_ot_ext.cpp:101-132 | of the base sizes the receiver's check accepts, exactly those up to 128 keep the transpose's loads, and its stores, in bounds |
| IknpParties.ServedIff | src/verse/two-choose-one/iknp/iknp_ot_ext.cpp:101-140 | for a positive extension size that passes the checks, the transposes stay in bounds and the hash loop is defined exactly with base size 128 |
| IknpParties.BaseSize256 | src/verse/two-choose-one/iknp/iknp_ot_ext.cpp:126-132 | base size 256 passes the check, and loads byte 8191 and stores to byte 8190 of vectors of 4096 bytes |
| IknpParties.TransposeTiles | src/verse/two-choose-one/iknp/iknp_ot_ext.cpp:63-70 | `output[i][k]` is column `128i + k` |
| IknpParties.Sender.constructor | src/verse/two-choose-one/iknp/iknp_ot_ext.h:42-43 | a new sender has no generators and no choices |
| IknpParties.Sender.SetBaseOts | src/verse/two-choose-one/iknp/iknp_ot_ext.cpp:25-34 | seeded generators go to the back, choices to the front |
| IknpParties.Sender.CorrectRow | src/verse/two-choose-one/iknp/iknp_ot_ext.cpp:56-60 | row `i` of the received matrix is XORed in block by block |
| IknpParties.Sender.ExtendRows | src/verse/two-choose-one/iknp/iknp_ot_ext.cpp:53-61 | the corrected rows, with every generator used advanced once |
| IknpParties.Sender.HashPairs | src/verse/two-choose-one/iknp/iknp_ot_ext.cpp:72-81 | each pair hashes the tweaked column, then the column with the secret XORed in |
| IknpParties.Sender.Send | src/verse/two-choose-one/iknp/iknp_ot_ext.cpp:36-84 | the whole new state, messages and bytes taken; the three rejected sizes change nothing |
| IknpParties.Receiver.constructor | src/verse/two-choose-one/iknp/iknp_ot_ext.h:80-82 | a new receiver has no generators |
| IknpParties.Receiver.SetBaseOts | src/verse/two-choose-one/iknp/iknp_ot_ext.cpp:86-97 | a pair of seeded generators per pair of base keys goes to the back |
| IknpParties.Receiver.ExtendRows | src/verse/two-choose-one/iknp/iknp_ot_ext.cpp:111-121 | `t0` and the matrix `t0 ^ t1 ^ choices`, row after row, with all generators advanced |
| IknpParties.Receiver.HashColumns | src/verse/two-choose-one/iknp/iknp_ot_ext.cpp:134-140 | message `i` is the hash of the tweaked column `i` |
| IknpParties.Receiver.Receive | src/verse/two-choose-one/iknp/iknp_ot_ext.cpp:99-143 | the whole new state, the matrix appended to the channel without waiting, the messages; rejected sizes change nothing |
| Kkrt.RoundUp | src/verse/n-choose-one/kkrt/kkrt_nco_ot_ext.cpp:39-45 | the size becomes the least multiple of 128 not below it, so the check after it never rejects |
| Kkrt.MaskedOffset | src/verse/n-choose-one/kkrt/kkrt_nco_ot_ext.cpp:75-76 | mask and correction leave `t0` plus the masked difference of two codewords |
| Kkrt.SenderColumn | src/verse/n-choose-one/kkrt/kkrt_nco_ot_ext.cpp:66-74 | before correction, `q_mat` is `t0 ^ (s & (t0 ^ t1))` |
| Kkrt.EncodeInput | src/verse/n-choose-one/kkrt/kkrt_nco_ot_ext.cpp:89-98 | link `j` of `encode(i, x)` is `t0[i][j] ^ (s_j & (code_j(x) ^ code_j(choice_i)))` |
| Kkrt.EncodeRelation | src/verse/n-choose-one/kkrt/kkrt_nco_ot_ext.cpp:84-103 | `encode(i, x)` is the hash chain over those links, for every block `x` and every index, padded ones included |
| Kkrt.SameChainInputsIff | src/verse/n-choose-one/kkrt/kkrt_nco_ot_ext.cpp:84-103 | `encode(i, x)` chains the receiver's blocks exactly when the secret masks away every codeword difference |
| Kkrt.EncodeDiffers | src/verse/n-choose-one/kkrt/kkrt_nco_ot_ext.cpp:84-103 | with an injective hash, `encode(i, x)` is not message `i` when the secret leaves a codeword difference in exactly one word |
| Kkrt.EncodeAgrees | src/verse/n-choose-one/kkrt/kkrt_nco_ot_ext.cpp:194-203 | `encode(i, choices[i])` is the receiver's message `i` |
| Kkrt.PaddingTransparent | src/verse/n-choose-one/kkrt/kkrt_nco_ot_ext.cpp:174-203 | a run padded with zero choices sends the same matrix and gives the same first messages |
| Kkrt.ColumnsAreTranspose | src/verse/n-choose-one/kkrt/kkrt_nco_ot_ext.cpp:146-158 | bit `b` of `row_mat[r][j]` is bit `r % 128` of `t[128j + b][r / 128]` |
| KkrtParties.StoreTile | src/verse/n-choose-one/kkrt/kkrt_nco_ot_ext.cpp:154-156 | one more tile of the result is in place, earlier tiles stay |
| KkrtParties.TransposeTiles | src/verse/n-choose-one/kkrt/kkrt_nco_ot_ext.cpp:143-172 | the tile loops equal one transpose of the whole matrix |
| KkrtParties.Sender.constructor | src/verse/n-choose-one/kkrt/kkrt_nco_ot_ext.h:40-41 | a new sender has no generators, choices or matrix |
| KkrtParties.Sender.SetBaseOts | src/verse/n-choose-one/kkrt/kkrt_nco_ot_ext.cpp:24-33 | seeded generators go to the back, choices to the front |
| KkrtParties.Sender.GenerateExt | src/verse/n-choose-one/kkrt/kkrt_nco_ot_ext.cpp:53-56 | one row per generator, each generator advanced once |
| KkrtParties.Sender.StoreCorrected | src/verse/n-choose-one/kkrt/kkrt_nco_ot_ext.cpp:73-77 | a tile is stored and corrected under the secret mask, earlier tiles stay |
| KkrtParties.Sender.CorrectTile | src/verse/n-choose-one/kkrt/kkrt_nco_ot_ext.cpp:68-77 | one more tile is gathered, transposed, stored and corrected |
| KkrtParties.Sender.CorrectTiles | src/verse/n-choose-one/kkrt/kkrt_nco_ot_ext.cpp:62-79 | `q_mat` becomes the corrected transpose whatever the last round left in it |
| KkrtParties.Sender.Send | src/verse/n-choose-one/kkrt/kkrt_nco_ot_ext.cpp:35-82 | the whole new state and bytes taken, a function of the rounded size only; a rejected base size changes nothing |
| KkrtParties.Sender.Encode | src/verse/n-choose-one/kkrt/kkrt_nco_ot_ext.cpp:84-103 | the two loops compute the masked codeword chain |
| KkrtParties.Receiver.constructor | src/verse/n-choose-one/kkrt/kkrt_nco_ot_ext.h:90-91 | a new receiver has no generators |
| KkrtParties.Receiver.SetBaseOts | src/verse/n-choose-one/kkrt/kkrt_nco_ot_ext.cpp:105-116 | a pair of seeded generators per pair of base keys goes to the back |
| KkrtParties.Receiver.GenerateBoth | src/verse/n-choose-one/kkrt/kkrt_nco_ot_ext.cpp:134-140 | both rows per index, all generators advanced |
| KkrtParties.Receiver.CorrectionRow | src/verse/n-choose-one/kkrt/kkrt_nco_ot_ext.cpp:177-189 | both branches give `code_j(x) ^ t0 ^ t1`, with `x` zero past the last choice |
| KkrtParties.Receiver.CorrectionMatrix | src/verse/n-choose-one/kkrt/kkrt_nco_ot_ext.cpp:174-190 | the rows in row-major order |
| KkrtParties.Receiver.HashChains | src/verse/n-choose-one/kkrt/kkrt_nco_ot_ext.cpp:194-203 | message `i` chains row `i` of the transposed `t0` |
| KkrtParties.Receiver.Receive | src/verse/n-choose-one/kkrt/kkrt_nco_ot_ext.cpp:118-206 | the whole new state, the matrix appended to the channel without waiting, the messages; a rejected base size changes nothing |
| Curves.MulOne | src/verse/base-ot/naor-pinkas-ot/naor_pinkas_ot.cpp:65 | once a point is the point |
| Curves.MulPlus | src/verse/base-ot/naor-pinkas-ot/naor_pinkas_ot.cpp:65 | multiples add up with their scalars |
| Curves.PublicKeysAdd | src/verse/base-ot/naor-pinkas-ot/naor_pinkas_ot.cpp:30-43 | public keys start from the generator and add up with their secrets |
| Curves.MulAdd | src/verse/base-ot/naor-pinkas-ot/naor_pinkas_ot.cpp:65 | scalar multiples of a sum |
| Curves.MulCommutes | src/verse/base-ot/naor-pinkas-ot/naor_pinkas_ot.cpp:152 | `j * (k * a)` is `k * (j * a)` |
| Curves.MulInvert | src/verse/base-ot/naor-pinkas-ot/naor_pinkas_ot.cpp:80 | scalar multiples of an inverse |
| Curves.SubtractBack | src/verse/base-ot/naor-pinkas-ot/naor_pinkas_ot.cpp:79-82 | `a - (a - b)` is `b` |
| Curves.ResiduesLawful | src/verse/base-ot/naor-pinkas-ot/naor_pinkas_ot.h:42-46 | the group and codec laws are satisfiable |
| NaorPinkas.SlotBytes | src/verse/base-ot/naor-pinkas-ot/naor_pinkas_ot.cpp:45-51 | slot `i` of a flattened run is point `i` |
| NaorPinkas.WireRoundTrip | src/verse/base-ot/naor-pinkas-ot/naor_pinkas_ot.cpp:119-126 | two runs of points in one buffer are recovered index for index |
| NaorPinkas.KeyMessageSlots | src/verse/base-ot/naor-pinkas-ot/naor_pinkas_ot.cpp:45-51 | the key message holds all points C, then all points R, each in slot `i` of its run |
| NaorPinkas.ReplySlots | src/verse/base-ot/naor-pinkas-ot/naor_pinkas_ot.cpp:134-149 | slot `i` of the reply is `PK0` of OT `i` |
| NaorPinkas.TaggedBytes | src/verse/base-ot/naor-pinkas-ot/naor_pinkas_ot.cpp:89-91 | the tag flips the lowest bit of the first byte and leaves the other 32 bytes |
| NaorPinkas.SlotsSeparate | src/verse/base-ot/naor-pinkas-ot/naor_pinkas_ot.cpp:84-101 | for all secrets: the two slots hash different strings when both candidates are the same point, and equal ones exactly when the encodings differ in the tag bit alone |
| NaorPinkas.ChosenPoint | src/verse/base-ot/naor-pinkas-ot/naor_pinkas_ot.cpp:62-82 | the sender's point for the chosen slot is `k * (r * G)`, for either choice |
| NaorPinkas.OtherPoint | src/verse/base-ot/naor-pinkas-ot/naor_pinkas_ot.cpp:62-82 | the sender's point for the other slot is `r * C - k * (r * G)` |
| NaorPinkas.BothSlots | src/verse/base-ot/naor-pinkas-ot/naor_pinkas_ot.cpp:62-101 | what both slots and the receiver's message are, for either choice: the shared point and `r * C` minus it, each tagged by its slot |
| NaorPinkas.Correct | src/verse/base-ot/naor-pinkas-ot/naor_pinkas_ot.cpp:94-101 | `received[i] == sent[i][bit_i]` for all secrets, choices, hashes and numbers of OTs |
| NaorPinkasParties.PutPoint | src/verse/base-ot/naor-pinkas-ot/naor_pinkas_ot.cpp:47 | 33 bytes change, the rest of the buffer stays |
| NaorPinkasParties.PutPoints | src/verse/base-ot/naor-pinkas-ot/naor_pinkas_ot.cpp:45-51 | the points fill consecutive slots, the rest of the buffer stays |
| NaorPinkasParties.PutTaggedPoint | src/verse/base-ot/naor-pinkas-ot/naor_pinkas_ot.cpp:89-91 | the slot's first byte is the point's, XORed with 1 exactly when tagged, its other 32 bytes are the point's, and all bytes around it stay |
| NaorPinkasParties.PutTaggedPoints | src/verse/base-ot/naor-pinkas-ot/naor_pinkas_ot.cpp:155-160 | every slot holds its tagged point, the rest of the buffer stays |
| NaorPinkasParties.ReceiveInto | src/verse/base-ot/naor-pinkas-ot/naor_pinkas_ot.cpp:62 | a message lands at the front of the buffer, the rest stays |
| NaorPinkasParties.DerivePublicKeys | src/verse/base-ot/naor-pinkas-ot/naor_pinkas_ot.cpp:30-43 | one public key per secret |
| NaorPinkasParties.Sender.constructor | src/verse/base-ot/naor-pinkas-ot/naor_pinkas_ot.h:42-46 | a sender keeps its curve, hash and size |
| NaorPinkasParties.Sender.SendKeys | src/verse/base-ot/naor-pinkas-ot/naor_pinkas_ot.cpp:24-52 | exactly the key message, 66 bytes per OT, is sent |
| NaorPinkasParties.Sender.DerivePairs | src/verse/base-ot/naor-pinkas-ot/naor_pinkas_ot.cpp:63-82 | both candidate points per OT |
| NaorPinkasParties.Sender.FillMessages | src/verse/base-ot/naor-pinkas-ot/naor_pinkas_ot.cpp:84-92 | plain points in the first half of `msg`, tagged ones in the second |
| NaorPinkasParties.Sender.HashPairs | src/verse/base-ot/naor-pinkas-ot/naor_pinkas_ot.cpp:94-101 | each pair hashes its two slots |
| NaorPinkasParties.Sender.Finish | src/verse/base-ot/naor-pinkas-ot/naor_pinkas_ot.cpp:54-103 | takes 33 bytes per OT in the reused buffer and computes the pairs from them |
| NaorPinkasParties.Receiver.constructor | src/verse/base-ot/naor-pinkas-ot/naor_pinkas_ot.h:75-79 | a receiver keeps its curve, hash and size |
| NaorPinkasParties.Receiver.ReadKeys | src/verse/base-ot/naor-pinkas-ot/naor_pinkas_ot.cpp:121-126 | both runs of points of the key message |
| NaorPinkasParties.Receiver.ChooseKeys | src/verse/base-ot/naor-pinkas-ot/naor_pinkas_ot.cpp:134-144 | `k * G`, or `C - k * G` where the choice bit is set |
| NaorPinkasParties.Receiver.SharedPoints | src/verse/base-ot/naor-pinkas-ot/naor_pinkas_ot.cpp:151-160 | the points `k * R`, each with its choice bit |
| NaorPinkasParties.Receiver.HashShared | src/verse/base-ot/naor-pinkas-ot/naor_pinkas_ot.cpp:151-167 | message `i` hashes the shared point, tagged by the choice bit |
| NaorPinkasParties.Receiver.Receive | src/verse/base-ot/naor-pinkas-ot/naor_pinkas_ot.cpp:105-169 | bytes taken, reply sent from the reused buffer, messages |
| Rounds.ColsAgree | src/verse/n-choose-one/kkrt/kkrt_nco_ot_ext.cpp:123-132 | sizes that round up alike give both parties the same column count |
| Rounds.RoundAgrees | test/iknp_ot_test.cpp:114-117 | a round in lockstep keeps its promise: IKNP's chosen slots, KKRT's encoded choices |
| Rounds.SizeTransparent | src/verse/n-choose-one/kkrt/kkrt_nco_ot_ext.cpp:39-45 | sender sizes that round up alike make it wait for the same bytes and compute the same `q_mat` |
| Rounds.LockstepAt | src/verse/two-choose-one/iknp/iknp_ot_ext.cpp:54-61 | generators that start in lockstep are in lockstep after any number of rounds |
| Rounds.AgreementAt | test/kkrt_ot_test.cpp:121-124 | every round keeps its promise |
| Rounds.EncodeAt | src/verse/n-choose-one/kkrt/kkrt_nco_ot_ext.cpp:84-103 | `encode(i, x)` on the matrix of any round, for every index and block |
| Session.InvAct | src/verse/n-choose-one/kkrt/kkrt_nco_ot_ext.cpp:35-206 | every step of every actor keeps phases, generators, outputs, link contents and byte counts consistent |
| Session.EveryRun | bench/verse_bench.cpp:103-115 | every state of every schedule satisfies that invariant, for every curve, lawful or not |
| Session.BaseKeysMatch | test/iknp_ot_test.cpp:74-82 | the base OTs with swapped roles seed the generators in lockstep |
| Session.EveryCompletedRoundAgrees | test/iknp_ot_test.cpp:74-82 | end to end, in every state of every schedule, completed rounds agree and the receiver completed them first |
| Session.EveryStateInLockstep | bench/verse_bench.cpp:103-115 | with the receiver any number of rounds ahead, the sender's generators are the selected ones after as many rounds, and the link holds exactly the matrices in between |
| Session.EncodeUntilNextSend | src/verse/n-choose-one/kkrt/kkrt_nco_ot_ext.cpp:84-103 | between two sends, `encode` on the current matrix gives the messages of the last completed round |
| Session.EncodeInEveryState | src/verse/n-choose-one/kkrt/kkrt_nco_ot_ext.cpp:84-103 | in every state of every schedule, `encode(i, x)` on the matrix held is the receiver's chain with the masked codeword differences, for every index and block |
| Interleavings.ReceiverNeverWaits | src/verse/n-choose-one/kkrt/kkrt_nco_ot_ext.cpp:118-206 | from every state with the receiver set up, `j` receiver turns complete `j` rounds, whatever the sender and the links have done |
| Interleavings.SenderReady | src/verse/n-choose-one/kkrt/kkrt_nco_ot_ext.cpp:35-51 | the sender waits for nothing but its next matrix |
| Interleavings.EveryLeadReached | bench/verse_bench.cpp:103-115 | for all `k <= m` up to the number of rounds some schedule reaches `k` sender and `m` receiver rounds |
| Interleavings.LeadsReachedIff | bench/verse_bench.cpp:103-115 | and these are exactly the positions that schedules reach |
| Session.Progress | src/verse/base-ot/naor-pinkas-ot/naor_pinkas_ot.cpp:52-62 | in every state that is not final some actor can step |
| Session.StepDecreases | bench/verse_bench.cpp:103-115 | every step taken brings the end exactly one closer |
| Session.FairSchedulesFinish | bench/verse_bench.cpp:103-115 | every schedule that gives everybody enough turns ends in the one final state |
| Session.FinalStateUnique | bench/verse_bench.cpp:159-171 | final states are all the same: all outputs present, links empty, 66n + rounds and 33n bytes sent |
| Session.NoDeadlock | bench/verse_bench.cpp:159-171 | nobody can step exactly when the session is complete |
| Session.RoundSize | src/verse/n-choose-one/kkrt/kkrt_nco_ot_ext.cpp:192 | a round takes `rows * cols * 16` bytes in IKNP, `ext * threshhold * 16` in KKRT |
| Schedules.ReceiverTurns | src/verse/n-choose-one/kkrt/kkrt_nco_ot_ext.cpp:118-206 | the receiver never waits: it completes a round per turn until none is left |
| Schedules.SenderTurns | src/verse/n-choose-one/kkrt/kkrt_nco_ot_ext.cpp:35-51 | the sender completes the least, over all cuts of the schedule, of the rounds received before the cut plus its own turns after it |
| Schedules.CompleteIff | bench/verse_bench.cpp:159-171 | a schedule completes all rounds exactly when, at every cut, the receiver's turns before and the sender's turns after it are enough together |
| Drivers.NextMatrix | src/verse/n-choose-one/kkrt/kkrt_nco_ot_ext.cpp:50-51 | from a channel of queued matrices the sender takes exactly the next one |
| Drivers.KkrtReceiverTurn | src/verse/n-choose-one/kkrt/kkrt_nco_ot_ext.cpp:118-206 | `Receive` on the object queues one more matrix and leaves the sender's as it is |
| Drivers.KkrtSenderTurn | src/verse/n-choose-one/kkrt/kkrt_nco_ot_ext.cpp:35-82 | `Send` on the object consumes the oldest matrix into `q_mat` |
| Drivers.EncodeAll | test/kkrt_ot_test.cpp:77-79 | every index is encoded |
| Drivers.KkrtSendAndEncode | test/kkrt_ot_test.cpp:75-79 | what the sender encodes after a round is `encode` on the matrix of that round |
| Drivers.AllEncodedAgree | test/kkrt_ot_test.cpp:121-124 | in lockstep those encodings are the receiver's messages of the round |
| Drivers.KkrtTurn | bench/verse_bench.cpp:159-171 | a turn completes the round the schedule says, or none, and keeps the relation of objects and channel |
| Drivers.RunKkrt | bench/verse_bench.cpp:159-171 | any order of turns completes exactly the rounds it leads to, with agreement and lockstep of the objects |
| Drivers.IknpReceiverTurn | src/verse/two-choose-one/iknp/iknp_ot_ext.cpp:99-143 | `Receive` on the object queues one more matrix |
| Drivers.IknpSenderTurn | src/verse/two-choose-one/iknp/iknp_ot_ext.cpp:36-84 | `Send` on the object consumes the oldest matrix |
| Drivers.AllPairsAgree | test/iknp_ot_test.cpp:114-117 | the receiver's messages of any round are the slots it chose |
| Drivers.IknpTurn | bench/verse_bench.cpp:103-115 | a turn completes the round the schedule says, or none, and keeps the relation of objects and channel |
| Drivers.RunIknp | bench/verse_bench.cpp:103-115 | any order of turns completes exactly the rounds it leads to, with agreement and lockstep of the objects |
| Drivers.BaseExchange | test/np_ot_test.cpp:58-75 | a Naor-Pinkas exchange between fresh objects computes both parties' outputs and delivers the chosen slots |
| Drivers.KkrtSetUp | test/kkrt_ot_test.cpp:72-82 | base OTs with swapped roles and one `set_base_ots` per side leave the objects in the state the rounds start from |
| Drivers.KkrtSession | test/kkrt_ot_test.cpp:72-84 | from base OTs through any order of KKRT turns: how many rounds complete, the objects' state, the messages of the transition system, and encoded choices equal to received messages |
| Drivers.IknpSetUp | test/iknp_ot_test.cpp:74-81 | base OTs with swapped roles and one `set_base_ots` per side leave the objects in the state the rounds start from |
| Drivers.IknpSession | test/iknp_ot_test.cpp:74-82 | from base OTs through any order of IKNP turns: how many rounds complete, the objects' state, the pairs and messages of the transition system, and received messages that are the chosen slots |

## Left out

- Secrecy, pseudorandomness and misbehaving parties: the theorems are about honest runs.
- PETAce-Solo and PETAce-Network (curve arithmetic, SHA-256, AES counter mode, sockets) are not part of this model; they appear as abstract functions, group laws and FIFO channels. The codec law is assumed for every point, the identity included, and decoding malformed bytes gives some point instead of an error.
- `read_block_from_dev_urandom` and secret-key generation: their results are arbitrary inputs.
- `src/verse/verse_factory.h` and the abstract base classes: registry lookup and interfaces.
- The wrap-around of `size_t`: sizes are unbounded, only the index tweak keeps its low 64 bits.
- Extension rounds of size zero over a positive base size: the source takes the address of the first element of an empty vector, so positive sizes are preconditions.
- IknpParties.Sender.Send: base size 0 with a whole extension size is a precondition; for a positive extension size the source divides by zero, and for extension size 0 it does nothing.
- IknpParties.Receiver.Receive: base sizes other than 128 that pass its check are excluded, with a whole extension size; `IknpParties.ServedIff` shows that the source can serve none of them but base size 0 with extension size 0, where it does nothing.
- KKRT rounds whose sizes round up differently on the two sides: the sender would wait for bytes that never come or leave some unread, so equal rounded sizes are a precondition of a round.
- Vectors local to one method, apart from the transpose buffers and the Naor-Pinkas byte buffers, are sequences that the loops rebuild; their sharing of memory is not modelled. A row of a flat vector is a row of a sequence of rows, and only what goes over the wire is laid out flat.
- NaorPinkasParties.Sender.Finish: `send` waits for the reply in the middle, so it is modelled as `SendKeys` and `Finish`, with the locals that live across the wait passed from one to the other.
- Forked processes, command lines, logging and the build.
