/**
 The choice of residual block whose `bn1` receives the activation hook in
 `train_baseline`: a global block number `layer` (1-based, counted across the
 four stages) is mapped to a stage and a block index inside it, using the
 per-stage block counts `layers` of the backbone (`[2, 2, 2, 2]` for
 ResNet-18, `[3, 4, 6, 3]` for ResNet-50).

 The first branch whose bound `layer` does not exceed wins; the block index
 is then used to index an `nn.Sequential`, which accepts negative indices the
 way Python lists do.
 */
module Blocks {
  import opened Wrappers

  /** Stage `stage` (0 for `layer1` ... 3 for `layer4`) and block `block` inside it. */
  datatype HookSite = HookSite(stage: nat, block: nat)

  datatype HookError =
    | BlockIndexOutOfRange  // indexing the stage raises `IndexError`
    | NoStageMatches        // `layer` exceeds the total: no hook is registered

  /** Number of blocks in the stages before `s`. */
  function StageStart(layers: seq<nat>, s: nat): nat
    requires s <= |layers|
  {
    if s == 0 then 0 else StageStart(layers, s - 1) + layers[s - 1]
  }

  lemma StageStarts(layers: seq<nat>)
    requires |layers| == 4
    ensures StageStart(layers, 1) == layers[0]
    ensures StageStart(layers, 2) == layers[0] + layers[1]
    ensures StageStart(layers, 3) == layers[0] + layers[1] + layers[2]
    ensures StageStart(layers, 4) == layers[0] + layers[1] + layers[2] + layers[3]
  {
  }

  /** Python indexing of a sequence of length `len` by `idx`. */
  function PyIndex(idx: int, len: nat): (r: Option<nat>)
    ensures r.Some? <==> 0 <= idx + len && idx < len
    ensures r.Some? ==> r.value < len
    ensures r.Some? && idx >= 0 ==> r.value == idx
    ensures r.Some? && idx < 0 ==> r.value == len + idx
  {
    if 0 <= idx < len then Some(idx)
    else if 0 <= idx + len && idx < 0 then Some(len + idx)
    else None
  }

  function Index(stage: nat, idx: int, len: nat): Result<HookSite, HookError>
  {
    match PyIndex(idx, len)
    case Some(b) => Ok(HookSite(stage, b))
    case None => Err(BlockIndexOutOfRange)
  }

  /**
   The branch chain of `train_baseline`. A `layer` between 1 and the total
   number of blocks selects the stage it falls in and its offset from the
   stage's first block; a larger `layer` matches no branch; a `layer` of 0
   or less falls into the first branch and indexes `layer1` from its end.
   */
  function Locate(layer: int, layers: seq<nat>): (r: Result<HookSite, HookError>)
    requires |layers| == 4
    ensures 1 <= layer <= StageStart(layers, 4) ==>
      && r.Ok?
      && r.value.stage < 4
      && r.value.block < layers[r.value.stage]
      && layer == StageStart(layers, r.value.stage) + r.value.block + 1
    ensures layer > StageStart(layers, 4) ==> r == Err(NoStageMatches)
    ensures layer <= 0 && layer + layers[0] > 0 ==> r == Ok(HookSite(0, layers[0] + layer - 1))
    ensures layer + layers[0] <= 0 ==> r == Err(BlockIndexOutOfRange)
  {
    StageStarts(layers);
    if layer <= layers[0] then
      Index(0, layer - 1, layers[0])
    else if layer <= layers[0] + layers[1] then
      Index(1, layer - layers[0] - 1, layers[1])
    else if layer <= layers[0] + layers[1] + layers[2] then
      Index(2, layer - layers[0] - layers[1] - 1, layers[2])
    else if layer <= layers[0] + layers[1] + layers[2] + layers[3] then
      Index(3, layer - layers[0] - layers[1] - layers[2] - 1, layers[3])
    else
      Err(NoStageMatches)
  }

  /** The global 1-based block number of a site: the inverse of `Locate`. */
  function GlobalLayer(layers: seq<nat>, site: HookSite): int
    requires site.stage < |layers|
  {
    StageStart(layers, site.stage) + site.block + 1
  }

  /**
   Round trip: every block of every stage is reached by exactly its own
   global number, so `Locate` and `GlobalLayer` are inverse bijections
   between `1 .. total` and the blocks.
   */
  lemma LocateGlobalLayer(layers: seq<nat>, site: HookSite)
    requires |layers| == 4
    requires site.stage < 4 && site.block < layers[site.stage]
    ensures Locate(GlobalLayer(layers, site), layers) == Ok(site)
  {
    StageStarts(layers);
  }

  /** The block of ResNet-18 (`[2, 2, 2, 2]`) that layer 8, the last, selects. */
  lemma LocateExample()
    ensures Locate(8, [2, 2, 2, 2]) == Ok(HookSite(3, 1))
    ensures Locate(9, [2, 2, 2, 2]) == Err(NoStageMatches)
    ensures Locate(0, [2, 2, 2, 2]) == Ok(HookSite(0, 1))
    ensures Locate(-2, [2, 2, 2, 2]) == Err(BlockIndexOutOfRange)
  {
  }
}
