/**
 * Shape arithmetic of `ConvLayers_gettrain` in conv/basic.py: a 32 x 32 input passes through
 * one or two stages of a 7 x 7 "valid" convolution followed by 2 x 2 max-pooling whose output
 * size rounds up, and the flattened output of the last stage feeds a dense softmax layer.
 */
module ConvShapes {

  const InputSide: int := 32     // r0
  const FirstMaps: int := 6      // n0
  const SecondMaps: int := 16    // n1
  const FilterSide: int := 7
  const Outputs: int := 10

  /** The sizes hard-coded in `ConvLarge_gettrain` for the same architecture. */
  const LargeFirstSide: int := 13   // r1 there
  const LargeSecondSide: int := 4   // r2 there

  /** `pool_size2(x) = int(ceil(x / 2.))`: the smallest integer whose double is at least x. */
  function PoolSize2(x: int): (r: int)
    ensures 2 * r >= x && 2 * (r - 1) < x
    ensures x >= 0 ==> 0 <= r <= x
  {
    (x + 1) / 2
  }

  /** A FilterSide-wide kernel whose first column is q lies wholly inside a side of length r. */
  predicate KernelFits(q: int, r: int)
  {
    0 <= q && q + FilterSide <= r
  }

  /**
   * Side length after a "valid" convolution with a FilterSide x FilterSide kernel: output q
   * exists exactly where the kernel fits.
   */
  function ConvSide(r: int): (s: int)
    ensures forall q :: KernelFits(q, r) <==> 0 <= q < s
  {
    r - (FilterSide - 1)
  }

  /** r1: the side of the first stage's pooled maps; it equals the constant used by ConvLarge_gettrain. */
  function FirstSide(): (r1: int)
    ensures r1 == LargeFirstSide
  {
    PoolSize2(ConvSide(InputSide))
  }

  /** r2: the side of the second stage's pooled maps; it equals the constant used by ConvLarge_gettrain. */
  function SecondSide(): (r2: int)
    ensures r2 == LargeSecondSide
  {
    PoolSize2(ConvSide(FirstSide()))
  }

  /** `nv`: the rows of the dense weight matrix v. */
  function DenseWidth(nLayers: int): (nv: int)
    ensures nLayers == 1 ==> nv == 13 * 13 * 6
    ensures nLayers != 1 ==> nv == 4 * 4 * 16
  {
    if nLayers == 1 then FirstSide() * FirstSide() * FirstMaps
    else SecondSide() * SecondSide() * SecondMaps
  }

  /** Width of `y.flatten(2)` in `propup`: the second stage's output when n_layers >= 2, else the first's. */
  function FeatureWidth(nLayers: int): int
  {
    if nLayers >= 2 then SecondMaps * SecondSide() * SecondSide()
    else FirstMaps * FirstSide() * FirstSide()
  }

  /**
   * The dense layer's input width matches the features `propup` flattens exactly when
   * n_layers >= 1; for n_layers <= 0, nv takes the two-stage value while only one stage is built.
   */
  lemma DenseMatchesFeatures(nLayers: int)
    ensures DenseWidth(nLayers) == FeatureWidth(nLayers) <==> nLayers >= 1
  {
  }

  /** A shared parameter: its name in the source and its shape. */
  datatype Param = Param(name: string, shape: seq<int>)

  /**
   * `params = [w0, b0, v, c]`, extended by `(w1, b1)` when n_layers >= 2, with the shapes the
   * source allocates.
   */
  method BuildParams(chan: nat, nLayers: int) returns (params: seq<Param>)
    ensures |params| == if nLayers >= 2 then 6 else 4
    ensures forall k :: 0 <= k < |params| ==> params[k].name == ["w0", "b0", "v", "c", "w1", "b1"][k]
    ensures params[0].shape == [FirstMaps, chan, FilterSide, FilterSide]
    ensures params[1].shape == [FirstMaps]
    ensures params[2].shape == [DenseWidth(nLayers), Outputs]
    ensures params[3].shape == [Outputs]
    ensures nLayers >= 2 ==>
      params[4].shape == [SecondMaps, FirstMaps, FilterSide, FilterSide] && params[5].shape == [SecondMaps]
    ensures nLayers >= 1 ==> params[2].shape[0] == FeatureWidth(nLayers)
  {
    var nv := DenseWidth(nLayers);
    params := [
      Param("w0", [FirstMaps, chan, FilterSide, FilterSide]),
      Param("b0", [FirstMaps]),
      Param("v", [nv, Outputs]),
      Param("c", [Outputs])
    ];
    if nLayers >= 2 {
      params := params + [
        Param("w1", [SecondMaps, FirstMaps, FilterSide, FilterSide]),
        Param("b1", [SecondMaps])
      ];
    }
    DenseMatchesFeatures(nLayers);
  }
}
