# nef-rbm: the indexing and shape logic of two training scripts

The repository holds two experiment scripts. `deep-auto.py` builds a deep autoencoder from stacked
RBM-like layers whose encoders may be restricted to random receptive fields. `conv/basic.py`
trains a small convolutional classifier on MNIST. All of their numerical work is done by Theano,
nengo and numpy. This project models the discrete logic around that numerical work, which can be
stated exactly:

- **Receptive-field masks** (`ReceptiveField`). `RBM.__init__` builds a mask only when `rf_shape` is
  given and no mask is passed. In that case `vis_shape` must be two-dimensional. Each hidden unit k
  gets an m x n rectangle whose top-left corner (i[k], j[k]) is drawn in [0, M-m] x [0, N-n]. The
  rectangles are written into an n_hid x M x N boolean array in a loop, and the array is then
  flattened row-major to n_hid x (M*N). The random corners are inputs here.
- **Applying the mask and normalising** (`Encoders`). `RBM.statistical_encoders` multiplies the
  encoders by the mask in place (`*=`). `RBM.__init__` instead builds a new masked array
  (`encoders * mask`), so an encoder array passed in by the caller is not masked. Either way, each
  row of the resulting array is then divided by its L2 norm in place.
- **The constructor's tail** (`RbmInit`). The mask decision, the mask construction and the encoder
  masking and normalisation of `RBM.__init__`, chained into one step.
- **The layer stack** (`Stack`). `DBN.propup` folds the layers' encoders first to last.
  `DBN.propdown` folds their decoders last to first. `reconstruct` is the one after the other. A
  layer is a pair of maps over an opaque vector type.
- **Batch partitions** (`Reshape`). `reshape(-1, size, ...)` groups consecutive rows into equal
  batches and fails when the row count is not a multiple of the batch size. Flattening a mask grid,
  the batch reshapes and Python's `zip` are modelled once here and shared.
- **Conv-net shapes** (`ConvShapes`). This covers `pool_size2`, the derived sides r1 = 13 and
  r2 = 4, the dense input width `nv`, and the parameter list with its shapes.
- **MNIST padding** (`MnistPad`). Each 28 x 28 image gets a channel axis and is copied into a zero
  32 x 32 canvas at offset 2.
- **Epoch figures** (`Epochs`). The summed cost, the mean training error and the mean test error,
  over exact reals.

Main results:
- The mask row of unit k is true exactly on its rectangle and has exactly m*n true entries
  (`FieldRowAt`, `FieldRowCount`).
- After masking and normalising, row k is the masked old row divided by its norm. So masked-out
  encoder entries are zero, and every row has norm 1 when no row norm is zero (`MaskAndNormalize`,
  `InitEncoders`, `Initialize`).
- `propdown` applies the decoders in the reverse of the order in which `propup` applies the
  encoders, and reconstruction is the identity when every layer's decoder inverts its encoder
  (`EncodeOrder`, `DecodeOrder`, `ReconstructIdentity`).
- Batching is invertible (`BatchesFlatten`, `BatchesOfConcat`). Image and label batches stay aligned
  (`PartitionsAligned`).
- The conv-net sizes agree with the constants hard-coded in `ConvLarge_gettrain`
  (`FirstSide`, `SecondSide`).
- Cropping a padded image gives the original back (`PadLayout`).
- The reported error is the mean of the batch errors (`TrainEpoch`, `MeanBounds`).

`DenseMatchesFeatures` also records a fact about `nv`. It equals the width of the features that
`propup` flattens only when `n_layers >= 1`. For `n_layers <= 0`, `nv` takes the two-stage value
(256), while only the first stage (1014 features) is built. The script only ever calls the
function with 1 or 2.

## Model

| member | source | states |
|---|---|---|
| `Reshape.ConcatLength` | deep-auto.py:81 | flattening n rows of width w gives n*w entries (n_vis = M*N per mask row) |
| `Reshape.ConcatIndex` | deep-auto.py:81 | row-major flattening puts entry (r, c) at position r*N + c |
| `Reshape.Batches` | deep-auto.py:225 | `reshape(-1, size, d)` succeeds iff the row count is a multiple of size, and fails otherwise |
| `Reshape.BatchesFlatten` | deep-auto.py:225 | every batch has exactly size rows and the batches concatenated in order give the input back |
| `Reshape.BatchCount` | deep-auto.py:358 | there are exactly rows/size batches |
| `Reshape.BatchSlice` | conv/basic.py:210-211 | batch b is rows b*size .. (b+1)*size - 1 in their original order |
| `Reshape.BatchesOfConcat` | conv/basic.py:210 | batching a flattened stack of equal batches gives those batches back (the inverse direction of the round trip) |
| `Reshape.Zip` | conv/basic.py:226 | Python's zip: length is the shorter input's, pair k is (xs[k], ys[k]) |
| `Reshape.PartitionsAligned` | conv/basic.py:210-215 | equally long images and labels partition for both or neither, into the same batch count, and zipped pair b is (image rows, label rows) b*size .. b*size + size - 1 |
| `ReceptiveField.PlanMask` | deep-auto.py:68-75 | a receptive-field mask is built iff rf_shape is given, no mask is passed, vis_shape is 2-D and the field fits; a 1-D or 3-D vis_shape is the assertion failure; a 2-D vis_shape with a field taller or wider than the image is the empty `randint` range failure; a given mask is used as is |
| `ReceptiveField.VisibleCount` | deep-auto.py:51-52 | a 2-D vis_shape (M, N) has n_vis = M*N |
| `ReceptiveField.FieldInsideImage` | deep-auto.py:74-75 | a corner drawn in [0, M-m] x [0, N-n] keeps the whole rectangle inside the image |
| `ReceptiveField.FieldRowAt` | deep-auto.py:77-81 | the flattened mask row has M*N entries and entry r*N + c is true iff i <= r < i+m and j <= c < j+n |
| `ReceptiveField.FlatPosition` | deep-auto.py:81 | every flat position p < M*N is r*N + c for the in-image pixel (p / N, p % N) |
| `ReceptiveField.FieldRowCount` | deep-auto.py:77-79 | each unit's mask row has exactly m*n true entries |
| `ReceptiveField.SetField` | deep-auto.py:79 | `mask[k, i:i+m, j:j+n] = True` sets unit k's rectangle and leaves every other entry as it was |
| `ReceptiveField.BuildMask` | deep-auto.py:77-81 | the loop over units followed by the reshape yields n_hid rows of M*N entries, row k being unit k's flattened rectangle |
| `Encoders.SqNormScaled` | deep-auto.py:32-33 | dividing a row by d scales its squared norm by (1/d)^2 |
| `Encoders.UnitAfterScaling` | deep-auto.py:85 | a row divided by its positive norm has norm 1 |
| `Encoders.ApplyMask` | deep-auto.py:186 | `encoders *= mask` in place: each row becomes the old row with masked-out entries zero |
| `Encoders.NormalizeRows` | deep-auto.py:187 | every row divided in place by its norm and of unit norm afterwards; a zero norm is reported and changes nothing |
| `Encoders.MaskAndNormalize` | deep-auto.py:185-187 | in place, row k becomes the old row masked by mask row k and divided by norms[k], with norm 1, when no norm is zero; otherwise it is only masked; every entry whose mask bit is false is zero |
| `Encoders.MaskedCopy` | deep-auto.py:84 | `encoders * mask` is a new array of the same shape whose row k is row k of the argument masked by mask row k |
| `Encoders.InitEncoders` | deep-auto.py:83-85 | with a mask, the result is a new array and the caller's array is unchanged; without one, it is the caller's array; its row k is the old row k, masked, divided by norms[k] and of norm 1 when no norm is zero, and only masked otherwise |
| `RbmInit.InitMask` | deep-auto.py:67-81 | fails exactly when the mask plan fails, with the same error; otherwise yields no mask, the given mask, or the mask whose row k is unit k's flattened rectangle, n_hid rows of n_vis = prod(vis_shape) entries |
| `RbmInit.Initialize` | deep-auto.py:67-85 | fails exactly when the mask plan fails, leaving the encoders alone; otherwise returns the encoder array whose row k is the old row masked by the planned mask and divided by its norm (unit norm when no norm is zero), a new array when there is a mask and the caller's own array otherwise |
| `Stack.EncodeOrder` | deep-auto.py:303-307 | propup applies the layers' encoders in list order, first layer first; with no layers it is the identity |
| `Stack.DecodeOrder` | deep-auto.py:309-313 | propdown applies the decoders in the reverse of the list order; with no layers it is the identity |
| `Stack.ReconstructIdentity` | deep-auto.py:327-331 | if every layer's decoder inverts its encoder, propdown after propup returns the input |
| `Stack.Dbn.constructor` | deep-auto.py:298-299 | the stack is the given list of RBMs, or empty when none is given |
| `Stack.Dbn.Append` | deep-auto.py:457 | appending an RBM puts it on top of the stack |
| `Stack.Dbn.Propup` | deep-auto.py:303-307 | the loop that rebinds codes layer by layer computes the in-order fold of the encoders |
| `Stack.Dbn.Propdown` | deep-auto.py:309-313 | the loop over `rbms[::-1]` computes the reverse-order fold of the decoders |
| `Stack.Dbn.Reconstruct` | deep-auto.py:327-331 | reconstruct is propdown after propup |
| `ConvShapes.PoolSize2` | conv/basic.py:136 | pool_size2(x) is the smallest integer whose double is at least x (ceil(x/2)), and lies in [0, x] for x >= 0 |
| `ConvShapes.ConvSide` | conv/basic.py:139-141 | the side r - (7 - 1) after a valid 7 x 7 convolution counts exactly the positions q >= 0 with q + 7 <= r where the kernel fits |
| `ConvShapes.FirstSide` | conv/basic.py:137-139 | r1 = pool_size2(32 - 6) equals the 13 hard-coded at conv/basic.py:85 |
| `ConvShapes.SecondSide` | conv/basic.py:140-141 | r2 = pool_size2(r1 - 6) equals the 4 hard-coded at conv/basic.py:86 |
| `ConvShapes.DenseWidth` | conv/basic.py:142 | nv = r1*r1*n0 = 1014 when n_layers == 1, and r2*r2*n1 = 256 otherwise |
| `ConvShapes.DenseMatchesFeatures` | conv/basic.py:142-169 | nv equals the width of the features propup flattens iff n_layers >= 1 |
| `ConvShapes.BuildParams` | conv/basic.py:144-153 | the parameter list is w0, b0, v, c (4 entries), extended by w1, b1 (6 entries) when n_layers >= 2, with the allocated shapes; v's input width matches the flattened features |
| `MnistPad.PadLayout` | conv/basic.py:49-54 | a padded image is 1 x 32 x 32, source pixel (r, c) sits at (r+2, c+2), the border of width 2 is zero, and cropping restores the image |
| `MnistPad.PasteImage` | conv/basic.py:54 | `image2[0, 2:-2, 2:-2] = image` writes image k's window and nothing else |
| `MnistPad.Process` | conv/basic.py:47-59 | the result is count x 1 x 32 x 32, and slot k holds the padded image k |
| `Epochs.Mean` | conv/basic.py:235 | np.mean of a non-empty list times its length is the sum; an empty list has no mean |
| `Epochs.MeanBounds` | conv/basic.py:230 | the mean of values in [lo, hi] lies in [lo, hi], so a mean of error rates is a rate |
| `Epochs.TrainEpoch` | conv/basic.py:223-230 | the reported cost is the plain sum of batch costs, the error is the summed batch errors over the batch count, and it is their mean when the zip yields one result per batch; a zero batch count fails |

## Left out

- Theano graph construction: `conv2d`, `max_pool_2d`, `tanh`, `softmax`, `grad`, the SGD updates and `theano.function`. These run on floating-point tensors in a foreign library.
- `RBM.rates`, `RBM.propup`/`propdown` and the LIF gain and bias from nengo. A layer is an abstract pair of maps, and the `decoders is not None` assertion is not modelled.
- The eigendecomposition, covariance check and random projection in `statistical_encoders`, and the `LstsqL2` decoder fit. These are numerical linear algebra in libraries.
- Random number generation. The mask corners, initial encoders and the values returned by `train` and `test` are inputs.
- Square roots. Dafny's reals have none, so the row norms are inputs, each required to be the non-negative square root of the row's squared norm.
- Dataset download, loading, the `[-1, 1]` and `/255` rescaling, plotting, printing and the device flags. These are I/O and floating-point scaling.
- `ConvLarge_gettrain`, which is never called; only its constants r1 = 13 and r2 = 4 are used, as a cross-check.
- The second-layer shape hints passed to `conv2d` inside `propup` (conv/basic.py:163-164). They do not match `w1`'s shape and are not used as a property.
- The per-epoch `test(test_batches[0], ...)` probe. It is one more call into the foreign test function.
- `RbmInit.Initialize`: requires the encoder array to be n_hid x prod(vis_shape), and a given mask to have that shape. numpy would broadcast or fail for other shapes; the model does not cover them.
- `Encoders.NormalizeRows`: numpy turns a zero-norm row into NaN and divides the other rows anyway. The model instead reports ok = false and leaves the matrix unchanged.
- `Encoders.MaskAndNormalize`, `Encoders.InitEncoders` and `RbmInit.Initialize`: for the same reason, these leave the rows masked but undivided when some norm is zero, where numpy would divide them and write NaN.
- `Epochs.TrainEpoch`: uses exact real addition and division, not float32/float64 rounding.
- The commented-out L-BFGS variants of `backprop`.
