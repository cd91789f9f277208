/**
 * `process` inside `get_mnist` in conv/basic.py: every 28 x 28 image gains a channel axis of size
 * one and is copied into the middle of a zero 32 x 32 canvas, two pixels from each edge
 * (`image2[0, 2:-2, 2:-2] = image`). The element type is generic; the division by 255 is not modelled.
 */
module MnistPad {
  import opened Reshape

  const Side: nat := 28     // MNIST image side
  const Canvas: nat := 32   // padded side
  const Border: nat := 2    // the `2:-2` slice bounds

  /** A Side x Side image, rows first. */
  predicate IsImage<T>(img: seq<seq<T>>)
  {
    |img| == Side && Uniform(img, Side)
  }

  /** Pixel (r, c) of the canvas lies in the `2:-2, 2:-2` window. */
  predicate Inner(r: int, c: int)
  {
    Border <= r < Canvas - Border && Border <= c < Canvas - Border
  }

  /** The padded image, with its channel axis: 1 x 32 x 32. */
  function Pad<T>(img: seq<seq<T>>, zero: T): seq<seq<seq<T>>>
    requires IsImage(img)
  {
    [seq(Canvas, r requires 0 <= r < Canvas =>
       seq(Canvas, c requires 0 <= c < Canvas =>
         if Inner(r, c) then img[r - Border][c - Border] else zero))]
  }

  /** Cuts the 28 x 28 window back out of channel 0 of a padded image. */
  function Crop<T>(p: seq<seq<seq<T>>>): seq<seq<T>>
    requires |p| == 1 && |p[0]| == Canvas && Uniform(p[0], Canvas)
  {
    seq(Side, r requires 0 <= r < Side => p[0][r + Border][Border .. Canvas - Border])
  }

  /**
   * A padded image is 1 x 32 x 32, pixel (r, c) of the source sits at (r+2, c+2), the border of
   * width 2 is zero, and cropping the window gives the source image back.
   */
  lemma PadLayout<T>(img: seq<seq<T>>, zero: T)
    requires IsImage(img)
    ensures var p := Pad(img, zero);
      |p| == 1 && |p[0]| == Canvas && Uniform(p[0], Canvas) &&
      (forall r, c :: 0 <= r < Side && 0 <= c < Side ==> p[0][r + Border][c + Border] == img[r][c]) &&
      (forall r, c :: 0 <= r < Canvas && 0 <= c < Canvas && !Inner(r, c) ==> p[0][r][c] == zero) &&
      Crop(p) == img
  {
    var p := Pad(img, zero);
    forall r | 0 <= r < Side
      ensures Crop(p)[r] == img[r]
    {
      assert |Crop(p)[r]| == Side == |img[r]|;
      forall c | 0 <= c < Side
        ensures Crop(p)[r][c] == img[r][c]
      {
        assert Crop(p)[r][c] == p[0][r + Border][c + Border];
        assert Inner(r + Border, c + Border);
      }
    }
  }

  /** `image2[0, 2:-2, 2:-2] = image` for image k: writes its window and nothing else. */
  method PasteImage<T>(images2: array4<T>, k: nat, img: seq<seq<T>>)
    requires IsImage(img)
    requires k < images2.Length0 && images2.Length1 == 1
    requires images2.Length2 == Canvas && images2.Length3 == Canvas
    modifies images2
    ensures forall k', ch, r, c :: 0 <= k' < images2.Length0 && 0 <= ch < 1 && 0 <= r < Canvas && 0 <= c < Canvas ==>
      images2[k', ch, r, c] == if k' == k && Inner(r, c) then img[r - Border][c - Border] else old(images2[k', ch, r, c])
  {
    for r := Border to Canvas - Border
      invariant forall k', ch, r', c :: 0 <= k' < images2.Length0 && 0 <= ch < 1 && 0 <= r' < Canvas && 0 <= c < Canvas ==>
        images2[k', ch, r', c] ==
          if k' == k && Inner(r', c) && r' < r then img[r' - Border][c - Border] else old(images2[k', ch, r', c])
    {
      for c := Border to Canvas - Border
        invariant forall k', ch, r', c' :: 0 <= k' < images2.Length0 && 0 <= ch < 1 && 0 <= r' < Canvas && 0 <= c' < Canvas ==>
          images2[k', ch, r', c'] ==
            if k' == k && Inner(r', c') && (r' < r || (r' == r && c' < c)) then img[r' - Border][c' - Border]
            else old(images2[k', ch, r', c'])
      {
        images2[k, 0, r, c] := img[r - Border][c - Border];
      }
    }
  }

  /**
   * Allocates the zero count x 1 x 32 x 32 array and pastes each image into its slot;
   * slot k then holds `Pad(images[k])`.
   */
  method Process<T>(images: seq<seq<seq<T>>>, zero: T) returns (images2: array4<T>)
    requires forall k :: 0 <= k < |images| ==> IsImage(images[k])
    ensures fresh(images2)
    ensures images2.Length0 == |images| && images2.Length1 == 1
    ensures images2.Length2 == Canvas && images2.Length3 == Canvas
    ensures forall k, ch, r, c :: 0 <= k < |images| && 0 <= ch < 1 && 0 <= r < Canvas && 0 <= c < Canvas ==>
      images2[k, ch, r, c] == Pad(images[k], zero)[ch][r][c]
  {
    images2 := new T[|images|, 1, Canvas, Canvas]((_, _, _, _) => zero);
    for k := 0 to |images|
      invariant forall k', ch, r, c :: 0 <= k' < |images| && 0 <= ch < 1 && 0 <= r < Canvas && 0 <= c < Canvas ==>
        images2[k', ch, r, c] == if k' < k && Inner(r, c) then images[k'][r - Border][c - Border] else zero
    {
      PasteImage(images2, k, images[k]);
    }
  }
}
