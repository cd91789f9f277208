/**
 * The layer stack of deep-auto.py's `DBN`: `propup` passes the images through each RBM's
 * encoder, first layer first; `propdown` passes codes through the decoders, last layer first;
 * `reconstruct` is `propdown` after `propup`. A layer is modelled as its pair of maps over an
 * opaque vector type V (the rate nonlinearity and the least-squares decoders are not modelled).
 */
module Stack {
  import opened Wrappers

  /** One RBM seen from the stack: its `propup` (encode) and `propdown` (decode) maps. */
  datatype Layer<!V> = Layer(up: V -> V, down: V -> V)

  /** Applies the maps of `fs` in order, fs[0] first. */
  function Apply<V>(fs: seq<V -> V>, x: V): V
  {
    if fs == [] then x else Apply(fs[1..], fs[0](x))
  }

  function Ups<V>(layers: seq<Layer<V>>): seq<V -> V>
  {
    seq(|layers|, k requires 0 <= k < |layers| => layers[k].up)
  }

  function Downs<V>(layers: seq<Layer<V>>): seq<V -> V>
  {
    seq(|layers|, k requires 0 <= k < |layers| => layers[k].down)
  }

  function Reverse<T>(s: seq<T>): seq<T>
  {
    if s == [] then [] else Reverse(s[1..]) + [s[0]]
  }

  lemma {:induction false} ReverseAt<T>(s: seq<T>, k: nat)
    requires k < |s|
    ensures |Reverse(s)| == |s| && Reverse(s)[k] == s[|s| - 1 - k]
  {
    ReverseLength(s);
    if k < |s| - 1 {
      ReverseAt(s[1..], k);
    }
  }

  lemma {:induction false} ReverseLength<T>(s: seq<T>)
    ensures |Reverse(s)| == |s|
  {
    if s != [] {
      ReverseLength(s[1..]);
    }
  }

  /** The value of `codes` after `for rbm in self.rbms: codes = rbm.propup(codes)`. */
  function Encode<V>(layers: seq<Layer<V>>, x: V): V
  {
    if layers == [] then x else layers[|layers| - 1].up(Encode(layers[..|layers| - 1], x))
  }

  /** The value of `images` after `for rbm in self.rbms[::-1]: images = rbm.propdown(images)`. */
  function Decode<V>(layers: seq<Layer<V>>, y: V): V
  {
    if layers == [] then y else layers[0].down(Decode(layers[1..], y))
  }

  /** propup applies the encoders in the stack's order. */
  lemma {:induction false} EncodeOrder<V>(layers: seq<Layer<V>>, x: V)
    ensures Encode(layers, x) == Apply(Ups(layers), x)
  {
    if layers != [] {
      var init, last := layers[..|layers| - 1], layers[|layers| - 1];
      EncodeOrder(init, x);
      ApplySnoc(Ups(init), last.up, x);
      assert Ups(layers) == Ups(init) + [last.up];
    }
  }

  /** propdown applies the decoders in the reverse of the stack's order. */
  lemma {:induction false} DecodeOrder<V>(layers: seq<Layer<V>>, y: V)
    ensures Decode(layers, y) == Apply(Reverse(Downs(layers)), y)
  {
    if layers != [] {
      DecodeOrder(layers[1..], y);
      assert Downs(layers)[1..] == Downs(layers[1..]);
      ApplySnoc(Reverse(Downs(layers[1..])), layers[0].down, y);
    }
  }

  lemma {:induction false} ApplySnoc<V>(fs: seq<V -> V>, f: V -> V, x: V)
    ensures Apply(fs + [f], x) == f(Apply(fs, x))
  {
    if fs != [] {
      assert (fs + [f])[1..] == fs[1..] + [f];
      ApplySnoc(fs[1..], f, fs[0](x));
    } else {
      assert [f][1..] == [];
    }
  }

  /** Decoding a stack with one more layer on top decodes through that layer first. */
  lemma {:induction false} DecodeSnoc<V>(layers: seq<Layer<V>>, top: Layer<V>, y: V)
    ensures Decode(layers + [top], y) == Decode(layers, top.down(y))
  {
    if layers == [] {
      assert ([] + [top])[1..] == [];
    } else {
      assert (layers + [top])[1..] == layers[1..] + [top];
      DecodeSnoc(layers[1..], top, y);
    }
  }

  /** One more iteration of propdown's loop decodes through the next lower layer. */
  lemma DecodeStep<V>(layers: seq<Layer<V>>, i: nat, y: V, codes: V)
    requires i < |layers| && y == Decode(layers[i + 1..], codes)
    ensures layers[i].down(y) == Decode(layers[i..], codes)
  {
    assert layers[i..][1..] == layers[i + 1..];
  }

  /** A layer whose decoder undoes its encoder on every input. */
  ghost predicate RoundTrips<V(!new)>(l: Layer<V>)
  {
    forall x :: l.down(l.up(x)) == x
  }

  /** When every layer's decoder inverts its encoder, the stack's reconstruction is the identity. */
  lemma {:induction false} ReconstructIdentity<V(!new)>(layers: seq<Layer<V>>, x: V)
    requires forall k :: 0 <= k < |layers| ==> RoundTrips(layers[k])
    ensures Decode(layers, Encode(layers, x)) == x
  {
    if layers != [] {
      var init, top := layers[..|layers| - 1], layers[|layers| - 1];
      assert layers == init + [top];
      DecodeSnoc(init, top, top.up(Encode(init, x)));
      assert RoundTrips(top);
      ReconstructIdentity(init, x);
    }
  }

  /** A `DBN`: its list of RBMs, each seen as a Layer. */
  class Dbn<V> {
    var rbms: seq<Layer<V>>

    /** `self.rbms = rbms if rbms is not None else []` */
    constructor (rbms: Option<seq<Layer<V>>>)
      ensures this.rbms == if rbms.Some? then rbms.value else []
    {
      this.rbms := if rbms.Some? then rbms.value else [];
    }

    /** `dbn.rbms.append(rbm)` */
    method Append(rbm: Layer<V>)
      modifies this
      ensures rbms == old(rbms) + [rbm]
    {
      rbms := rbms + [rbm];
    }

    method Propup(images: V) returns (codes: V)
      ensures codes == Encode(rbms, images)
      ensures codes == Apply(Ups(rbms), images)
    {
      codes := images;
      for t := 0 to |rbms|
        invariant codes == Encode(rbms[..t], images)
      {
        assert rbms[..t + 1][..t] == rbms[..t];
        codes := rbms[t].up(codes);
      }
      assert rbms[..|rbms|] == rbms;
      EncodeOrder(rbms, images);
    }

    method Propdown(codes: V) returns (images: V)
      ensures images == Decode(rbms, codes)
      ensures images == Apply(Reverse(Downs(rbms)), codes)
    {
      images := codes;
      var reversed := Reverse(rbms);
      ReverseLength(rbms);
      var n := |rbms|;
      for t := 0 to n
        invariant images == Decode(rbms[n - t..], codes)
      {
        ReverseAt(rbms, t);
        DecodeStep(rbms, n - t - 1, images, codes);
        images := reversed[t].down(images);
      }
      assert rbms[0..] == rbms;
      DecodeOrder(rbms, codes);
    }

    method Reconstruct(images: V) returns (recons: V)
      ensures recons == Decode(rbms, Encode(rbms, images))
    {
      var codes := Propup(images);
      recons := Propdown(codes);
    }
  }
}
