/** Uniform choice of a list element (src/scripts/random-select.ts).
    The value of `Math.random()` is taken as a parameter: a `Draw` is any real
    number in [0, 1). Arithmetic is exact; floating-point rounding is not modelled. */
module RandomSelection {

  /** A possibly absent value; `None` stands for JavaScript's `undefined`. */
  datatype Option<T> = None | Some(value: T)

  /** What one call of `Math.random()` may return. */
  type Draw = r: real | 0.0 <= r < 1.0 witness 0.0

  /** `Math.floor(Math.random() * (max - min)) + min`. */
  function RandomRange(min: int, max: int, draw: Draw): (r: int)
    ensures min <= max ==> min <= r <= max
    ensures min < max ==> r < max
  {
    var width := (max - min) as real;
    var scaled := draw * width;
    assert min <= max ==> 0.0 <= scaled <= width by {
      if min <= max {
        assert 0.0 <= width;
        assert draw * width <= 1.0 * width;
      }
    }
    assert min < max ==> scaled < width by {
      if min < max {
        assert draw * width < 1.0 * width;
      }
    }
    scaled.Floor + min
  }

  /** Returns `undefined` for an empty list, otherwise the element at the index
      that `RandomRange(0, |list|)` draws. */
  function RandomSelect<T>(list: seq<T>, draw: Draw): (r: Option<T>)
    ensures r.None? <==> |list| == 0
    ensures r.Some? ==> exists i :: 0 <= i < |list| && r.value == list[i]
  {
    if |list| == 0 then None
    else
      var i := RandomRange(0, |list|, draw);
      Some(list[i])
  }

  /** Every position of a non-empty list is chosen by some draw, so the choice is
      "any element" and not a fixed one. */
  lemma RandomSelectReaches<T>(list: seq<T>, i: nat)
    requires i < |list|
    ensures exists d: Draw :: RandomSelect(list, d) == Some(list[i])
  {
    var n := |list| as real;
    var d: real := i as real / n;
    assert d * n == i as real;
    assert 0.0 <= d < 1.0;
    assert RandomRange(0, |list|, d) == i;
    assert RandomSelect(list, d) == Some(list[i]);
  }
}
