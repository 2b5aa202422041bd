/** The colour palette in the header strip (Homepage.py, lines 31-32 and 101-113). */
module Palette {

  datatype Option<T> = None | Some(value: T)

  /** A pixel colour in OpenCV's blue, green, red channel order. */
  datatype Color = Color(b: bv8, g: bv8, r: bv8)

  /** Height in pixels of the header strip that holds the swatches. */
  const HeaderHeight: int := 125

  /** Colour bound to each header image: magenta, yellow, green and black (the eraser). */
  const Swatches: seq<Color> :=
    [Color(255, 0, 255), Color(0, 255, 255), Color(0, 255, 0), Color(0, 0, 0)]

  /** Open horizontal hit band of each swatch, as (left, right) exclusive bounds. */
  const Bands: seq<(int, int)> := [(170, 295), (436, 561), (700, 825), (980, 1105)]

  predicate InBand(x: int, i: nat)
    requires i < |Bands|
  {
    Bands[i].0 < x < Bands[i].1
  }

  /** The swatch a fingertip at (x, y) selects, tested band by band from the left. */
  function SwatchAt(x: int, y: int): (band: Option<nat>)
    ensures band.Some? ==> band.value < |Swatches|
    ensures forall i: nat :: i < |Bands| ==>
      (band == Some(i) <==> y < HeaderHeight && InBand(x, i))
    ensures band == None <==>
      (y >= HeaderHeight || forall i: nat :: i < |Bands| ==> !InBand(x, i))
  {
    if y < HeaderHeight then
      if 170 < x < 295 then Some(0)
      else if 436 < x < 561 then Some(1)
      else if 700 < x < 825 then Some(2)
      else if 980 < x < 1105 then Some(3)
      else None
    else None
  }

  /** Two swatches never share a colour, so a colour identifies its header image. */
  lemma SwatchesDistinct(i: nat, j: nat)
    requires i < |Swatches| && j < |Swatches|
    ensures Swatches[i] == Swatches[j] <==> i == j
  {
  }
}
