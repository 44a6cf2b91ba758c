/** The space image format (day08/src/main.rs): the input digits cut into
    layers of `width * height` pixels, the checksum of the layer with the
    fewest zeros, and the picture made by stacking the layers. The input's
    characters stand for its bytes, which is exact for the ASCII digits the
    format uses. */
module Day08 {
  import opened Wrappers
  import Text

  /** `usize::MAX`, the fold's starting "fewest zeros so far". */
  const USIZE_MAX: nat := 0xffff_ffff_ffff_ffff

  /** A layer, or any run of pixels. */
  type Layer = seq<char>

  /** The character `part2` draws for a white pixel. */
  const Block: char := '█'

  // ===========================================================================
  // Reading layers

  /** The layers laid end to end. */
  function Flatten(layers: seq<Layer>): Layer {
    if |layers| == 0 then [] else layers[0] + Flatten(layers[1..])
  }

  /** `slice::chunks(n)`: consecutive pieces of `n` pixels, the last one
      possibly shorter, none empty. */
  function Chunks(s: Layer, n: nat): (r: seq<Layer>)
    requires n > 0
    ensures forall i :: 0 <= i < |r| ==> 0 < |r[i]| <= n
    ensures forall i :: 0 <= i < |r| - 1 ==> |r[i]| == n
    ensures |s| == 0 <==> |r| == 0
    decreases |s|
  {
    if |s| == 0 then []
    else if |s| <= n then [s]
    else [s[..n]] + Chunks(s[n..], n)
  }

  /** Laying the chunks end to end gives back what was cut. */
  lemma {:induction false} FlattenChunks(s: Layer, n: nat)
    requires n > 0
    ensures Flatten(Chunks(s, n)) == s
    decreases |s|
  {
    if |s| > n {
      var r := Chunks(s, n);
      assert r[1..] == Chunks(s[n..], n);
      FlattenChunks(s[n..], n);
      assert s == s[..n] + s[n..];
    }
  }

  /** Cutting a whole number of layers gives exactly that many full layers. */
  lemma {:induction false} ChunksCount(s: Layer, n: nat, k: nat)
    requires n > 0 && |s| == k * n
    ensures |Chunks(s, n)| == k
    decreases k
  {
    if k > 1 {
      assert |s[n..]| == (k - 1) * n;
      ChunksCount(s[n..], n, k - 1);
    }
  }

  /** `read_image`: trim the input and cut it into layers of
      `width * height` pixels (a zero size is the panic of `chunks`). */
  function ReadImage(input: string, width: nat, height: nat): (image: seq<Layer>)
    requires width * height > 0
    ensures Flatten(image) == Text.Trim(input)
    ensures forall i :: 0 <= i < |image| - 1 ==> |image[i]| == width * height
  {
    FlattenChunks(Text.Trim(input), width * height);
    Chunks(Text.Trim(input), width * height)
  }

  // ===========================================================================
  // Part one: the checksum

  /** The number of times `c` occurs in `s`. */
  function Occurrences(s: Layer, c: char): nat {
    multiset(s)[c]
  }

  /** The first fold of `part1` over `image`: the index and zero count of
      the first layer with the fewest zeros, starting from `(0, usize::MAX)`;
      a count is taken only when it is strictly smaller. */
  function FewestZeros(image: seq<Layer>): (r: (nat, nat))
    ensures r.1 <= USIZE_MAX
    ensures |image| == 0 ==> r == (0, USIZE_MAX)
    ensures |image| > 0 ==> r.0 < |image|
    ensures forall j :: 0 <= j < |image| ==> r.1 <= Occurrences(image[j], '0')
    ensures r.1 < USIZE_MAX ==> r.1 == Occurrences(image[r.0], '0')
    ensures forall j :: 0 <= j < r.0 ==> Occurrences(image[j], '0') > r.1
  {
    if |image| == 0 then (0, USIZE_MAX)
    else
      var (layer, zeros) := FewestZeros(image[..|image| - 1]);
      var count := Occurrences(image[|image| - 1], '0');
      if count < zeros then (|image| - 1, count) else (layer, zeros)
  }

  /** The second fold of `part1`: the numbers of `'1'` and of `'2'`. */
  function OnesTwos(layer: Layer): (r: (nat, nat)) {
    if |layer| == 0 then (0, 0)
    else
      var (ones, twos) := OnesTwos(layer[..|layer| - 1]);
      var p := layer[|layer| - 1];
      if p == '1' then (ones + 1, twos)
      else if p == '2' then (ones, twos + 1)
      else (ones, twos)
  }

  /** The fold counts exactly the ones and the twos. */
  lemma {:induction false} OnesTwosCounts(layer: Layer)
    ensures OnesTwos(layer) == (Occurrences(layer, '1'), Occurrences(layer, '2'))
    decreases |layer|
  {
    if |layer| > 0 {
      var init := layer[..|layer| - 1];
      OnesTwosCounts(init);
      assert layer == init + [layer[|layer| - 1]];
    }
  }

  /** `part1`: ones times twos on the layer with the fewest zeros; indexing
      an empty image is the source's panic, `None`. */
  function Part1(image: seq<Layer>): (r: Option<nat>)
    ensures r.None? <==> |image| == 0
  {
    if |image| == 0 then None
    else
      var (layer, _) := FewestZeros(image);
      var (ones, twos) := OnesTwos(image[layer]);
      Some(ones * twos)
  }

  /** The checksum is taken on a layer with no more zeros than any other,
      the earliest such layer, and is its count of ones times its count of
      twos. */
  lemma Part1Spec(image: seq<Layer>)
    requires |image| > 0
    requires forall j :: 0 <= j < |image| ==> Occurrences(image[j], '0') < USIZE_MAX
    ensures exists k :: (
      && 0 <= k < |image|
      && (forall j :: 0 <= j < |image| ==> Occurrences(image[k], '0') <= Occurrences(image[j], '0'))
      && (forall j :: 0 <= j < k ==> Occurrences(image[j], '0') > Occurrences(image[k], '0'))
      && Part1(image) == Some(Occurrences(image[k], '1') * Occurrences(image[k], '2')))
  {
    var k := FewestZeros(image).0;
    OnesTwosCounts(image[k]);
  }

  // ===========================================================================
  // Part two: stacking the layers

  /** The colour a pixel value paints over `below`: `'0'` is black (a
      space), `'1'` is white, anything else is transparent. */
  function PaintPixel(p: char, below: char): (c: char)
    ensures p != '0' && p != '1' ==> c == below
  {
    if p == '0' then ' ' else if p == '1' then Block else below
  }

  /** The pixel at `i` of the stacked picture: the colour of the first layer
      whose pixel there is black or white, a space when there is none. */
  function Pixel(image: seq<Layer>, i: nat): char
    requires forall l :: 0 <= l < |image| ==> i < |image[l]|
  {
    if |image| == 0 then ' '
    else if image[0][i] == '0' then ' '
    else if image[0][i] == '1' then Block
    else Pixel(image[1..], i)
  }

  /** The stacked picture of `n` pixels, as defined pixel by pixel. */
  function Composite(image: seq<Layer>, n: nat): (fb: seq<char>)
    requires forall l :: 0 <= l < |image| ==> |image[l]| >= n
    ensures |fb| == n
  {
    seq(n, i requires 0 <= i < n => Pixel(image, i))
  }

  /** The pixel comes from the first black-or-white layer, and is a space
      when every layer is transparent there. */
  lemma {:induction false} PixelSpec(image: seq<Layer>, i: nat)
    requires forall l :: 0 <= l < |image| ==> i < |image[l]|
    ensures (forall l :: 0 <= l < |image| ==> image[l][i] != '0' && image[l][i] != '1') ==>
      Pixel(image, i) == ' '
    ensures forall k :: 0 <= k < |image| && (image[k][i] == '0' || image[k][i] == '1')
                        && (forall l :: 0 <= l < k ==> image[l][i] != '0' && image[l][i] != '1') ==>
      Pixel(image, i) == PaintPixel(image[k][i], ' ')
    decreases |image|
  {
    if |image| > 0 {
      PixelSpec(image[1..], i);
      forall k | 0 < k < |image| && (image[k][i] == '0' || image[k][i] == '1')
                 && (forall l :: 0 <= l < k ==> image[l][i] != '0' && image[l][i] != '1')
        ensures Pixel(image, i) == PaintPixel(image[k][i], ' ')
      {
        assert image[1..][k - 1] == image[k];
        assert forall l :: 0 <= l < k - 1 ==> image[1..][l] == image[l + 1];
      }
      assert forall l :: 0 <= l < |image| - 1 ==> image[1..][l] == image[l + 1];
    }
  }

  /** One pass of the outer loop of `part2`: paint one layer over the frame
      buffer, row by row, at `x + y * width`. A pixel that is neither `'0'`
      nor `'1'` leaves the frame buffer as it was. */
  method PaintLayer(fb: seq<char>, layer: Layer, width: nat, height: nat) returns (out: seq<char>)
    requires |fb| == width * height && |layer| >= width * height
    ensures |out| == |fb|
    ensures forall i :: 0 <= i < |fb| ==> out[i] == PaintPixel(layer[i], fb[i])
  {
    out := fb;
    var base := 0;
    for y := 0 to height
      invariant base == y * width && base <= width * height
      invariant |out| == |fb|
      invariant forall i :: 0 <= i < base ==> out[i] == PaintPixel(layer[i], fb[i])
      invariant forall i :: base <= i < |fb| ==> out[i] == fb[i]
    {
      RowFits(y, width, height);
      for x := 0 to width
        invariant |out| == |fb|
        invariant forall i :: 0 <= i < base + x ==> out[i] == PaintPixel(layer[i], fb[i])
        invariant forall i :: base + x <= i < |fb| ==> out[i] == fb[i]
      {
        var index := x + base;
        var dst := layer[index];
        if dst == '0' {
          out := out[index := ' '];
        } else if dst == '1' {
          out := out[index := Block];
        }
      }
      base := base + width;
    }
  }

  /** Row `y` of a `width` by `height` grid ends inside the grid. */
  lemma RowFits(y: nat, width: nat, height: nat)
    requires y < height
    ensures y * width + width <= width * height
    ensures (y + 1) * width == y * width + width
  {
    assert (y + 1) * width <= height * width by {
      MulLe(y + 1, height, width);
    }
  }

  lemma MulLe(a: nat, b: nat, c: nat)
    requires a <= b
    ensures a * c <= b * c
  {
  }

  /** `part2`: a blank frame buffer, then the layers painted from the last
      to the first, so that the first layer ends on top. */
  method Part2(image: seq<Layer>, width: nat, height: nat) returns (fb: seq<char>)
    requires forall l :: 0 <= l < |image| ==> |image[l]| >= width * height
    ensures fb == Composite(image, width * height)
  {
    fb := seq(width * height, _ => ' ');
    var l := |image|;
    while l > 0
      invariant 0 <= l <= |image|
      invariant fb == Composite(image[l..], width * height)
    {
      l := l - 1;
      var next := PaintLayer(fb, image[l], width, height);
      forall i | 0 <= i < width * height
        ensures next[i] == Pixel(image[l..], i)
      {
        assert image[l..][1..] == image[l + 1..];
      }
      fb := next;
    }
  }

  // ===========================================================================
  // Examples

  /** The puzzle's two-by-two example `0222112222120000`: black, white,
      white, black. */
  lemma ExamplePart2()
    ensures Composite(["0222", "1122", "2212", "0000"], 4) == [' ', Block, Block, ' ']
  {
    var image := ["0222", "1122", "2212", "0000"];
    assert image[1..] == ["1122", "2212", "0000"];
    assert image[1..][1..] == ["2212", "0000"];
    assert image[1..][1..][1..] == ["0000"];
    assert Pixel(image, 0) == ' ';
    assert Pixel(image, 1) == Block;
    assert Pixel(image, 2) == Block;
    assert Pixel(image, 3) == ' ';
  }
}
