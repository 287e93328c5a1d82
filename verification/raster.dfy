/** The decoded image every extractor reads: a BufferedImage of TYPE_INT_ARGB seen through
    getRGB. Pixels are 32-bit ARGB words, alpha in the top byte, then red, green and blue. */
module Raster {

  datatype Image = Image(width: nat, height: nat, rows: seq<seq<bv32>>)

  /** One row per line of the image, each as wide as the image. */
  predicate Valid(img: Image)
  {
    |img.rows| == img.height && forall y :: 0 <= y < img.height ==> |img.rows[y]| == img.width
  }

  /** getRGB(x, y). */
  function PixelAt(img: Image, x: int, y: int): bv32
    requires Valid(img) && 0 <= x < img.width && 0 <= y < img.height
  {
    img.rows[y][x]
  }

  /** The offset of row y when rows of width w are laid end to end. */
  function RowStart(y: nat, w: nat): nat
  {
    if y == 0 then 0 else RowStart(y - 1, w) + w
  }

  /** The offset of row y is y * w. */
  lemma {:induction false} RowStartIsProduct(y: nat, w: nat)
    ensures RowStart(y, w) == y * w
  {
    if y > 0 {
      RowStartIsProduct(y - 1, w);
      assert (y - 1) * w + w == y * w;
    }
  }

  /** Row y ends no later than any later row n starts. */
  lemma {:induction false} RowStartBelow(y: nat, n: nat, w: nat)
    requires y < n
    ensures RowStart(y, w) + w <= RowStart(n, w)
    decreases n
  {
    if y < n - 1 {
      RowStartBelow(y, n - 1, w);
    }
  }

  /** The rows laid end to end. */
  function Flatten(rows: seq<seq<bv32>>): seq<bv32>
  {
    if rows == [] then [] else Flatten(rows[..|rows| - 1]) + rows[|rows| - 1]
  }

  /** With rows of width w, the flattened buffer holds RowStart(|rows|, w) words. */
  lemma {:induction false} FlattenLength(rows: seq<seq<bv32>>, w: nat)
    requires forall y :: 0 <= y < |rows| ==> |rows[y]| == w
    ensures |Flatten(rows)| == RowStart(|rows|, w)
  {
    if rows != [] {
      FlattenLength(rows[..|rows| - 1], w);
    }
  }

  /** With rows of width w, row y of the flattened buffer occupies the w words from
      RowStart(y, w) on. */
  lemma {:induction false} FlattenRow(rows: seq<seq<bv32>>, w: nat, y: nat)
    requires forall y :: 0 <= y < |rows| ==> |rows[y]| == w
    requires y < |rows|
    ensures RowStart(y, w) + w <= |Flatten(rows)|
    ensures Flatten(rows)[RowStart(y, w)..RowStart(y, w) + w] == rows[y]
  {
    var n := |rows| - 1;
    var front := Flatten(rows[..n]);
    FlattenLength(rows[..n], w);
    if y < n {
      FlattenRow(rows[..n], w, y);
      RowStartBelow(y, n, w);
      assert rows[..n][y] == rows[y];
      assert (front + rows[n])[RowStart(y, w)..RowStart(y, w) + w] == front[RowStart(y, w)..RowStart(y, w) + w];
    } else {
      assert (front + rows[n])[|front|..|front| + w] == rows[n];
    }
  }

  /** With rows of width w, the flattened buffer is the rows laid out at RowStart. */
  lemma FlattenLayout(rows: seq<seq<bv32>>, w: nat)
    requires forall y :: 0 <= y < |rows| ==> |rows[y]| == w
    ensures |Flatten(rows)| == RowStart(|rows|, w)
    ensures forall y: nat :: y < |rows| ==>
      RowStart(y, w) + w <= |Flatten(rows)| && Flatten(rows)[RowStart(y, w)..RowStart(y, w) + w] == rows[y]
  {
    FlattenLength(rows, w);
    forall y: nat | y < |rows|
      ensures RowStart(y, w) + w <= |Flatten(rows)| && Flatten(rows)[RowStart(y, w)..RowStart(y, w) + w] == rows[y]
    {
      FlattenRow(rows, w, y);
    }
  }

  /** The bulk read getRGB(0, 0, width, height, null, 0, width): every pixel, row by row,
      row y occupying the width words from RowStart(y, width) = y * width on
      (RowStartIsProduct). */
  function Pixels(img: Image): (ps: seq<bv32>)
    requires Valid(img)
    ensures |ps| == RowStart(img.height, img.width)
    ensures forall y: nat :: y < img.height ==>
      RowStart(y, img.width) + img.width <= |ps| && ps[RowStart(y, img.width)..RowStart(y, img.width) + img.width] == img.rows[y]
  {
    FlattenLayout(img.rows, img.width);
    Flatten(img.rows)
  }

  /** The buffer holds width * height pixels, the pixel at (x, y) at y * width + x. */
  lemma PixelsRowMajor(img: Image, x: nat, y: nat)
    requires Valid(img) && x < img.width && y < img.height
    ensures |Pixels(img)| == img.height * img.width
    ensures y * img.width + x < |Pixels(img)| && Pixels(img)[y * img.width + x] == PixelAt(img, x, y)
  {
    RowStartIsProduct(img.height, img.width);
    RowStartIsProduct(y, img.width);
    var start := RowStart(y, img.width);
    assert Pixels(img)[start..start + img.width][x] == img.rows[y][x];
  }

  /** getSubimage(x, y, w, h): the w by h window whose top-left corner is (x, y). */
  function SubImage(img: Image, x: int, y: int, w: nat, h: nat): (sub: Image)
    requires Valid(img) && 0 <= x && x + w <= img.width && 0 <= y && y + h <= img.height
    ensures Valid(sub) && sub.width == w && sub.height == h
    ensures forall i, j :: 0 <= i < w && 0 <= j < h ==> PixelAt(sub, i, j) == PixelAt(img, x + i, y + j)
  {
    Image(w, h, seq(h, j requires 0 <= j < h => img.rows[y + j][x..x + w]))
  }

  /** (argb >>> 24) & 0xFF */
  function AlphaOf(p: bv32): (a: int)
    ensures 0 <= a < 256
  {
    ((p >> 24) & 0xFF) as int
  }

  /** (argb >>> 16) & 0xFF */
  function RedOf(p: bv32): (r: int)
    ensures 0 <= r < 256
  {
    ((p >> 16) & 0xFF) as int
  }

  /** (argb >>> 8) & 0xFF */
  function GreenOf(p: bv32): (g: int)
    ensures 0 <= g < 256
  {
    ((p >> 8) & 0xFF) as int
  }

  /** argb & 0xFF */
  function BlueOf(p: bv32): (b: int)
    ensures 0 <= b < 256
  {
    (p & 0xFF) as int
  }
}
