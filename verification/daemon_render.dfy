/**
 * `ImageRenderer` of `sw_daemon/render/wallpaper.py`: the loaded source
 * image, the cover-and-crop geometry that fits it to an output, the
 * RGBA-to-BGRA channel swap, and the copy into a buffer.  Decoding a file
 * is the parameter `decoded` (what `Image.open(path).convert("RGBA")` gave),
 * and the Lanczos resampling is the parameter `resample`; the geometry is
 * stated in exact arithmetic.
 */
module DaemonRender {
  import opened Base

  type Byte = b: int | 0 <= b < 256

  datatype Pixel = Pixel(r: Byte, g: Byte, b: Byte, a: Byte)

  /** A raster: its size and the pixel at each column and row. */
  datatype Image = Image(width: nat, height: nat, at: (nat, nat) -> Pixel)

  /** An image a file decodes to; decoders give no image without pixels. */
  type Raster = i: Image | i.width > 0 && i.height > 0 witness Image(1, 1, (x, y) => Pixel(0, 0, 0, 0))

  /** `src_image`, `current_width` and `current_height`. */
  datatype Renderer = Renderer(src: Option<Raster>, currentWidth: nat, currentHeight: nat)

  /** A new renderer has no image and a zero size. */
  const Initial := Renderer(None, 0, 0)

  /**
   * `load_image`: a file that does not decode re-raises and leaves the
   * renderer as it was; one that does becomes the source, with its size.
   */
  function LoadImage(rd: Renderer, decoded: Result<Raster, string>): (r: Result<Renderer, string>)
    ensures decoded.Err? <==> r.Err?
    ensures r.Err? ==> r.error == decoded.error
    ensures r.Ok? ==> r.value.src == Some(decoded.value) &&
                      r.value.currentWidth == decoded.value.width && r.value.currentHeight == decoded.value.height
  {
    match decoded
    case Err(e) => Err(e)
    case Ok(img) => Ok(Renderer(Some(img), img.width, img.height))
  }

  // ---- geometry ----

  /** `tw / sw >= th / sh`, without division. */
  predicate WidthRules(sw: nat, sh: nat, tw: nat, th: nat) {
    tw * sh >= th * sw
  }

  /** `n` is the floor of `a / q`. */
  predicate IsFloor(n: int, a: int, q: int) {
    n * q <= a < (n + 1) * q
  }

  /**
   * The size `_resize_and_crop` scales to: `int(s * scale)` for both sides,
   * `scale = max(tw / sw, th / sh)` being the ratio `p / q`.
   */
  function ScaledSize(sw: nat, sh: nat, tw: nat, th: nat): (r: (nat, nat))
    requires sw > 0 && sh > 0
    ensures var (p, q) := if WidthRules(sw, sh, tw, th) then (tw, sw) else (th, sh);
            IsFloor(r.0, sw * p, q) && IsFloor(r.1, sh * p, q)
    ensures r.0 >= tw && r.1 >= th
    ensures r.0 == tw || r.1 == th
  {
    if WidthRules(sw, sh, tw, th) then
      ExactSide(sw, tw);
      FloorSide(sh, tw, sw, th);
      (tw, (sh * tw) / sw)
    else
      ExactSide(sh, th);
      FloorSide(sw, th, sh, tw);
      ((sw * th) / sh, th)
  }

  /** The side whose ratio wins is scaled exactly onto the target. */
  lemma ExactSide(q: nat, p: nat)
    requires q > 0
    ensures IsFloor(p, q * p, q)
  {
    assert (p + 1) * q == p * q + q;
    assert q * p == p * q;
  }

  /** The other side is floored, and still reaches the target when `s * p >= t * q`. */
  lemma FloorSide(s: nat, p: nat, q: nat, t: nat)
    requires q > 0 && (s * p >= t * q || p * s >= t * q)
    ensures IsFloor((s * p) / q, s * p, q)
    ensures (s * p) / q >= t
  {
    var n := (s * p) / q;
    var m := (s * p) % q;
    assert s * p == q * n + m && 0 <= m < q;
    assert n * q == q * n;
    assert (n + 1) * q == n * q + q;
    assert p * s == s * p;
    assert (t - (n + 1)) * q == t * q - (n + 1) * q;
    NegativeFactor(t - (n + 1), q);
  }

  lemma NegativeFactor(x: int, q: int)
    requires q > 0 && x * q < 0
    ensures x < 0
  {
  }

  /** The crop box `(left, top, right, bottom)`: centred, with the target's size, inside the scaled image. */
  function CropBox(newW: nat, newH: nat, tw: nat, th: nat): (r: (nat, nat, nat, nat))
    requires newW >= tw && newH >= th
    ensures r.2 - r.0 == tw && r.3 - r.1 == th
    ensures r.0 <= r.2 <= newW && r.1 <= r.3 <= newH
    ensures 0 <= (newW - r.2) - r.0 <= 1 && 0 <= (newH - r.3) - r.1 <= 1
  {
    var left := (newW - tw) / 2;
    var top := (newH - th) / 2;
    (left, top, left + tw, top + th)
  }

  /** `_resize_and_crop`: scale to cover, then cut the centred target-sized box out. */
  function ResizeAndCrop(src: Raster, tw: nat, th: nat, resample: (Image, nat, nat) -> ((nat, nat) -> Pixel))
    : (r: Image)
    ensures r.width == tw && r.height == th
    ensures var (nw, nh) := ScaledSize(src.width, src.height, tw, th);
            var box := CropBox(nw, nh, tw, th);
            forall x: nat, y: nat :: r.at(x, y) == resample(src, nw, nh)(box.0 + x, box.1 + y)
  {
    var (nw, nh) := ScaledSize(src.width, src.height, tw, th);
    var box := CropBox(nw, nh, tw, th);
    var scaled := resample(src, nw, nh);
    Image(tw, th, (x: nat, y: nat) => scaled(box.0 + x, box.1 + y))
  }

  // ---- pixel format ----

  function SwapRB(p: Pixel): Pixel {
    Pixel(p.b, p.g, p.r, p.a)
  }

  /** `_convert_to_bgra_bytes` before serialising: the red and blue channels trade places. */
  function ConvertToBgra(img: Image): (r: Image)
    ensures r.width == img.width && r.height == img.height
    ensures forall x: nat, y: nat :: r.at(x, y).r == img.at(x, y).b && r.at(x, y).b == img.at(x, y).r &&
                                     r.at(x, y).g == img.at(x, y).g && r.at(x, y).a == img.at(x, y).a
  {
    Image(img.width, img.height, (x: nat, y: nat) => SwapRB(img.at(x, y)))
  }

  /** Swapping the channels twice gives every pixel back. */
  lemma ConvertTwice(img: Image, x: nat, y: nat)
    ensures ConvertToBgra(ConvertToBgra(img)).at(x, y) == img.at(x, y)
  {
  }

  /** The pixels in `tobytes` order: row by row, left to right. */
  function Pixels(img: Image): (r: seq<Pixel>)
    ensures |r| == img.width * img.height
    ensures forall k :: 0 <= k < |r| ==> r[k] == img.at(k % img.width, k / img.width)
  {
    if img.width == 0 then []
    else
      var n := img.width * img.height;
      seq(n, k requires 0 <= k < n => img.at(k % img.width, k / img.width))
  }

  /** Four bytes per pixel, in the image's channel order. */
  function Serialise(ps: seq<Pixel>): (r: seq<Byte>)
    ensures |r| == 4 * |ps|
    ensures forall k :: 0 <= k < |ps| ==>
              r[4 * k] == ps[k].r && r[4 * k + 1] == ps[k].g && r[4 * k + 2] == ps[k].b && r[4 * k + 3] == ps[k].a
  {
    if ps == [] then []
    else
      var rest := Serialise(ps[1..]);
      var head := [ps[0].r, ps[0].g, ps[0].b, ps[0].a];
      var r := head + rest;
      forall k | 1 <= k < |ps|
        ensures r[4 * k] == ps[k].r && r[4 * k + 1] == ps[k].g && r[4 * k + 2] == ps[k].b && r[4 * k + 3] == ps[k].a
      {
        var j := k - 1;
        assert ps[k] == ps[1..][j];
        assert 4 * k == 4 + 4 * j;
        assert r[4 + 4 * j] == rest[4 * j] && r[4 + 4 * j + 1] == rest[4 * j + 1];
        assert r[4 + 4 * j + 2] == rest[4 * j + 2] && r[4 + 4 * j + 3] == rest[4 * j + 3];
      }
      r
  }

  /** `_convert_to_bgra_bytes`: each pixel, in `tobytes` order, as blue, green, red, alpha. */
  function BgraBytes(img: Image): (r: seq<Byte>)
    ensures |r| == 4 * |Pixels(img)|
    ensures forall k :: 0 <= k < |Pixels(img)| ==>
              var p := Pixels(img)[k];
              r[4 * k] == p.b && r[4 * k + 1] == p.g && r[4 * k + 2] == p.r && r[4 * k + 3] == p.a
  {
    var ps := Pixels(ConvertToBgra(img));
    var r := Serialise(ps);
    forall k | 0 <= k < |Pixels(img)|
      ensures var p := Pixels(img)[k];
              r[4 * k] == p.b && r[4 * k + 1] == p.g && r[4 * k + 2] == p.r && r[4 * k + 3] == p.a
    {
      assert ps[k] == SwapRB(Pixels(img)[k]);
    }
    r
  }

  /** The frame the renderer draws at a size: the covered, cropped source in BGRA. */
  function Frame(src: Raster, width: nat, height: nat, resample: (Image, nat, nat) -> ((nat, nat) -> Pixel))
    : (r: seq<Byte>)
    ensures |r| == 4 * width * height
  {
    var img := ResizeAndCrop(src, width, height, resample);
    BgraLength(img);
    BgraBytes(img)
  }

  lemma BgraLength(img: Image)
    ensures |BgraBytes(img)| == 4 * img.width * img.height
  {
    var n := |Pixels(img)|;
    assert n == img.width * img.height;
    assert 4 * n == 4 * img.width * img.height;
  }

  /**
   * `copy_to_buffer`: without an image nothing is written and the answer is
   * `false`; otherwise the frame overwrites the start of the buffer, which
   * `memmove` requires to be long enough.
   */
  function CopyToBuffer(rd: Renderer, buffer: seq<Byte>, width: nat, height: nat,
                        resample: (Image, nat, nat) -> ((nat, nat) -> Pixel))
    : (r: (bool, seq<Byte>))
    requires rd.src.Some? ==> 4 * width * height <= |buffer|
    ensures r.0 <==> rd.src.Some?
    ensures rd.src.None? ==> r.1 == buffer
    ensures |r.1| == |buffer|
    ensures rd.src.Some? ==> r.1[..4 * width * height] == Frame(rd.src.value, width, height, resample) &&
                             r.1[4 * width * height..] == buffer[4 * width * height..]
  {
    match rd.src
    case None => (false, buffer)
    case Some(img) =>
      var data := Frame(img, width, height, resample);
      (true, data + buffer[|data|..])
  }

  /** A renderer that loaded an image copies the frame of that image. */
  lemma LoadThenCopy(rd: Renderer, img: Raster, buffer: seq<Byte>, width: nat, height: nat,
                     resample: (Image, nat, nat) -> ((nat, nat) -> Pixel))
    requires 4 * width * height <= |buffer|
    ensures var loaded := LoadImage(rd, Ok(img)).value;
            CopyToBuffer(loaded, buffer, width, height, resample).0 &&
            CopyToBuffer(loaded, buffer, width, height, resample).1[..4 * width * height] == Frame(img, width, height, resample)
  {
  }
}
