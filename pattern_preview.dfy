/**
 * The pure arithmetic of the pattern select button's previews: the
 * bytes-per-pixel to image-type map used before drawing, the GLib CLAMP
 * macro and the placement of the enlarged popup preview.
 */
module PatternPreview {
  import opened Wrappers
  import opened PatternPayload

  /** Side of the square button preview; larger patterns get a popup. */
  const CELL_SIZE := 20

  datatype ImageType = GrayImage | GrayAImage | RgbImage | RgbaImage

  /** Bytes per pixel of each image type. */
  function Channels(t: ImageType): (n: nat)
    ensures 1 <= n <= 4
  {
    match t
    case GrayImage => 1
    case GrayAImage => 2
    case RgbImage => 3
    case RgbaImage => 4
  }

  /**
   * The image type a pattern with `bytes` bytes per pixel is drawn as;
   * None for every other count, which draws nothing.
   */
  function ImageTypeOf(bytes: int): (r: Option<ImageType>)
    ensures r.Some? <==> 1 <= bytes <= 4
    ensures r.Some? ==> Channels(r.value) == bytes
  {
    if bytes == 1 then Some(GrayImage)
    else if bytes == 2 then Some(GrayAImage)
    else if bytes == 3 then Some(RgbImage)
    else if bytes == 4 then Some(RgbaImage)
    else None
  }

  /** The map is the inverse of Channels. */
  lemma ImageTypeOfChannels(t: ImageType)
    ensures ImageTypeOf(Channels(t)) == Some(t)
  {
  }

  /** One call of gimp_preview_area_draw: area, type, pixels and rowstride. */
  datatype Draw = Draw(x: int, y: int, width: int, height: int,
                       imageType: ImageType, data: Option<Bytes>, rowstride: int)

  /**
   * What drawing a width x height pattern of `bytes` bytes per pixel does:
   * nothing for an unknown pixel size, otherwise one draw of the whole
   * area from the origin with rows of width * bytes bytes.
   */
  function PreviewUpdate(width: int, height: int, bytes: int, data: Option<Bytes>): (r: seq<Draw>)
    ensures |r| <= 1
    ensures |r| == 1 <==> 1 <= bytes <= 4
    ensures |r| == 1 ==> r[0].x == 0 && r[0].y == 0 && r[0].width == width && r[0].height == height
    ensures |r| == 1 ==> Channels(r[0].imageType) == bytes && r[0].data == data
    ensures |r| == 1 ==> r[0].rowstride == r[0].width * Channels(r[0].imageType)
  {
    match ImageTypeOf(bytes)
    case None => []
    case Some(t) => [Draw(0, 0, width, height, t, data, width * bytes)]
  }

  /**
   * GLib's CLAMP(x, low, high): high when x > high, else low when x < low,
   * else x. When high < low it yields high exactly when x > high and low
   * otherwise.
   */
  function Clamp(x: int, low: int, high: int): (r: int)
    ensures low <= high ==> low <= r <= high
    ensures low <= x <= high ==> r == x
    ensures low <= high && x < low ==> r == low
    ensures x > high ==> r == high
    ensures high < low ==> (r == high <==> x > high) && (r == low <==> x <= high)
  {
    if x > high then high else if x < low then low else x
  }

  /** C's integer division by two, which truncates toward zero. */
  function Half(n: int): (r: int)
    ensures n >= 0 ==> 0 <= r && (n == 2 * r || n == 2 * r + 1)
    ensures n < 0 ==> r <= 0 && (n == 2 * r || n == 2 * r - 1)
  {
    if n >= 0 then n / 2 else -((-n) / 2)
  }

  /** A rectangle of the screen, such as a monitor's work area. */
  datatype Rect = Rect(x: int, y: int, width: int, height: int)

  /**
   * The popup's coordinate on one axis: centred on the pointer (given
   * relative to the preview, whose origin is `org`), then clamped to the
   * work area. A popup that fits stays inside the work area; one that is
   * wider than the work area covers it, flush with its near or far edge.
   */
  function PopupAxis(org: int, pointer: int, size: int, areaOrg: int, areaSize: int): (r: int)
    requires size >= 0
    ensures size <= areaSize ==> areaOrg <= r && r + size <= areaOrg + areaSize
    ensures var c := org + pointer - Half(size);
      areaOrg <= c && c + size <= areaOrg + areaSize ==> r == c
    ensures size <= areaSize && areaOrg <= org + pointer <= areaOrg + areaSize ==>
              r <= org + pointer <= r + size
    ensures size > areaSize ==> r <= areaOrg && areaOrg + areaSize <= r + size
    ensures size > areaSize ==> r == areaOrg || r + size == areaOrg + areaSize
  {
    Clamp(org + pointer - Half(size), areaOrg, areaOrg + areaSize - size)
  }

  /**
   * A 1000 pixel wide pattern on an 800 pixel wide work area opens flush
   * with the far edge when the pointer is right of x = 300 and flush with
   * the near edge otherwise.
   */
  lemma PopupWiderThanArea()
    ensures PopupAxis(0, 700, 1000, 0, 800) == -200
    ensures PopupAxis(0, 100, 1000, 0, 800) == 0
  {
    assert Half(1000) == 500;
    assert Clamp(200, 0, -200) == -200;
    assert Clamp(-400, 0, -200) == 0;
  }
}
