/** The per-pixel colour tests behind the detectors' masks, on one pixel
    already converted to OpenCV's hue/saturation/value scale (hue 0..179,
    saturation and value 0..255). Every band is inclusive at both ends. */
module ColourMasks {

  datatype Hsv = Hsv(h: int, s: int, v: int)

  /** An inclusive box in HSV space, as passed to `inRange`. */
  datatype Band = Band(lo: Hsv, hi: Hsv)

  predicate InBand(p: Hsv, b: Band) {
    && b.lo.h <= p.h <= b.hi.h
    && b.lo.s <= p.s <= b.hi.s
    && b.lo.v <= p.v <= b.hi.v
  }

  // Avatar colours: two body hues plus red and cyan accents.
  const AvatarBlue: Band := Band(Hsv(95, 150, 100), Hsv(125, 255, 255))
  const AvatarYellow: Band := Band(Hsv(95, 160, 200), Hsv(105, 185, 255))
  const AvatarRed: Band := Band(Hsv(5, 200, 200), Hsv(15, 255, 255))
  const AvatarCyan: Band := Band(Hsv(15, 100, 200), Hsv(25, 130, 255))

  // Pipe green, and the background look-alike removed from it.
  const PipeGreen: Band := Band(Hsv(36, 85, 84), Hsv(75, 187, 253))
  const Background: Band := Band(Hsv(60, 29, 200), Hsv(80, 157, 252))

  // Game-over banner orange.
  const BannerOrange: Band := Band(Hsv(10, 100, 100), Hsv(25, 255, 255))

  /** A pixel of the avatar mask: the union of the four avatar bands. */
  predicate AvatarPixel(p: Hsv) {
    InBand(p, AvatarBlue) || InBand(p, AvatarYellow) || InBand(p, AvatarRed) || InBand(p, AvatarCyan)
  }

  /** A pixel of the pipe mask: green and not background. */
  predicate PipePixel(p: Hsv) {
    InBand(p, PipeGreen) && !InBand(p, Background)
  }

  /** A pixel of the game-over mask. */
  predicate BannerPixel(p: Hsv) {
    InBand(p, BannerOrange)
  }

  /** The yellow band lies inside the blue band, so the avatar mask is the
      union of the other three bands alone. */
  lemma AvatarYellowRedundant(p: Hsv)
    ensures InBand(p, AvatarYellow) ==> InBand(p, AvatarBlue)
    ensures AvatarPixel(p) <==> InBand(p, AvatarBlue) || InBand(p, AvatarRed) || InBand(p, AvatarCyan)
  {
  }

  /** Within the green band, removing the background leaves exactly the
      pixels with hue below 60, saturation above 157, or value outside
      200..252: the background's other limits never bite. */
  lemma PipePixelIff(p: Hsv)
    ensures PipePixel(p) <==> InBand(p, PipeGreen) && (p.h < 60 || p.s > 157 || p.v < 200 || p.v > 252)
  {
  }

  /** Banner orange and pipe green share no pixel: the orange hues end at
      25 and the green ones start at 36. */
  lemma BannerIsNeverPipe(p: Hsv)
    ensures BannerPixel(p) ==> !PipePixel(p) && !InBand(p, PipeGreen)
    ensures BannerPixel(p) <==> 10 <= p.h <= 25 && 100 <= p.s <= 255 && 100 <= p.v <= 255
  {
  }

  /** Every cyan avatar accent pixel, and every red accent pixel with hue
      from 10, is also banner orange; the blue body never is. */
  lemma AvatarAccentsLookLikeBanner(p: Hsv)
    ensures InBand(p, AvatarCyan) ==> BannerPixel(p)
    ensures InBand(p, AvatarRed) && p.h >= 10 ==> BannerPixel(p)
    ensures InBand(p, AvatarBlue) ==> !BannerPixel(p)
  {
  }
}
