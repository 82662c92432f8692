/** The 600 x 600 offscreen image the sphere is drawn into, indexed
    screen[x, y], and its single write operation. */
module Canvas {

  const Width := 600
  const Height := 600

  type Byte = x: int | 0 <= x < 256

  datatype RGBA = RGBA(r: Byte, g: Byte, b: Byte, a: Byte)

  /** The outline colour. */
  const White := RGBA(255, 255, 255, 255)

  /** A projected vertex in screen coordinates. */
  datatype Vec2 = Vec2(x: real, y: real)

  predicate InBounds(x: int, y: int)
  {
    0 <= x < Width && 0 <= y < Height
  }

  predicate IsScreen(screen: array2<RGBA>)
  {
    screen.Length0 == Width && screen.Length1 == Height
  }

  /** The image's pixel write: a pixel outside the image is silently
      ignored, every other pixel keeps its colour. */
  method SetPixel(screen: array2<RGBA>, x: int, y: int, c: RGBA)
    requires IsScreen(screen)
    modifies screen
    ensures forall a, b :: InBounds(a, b) ==>
              screen[a, b] == if a == x && b == y then c else old(screen[a, b])
  {
    if InBounds(x, y) {
      screen[x, y] := c;
    }
  }
}
