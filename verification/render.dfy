/**
 * `RenderSystem`: each sprite is drawn between its previous and current
 * positions, interpolated by the alpha the scheduler hands in.
 */
module Render {
  import opened Wrappers
  import opened Components

  /** The alpha a render system starts with, before any scheduler sets one. */
  const DEFAULT_ALPHA: real := 1.0

  /** A draw call: the texture, the interpolated corner, and the unchanged size. */
  datatype Draw = Draw(texture: Texture, x: real, y: real, width: real, height: real)

  /** `previous + (current - previous) * alpha`, on one axis. */
  function Lerp(previous: real, current: real, alpha: real): (r: real)
    ensures alpha == 0.0 ==> r == previous
    ensures alpha == 1.0 ==> r == current
  {
    previous + (current - previous) * alpha
  }

  /** `process`: a sprite with no texture is not drawn. */
  function Process(sprite: Sprite, size: Size, position: Position, alpha: real): (d: Option<Draw>)
    ensures d.None? <==> sprite.texture.None?
    ensures d.Some? ==>
              d.value.texture == sprite.texture.value && d.value.width == size.width && d.value.height == size.height
    ensures d.Some? ==>
              d.value.x == Lerp(position.previous.x, position.current.x, alpha)
              && d.value.y == Lerp(position.previous.y, position.current.y, alpha)
  {
    match sprite.texture
    case None => None
    case Some(t) =>
      Some(Draw(t, Lerp(position.previous.x, position.current.x, alpha),
                Lerp(position.previous.y, position.current.y, alpha), size.width, size.height))
  }

  /** For alpha in [0, 1] the drawn coordinate lies between previous and current. */
  lemma LerpBetween(previous: real, current: real, alpha: real)
    requires 0.0 <= alpha <= 1.0
    ensures previous <= current ==> previous <= Lerp(previous, current, alpha) <= current
    ensures current <= previous ==> current <= Lerp(previous, current, alpha) <= previous
  {
    var d := current - previous;
    if d >= 0.0 {
      assert 0.0 <= d * alpha <= d * 1.0;
    } else {
      assert d * 1.0 <= d * alpha <= 0.0;
    }
  }

  /** Without a scheduler the system draws at the current position. */
  lemma DefaultAlphaDrawsCurrent(sprite: Sprite, size: Size, position: Position)
    requires sprite.texture.Some?
    ensures Process(sprite, size, position, DEFAULT_ALPHA)
         == Some(Draw(sprite.texture.value, position.current.x, position.current.y, size.width, size.height))
  {
  }
}
