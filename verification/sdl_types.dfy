/** The two SDL types the core passes around without interpreting. */
module SdlTypes {

  /** `SDL_Rect`: position and size in pixels. */
  datatype Rect = Rect(x: int, y: int, w: int, h: int)

  /** Identity of a loaded image (`SDL_Surface*`); the core never looks
      inside one. */
  type ImageId = nat
}
