/** Pictures as the handler holds them. Pixel values are not modelled: what matters is an
    image's size and colour mode, whether Pillow has read its pixels yet, and which download
    it came from. */
module Imaging {
  import opened Options

  /** An image: its size, its Pillow mode ("RGB", "RGBA", "L", "P", ...), whether its pixel
      data has been read, and the downloaded file it came from. `Image.open` reads only the
      header, so a freshly opened image is not `loaded`. `source` identifies the picture; it
      is not the pixel data Pillow holds. */
  datatype Image = Image(width: nat, height: nat, mode: string, loaded: bool, source: seq<bv8>)

  /** `img.convert('RGB')` when the mode is not already RGB, else the image itself.
      Converting reads the pixels; the colour conversion itself is Pillow's and is not modelled. */
  function AsRgb(img: Image): (r: Image)
    ensures r.mode == "RGB"
    ensures r.width == img.width && r.height == img.height && r.source == img.source
    ensures img.mode == "RGB" ==> r == img
    ensures img.mode != "RGB" ==> r.loaded
  {
    if img.mode == "RGB" then img else img.(mode := "RGB", loaded := true)
  }

  /** Reading the image's pixels would raise now: they are still unread and `decode`, the
      outcome of reading that file's pixel data, is an error. */
  predicate Undecodable(img: Image, decode: Image -> Option<string>) {
    !img.loaded && decode(img).Some?
  }

  /** The resize loop reads each image's pixels in turn: the first image for which that raises. */
  function FirstUndecodable(images: seq<Image>, decode: Image -> Option<string>): (r: Option<nat>)
    ensures r.Some? ==>
      && r.value < |images|
      && Undecodable(images[r.value], decode)
      && forall j :: 0 <= j < r.value ==> !Undecodable(images[j], decode)
    ensures r.None? ==> forall j :: 0 <= j < |images| ==> !Undecodable(images[j], decode)
  {
    if images == [] then None
    else if Undecodable(images[0], decode) then Some(0)
    else
      match FirstUndecodable(images[1..], decode)
      case None => None
      case Some(k) => Some(k + 1)
  }

}
