/** The values the point-cloud toolkit passes around: pixels, images, camera intrinsics, points, errors. */
module CloudTypes {
  import opened Geometry

  /** A colour pixel of an RGB image. */
  datatype Rgb = Rgb(r: int, g: int, b: int)

  /** One output point: its coordinates and the colour of the pixel it came from.
      The text form "x y z r g b 0" of a point is not modelled. */
  datatype Point = Point(pos: Vec3, color: Rgb)

  /** Pinhole intrinsics and the factor that turns raw depth units into metres. */
  datatype Camera = Camera(fx: real, fy: real, cx: real, cy: real, scalingfactor: real) {
    /** The focal lengths are divisors of the pinhole formula. */
    predicate Valid() {
      fx != 0.0 && fy != 0.0
    }
  }

  /** An image as the imaging library presents it: its size (width, height), its mode name
      ("RGB", "I", "I;16", "L", ...) and its pixels, row v holding the pixels (u, v). */
  datatype Image<P> = Image(width: nat, height: nat, mode: string, pixels: seq<seq<P>>) {
    predicate Valid() {
      |pixels| == height && forall v :: 0 <= v < height ==> |pixels[v]| == width
    }

    /** The pixel at column u of row v (getpixel((u, v))). */
    function At(u: nat, v: nat): P
      requires Valid() && u < width && v < height
    {
      pixels[v][u]
    }
  }

  predicate SameSize<A, B>(a: Image<A>, b: Image<B>) {
    a.width == b.width && a.height == b.height
  }

  /** Every pixel position of b is a pixel position of a. */
  predicate Covers<A, B>(a: Image<A>, b: Image<B>) {
    a.width >= b.width && a.height >= b.height
  }

  /** The pixel grid position (u, v): column u of row v. */
  datatype Pixel = Pixel(u: nat, v: nat)

  /** The exceptions the toolkit raises, one per distinct check. */
  datatype Error =
    | InvalidPoseFormat       // a pose that is not 7 values
    | ZeroNormQuaternion      // a pose whose quaternion part has norm 0
    | DimensionMismatch       // colour and depth images of different size
    | InvalidColorFormat      // colour image not in mode "RGB"
    | InvalidDepthFormat      // depth image not in the expected intensity mode
    | InvalidMaskFormat       // mask image not in mode "L"
    | SequenceLengthMismatch  // pose, colour, depth (and mask) lists of different lengths

  datatype Result<T> = Ok(value: T) | Err(error: Error)

  datatype Option<T> = None | Some(value: T)
}
