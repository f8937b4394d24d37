/**
 * The pixel store of src/display/mod.rs: a width-by-height grid of RGBA
 * colours with bounds-checked writes and reads, filled with a fixed pattern
 * at start-up and on reset. The grid is indexed [x, y] with x below the
 * width; see `AsWrittenInitLeavesBounds` for the declared shape.
 */
module DisplayStore {
  import opened Wrappers
  import opened Defs
  import Decode

  /** One pixel: red, green, blue and alpha bytes. */
  datatype Color = Color(red: u8, green: u8, blue: u8, alpha: u8)

  /** The start-up colour of pixel (x, y): the coordinates shifted by 100 and cut to a byte, green 100, opaque. */
  function InitColor(x: nat, y: nat): (c: Color)
    ensures c.red == (x + 100) % 0x100 && c.blue == (y + 100) % 0x100
    ensures c.green == 100 && c.alpha == 0xFF
  {
    Color((x + 100) % 0x100, 100, (y + 100) % 0x100, 0xFF)
  }

  /** Writes the start-up pattern into every cell of `a`. */
  method FillInitPattern(a: array2<Color>)
    modifies a
    ensures forall x, y :: 0 <= x < a.Length0 && 0 <= y < a.Length1 ==> a[x, y] == InitColor(x, y)
  {
    for x := 0 to a.Length0
      invariant forall i, j :: 0 <= i < x && 0 <= j < a.Length1 ==> a[i, j] == InitColor(i, j)
    {
      for y := 0 to a.Length1
        invariant forall i, j :: 0 <= i < x && 0 <= j < a.Length1 ==> a[i, j] == InitColor(i, j)
        invariant forall j :: 0 <= j < y ==> a[x, j] == InitColor(x, j)
      {
        a[x, y] := InitColor(x, y);
      }
    }
  }

  /** The display memory; the width and height are the configured display size. */
  class DisplayMemory {
    const width: nat
    const height: nat
    const pixels: array2<Color>

    ghost predicate Valid()
      reads this
    {
      pixels.Length0 == width && pixels.Length1 == height
    }

    /** `init`: every pixel (x, y) holds its start-up colour. */
    constructor(displayWidth: nat, displayHeight: nat)
      ensures Valid() && width == displayWidth && height == displayHeight
      ensures fresh(pixels)
      ensures forall x, y :: 0 <= x < width && 0 <= y < height ==> pixels[x, y] == InitColor(x, y)
    {
      width := displayWidth;
      height := displayHeight;
      pixels := new Color[displayWidth, displayHeight];
      new;
      FillInitPattern(pixels);
    }

    /** The colour at (x, y), or a Display error naming the first coordinate out of range, x before y. */
    function GetPixel(x: u16, y: u16): (r: Result<Color, RizeError>)
      requires Valid()
      reads this, pixels
      ensures r.Ok? <==> x < width && y < height
      ensures r.Ok? ==> r.value == pixels[x, y]
      ensures x >= width ==> r == Err(RizeError.Display("X coordinate " + Decode.DecimalString(x) + " out of bounds"))
      ensures x < width && y >= height ==> r == Err(RizeError.Display("Y coordinate " + Decode.DecimalString(y) + " out of bounds"))
    {
      if x >= width then Err(RizeError.Display("X coordinate " + Decode.DecimalString(x) + " out of bounds"))
      else if y >= height then Err(RizeError.Display("Y coordinate " + Decode.DecimalString(y) + " out of bounds"))
      else Ok(pixels[x, y])
    }

    /**
     * `set_pixel`: x is checked against the width first, then y against the
     * height; a failing call changes nothing, a successful one changes
     * exactly pixel (x, y), which reads back as `color`.
     */
    method SetPixel(x: u8, y: u8, color: Color) returns (r: Result<(), RizeError>)
      requires Valid()
      modifies pixels
      ensures r.Ok? <==> x < width && y < height
      ensures x >= width ==> r == Err(RizeError.Display("X coordinate " + Decode.DecimalString(x) + " out of bounds (width is " + Decode.DecimalString(width) + ")"))
      ensures x < width && y >= height ==> r == Err(RizeError.Display("Y coordinate " + Decode.DecimalString(y) + " out of bounds (height is " + Decode.DecimalString(height) + ")"))
      ensures r.Ok? ==> GetPixel(x, y) == Ok(color)
      ensures forall i, j :: 0 <= i < width && 0 <= j < height && (i != x || j != y) ==> pixels[i, j] == old(pixels[i, j])
    {
      if x >= width {
        return Err(RizeError.Display("X coordinate " + Decode.DecimalString(x) + " out of bounds (width is " + Decode.DecimalString(width) + ")"));
      }
      if y >= height {
        return Err(RizeError.Display("Y coordinate " + Decode.DecimalString(y) + " out of bounds (height is " + Decode.DecimalString(height) + ")"));
      }
      pixels[x, y] := color;
      return Ok(());
    }

    /** `reset_display`: every pixel is back to its start-up colour. */
    method ResetDisplay()
      requires Valid()
      modifies pixels
      ensures forall x, y :: 0 <= x < width && 0 <= y < height ==> pixels[x, y] == InitColor(x, y)
    {
      FillInitPattern(pixels);
    }
  }

  /**
   * As declared, the pixel grid is an array of `height` rows of `width`
   * cells, and it is indexed [x][y]: a cell exists for (x, y) only when x is
   * below the height and y below the width.
   */
  predicate AsWrittenCellExists(width: nat, height: nat, x: nat, y: nat)
  {
    x < height && y < width
  }

  /**
   * With a non-empty display whose width and height differ, the start-up
   * loop (x below the width, y below the height) and `set_pixel` after its
   * bounds checks reach a cell the declared grid does not have.
   */
  lemma AsWrittenInitLeavesBounds(width: nat, height: nat)
    requires 0 < width && 0 < height && width != height
    ensures exists x: nat, y: nat :: x < width && y < height && !AsWrittenCellExists(width, height, x, y)
  {
    if width > height {
      assert !AsWrittenCellExists(width, height, height, 0);
    } else {
      assert !AsWrittenCellExists(width, height, 0, width);
    }
  }

  /** The as-written grid has every cell the loops and the checks reach exactly when the display is square. */
  lemma AsWrittenSafeWhenSquare(width: nat, height: nat)
    requires width == height
    ensures forall x: nat, y: nat :: x < width && y < height ==> AsWrittenCellExists(width, height, x, y)
  {
  }

  /** A 2-by-1 display: `init` reaches (1, 0), which the declared one-row grid does not hold. */
  lemma AsWrittenTwoByOne()
    ensures !AsWrittenCellExists(2, 1, 1, 0)
  {
  }
}
