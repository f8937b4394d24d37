/**
 * The older pixel store of src/interpreter/display/mod.rs: a fixed 256-by-256
 * grid of RGBA colours addressed by byte coordinates.
 */
module LegacyDisplay {
  import opened Wrappers
  import opened Defs
  import Decode
  import opened DisplayStore

  const SIDE: nat := 256

  /** The start-up colour of pixel (x, y): red x, green 0, blue y, opaque. */
  function LegacyInitColor(x: u8, y: u8): (c: Color)
    ensures c.red == x && c.green == 0 && c.blue == y && c.alpha == 0xFF
  {
    Color(x, 0, y, 0xFF)
  }

  class DisplayMemory {
    const pixels: array2<Color>

    ghost predicate Valid()
      reads this
    {
      pixels.Length0 == SIDE && pixels.Length1 == SIDE
    }

    /** `init`: every pixel (x, y) holds [x, 0, y, 255]. */
    constructor()
      ensures Valid() && fresh(pixels)
      ensures forall x: u8, y: u8 :: pixels[x, y] == LegacyInitColor(x, y)
    {
      var a := new Color[SIDE, SIDE];
      for x := 0 to SIDE
        invariant forall i: u8, j: u8 :: i < x ==> a[i, j] == LegacyInitColor(i, j)
      {
        for y := 0 to SIDE
          invariant forall i: u8, j: u8 :: i < x ==> a[i, j] == LegacyInitColor(i, j)
          invariant forall j: u8 :: j < y ==> a[x, j] == LegacyInitColor(x, j)
        {
          a[x, y] := LegacyInitColor(x, y);
        }
      }
      pixels := a;
    }

    /** The colour at (x, y), or a Display error for x (checked first) or y beyond 255. */
    function GetPixel(x: u16, y: u16): (r: Result<Color, RizeError>)
      requires Valid()
      reads this, pixels
      ensures r.Ok? <==> x < SIDE && y < SIDE
      ensures r.Ok? ==> r.value == pixels[x, y]
      ensures x >= SIDE ==> r == Err(RizeError.Display("X coordinate " + Decode.DecimalString(x) + " out of bounds"))
      ensures x < SIDE && y >= SIDE ==> r == Err(RizeError.Display("Y coordinate " + Decode.DecimalString(y) + " out of bounds"))
    {
      if x >= SIDE then Err(RizeError.Display("X coordinate " + Decode.DecimalString(x) + " out of bounds"))
      else if y >= SIDE then Err(RizeError.Display("Y coordinate " + Decode.DecimalString(y) + " out of bounds"))
      else Ok(pixels[x, y])
    }

    /**
     * `set_pixel`: byte coordinates are always on the grid, so the call
     * always succeeds; it overwrites pixel (x, y) and no other.
     */
    method SetPixel(x: u8, y: u8, color: Color) returns (r: Result<(), RizeError>)
      requires Valid()
      modifies pixels
      ensures r == Ok(())
      ensures GetPixel(x, y) == Ok(color)
      ensures forall i: u16, j: u16 :: (i != x || j != y) ==> GetPixel(i, j) == old(GetPixel(i, j))
    {
      pixels[x, y] := color;
      return Ok(());
    }
  }
}
