/// The glyph remap of crystalvm/build.rs: a 128x128 font image of 16x16 glyph cells,
/// each 8x8 pixels, is rewritten glyph after glyph so that the 64 bytes of glyph c
/// sit at c*64 .. c*64+63, row by row.
module FontAtlas {
  import opened Bits

  const GRID: nat := 16
  const CELL: nat := 8
  const ATLAS_SIZE: nat := 256 * 8 * 8

  /// Where the build script puts pixel (dx, dy) of the glyph in cell (cx, cy).
  function AtlasIndex(cx: nat, cy: nat, dx: nat, dy: nat): nat
  {
    (cy * GRID + cx) * 64 + dy * CELL + dx
  }

  /// The cell and in-cell position an atlas byte comes from.
  function Source(i: nat): (r: (nat, nat, nat, nat))
    ensures r.0 < GRID && r.2 < CELL && r.3 < CELL
  {
    ((i / 64) % GRID, i / 1024, i % CELL, (i / CELL) % CELL)
  }

  /// Every cell position lands on one byte of the atlas, and comes back from it.
  lemma SourceOfIndex(cx: nat, cy: nat, dx: nat, dy: nat)
    requires cx < GRID && cy < GRID && dx < CELL && dy < CELL
    ensures AtlasIndex(cx, cy, dx, dy) < ATLAS_SIZE
    ensures Source(AtlasIndex(cx, cy, dx, dy)) == (cx, cy, dx, dy)
  {
    var i := AtlasIndex(cx, cy, dx, dy);
    assert i == ((cy * GRID + cx) * CELL + dy) * CELL + dx;
    assert i % CELL == dx && i / CELL == (cy * GRID + cx) * CELL + dy;
    assert (i / CELL) % CELL == dy;
    assert i / 64 == (i / CELL) / CELL == cy * GRID + cx;
    assert (i / 64) % GRID == cx;
    assert i / 1024 == (i / 64) / GRID == cy;
  }

  /// Every atlas byte is written from exactly the cell position `Source` names: the
  /// index map is onto 0 .. 16384, so no byte is skipped or written twice.
  lemma IndexOfSource(i: nat)
    requires i < ATLAS_SIZE
    ensures var (cx, cy, dx, dy) := Source(i);
      cy < GRID && AtlasIndex(cx, cy, dx, dy) == i
  {
    var (cx, cy, dx, dy) := Source(i);
    assert i == (i / CELL) * CELL + dx;
    assert i / CELL == (i / 64) * CELL + dy;
    assert i / 64 == (i / 1024) * GRID + cx;
  }

  /// The index map is one-to-one.
  lemma AtlasIndexInjective(cx: nat, cy: nat, dx: nat, dy: nat, cx': nat, cy': nat, dx': nat, dy': nat)
    requires cx < GRID && cy < GRID && dx < CELL && dy < CELL
    requires cx' < GRID && cy' < GRID && dx' < CELL && dy' < CELL
    requires AtlasIndex(cx, cy, dx, dy) == AtlasIndex(cx', cy', dx', dy')
    ensures cx == cx' && cy == cy' && dx == dx' && dy == dy'
  {
    SourceOfIndex(cx, cy, dx, dy);
    SourceOfIndex(cx', cy', dx', dy');
  }

  /// The value the build script stores at atlas byte i: channel 0 of the image pixel.
  function Expected(channel0: (nat, nat) -> u8, i: nat): u8
  {
    var (cx, cy, dx, dy) := Source(i);
    channel0(cx * CELL + dx, cy * CELL + dy)
  }

  /// `main`'s four nested loops. The image is given as its channel-0 lookup.
  method BuildAtlas(channel0: (nat, nat) -> u8) returns (data: array<u8>)
    ensures fresh(data) && data.Length == ATLAS_SIZE
    ensures forall i :: 0 <= i < ATLAS_SIZE ==> data[i] == Expected(channel0, i)
  {
    data := new u8[ATLAS_SIZE](_ => 0);
    var cy := 0;
    while cy < GRID
      invariant 0 <= cy <= GRID
      invariant forall i :: 0 <= i < cy * 1024 ==> data[i] == Expected(channel0, i)
    {
      var cx := 0;
      while cx < GRID
        invariant 0 <= cx <= GRID
        invariant forall i :: 0 <= i < cy * 1024 + cx * 64 ==> data[i] == Expected(channel0, i)
      {
        var c := cy * GRID + cx;
        var dy := 0;
        while dy < CELL
          invariant 0 <= dy <= CELL
          invariant forall i :: 0 <= i < cy * 1024 + cx * 64 + dy * 8 ==> data[i] == Expected(channel0, i)
        {
          var dx := 0;
          while dx < CELL
            invariant 0 <= dx <= CELL
            invariant forall i :: 0 <= i < cy * 1024 + cx * 64 + dy * 8 + dx ==> data[i] == Expected(channel0, i)
          {
            var l := channel0(cx * CELL + dx, cy * CELL + dy);
            SourceOfIndex(cx, cy, dx, dy);
            data[c * 64 + dy * CELL + dx] := l;
            dx := dx + 1;
          }
          dy := dy + 1;
        }
        cx := cx + 1;
      }
      cy := cy + 1;
    }
  }
}
