/** The lazily allocated two-level grid of regions and the enumeration of visible cells. */
module RegionGrid {
  import opened Division
  import opened Regions
  import opened RegionWindow

  const REGION_BLOCK_COUNT: nat := 100

  /** The regions of one block on one layer, 100 by 100. */
  class RegionBase {
    ghost const at: (nat, nat)
    var regions: seq<Region?>

    constructor (ghost at: (nat, nat))
      ensures this.at == at && |regions| == 10000 && forall k :: 0 <= k < 10000 ==> regions[k] == null
    {
      this.at := at;
      regions := seq(10000, k => null);
    }
  }

  /** The 256 layers of one block. */
  class RegionBlock {
    ghost const at: nat
    var bases: seq<RegionBase?>

    constructor (ghost at: nat)
      ensures this.at == at && |bases| == 256 && forall l :: 0 <= l < 256 ==> bases[l] == null
    {
      this.at := at;
      bases := seq(256, l => null);
    }

    /** Every layer and every cell in it knows where it belongs; nothing is shared. */
    ghost predicate Valid()
      reads this, set b | b in bases && b != null
    {
      && |bases| == 256
      && forall l :: 0 <= l < 256 && bases[l] != null ==>
           && bases[l].at == (at, l) && |bases[l].regions| == 10000
           && forall k :: 0 <= k < 10000 && bases[l].regions[k] != null ==> bases[l].regions[k].cell == (at, l, k)
    }

    /** The region stored for inner cell k of a layer, if any. */
    function Stored(l: nat, k: nat): Region?
      requires Valid() && l < 256 && k < 10000
      reads this, set b | b in bases && b != null
    {
      if bases[l] == null then null else bases[l].regions[k]
    }

    /** The source's getRegion: makes the layer and the region when they are missing. */
    method GetRegion(rx: nat, ry: nat, layer: nat) returns (res: Region)
      requires Valid() && rx < 100 && ry < 100 && layer < 256
      modifies this, set b | b in bases && b != null
      ensures Valid()
      ensures forall b :: b in bases && b != null ==> b in old(bases) || fresh(b)
      ensures res == Stored(layer, rx + 100 * ry)
      ensures if old(Stored(layer, rx + 100 * ry)) != null then res == old(Stored(layer, rx + 100 * ry))
              else fresh(res) && res.x == rx && res.y == ry && res.layer == layer
      ensures forall l, k :: 0 <= l < 256 && 0 <= k < 10000 && (l != layer || k != rx + 100 * ry) ==>
                Stored(l, k) == old(Stored(l, k))
    {
      ghost var k0 := rx + 100 * ry;
      var rb := bases[layer];
      if rb == null {
        rb := new RegionBase((at, layer));
        bases := bases[layer := rb];
      }
      var found := rb.regions[rx + 100 * ry];
      if found == null {
        found := new Region(rx, ry, layer, (at, layer, k0));
        rb.regions := rb.regions[rx + 100 * ry := found];
      }
      res := found;
    }
  }

  // Indices.

  function BlockIndex(rx: nat, ry: nat, blockWidth: nat): nat {
    rx / REGION_BLOCK_COUNT + ry / REGION_BLOCK_COUNT * blockWidth
  }

  function InnerIndex(rx: nat, ry: nat): (k: nat)
    ensures k < 10000
  {
    rx % REGION_BLOCK_COUNT + 100 * (ry % REGION_BLOCK_COUNT)
  }

  /** How many blocks a side of n cells needs. */
  function BlocksFor(n: nat): nat {
    n / REGION_BLOCK_COUNT + 1
  }

  /** How many regions a side of the map is cut into. */
  function RegionsAcross(side: real, regionSize: int): (n: nat)
    requires 0.0 <= side && 0 < regionSize
    ensures 0 < n
  {
    (side / regionSize as real + 1.0).Floor
  }

  lemma Between(low: real, q: real, high: real, size: real, side: real)
    requires 0.0 < size && low <= q < high && q * size == side
    ensures low * size <= side < high * size
  {
    var d, e := q - low, high - q;
    assert d * size >= 0.0 && e * size > 0.0;
    assert q * size == low * size + d * size && high * size == q * size + e * size;
  }

  /** So many regions cover the side, and one fewer would not go beyond it. */
  lemma RegionsCover(side: real, regionSize: int)
    requires 0.0 <= side && 0 < regionSize
    ensures var n := RegionsAcross(side, regionSize);
            (n - 1) as real * regionSize as real <= side < n as real * regionSize as real
  {
    var q, n := side / regionSize as real, RegionsAcross(side, regionSize);
    Between((n - 1) as real, q, n as real, regionSize as real, side);
  }

  /** Inside the map every block index is in bounds. */
  lemma BlockInBounds(rx: nat, ry: nat, width: nat, height: nat)
    requires rx < width && ry < height
    ensures BlockIndex(rx, ry, BlocksFor(width)) < BlocksFor(width) * BlocksFor(height)
  {
    var a, b, w, h := rx / 100, ry / 100, BlocksFor(width), BlocksFor(height);
    assert a < w && b + 1 <= h;
    assert (b + 1) * w <= h * w;
    assert (b + 1) * w == b * w + w;
  }

  /** Inside the map the three indices identify the cell. */
  lemma IndicesAreInjective(x: nat, y: nat, x': nat, y': nat, width: nat)
    requires x < width && x' < width
    requires BlockIndex(x, y, BlocksFor(width)) == BlockIndex(x', y', BlocksFor(width))
    requires InnerIndex(x, y) == InnerIndex(x', y')
    ensures x == x' && y == y'
  {
    var w := BlocksFor(width);
    SameRow(x / 100, y / 100, x' / 100, y' / 100, w);
    assert x == 100 * (x / 100) + x % 100 && y == 100 * (y / 100) + y % 100;
  }

  lemma SameRow(a: nat, b: nat, a': nat, b': nat, w: nat)
    requires a < w && a' < w && a + b * w == a' + b' * w
    ensures a == a' && b == b'
  {
    Multiples(b - b', w);
    assert (b - b') * w == a' - a;
  }

  /** What identifies a region of the map. */
  datatype Key = Key(x: nat, y: nat, layer: nat)

  /** The regions handed to the callback are those of the given cells. */
  ghost predicate Report(regions: map<Key, Region>, visited: seq<Region>, cells: seq<Cell>, layer: nat) {
    && |visited| == |cells|
    && forall i :: 0 <= i < |cells| ==>
         Key(cells[i].x, cells[i].y, layer) in regions && visited[i] == regions[Key(cells[i].x, cells[i].y, layer)]
  }

  ghost predicate Extends(now: map<Key, Region>, before: map<Key, Region>) {
    forall k :: k in before ==> k in now && now[k] == before[k]
  }

  /** The map entries of the given cells. */
  ghost function KeysOf(cells: seq<Cell>, layer: nat): set<Key> {
    set i | 0 <= i < |cells| :: Key(cells[i].x, cells[i].y, layer)
  }

  lemma KeysOfOneMore(cells: seq<Cell>, c: Cell, layer: nat)
    ensures KeysOf(cells + [c], layer) == KeysOf(cells, layer) + {Key(c.x, c.y, layer)}
  {
    var more := cells + [c];
    assert more[|cells|] == c;
    assert forall i :: 0 <= i < |cells| ==> more[i] == cells[i];
  }

  lemma ReportGrows(was: map<Key, Region>, region: Region, visited: seq<Region>, cells: seq<Cell>,
                    x: nat, y: nat, layer: nat)
    requires Report(was, visited, cells, layer)
    requires Key(x, y, layer) in was ==> region == was[Key(x, y, layer)]
    ensures Report(was[Key(x, y, layer) := region], visited + [region], cells + [Cell(x, y)], layer)
  {
  }

  predicate OtherBlocksSame(before: seq<RegionBlock?>, now: seq<RegionBlock?>, i: nat) {
    |now| == |before| && forall j :: 0 <= j < |now| && j != i ==> now[j] == before[j]
  }

  class RegionContainer {
    var width: nat
    var height: nat
    var blockWidth: nat
    var blockHeight: nat
    var blocks: seq<RegionBlock?>
    /** The regions made so far, by cell and layer: what the two levels stand for. */
    ghost var regions: map<Key, Region>

    /** The blocks and the layers in them. */
    ghost var repr: set<object>

    ghost predicate Shape()
      reads this`width, this`height, this`blockWidth, this`blockHeight, this`blocks, this`repr, repr
    {
      && this !in repr && 0 < width < TWO_TO_THE_32 && 0 < height < TWO_TO_THE_32
      && blockWidth == BlocksFor(width) && blockHeight == BlocksFor(height)
      && |blocks| == blockWidth * blockHeight < TWO_TO_THE_32
      && forall i :: 0 <= i < |blocks| && blocks[i] != null ==>
           && blocks[i] in repr && blocks[i].at == i
           && (forall b :: b in blocks[i].bases && b != null ==> b in repr)
           && blocks[i].Valid()
    }

    /** The two levels hold exactly the regions of the map. */
    ghost predicate Valid()
      reads this, repr
    {
      && Shape()
      && (forall k :: k in regions ==> IsValidRegion(k.x, k.y) && k.layer < 256)
      && forall x, y, l :: IsValidRegion(x, y) && 0 <= l < 256 ==>
           Lookup(x, y, l) == if Key(x, y, l) in regions then regions[Key(x, y, l)] else null
    }

    /** The members with no initializer are zero in the static instance. */
    constructor ()
      ensures width == height == 0 && blocks == [] && regions == map[]
    {
      width, height, blockWidth, blockHeight, blocks, regions, repr := 0, 0, 0, 0, [], map[], {};
    }

    /** The map sides and the side of a region, all positive; the vector of blocks must be addressable. */
    method InitRegion(mapWidth: real, mapHeight: real, regionSize: int)
      requires 0.0 <= mapWidth && 0.0 <= mapHeight && 0 < regionSize
      requires RegionsAcross(mapWidth, regionSize) < TWO_TO_THE_32
      requires RegionsAcross(mapHeight, regionSize) < TWO_TO_THE_32
      requires BlocksFor(RegionsAcross(mapWidth, regionSize)) * BlocksFor(RegionsAcross(mapHeight, regionSize))
               < TWO_TO_THE_32
      modifies this
      ensures Valid() && width == RegionsAcross(mapWidth, regionSize) && height == RegionsAcross(mapHeight, regionSize)
      ensures regions == map[] && forall i :: 0 <= i < |blocks| ==> blocks[i] == null
    {
      hide RegionsAcross, RegionBlock.Valid, BlockIndex, Lookup;
      width := RegionsAcross(mapWidth, regionSize);
      height := RegionsAcross(mapHeight, regionSize);
      blockWidth := width / REGION_BLOCK_COUNT + 1;
      blockHeight := height / REGION_BLOCK_COUNT + 1;
      ghost var count := blockWidth * blockHeight;
      assert blockHeight * blockWidth == count;
      blocks := seq(blockHeight * blockWidth, i => null);
      regions, repr := map[], {};
      forall x, y, l | IsValidRegion(x, y) && 0 <= l < 256
        ensures Lookup(x, y, l) == null
      {
        EmptyGrid(x, y, l);
      }
    }

    lemma EmptyGrid(x: nat, y: nat, l: nat)
      requires Shape() && IsValidRegion(x, y) && l < 256 && forall i :: 0 <= i < |blocks| ==> blocks[i] == null
      ensures Lookup(x, y, l) == null
    {
      BlockInBounds(x, y, width, height);
    }

    predicate IsValidRegion(rx: nat, ry: nat)
      reads this`width, this`height
    {
      rx < width && ry < height
    }

    /** The block of a cell has been made. */
    predicate BlockExists(rx: nat, ry: nat)
      reads this`blocks, this`blockWidth
    {
      var i := BlockIndex(rx, ry, blockWidth);
      i < |blocks| && blocks[i] != null
    }

    /** The region the two levels hold for a cell, if any. */
    ghost function Lookup(rx: nat, ry: nat, layer: nat): Region?
      requires Shape() && IsValidRegion(rx, ry) && layer < 256
      reads this`width, this`height, this`blockWidth, this`blockHeight, this`blocks, this`repr, repr
    {
      BlockInBounds(rx, ry, width, height);
      var b := blocks[BlockIndex(rx, ry, blockWidth)];
      if b == null then null else b.Stored(layer, InnerIndex(rx, ry))
    }

    /** Different cells or layers have different regions. */
    lemma CellsAreDistinct(k: Key, k': Key)
      requires Valid() && k in regions && k' in regions && regions[k] == regions[k']
      ensures k == k'
    {
      BlockInBounds(k.x, k.y, width, height);
      BlockInBounds(k'.x, k'.y, width, height);
      assert Lookup(k.x, k.y, k.layer) == Lookup(k'.x, k'.y, k'.layer) == regions[k];
      IndicesAreInjective(k.x, k.y, k'.x, k'.y, width);
    }

    /** Changing one block for one cell keeps the container right and all other cells. */
    method InBlock(i: nat, rx: nat, ry: nat, layer: nat) returns (res: Region)
      requires Shape() && i < |blocks| && blocks[i] != null && rx < 100 && ry < 100 && layer < 256
      modifies this`repr, repr
      ensures Shape() && fresh(repr - old(repr))
      ensures res == blocks[i].Stored(layer, rx + 100 * ry)
      ensures if old(blocks[i].Stored(layer, rx + 100 * ry)) != null
              then res == old(blocks[i].Stored(layer, rx + 100 * ry))
              else fresh(res) && res.x == rx && res.y == ry && res.layer == layer
      ensures forall j, l, k :: 0 <= j < |blocks| && blocks[j] != null && 0 <= l < 256 && 0 <= k < 10000 ==>
                (j != i || l != layer || k != rx + 100 * ry) ==>
                blocks[j].Stored(l, k) == old(blocks[j].Stored(l, k))
    {
      var b := blocks[i];
      res := b.GetRegion(rx, ry, layer);
      repr := repr + set c: RegionBase | c in b.bases;
    }

    /** The source's getRegionBlock: makes the block when it is missing. */
    method EnsureBlock(rx: nat, ry: nat)
      requires Shape() && IsValidRegion(rx, ry)
      modifies this`blocks, this`repr
      ensures Shape()
      ensures BlockExists(rx, ry) && OtherBlocksSame(old(blocks), blocks, BlockIndex(rx, ry, blockWidth))
      ensures fresh(repr - old(repr))
      ensures forall x, y, l :: IsValidRegion(x, y) && 0 <= l < 256 ==> Lookup(x, y, l) == old(Lookup(x, y, l))
    {
      BlockInBounds(rx, ry, width, height);
      var i := BlockIndex(rx, ry, blockWidth);
      if blocks[i] == null {
        var b := new RegionBlock(i);
        blocks, repr := blocks[i := b], repr + {b};
      }
      forall x, y, l | IsValidRegion(x, y) && 0 <= l < 256
        ensures Lookup(x, y, l) == old(Lookup(x, y, l))
      {
        BlockInBounds(x, y, width, height);
      }
    }

    lemma IndexFits(rx: nat, ry: nat)
      requires Shape() && IsValidRegion(rx, ry)
      ensures BlockIndex(rx, ry, blockWidth) < |blocks| && this !in repr
    {
      BlockInBounds(rx, ry, width, height);
    }

    /** The inner half of getRegionPtr: the region of a cell in an existing block. */
    method FromBlock(i: nat, rx: nat, ry: nat, layer: nat) returns (res: Region)
      requires Shape() && IsValidRegion(rx, ry) && layer < 256
      requires i == BlockIndex(rx, ry, blockWidth) && BlockExists(rx, ry)
      modifies this`repr, repr
      ensures Shape() && fresh(repr - old(repr))
      ensures res == Lookup(rx, ry, layer)
      ensures if old(Lookup(rx, ry, layer)) != null then res == old(Lookup(rx, ry, layer))
              else fresh(res) && res.x == rx % 100 && res.y == ry % 100 && res.layer == layer
      ensures forall x, y, l :: IsValidRegion(x, y) && 0 <= l < 256 && (x != rx || y != ry || l != layer) ==>
                Lookup(x, y, l) == old(Lookup(x, y, l))
    {
      res := InBlock(i, rx % REGION_BLOCK_COUNT, ry % REGION_BLOCK_COUNT, layer);
      forall x, y, l | IsValidRegion(x, y) && 0 <= l < 256 && (x != rx || y != ry || l != layer)
        ensures Lookup(x, y, l) == old(Lookup(x, y, l))
      {
        BlockInBounds(x, y, width, height);
        if BlockIndex(x, y, blockWidth) == i && InnerIndex(x, y) == InnerIndex(rx, ry) {
          IndicesAreInjective(x, y, rx, ry, width);
        }
      }
    }

    /** The source's getRegionPtr: null in a missing block, but a missing region of an existing block is made. */
    method GetRegionPtr(rx: nat, ry: nat, layer: nat) returns (res: Region?)
      requires Valid() && IsValidRegion(rx, ry) && layer < 256
      modifies this`regions, this`repr, repr
      ensures Valid() && fresh(repr - old(repr))
      ensures res != null <==> BlockExists(rx, ry)
      ensures res == null ==> regions == old(regions)
      ensures res != null ==> regions == old(regions)[Key(rx, ry, layer) := res]
      ensures res != null ==>
                if Key(rx, ry, layer) in old(regions) then res == old(regions)[Key(rx, ry, layer)]
                else fresh(res) && res.x == rx % 100 && res.y == ry % 100 && res.layer == layer
    {
      hide BlockIndex, Shape, Lookup, RegionBlock.Valid;
      IndexFits(rx, ry);
      var i := BlockIndex(rx, ry, blockWidth);
      if blocks[i] == null {
        return null;
      }
      res := FromBlock(i, rx, ry, layer);
      regions := regions[Key(rx, ry, layer) := res];
    }

    /** The region of a cell, made on demand; null outside the map. */
    method GetRegion(rx: nat, ry: nat, layer: nat) returns (res: Region?)
      requires Valid() && layer < 256
      modifies this`blocks, this`regions, this`repr, repr
      ensures Valid() && fresh(repr - old(repr))
      ensures res == null <==> rx >= width || ry >= height
      ensures res == null ==> regions == old(regions) && blocks == old(blocks)
      ensures res != null ==>
                BlockExists(rx, ry) && OtherBlocksSame(old(blocks), blocks, BlockIndex(rx, ry, blockWidth))
      ensures res != null ==> regions == old(regions)[Key(rx, ry, layer) := res]
      ensures res != null ==>
                if Key(rx, ry, layer) in old(regions) then res == old(regions)[Key(rx, ry, layer)]
                else fresh(res) && res.x == rx % 100 && res.y == ry % 100 && res.layer == layer
    {
      if !IsValidRegion(rx, ry) {
        return null;
      }
      EnsureBlock(rx, ry);
      res := GetRegionPtr(rx, ry, layer);
    }

    /** The cells of the map that lie in an existing block. */
    ghost function Present(): iset<Cell>
      reads this`width, this`height, this`blocks, this`blockWidth
    {
      iset c: Cell | IsValidRegion(c.x, c.y) && BlockExists(c.x, c.y)
    }

    /** Midway through an enumeration that began with the regions in base: it has made those of the cells only. */
    ghost predicate Visiting(base: map<Key, Region>, visited: seq<Region>, cells: seq<Cell>, layer: nat)
      reads this, repr
    {
      && Valid() && layer < 256
      && Extends(regions, base) && regions.Keys == base.Keys + KeysOf(cells, layer)
      && Report(regions, visited, cells, layer)
    }

    lemma NothingVisited(layer: nat)
      requires Valid() && layer < 256
      ensures 0 < width < TWO_TO_THE_32 && 0 < height < TWO_TO_THE_32 && this !in repr
      ensures Visiting(regions, [], [], layer)
    {
    }

    /** The body of the loops: the callback runs on the region of a wanted cell in an existing block. */
    method VisitCell(x: nat, y: nat, layer: nat, wanted: bool,
                     ghost base: map<Key, Region>, before: seq<Region>, ghost done: seq<Cell>)
      returns (visited: seq<Region>, ghost cells: seq<Cell>)
      requires Visiting(base, before, done, layer) && x < width && y < height
      modifies this`regions, this`repr, repr
      ensures Visiting(base, visited, cells, layer) && fresh(repr - old(repr))
      ensures cells == done + (if wanted && Cell(x, y) in Present() then [Cell(x, y)] else [])
    {
      hide BlockIndex, Shape, Lookup, RegionBlock.Valid, KeysOf;
      visited, cells := before, done;
      if wanted {
        ghost var was := regions;
        var region := GetRegionPtr(x, y, layer);
        if region != null {
          visited, cells := visited + [region], cells + [Cell(x, y)];
          ReportGrows(was, region, before, done, x, y, layer);
          KeysOfOneMore(done, Cell(x, y), layer);
        }
      }
    }

    /** The inner loop: one column of the window. */
    method Column(x: nat, v: View, layer: nat, top: nat,
                  ghost base: map<Key, Region>, before: seq<Region>, ghost done: seq<Cell>)
      returns (visited: seq<Region>, ghost cells: seq<Cell>)
      requires Visiting(base, before, done, layer) && this !in repr
      requires v.x < TWO_TO_THE_32 && v.y < TWO_TO_THE_32 && SeenFits(v, width, height)
      requires 0 < width < TWO_TO_THE_32 && 0 < height < TWO_TO_THE_32
      requires Low(v.x) <= x <= High(v.x, width) < width && top == Low(v.y)
      modifies this`regions, this`repr, repr
      ensures Visiting(base, visited, cells, layer) && fresh(repr - old(repr))
      ensures cells == done + ColumnCells(x, top, High(v.y, height), v, Present())
    {
      hide *;
      HighInMap(v.y, height);
      var y, bottom := top, High(v.y, height);
      visited, cells := before, done;
      ghost var present := Present();
      EmptyColumn(x, top, bottom, v, present);
      while y < bottom
        invariant top <= y && (y <= bottom || y == top)
        invariant Visiting(base, visited, cells, layer) && fresh(repr - old(repr))
        invariant cells == done + ColumnCells(x, top, y, v, present)
      {
        ColumnStep(x, top, y, v, present);
        var wanted := PickCell(v, x, y, width, height);
        visited, cells := VisitCell(x, y, layer, wanted, base, visited, cells);
        y := y + 1;
      }
    }

    /** The two nested loops, which the enumeration of all visible cells and that of the new ones share. */
    method Window(v: View, layer: nat) returns (visited: seq<Region>, ghost cells: seq<Cell>)
      requires Valid() && layer < 256
      requires v.x < TWO_TO_THE_32 && v.y < TWO_TO_THE_32 && SeenFits(v, width, height)
      modifies this`regions, this`repr, repr
      ensures Visiting(old(regions), visited, cells, layer)
      ensures cells == ViewCells(v, width, height, Present())
    {
      hide *;
      NothingVisited(layer);
      HighInMap(v.x, width);
      visited, cells := [], [];
      var left, top, right := Low(v.x), Low(v.y), High(v.x, width);
      ghost var bottom, present, base := High(v.y, height), Present(), regions;
      EmptyWindow(left, right + 1, top, bottom, v, present);
      var x := left;
      while x <= right
        invariant left <= x && (x <= right + 1 || x == left)
        invariant Visiting(base, visited, cells, layer) && fresh(repr - old(repr))
        invariant cells == WindowCells(left, x, top, bottom, v, present)
      {
        WindowStep(left, x, top, bottom, v, present);
        visited, cells := Column(x, v, layer, top, base, visited, cells);
        x := x + 1;
      }
      ViewIsWindow(v, width, height, present);
    }

    /** The callback runs once on every visible cell of an existing block above row `bottom`, and on no other. */
    method DoEachVisibleRegion(rx: nat, ry: nat, layer: nat) returns (visited: seq<Region>, ghost cells: seq<Cell>)
      requires Valid() && layer < 256 && rx < TWO_TO_THE_32 && ry < TWO_TO_THE_32
      modifies this`regions, this`repr, repr
      ensures Visiting(old(regions), visited, cells, layer) && Distinct(cells)
      ensures cells == ViewCells(View(rx, ry, Nowhere), width, height, Present())
      ensures NoWrap(rx) && NoWrap(ry) && NoWrap(width) && NoWrap(height) ==>
                forall c: Cell :: c in cells <==>
                  && c in Present() && InView(c.x - rx, c.y - ry)
                  && c.y < ry + 3 && c.y + 1 < height
    {
      ghost var v := View(rx, ry, Nowhere);
      visited, cells := Window(View(rx, ry, Nowhere), layer);
      CellsOfView(v);
    }

    /** The same for the cells that were not visible from the previous centre. */
    method DoEachNewRegion(rx: nat, ry: nat, prx: nat, pry: nat, layer: nat)
      returns (visited: seq<Region>, ghost cells: seq<Cell>)
      requires Valid() && layer < 256 && rx < TWO_TO_THE_32 && ry < TWO_TO_THE_32
      requires prx < TWO_TO_THE_32 && pry < TWO_TO_THE_32 && SeenFits(View(rx, ry, From(prx, pry)), width, height)
      modifies this`regions, this`repr, repr
      ensures Visiting(old(regions), visited, cells, layer) && Distinct(cells)
      ensures cells == ViewCells(View(rx, ry, From(prx, pry)), width, height, Present())
      ensures NoWrap(rx) && NoWrap(ry) && NoWrap(width) && NoWrap(height) ==>
                forall c: Cell :: c in cells <==>
                  && c in Present() && InView(c.x - rx, c.y - ry) && !IsVisible(prx, pry, c.x, c.y)
                  && c.y < ry + 3 && c.y + 1 < height
    {
      ghost var v := View(rx, ry, From(prx, pry));
      visited, cells := Window(View(rx, ry, From(prx, pry)), layer);
      CellsOfView(v);
    }

    lemma CellsOfView(v: View)
      ensures Distinct(ViewCells(v, width, height, Present()))
      ensures NoWrap(v.x) && NoWrap(v.y) && NoWrap(width) && NoWrap(height) ==>
                forall c: Cell :: c in ViewCells(v, width, height, Present()) <==>
                  && c in Present() && InView(c.x - v.x, c.y - v.y) && IsNew(v.seen, c.x, c.y)
                  && c.y < v.y + 3 && c.y + 1 < height
    {
      hide Wanted, WindowCells, Distinct, Low, High, InView, IsNew;
      WindowHolds(Low(v.x), High(v.x, width) + 1, Low(v.y), High(v.y, height), v, Present());
      if NoWrap(v.x) && NoWrap(v.y) && NoWrap(width) && NoWrap(height) {
        WindowIsExact(v, width, height, Present());
        forall c: Cell | c in Present() {
          WantedInView(v, c, height);
        }
      }
    }
  }
}
