/** Map regions and the objects in them: vectors with swap-with-last removal and back-indices. */
module Regions {

  datatype ObjType = Static | Movable | Client

  class WorldObject {
    const handle: nat
    const objType: ObjType
    var region: Region?
    var regionIndex: int
    var inWorld: bool

    constructor (handle: nat, objType: ObjType)
      ensures this.handle == handle && this.objType == objType
      ensures region == null && regionIndex == -1 && !inWorld
    {
      this.handle := handle;
      this.objType := objType;
      region := null;
      regionIndex := -1;
      inWorld := false;
    }

    method AddToWorld()
      modifies this`inWorld
      ensures inWorld
    {
      if inWorld {
        return;
      }
      inWorld := true;
    }

    method RemoveFromWorld()
      modifies this`inWorld
      ensures !inWorld
    {
      if !inWorld {
        return;
      }
      inWorld := false;
    }
  }

  class Region {
    var statics: seq<WorldObject>
    var movables: seq<WorldObject>
    var clients: seq<WorldObject>
    const x: nat
    const y: nat
    const layer: nat
    /** Which cell of the whole grid the region was made for. */
    ghost const cell: (nat, nat, nat)

    constructor (x: nat, y: nat, layer: nat, ghost cell: (nat, nat, nat))
      ensures this.x == x && this.y == y && this.layer == layer && this.cell == cell
      ensures statics == movables == clients == []
    {
      this.x, this.y, this.layer := x, y, layer;
      this.cell := cell;
      statics, movables, clients := [], [], [];
    }

    /** The vector for a type of object. */
    function List(t: ObjType): seq<WorldObject>
      reads this
    {
      match t
      case Static => statics
      case Movable => movables
      case Client => clients
    }

    method SetList(t: ObjType, v: seq<WorldObject>)
      modifies this
      ensures List(t) == v
      ensures forall u :: u != t ==> List(u) == old(List(u))
    {
      match t {
        case Static => statics := v;
        case Movable => movables := v;
        case Client => clients := v;
      }
    }

    method AddObject(obj: WorldObject, ghost regions: set<Region>, ghost objects: set<WorldObject>)
      requires WorldOk(regions, objects) && this in regions && obj in objects
      requires obj.region == null  // the source's ASSERT
      modifies this, obj
      ensures WorldOk(regions, objects)
      ensures obj.region == this && List(obj.objType) == old(List(obj.objType)) + [obj]
      ensures forall u :: u != obj.objType ==> List(u) == old(List(u))
    {
      var v := List(obj.objType);
      v := v + [obj];
      obj.AddToWorld();
      obj.region := this;
      obj.regionIndex := |v| - 1;
      SetList(obj.objType, v);
      forall r, t: ObjType, i | r in regions && 0 <= i < |r.List(t)|
        ensures EntryOk(r, t, i, objects)
      {
        if r != this || t != obj.objType || i < |v| - 1 {
          assert old(EntryOk(r, t, i, objects));
        }
      }
      forall o | o in objects
        ensures ObjectOk(o, regions)
      {
        assert old(ObjectOk(o, regions));
      }
    }

    /** Removing an object that is in this region; the source's three ASSERTs hold. */
    method RemoveObject(obj: WorldObject, ghost regions: set<Region>, ghost objects: set<WorldObject>)
      requires WorldOk(regions, objects) && this in regions && obj in objects && obj.region == this
      modifies this, objects
      ensures WorldOk(regions, objects)
      ensures obj.region == null && obj.regionIndex == -1
      ensures List(obj.objType) == WithoutAt(old(List(obj.objType)), old(obj.regionIndex))
      ensures forall u :: u != obj.objType ==> List(u) == old(List(u))
      ensures forall o :: o in objects && o != obj ==> o.region == old(o.region) && o.inWorld == old(o.inWorld)
    {
      var v := List(obj.objType);
      assert ObjectOk(obj, regions);
      assert v != [];
      assert 0 <= obj.regionIndex < |v| && v[obj.regionIndex].handle == obj.handle;
      assert obj.region == this;
      var last := v[|v| - 1];
      assert EntryOk(this, obj.objType, |v| - 1, objects);
      if last.handle != obj.handle {
        v := v[obj.regionIndex := last];
        last.regionIndex := obj.regionIndex;
      }
      v := v[..|v| - 1];
      obj.regionIndex := -1;
      obj.region := null;
      obj.RemoveFromWorld();
      SetList(obj.objType, v);
      forall r, t: ObjType, i | r in regions && 0 <= i < |r.List(t)|
        ensures EntryOk(r, t, i, objects)
      {
        assert old(EntryOk(r, t, i, objects));
        if r == this && t == obj.objType {
          assert old(EntryOk(this, obj.objType, |List(obj.objType)| - 1, objects));
        }
      }
      forall o | o in objects
        ensures ObjectOk(o, regions)
      {
        assert old(ObjectOk(o, regions));
      }
    }
  }

  /** Element i is gone and the last element has taken its place. */
  function WithoutAt<T>(v: seq<T>, i: int): seq<T>
    requires 0 <= i < |v|
  {
    if i == |v| - 1 then v[..i] else v[..i] + [v[|v| - 1]] + v[i + 1..|v| - 1]
  }

  lemma WithoutAtContents<T>(v: seq<T>, i: int)
    requires 0 <= i < |v|
    ensures multiset(WithoutAt(v, i)) == multiset(v) - multiset{v[i]}
  {
    var a, b := v[..i], v[i + 1..];
    assert v == a + ([v[i]] + b);
    assert multiset(v) == multiset(a) + (multiset{v[i]} + multiset(b));
    if i < |v| - 1 {
      var c, last := v[i + 1..|v| - 1], v[|v| - 1];
      assert b == c + [last];
      assert multiset(b) == multiset(c) + multiset{last};
      assert multiset(a + [last] + c) == multiset(a) + multiset{last} + multiset(c);
    }
  }

  /** Entry i of a vector is an object of its type that points back to this very place. */
  ghost predicate EntryOk(r: Region, t: ObjType, i: int, objects: set<WorldObject>)
    requires 0 <= i < |r.List(t)|
    reads r, objects
  {
    var o := r.List(t)[i];
    o in objects && o.objType == t && o.region == r && o.regionIndex == i
  }

  ghost predicate RegionOk(r: Region, objects: set<WorldObject>)
    reads r, objects
  {
    forall t: ObjType, i :: 0 <= i < |r.List(t)| ==> EntryOk(r, t, i, objects)
  }

  ghost predicate ObjectOk(o: WorldObject, regions: set<Region>)
    reads o, regions
  {
    && o.inWorld == (o.region != null)
    && if o.region == null then o.regionIndex == -1
       else
         && o.region in regions && 0 <= o.regionIndex < |o.region.List(o.objType)|
         && o.region.List(o.objType)[o.regionIndex] == o
  }

  /** All back-pointers and back-indices are right, in both directions. */
  ghost predicate WorldOk(regions: set<Region>, objects: set<WorldObject>)
    reads regions, objects
  {
    && (forall o, p :: o in objects && p in objects && o.handle == p.handle ==> o == p)
    && (forall r :: r in regions ==> RegionOk(r, objects))
    && (forall o :: o in objects ==> ObjectOk(o, regions))
  }

  /** An object is in at most one place of at most one vector of at most one region. */
  lemma OnePlaceAtMost(regions: set<Region>, objects: set<WorldObject>,
                       r: Region, t: ObjType, i: nat, r': Region, t': ObjType, i': nat)
    requires WorldOk(regions, objects) && r in regions && r' in regions
    requires i < |r.List(t)| && i' < |r'.List(t')| && r.List(t)[i] == r'.List(t')[i']
    ensures r == r' && t == t' && i == i'
  {
    assert EntryOk(r, t, i, objects) && EntryOk(r', t', i', objects);
  }

  /** A vector holds exactly the objects of its type that point to its region, each once. */
  lemma ListContents(regions: set<Region>, objects: set<WorldObject>, r: Region, t: ObjType)
    requires WorldOk(regions, objects) && r in regions
    ensures forall o :: o in r.List(t) <==> o in objects && o.objType == t && o.region == r
    ensures forall i, j :: 0 <= i < j < |r.List(t)| ==> r.List(t)[i] != r.List(t)[j]
  {
    assert RegionOk(r, objects);
    forall i | 0 <= i < |r.List(t)|
      ensures var o := r.List(t)[i]; o in objects && o.objType == t && o.region == r && o.regionIndex == i
    {
      assert EntryOk(r, t, i, objects);
    }
    forall o | o in objects && o.region == r
      ensures o in r.List(o.objType)
    {
      assert ObjectOk(o, regions);
    }
  }

  // Whole runs.

  datatype Move = Put(region: Region, obj: WorldObject) | Take(obj: WorldObject)

  type Places = map<WorldObject, Region?>

  /** Where every object is after a move; one its caller must not make changes nothing. */
  function Moved(m: Places, move: Move): (n: Places)
    ensures n.Keys == m.Keys
  {
    match move
    case Put(r, o) => if o in m && m[o] == null then m[o := r] else m
    case Take(o) => if o in m && m[o] != null then m[o := null] else m
  }

  function Whereabouts(moves: seq<Move>, start: Places): (m: Places)
    ensures m.Keys == start.Keys
  {
    if moves == [] then start else Moved(Whereabouts(moves[..|moves| - 1], start), moves[|moves| - 1])
  }

  ghost function Located(objects: set<WorldObject>): Places
    reads objects
  {
    map o | o in objects :: o.region
  }

  method PlayOne(move: Move, ghost regions: set<Region>, ghost objects: set<WorldObject>)
    requires WorldOk(regions, objects) && move.obj in objects && (move.Put? ==> move.region in regions)
    modifies regions, objects
    ensures WorldOk(regions, objects)
    ensures Located(objects) == Moved(old(Located(objects)), move)
  {
    var o := move.obj;
    ghost var before := Located(objects);
    assert ObjectOk(o, regions);
    hide WorldOk;
    if move.Put? {
      if o.region == null {
        move.region.AddObject(o, regions, objects);
      }
    } else if o.region != null {
      o.region.RemoveObject(o, regions, objects);
    }
    assert Located(objects).Keys == before.Keys == objects;
    assert forall p :: p in objects ==> Located(objects)[p] == Moved(before, move)[p];
  }

  /** Any run of additions and removals keeps the pointers right; a region holds what was added and not removed. */
  method Play(moves: seq<Move>, ghost regions: set<Region>, ghost objects: set<WorldObject>)
    requires WorldOk(regions, objects)
    requires forall m :: m in moves ==> m.obj in objects && (m.Put? ==> m.region in regions)
    modifies regions, objects
    ensures WorldOk(regions, objects)
    ensures Located(objects) == Whereabouts(moves, old(Located(objects)))
  {
    hide WorldOk, Located, Moved;
    ghost var start := Located(objects);
    for k := 0 to |moves|
      invariant WorldOk(regions, objects)
      invariant Located(objects) == Whereabouts(moves[..k], start)
    {
      assert moves[..k + 1][..k] == moves[..k];
      assert moves[k] in moves;
      PlayOne(moves[k], regions, objects);
    }
    assert moves[..|moves|] == moves;
  }
}
