/** calculate/dorling_cartogram.py: the two-dimensional tree dorling_cartogram.make
    rebuilds on every iteration to find the circles that may overlap a given one.

    The tree is a table of slots keyed 0 .. n - 1. Slot 1 is the root, and a slot whose
    id is 0 counts as empty. A node sends a point whose coordinate on the node's axis is
    at least the node's own to its left link and a smaller one to its right link, and the
    axis alternates between x (1) and y (2) from one level to the next. A link of 0 is
    absent; a new link takes the next number from end_pointer. */
module DorlingCartogram {
  import opened Python

  /** One entry of self.tree: just {'id': 0} after a reset, or a full node. */
  datatype Slot = Fresh | Node(id: int, left: int, right: int, xpos: real, ypos: real)

  /** self.tree and self.end_pointer. */
  datatype Index = Index(slots: seq<Slot>, endPointer: int)

  function Id(s: Slot): int {
    if s.Fresh? then 0 else s.id
  }

  /** The node's coordinate on an axis: x on axis 1, y on any other. */
  function Pos(n: Slot, axis: int): real
    requires n.Node?
  {
    if axis == 1 then n.xpos else n.ypos
  }

  /** A link is absent, or leads forward to a slot that exists and has been handed out. */
  predicate LinkOk(ix: Index, p: int, link: int) {
    link == 0 || (p < link <= ix.endPointer && link < |ix.slots|)
  }

  /** What the tree keeps between calls: links only lead forward to allocated slots, and
      the slots past end_pointer are still fresh. */
  predicate Valid(ix: Index) {
    1 <= ix.endPointer
    && (forall p :: 0 <= p < |ix.slots| && ix.slots[p].Node? ==>
          LinkOk(ix, p, ix.slots[p].left) && LinkOk(ix, p, ix.slots[p].right))
    && (forall p :: ix.endPointer < p < |ix.slots| ==> ix.slots[p].Fresh?)
  }

  /** The reset at the top of each iteration: n fresh slots and end_pointer 1. */
  function Reset(n: nat): (ix: Index)
    ensures Valid(ix) && |ix.slots| == n && ix.endPointer == 1
    ensures forall p :: 0 <= p < n ==> ix.slots[p] == Fresh
  {
    Index(seq(n, p => Fresh), 1)
  }

  /** add_point(pointer, axis, obj) for the object with id i at (x, y). A slot that is
      missing from the table is a KeyError. A new link past the table fails the same way
      as soon as add_point follows it; the model raises before writing the link, which
      cannot be seen once the exception has left make. */
  function Inserted(ix: Index, pointer: int, axis: int, i: int, x: real, y: real): (r: Result<Index>)
    requires Valid(ix) && 1 <= pointer <= ix.endPointer
    ensures r.Raise? ==> r.error == KeyError
    ensures r.Ok? ==> Valid(r.value) && |r.value.slots| == |ix.slots|
    ensures r.Ok? ==> r.value.endPointer == ix.endPointer || r.value.endPointer == ix.endPointer + 1
    decreases |ix.slots| - pointer
  {
    if pointer >= |ix.slots| then Raise(KeyError)
    else
      var slot := ix.slots[pointer];
      if Id(slot) == 0 then Ok(Stored(ix, pointer, i, x, y))
      else
        var goLeft := if axis == 1 then x >= slot.xpos else y >= slot.ypos;
        var child := if goLeft then slot.left else slot.right;
        if child != 0 then Inserted(ix, child, 3 - axis, i, x, y)
        else
          var next := ix.endPointer + 1;
          if next >= |ix.slots| then Raise(KeyError)
          else
            var grown := Linked(ix, pointer, goLeft);
            assert grown.slots[next] == Fresh;
            Inserted(grown, next, 3 - axis, i, x, y)
  }

  /** The object stored in an empty slot, with no links. */
  function Stored(ix: Index, pointer: int, i: int, x: real, y: real): (r: Index)
    requires Valid(ix) && 0 <= pointer <= ix.endPointer && pointer < |ix.slots|
    ensures Valid(r) && |r.slots| == |ix.slots| && r.endPointer == ix.endPointer
    ensures r.slots[pointer] == Node(i, 0, 0, x, y)
    ensures forall q :: 0 <= q < |ix.slots| && q != pointer ==> r.slots[q] == ix.slots[q]
  {
    Index(ix.slots[pointer := Node(i, 0, 0, x, y)], ix.endPointer)
  }

  /** end_pointer += 1 and the absent link of the node at pointer set to it. */
  function Linked(ix: Index, pointer: int, goLeft: bool): (r: Index)
    requires Valid(ix) && 0 <= pointer <= ix.endPointer && ix.endPointer + 1 < |ix.slots|
    requires ix.slots[pointer].Node?
    requires if goLeft then ix.slots[pointer].left == 0 else ix.slots[pointer].right == 0
    ensures Valid(r) && |r.slots| == |ix.slots| && r.endPointer == ix.endPointer + 1
    ensures r.slots[pointer] == (if goLeft then ix.slots[pointer].(left := r.endPointer) else ix.slots[pointer].(right := r.endPointer))
    ensures forall q :: 0 <= q < |ix.slots| && q != pointer ==> r.slots[q] == ix.slots[q]
  {
    var slot := ix.slots[pointer];
    var next := ix.endPointer + 1;
    var linked := if goLeft then slot.(left := next) else slot.(right := next);
    Index(ix.slots[pointer := linked], next)
  }

  /** The window get_point reports: both coordinates in (q - d, q + d]. */
  predicate InWindow(n: Slot, qx: real, qy: real, d: real)
    requires n.Node?
  {
    PointInWindow(n.xpos, n.ypos, qx, qy, d)
  }

  /** The point (x, y) lies in the window around (qx, qy). */
  predicate PointInWindow(x: real, y: real, qx: real, qy: real, d: real) {
    qx - d < x <= qx + d && qy - d < y <= qy + d
  }

  /** get_point(pointer, axis, obj, distance) for the query point (qx, qy): the ids it
      appends to mylist, in order. A missing link (0) and an empty slot end the walk; a
      node visits its right link when q - d is below its coordinate on the axis, its
      left link when q + d reaches it, and reports itself last. */
  function Found(ix: Index, pointer: int, axis: int, qx: real, qy: real, d: real): (ids: seq<int>)
    requires Valid(ix) && pointer < |ix.slots|
    decreases if pointer <= 0 then 0 else |ix.slots| + 1 - pointer
  {
    if pointer <= 0 || Id(ix.slots[pointer]) <= 0 then []
    else
      var n := ix.slots[pointer];
      var right :=
        if (axis == 1 && qx - d < n.xpos) || (axis == 2 && qy - d < n.ypos)
        then Found(ix, n.right, 3 - axis, qx, qy, d) else [];
      var left :=
        if (axis == 1 && qx + d >= n.xpos) || (axis == 2 && qy + d >= n.ypos)
        then Found(ix, n.left, 3 - axis, qx, qy, d) else [];
      right + left + (if InWindow(n, qx, qy, d) then [n.id] else [])
  }

  /** What get_point collects below a stored node on its right link: searched when
      the window reaches below the node's coordinate on the axis. */
  function Right(ix: Index, pointer: int, axis: int, qx: real, qy: real, d: real): seq<int>
    requires Valid(ix) && 0 < pointer < |ix.slots| && Id(ix.slots[pointer]) > 0
  {
    var n := ix.slots[pointer];
    if (axis == 1 && qx - d < n.xpos) || (axis == 2 && qy - d < n.ypos)
    then Found(ix, n.right, 3 - axis, qx, qy, d) else []
  }

  /** What get_point collects on the left link: searched when the window reaches the
      node's coordinate on the axis. */
  function Left(ix: Index, pointer: int, axis: int, qx: real, qy: real, d: real): seq<int>
    requires Valid(ix) && 0 < pointer < |ix.slots| && Id(ix.slots[pointer]) > 0
  {
    var n := ix.slots[pointer];
    if (axis == 1 && qx + d >= n.xpos) || (axis == 2 && qy + d >= n.ypos)
    then Found(ix, n.left, 3 - axis, qx, qy, d) else []
  }

  /** One step of get_point at a stored node: the right search, the left search, then
      the node itself when its point is in the window. */
  lemma {:induction false} FoundStep(ix: Index, pointer: int, axis: int, qx: real, qy: real, d: real)
    requires Valid(ix) && 0 < pointer < |ix.slots| && Id(ix.slots[pointer]) > 0
    ensures var n := ix.slots[pointer];
            Found(ix, pointer, axis, qx, qy, d)
            == Right(ix, pointer, axis, qx, qy, d) + Left(ix, pointer, axis, qx, qy, d)
               + (if InWindow(n, qx, qy, d) then [n.id] else [])
  {
  }

  /** The reference walk: every stored node reachable from pointer, with no pruning,
      whose point lies in the window. Each id it lists is that of a node in the window. */
  function Scan(ix: Index, pointer: int, qx: real, qy: real, d: real): (ids: seq<int>)
    requires Valid(ix) && pointer < |ix.slots|
    ensures forall k :: 0 <= k < |ids| ==> Reported(ix, ids[k], qx, qy, d)
    decreases if pointer <= 0 then 0 else |ix.slots| + 1 - pointer
  {
    if pointer <= 0 || Id(ix.slots[pointer]) <= 0 then []
    else
      var n := ix.slots[pointer];
      var right := Scan(ix, n.right, qx, qy, d);
      var left := Scan(ix, n.left, qx, qy, d);
      var own := if InWindow(n, qx, qy, d) then [n.id] else [];
      assert forall k :: 0 <= k < |own| ==> Reported(ix, own[k], qx, qy, d) by {
        if own != [] {
          assert Reported(ix, n.id, qx, qy, d) by {
            assert ix.slots[pointer].Node? && ix.slots[pointer].id == n.id;
          }
        }
      }
      Reported3(ix, right, left, own, qx, qy, d);
      right + left + own
  }

  /** id belongs to a stored object, not the empty-slot 0, whose point is in the window. */
  predicate Reported(ix: Index, id: int, qx: real, qy: real, d: real) {
    id > 0 && exists q :: 0 <= q < |ix.slots| && ix.slots[q].Node? && ix.slots[q].id == id && InWindow(ix.slots[q], qx, qy, d)
  }

  lemma {:induction false} Reported3(ix: Index, a: seq<int>, b: seq<int>, c: seq<int>, qx: real, qy: real, d: real)
    requires forall k :: 0 <= k < |a| ==> Reported(ix, a[k], qx, qy, d)
    requires forall k :: 0 <= k < |b| ==> Reported(ix, b[k], qx, qy, d)
    requires forall k :: 0 <= k < |c| ==> Reported(ix, c[k], qx, qy, d)
    ensures forall k :: 0 <= k < |a + b + c| ==> Reported(ix, (a + b + c)[k], qx, qy, d)
  {
    forall k | 0 <= k < |a + b + c| ensures Reported(ix, (a + b + c)[k], qx, qy, d) {
      if k < |a| {
        assert (a + b + c)[k] == a[k];
      } else if k < |a| + |b| {
        assert (a + b + c)[k] == b[k - |a|];
      } else {
        assert (a + b + c)[k] == c[k - |a| - |b|];
      }
    }
  }

  /** A rectangle of the plane, each side bounded or not: a lower bound is inclusive and
      an upper bound exclusive, as the descent sends ties to the left link. */
  datatype Box = Box(xlo: Option<real>, xhi: Option<real>, ylo: Option<real>, yhi: Option<real>)

  /** A slot's place in the tree: the box the insertion path confines it to, and the axis
      its node splits on. */
  datatype Region = Region(box: Box, axis: int)

  const Plane := Box(None, None, None, None)

  predicate InBox(b: Box, x: real, y: real) {
    (b.xlo.None? || b.xlo.value <= x) && (b.xhi.None? || x < b.xhi.value)
    && (b.ylo.None? || b.ylo.value <= y) && (b.yhi.None? || y < b.yhi.value)
  }

  /** The part of a node's box its left (coordinate at least pos) or right (below pos)
      link covers. */
  function Refined(b: Box, axis: int, pos: real, left: bool): Box {
    if axis == 1 then (if left then b.(xlo := Some(pos)) else b.(xhi := Some(pos)))
    else (if left then b.(ylo := Some(pos)) else b.(yhi := Some(pos)))
  }

  /** The node at p lies in its region, splits on axis 1 or 2, and each of its links
      leads to the half of its box on that side, split on the other axis. */
  predicate NodeOrdered(ix: Index, regions: seq<Region>, p: int)
    requires |regions| == |ix.slots| && 0 <= p < |ix.slots| && ix.slots[p].Node?
  {
    var n, r := ix.slots[p], regions[p];
    InBox(r.box, n.xpos, n.ypos)
    && (r.axis == 1 || r.axis == 2)
    && (0 < n.left < |regions| ==> regions[n.left] == Region(Refined(r.box, r.axis, Pos(n, r.axis), true), 3 - r.axis))
    && (0 < n.right < |regions| ==> regions[n.right] == Region(Refined(r.box, r.axis, Pos(n, r.axis), false), 3 - r.axis))
  }

  /** The search-tree order: the root covers the plane and splits on x, and every node
      keeps to its region. */
  predicate Ordered(ix: Index, regions: seq<Region>) {
    |regions| == |ix.slots|
    && (1 < |regions| ==> regions[1] == Region(Plane, 1))
    && forall p :: 0 <= p < |ix.slots| && ix.slots[p].Node? ==> NodeOrdered(ix, regions, p)
  }

  /** A fresh table is ordered. */
  lemma {:induction false} ResetOrdered(n: nat) returns (regions: seq<Region>)
    ensures Ordered(Reset(n), regions)
  {
    regions := seq(n, p => Region(Plane, 1));
  }

  /** add_point keeps the tree ordered, given that the point lies in the region of the
      slot it starts from and the axis is that region's. */
  lemma {:induction false} InsertOrdered(ix: Index, regions: seq<Region>, pointer: int, axis: int, i: int, x: real, y: real)
    returns (after: seq<Region>)
    requires Valid(ix) && 1 <= pointer <= ix.endPointer && Ordered(ix, regions)
    requires axis == 1 || axis == 2
    requires pointer < |ix.slots| ==> regions[pointer].axis == axis && InBox(regions[pointer].box, x, y)
    requires Inserted(ix, pointer, axis, i, x, y).Ok?
    ensures Ordered(Inserted(ix, pointer, axis, i, x, y).value, after)
    decreases |ix.slots| - pointer
  {
    var slot := ix.slots[pointer];
    if Id(slot) == 0 {
      after := regions;
      assert Inserted(ix, pointer, axis, i, x, y) == Ok(Stored(ix, pointer, i, x, y));
      StoreOrdered(ix, regions, pointer, i, x, y);
    } else {
      var goLeft := if axis == 1 then x >= slot.xpos else y >= slot.ypos;
      var child := if goLeft then slot.left else slot.right;
      var box := Refined(regions[pointer].box, axis, Pos(slot, axis), goLeft);
      ChildRegion(ix, regions, pointer, axis, x, y, goLeft);
      if child != 0 {
        assert Inserted(ix, pointer, axis, i, x, y) == Inserted(ix, child, 3 - axis, i, x, y);
        after := InsertOrdered(ix, regions, child, 3 - axis, i, x, y);
      } else {
        var grown := Linked(ix, pointer, goLeft);
        var next := grown.endPointer;
        var grownRegions := regions[next := Region(box, 3 - axis)];
        LinkOrdered(ix, regions, pointer, goLeft, grownRegions);
        assert Inserted(ix, pointer, axis, i, x, y) == Inserted(grown, next, 3 - axis, i, x, y);
        after := InsertOrdered(grown, grownRegions, next, 3 - axis, i, x, y);
      }
    }
  }

  /** The point goes down the side of the node whose half of the region holds it. */
  lemma {:induction false} ChildRegion(ix: Index, regions: seq<Region>, pointer: int, axis: int, x: real, y: real, goLeft: bool)
    requires Ordered(ix, regions) && 0 <= pointer < |ix.slots| && ix.slots[pointer].Node?
    requires regions[pointer].axis == axis && InBox(regions[pointer].box, x, y)
    requires goLeft == if axis == 1 then x >= ix.slots[pointer].xpos else y >= ix.slots[pointer].ypos
    ensures var n := ix.slots[pointer];
            var box := Refined(regions[pointer].box, axis, Pos(n, axis), goLeft);
            var child := if goLeft then n.left else n.right;
            InBox(box, x, y) && (0 < child < |regions| ==> regions[child] == Region(box, 3 - axis))
  {
    assert NodeOrdered(ix, regions, pointer);
  }

  lemma {:induction false} StoreOrdered(ix: Index, regions: seq<Region>, pointer: int, i: int, x: real, y: real)
    requires Valid(ix) && 1 <= pointer <= ix.endPointer && pointer < |ix.slots| && Ordered(ix, regions)
    requires regions[pointer].axis == 1 || regions[pointer].axis == 2
    requires InBox(regions[pointer].box, x, y)
    ensures Ordered(Stored(ix, pointer, i, x, y), regions)
  {
    var s := Stored(ix, pointer, i, x, y);
    forall p | 0 <= p < |s.slots| && s.slots[p].Node? ensures NodeOrdered(s, regions, p) {
      if p != pointer {
        assert NodeOrdered(ix, regions, p);
      }
    }
  }

  lemma {:induction false} LinkOrdered(ix: Index, regions: seq<Region>, pointer: int, goLeft: bool, grownRegions: seq<Region>)
    requires Valid(ix) && 0 <= pointer <= ix.endPointer && ix.endPointer + 1 < |ix.slots| && Ordered(ix, regions)
    requires ix.slots[pointer].Node?
    requires if goLeft then ix.slots[pointer].left == 0 else ix.slots[pointer].right == 0
    requires var n, r := ix.slots[pointer], regions[pointer];
             grownRegions == regions[ix.endPointer + 1 := Region(Refined(r.box, r.axis, Pos(n, r.axis), goLeft), 3 - r.axis)]
    ensures Ordered(Linked(ix, pointer, goLeft), grownRegions)
  {
    var g := Linked(ix, pointer, goLeft);
    var next := ix.endPointer + 1;
    assert NodeOrdered(ix, regions, pointer);
    forall p | 0 <= p < |g.slots| && g.slots[p].Node? ensures NodeOrdered(g, grownRegions, p) {
      if p != pointer {
        assert p != next;
        assert NodeOrdered(ix, regions, p);
        var n := ix.slots[p];
        assert n.left != next && n.right != next;
      }
    }
  }

  /** No point of the box lies in the window. */
  predicate Disjoint(b: Box, qx: real, qy: real, d: real) {
    (b.xhi.Some? && b.xhi.value <= qx - d) || (b.xlo.Some? && b.xlo.value > qx + d)
    || (b.yhi.Some? && b.yhi.value <= qy - d) || (b.ylo.Some? && b.ylo.value > qy + d)
  }

  /** A subtree whose region misses the window has nothing to report. */
  lemma {:induction false} NoneInWindow(ix: Index, regions: seq<Region>, pointer: int, qx: real, qy: real, d: real)
    requires Valid(ix) && Ordered(ix, regions) && pointer < |ix.slots|
    requires 0 < pointer ==> Disjoint(regions[pointer].box, qx, qy, d)
    ensures Scan(ix, pointer, qx, qy, d) == []
    decreases if pointer <= 0 then 0 else |ix.slots| + 1 - pointer
  {
    if 0 < pointer && Id(ix.slots[pointer]) > 0 {
      var n := ix.slots[pointer];
      assert NodeOrdered(ix, regions, pointer);
      NoneInWindow(ix, regions, n.right, qx, qy, d);
      NoneInWindow(ix, regions, n.left, qx, qy, d);
    }
  }

  /** get_point prunes soundly: on an ordered tree, walking from a slot with the axis of
      its region reports exactly what the unpruned walk does, in the same order. */
  lemma {:induction false} FoundScan(ix: Index, regions: seq<Region>, pointer: int, axis: int, qx: real, qy: real, d: real)
    requires Valid(ix) && Ordered(ix, regions) && pointer < |ix.slots|
    requires 0 < pointer ==> regions[pointer].axis == axis
    ensures Found(ix, pointer, axis, qx, qy, d) == Scan(ix, pointer, qx, qy, d)
    decreases if pointer <= 0 then 0 else |ix.slots| + 1 - pointer
  {
    if 0 < pointer && Id(ix.slots[pointer]) > 0 {
      var n := ix.slots[pointer];
      assert NodeOrdered(ix, regions, pointer);
      var q := if axis == 1 then qx else qy;
      if q - d < Pos(n, axis) {
        FoundScan(ix, regions, n.right, 3 - axis, qx, qy, d);
      } else {
        NoneInWindow(ix, regions, n.right, qx, qy, d);
      }
      if q + d >= Pos(n, axis) {
        FoundScan(ix, regions, n.left, 3 - axis, qx, qy, d);
      } else {
        NoneInWindow(ix, regions, n.left, qx, qy, d);
      }
    }
  }

  /** What one add_point changes, from ix to r, with the object i at (x, y) landing in
      slot s. The slot was empty and now holds the object, with no links. Either
      end_pointer is unchanged and so is every other slot, or it went up by exactly one:
      s is the new end_pointer, a fresh slot, and the one absent link that was created,
      in the node at parent, is s; every other slot is unchanged. */
  predicate Changed(ix: Index, r: Index, s: int, parent: int, i: int, x: real, y: real)
    requires |r.slots| == |ix.slots|
  {
    1 <= s < |ix.slots| && r.slots[s] == Node(i, 0, 0, x, y) && Id(ix.slots[s]) == 0
    && (r.endPointer == ix.endPointer ==>
          forall q :: 0 <= q < |ix.slots| && q != s ==> r.slots[q] == ix.slots[q])
    && (r.endPointer == ix.endPointer + 1 ==>
          s == r.endPointer && ix.slots[s] == Fresh && 1 <= parent <= ix.endPointer && ix.slots[parent].Node?
          && ((ix.slots[parent].left == 0 && r.slots[parent] == ix.slots[parent].(left := s))
              || (ix.slots[parent].right == 0 && r.slots[parent] == ix.slots[parent].(right := s)))
          && forall q :: 0 <= q < |ix.slots| && q != s && q != parent ==> r.slots[q] == ix.slots[q])
  }

  /** add_point changes the table only as Changed says. */
  lemma {:induction false} InsertedFrame(ix: Index, pointer: int, axis: int, i: int, x: real, y: real)
    returns (s: int, parent: int)
    requires Valid(ix) && 1 <= pointer <= ix.endPointer
    requires Inserted(ix, pointer, axis, i, x, y).Ok?
    ensures Changed(ix, Inserted(ix, pointer, axis, i, x, y).value, s, parent, i, x, y)
    decreases |ix.slots| - pointer
  {
    InsertedStep(ix, pointer, axis, i, x, y);
    var slot := ix.slots[pointer];
    if Id(slot) == 0 {
      s, parent := pointer, pointer;
      StoredFrame(ix, pointer, i, x, y);
    } else {
      var goLeft := if axis == 1 then x >= slot.xpos else y >= slot.ypos;
      var child := if goLeft then slot.left else slot.right;
      if child != 0 {
        s, parent := InsertedFrame(ix, child, 3 - axis, i, x, y);
      } else {
        s, parent := ix.endPointer + 1, pointer;
        LinkedFrame(ix, pointer, goLeft, i, x, y);
      }
    }
  }

  /** One step of add_point: store into an empty slot, follow an existing link, or
      create the link and store into the new slot. */
  lemma {:induction false} InsertedStep(ix: Index, pointer: int, axis: int, i: int, x: real, y: real)
    requires Valid(ix) && 1 <= pointer <= ix.endPointer && pointer < |ix.slots|
    ensures var slot := ix.slots[pointer];
            Id(slot) == 0 ==> Inserted(ix, pointer, axis, i, x, y) == Ok(Stored(ix, pointer, i, x, y))
    ensures var slot := ix.slots[pointer];
            Id(slot) != 0 ==>
              var goLeft := if axis == 1 then x >= slot.xpos else y >= slot.ypos;
              var child := if goLeft then slot.left else slot.right;
              (child != 0 ==> Inserted(ix, pointer, axis, i, x, y) == Inserted(ix, child, 3 - axis, i, x, y))
              && (child == 0 && ix.endPointer + 1 < |ix.slots| ==>
                    Inserted(ix, pointer, axis, i, x, y)
                    == Ok(Stored(Linked(ix, pointer, goLeft), ix.endPointer + 1, i, x, y)))
              && (child == 0 && ix.endPointer + 1 >= |ix.slots| ==> Inserted(ix, pointer, axis, i, x, y) == Raise(KeyError))
  {
    var slot := ix.slots[pointer];
    if Id(slot) != 0 {
      var goLeft := if axis == 1 then x >= slot.xpos else y >= slot.ypos;
      var child := if goLeft then slot.left else slot.right;
      if child == 0 && ix.endPointer + 1 < |ix.slots| {
        var grown := Linked(ix, pointer, goLeft);
        assert Inserted(grown, grown.endPointer, 3 - axis, i, x, y) == Ok(Stored(grown, grown.endPointer, i, x, y));
      }
    }
  }

  /** add_point at a node whose link on the chosen side exists goes on down that link. */
  lemma {:induction false} InsertedFollow(ix: Index, pointer: int, axis: int, i: int, x: real, y: real, goLeft: bool)
    requires Valid(ix) && 1 <= pointer <= ix.endPointer && pointer < |ix.slots| && Id(ix.slots[pointer]) != 0
    requires goLeft == if axis == 1 then x >= ix.slots[pointer].xpos else y >= ix.slots[pointer].ypos
    requires (if goLeft then ix.slots[pointer].left else ix.slots[pointer].right) != 0
    ensures var child := if goLeft then ix.slots[pointer].left else ix.slots[pointer].right;
            1 <= child <= ix.endPointer
            && Inserted(ix, pointer, axis, i, x, y) == Inserted(ix, child, 3 - axis, i, x, y)
  {
  }

  /** add_point at a node with no link on the chosen side links the next slot and goes
      on down into it, or raises KeyError when the table has no next slot. */
  lemma {:induction false} InsertedLink(ix: Index, pointer: int, axis: int, i: int, x: real, y: real, goLeft: bool)
    requires Valid(ix) && 1 <= pointer <= ix.endPointer && pointer < |ix.slots| && Id(ix.slots[pointer]) != 0
    requires goLeft == if axis == 1 then x >= ix.slots[pointer].xpos else y >= ix.slots[pointer].ypos
    requires (if goLeft then ix.slots[pointer].left else ix.slots[pointer].right) == 0
    ensures ix.endPointer + 1 >= |ix.slots| ==> Inserted(ix, pointer, axis, i, x, y) == Raise(KeyError)
    ensures ix.endPointer + 1 < |ix.slots| ==>
              Inserted(ix, pointer, axis, i, x, y)
              == Inserted(Linked(ix, pointer, goLeft), ix.endPointer + 1, 3 - axis, i, x, y)
  {
  }

  lemma {:induction false} StoredFrame(ix: Index, pointer: int, i: int, x: real, y: real)
    requires Valid(ix) && 1 <= pointer <= ix.endPointer && pointer < |ix.slots| && Id(ix.slots[pointer]) == 0
    ensures Changed(ix, Stored(ix, pointer, i, x, y), pointer, pointer, i, x, y)
  {
  }

  lemma {:induction false} LinkedFrame(ix: Index, pointer: int, goLeft: bool, i: int, x: real, y: real)
    requires Valid(ix) && 1 <= pointer <= ix.endPointer && ix.endPointer + 1 < |ix.slots|
    requires ix.slots[pointer].Node? && Id(ix.slots[pointer]) != 0
    requires if goLeft then ix.slots[pointer].left == 0 else ix.slots[pointer].right == 0
    ensures var grown := Linked(ix, pointer, goLeft);
            Changed(ix, Stored(grown, grown.endPointer, i, x, y), grown.endPointer, pointer, i, x, y)
  {
  }

  /** add_point from a slot that exists cannot fail while the table has room for one
      more slot. */
  lemma {:induction false} InsertedOk(ix: Index, pointer: int, axis: int, i: int, x: real, y: real)
    requires Valid(ix) && 1 <= pointer <= ix.endPointer && pointer < |ix.slots| && ix.endPointer + 1 < |ix.slots|
    ensures Inserted(ix, pointer, axis, i, x, y).Ok?
    decreases |ix.slots| - pointer
  {
    var slot := ix.slots[pointer];
    if Id(slot) != 0 {
      var goLeft := if axis == 1 then x >= slot.xpos else y >= slot.ypos;
      var child := if goLeft then slot.left else slot.right;
      if child != 0 {
        InsertedOk(ix, child, 3 - axis, i, x, y);
      } else {
        var grown := Linked(ix, pointer, goLeft);
        assert Inserted(grown, grown.endPointer, 3 - axis, i, x, y) == Ok(Stored(grown, grown.endPointer, i, x, y));
      }
    }
  }

  /** The loop [self.add_point(1, 1, obj) for obj in self.queryset] after the reset, run
      over the first k objects, whose ids are their positions 0 .. k - 1. */
  function Built(xs: seq<real>, ys: seq<real>, k: nat): (r: Result<Index>)
    requires |xs| == |ys| && k <= |xs|
    ensures r.Ok? ==> Valid(r.value) && |r.value.slots| == |xs|
    ensures r.Raise? ==> r.error == KeyError
  {
    if k == 0 then Ok(Reset(|xs|))
    else
      var ix :- Built(xs, ys, k - 1);
      Inserted(ix, 1, 1, k - 1, xs[k - 1], ys[k - 1])
  }

  /** No node of the table holds the id 0. */
  predicate NoZero(ix: Index) {
    forall q :: 0 <= q < |ix.slots| && ix.slots[q].Node? ==> ix.slots[q].id != 0
  }

  /** With two objects or more the rebuild succeeds. Object 0 goes into the root and,
      its id being the empty-slot mark, object 1 overwrites it; from then on each object
      allocates at most one slot, so end_pointer stays below the number of objects and
      no slot holds object 0. */
  lemma {:induction false} BuiltOk(xs: seq<real>, ys: seq<real>, k: nat)
    requires |xs| == |ys| && 2 <= |xs| && k <= |xs|
    ensures Built(xs, ys, k).Ok?
    ensures var ix := Built(xs, ys, k).value;
            ix.endPointer <= (if k <= 1 then 1 else k - 1) < |xs|
    ensures k == 1 ==> Built(xs, ys, k).value.slots[1] == Node(0, 0, 0, xs[0], ys[0])
    ensures k >= 2 ==> NoZero(Built(xs, ys, k).value)
  {
    if k == 1 || k == 2 {
      BuiltTwo(xs, ys);
    } else if k > 2 {
      BuiltOk(xs, ys, k - 1);
      var ix := Built(xs, ys, k - 1).value;
      assert Built(xs, ys, k) == Inserted(ix, 1, 1, k - 1, xs[k - 1], ys[k - 1]);
      InsertNonZero(ix, k - 1, xs[k - 1], ys[k - 1]);
    }
  }

  /** Objects 0 and 1 both go into the root, and the second one overwrites the first. */
  lemma {:induction false} BuiltTwo(xs: seq<real>, ys: seq<real>)
    requires |xs| == |ys| && 2 <= |xs|
    ensures Built(xs, ys, 1) == Ok(Stored(Reset(|xs|), 1, 0, xs[0], ys[0]))
    ensures Built(xs, ys, 2).Ok? && Built(xs, ys, 2).value.endPointer == 1
    ensures Built(xs, ys, 1).value.slots[1] == Node(0, 0, 0, xs[0], ys[0])
    ensures NoZero(Built(xs, ys, 2).value)
    ensures Built(xs, ys, 2) == Ok(Stored(Stored(Reset(|xs|), 1, 0, xs[0], ys[0]), 1, 1, xs[1], ys[1]))
  {
    var one := Stored(Reset(|xs|), 1, 0, xs[0], ys[0]);
    assert Built(xs, ys, 1) == Inserted(Reset(|xs|), 1, 1, 0, xs[0], ys[0]) == Ok(one);
    assert Built(xs, ys, 2) == Inserted(one, 1, 1, 1, xs[1], ys[1]) == Ok(Stored(one, 1, 1, xs[1], ys[1]));
  }

  /** Inserting an object whose id is not 0 from the root, with room for one more slot,
      succeeds and leaves no node holding id 0. */
  lemma {:induction false} InsertNonZero(ix: Index, i: int, x: real, y: real)
    requires Valid(ix) && NoZero(ix) && i != 0 && 1 < |ix.slots| && ix.endPointer + 1 < |ix.slots|
    ensures Inserted(ix, 1, 1, i, x, y).Ok? && NoZero(Inserted(ix, 1, 1, i, x, y).value)
  {
    InsertedOk(ix, 1, 1, i, x, y);
    var s, parent := InsertedFrame(ix, 1, 1, i, x, y);
  }

  /** As written, with two objects or more object 0 has no node in the rebuilt table,
      so no query can report it as a neighbour. */
  lemma {:induction false} ObjectZeroLost(xs: seq<real>, ys: seq<real>)
    requires |xs| == |ys| && 2 <= |xs|
    ensures Built(xs, ys, |xs|).Ok? && !Holds(Built(xs, ys, |xs|).value, 0, xs[0], ys[0])
  {
    BuiltOk(xs, ys, |xs|);
  }

  /** The rebuild as evidently intended: the objects are numbered from 1, so that no id
      is the empty-slot mark 0, and the table has one slot more than there are objects,
      slot 0 staying unused as before. Object j goes in as id j + 1. */
  function BuiltNumbered(xs: seq<real>, ys: seq<real>, k: nat): (r: Result<Index>)
    requires |xs| == |ys| && k <= |xs|
    ensures r.Ok? ==> Valid(r.value) && |r.value.slots| == |xs| + 1
  {
    if k == 0 then Ok(Reset(|xs| + 1))
    else
      var ix :- BuiltNumbered(xs, ys, k - 1);
      Inserted(ix, 1, 1, k, xs[k - 1], ys[k - 1])
  }

  /** Some node of the table holds the id i at (x, y). */
  predicate Holds(ix: Index, i: int, x: real, y: real) {
    exists q :: 0 <= q < |ix.slots| && ix.slots[q].Node? && ix.slots[q] == ix.slots[q].(id := i, xpos := x, ypos := y)
  }

  /** Numbered from 1, the rebuild always succeeds and no object is lost: object j has a
      node under id j + 1 at its own centroid, and no node holds id 0. */
  lemma {:induction false} BuiltNumberedHolds(xs: seq<real>, ys: seq<real>, k: nat) returns (parents: seq<int>)
    requires |xs| == |ys| && k <= |xs|
    ensures BuiltNumbered(xs, ys, k).Ok? && NumberedHolds(BuiltNumbered(xs, ys, k).value, xs, ys, k)
    ensures Rooted(BuiltNumbered(xs, ys, k).value, parents)
  {
    if k == 0 {
      parents := seq(|xs| + 1, p => 0);
    } else {
      var earlier := BuiltNumberedHolds(xs, ys, k - 1);
      var r;
      r, parents := NumberedStep(BuiltNumbered(xs, ys, k - 1).value, earlier, xs, ys, k);
    }
  }

  /** One insertion of the numbered rebuild keeps NumberedHolds, and the tree keeps
      hanging together. */
  lemma {:induction false} NumberedStep(ix: Index, parents: seq<int>, xs: seq<real>, ys: seq<real>, k: nat)
    returns (r: Index, after: seq<int>)
    requires |xs| == |ys| && 0 < k <= |xs| && NumberedHolds(ix, xs, ys, k - 1) && Rooted(ix, parents)
    ensures Inserted(ix, 1, 1, k, xs[k - 1], ys[k - 1]) == Ok(r) && NumberedHolds(r, xs, ys, k)
    ensures Rooted(r, after)
  {
    r := InsertHolds(ix, k, xs[k - 1], ys[k - 1]);
    after := InsertRooted(ix, parents, k, xs[k - 1], ys[k - 1]);
  }

  /** The numbered rebuild is in search-tree order. */
  lemma {:induction false} BuiltNumberedOrdered(xs: seq<real>, ys: seq<real>, k: nat) returns (regions: seq<Region>)
    requires |xs| == |ys| && k <= |xs| && BuiltNumbered(xs, ys, k).Ok?
    ensures Ordered(BuiltNumbered(xs, ys, k).value, regions)
  {
    if k == 0 {
      regions := ResetOrdered(|xs| + 1);
    } else {
      var earlier := BuiltNumberedOrdered(xs, ys, k - 1);
      var ix := BuiltNumbered(xs, ys, k - 1).value;
      assert BuiltNumbered(xs, ys, k) == Inserted(ix, 1, 1, k, xs[k - 1], ys[k - 1]);
      regions := InsertOrdered(ix, earlier, 1, 1, k, xs[k - 1], ys[k - 1]);
    }
  }

  /** The neighbour query on the numbered rebuild misses nothing: get_point from the
      root, asked about one of the objects, reports every object whose centroid is in
      the window, under its id j + 1, and only ids of stored objects in the window. */
  lemma {:induction false} NumberedQueryComplete(xs: seq<real>, ys: seq<real>, qx: real, qy: real, d: real)
    requires |xs| == |ys| && 1 <= |xs|
    ensures BuiltNumbered(xs, ys, |xs|).Ok?
    ensures var found := Found(BuiltNumbered(xs, ys, |xs|).value, 1, 1, qx, qy, d);
            forall j :: 0 <= j < |xs| && PointInWindow(xs[j], ys[j], qx, qy, d) ==> j + 1 in found
    ensures var ix := BuiltNumbered(xs, ys, |xs|).value;
            var found := Found(ix, 1, 1, qx, qy, d);
            forall k :: 0 <= k < |found| ==> Reported(ix, found[k], qx, qy, d)
  {
    var parents := BuiltNumberedHolds(xs, ys, |xs|);
    var ix := BuiltNumbered(xs, ys, |xs|).value;
    var regions := BuiltNumberedOrdered(xs, ys, |xs|);
    FoundScan(ix, regions, 1, 1, qx, qy, d);
    forall j | 0 <= j < |xs| && PointInWindow(xs[j], ys[j], qx, qy, d)
      ensures j + 1 in Found(ix, 1, 1, qx, qy, d)
    {
      HeldFound(ix, parents, regions, j + 1, xs[j], ys[j], qx, qy, d);
    }
  }

  /** The table after the first k objects, numbered from 1: end_pointer is at most
      max(1, k), no node holds id 0, and object j has a node under id j + 1 at its own
      centroid. */
  predicate NumberedHolds(ix: Index, xs: seq<real>, ys: seq<real>, k: nat)
    requires |xs| == |ys| && k <= |xs|
  {
    Valid(ix) && |ix.slots| == |xs| + 1 && ix.endPointer <= (if k <= 1 then 1 else k) && NoZero(ix)
    && (k == 0 && 1 < |ix.slots| ==> ix.slots[1].Fresh?)
    && forall j :: 0 <= j < k ==> Holds(ix, j + 1, xs[j], ys[j])
  }

  /** Inserting a non-zero id from the root of a table with no id 0, where the root is
      still empty or there is room for one more slot, succeeds, stores the object and
      keeps every other node's id and centroid. */
  lemma {:induction false} InsertHolds(ix: Index, i: int, x: real, y: real) returns (r: Index)
    requires Valid(ix) && NoZero(ix) && i != 0 && 1 < |ix.slots|
    requires (ix.endPointer == 1 && ix.slots[1].Fresh?) || ix.endPointer + 1 < |ix.slots|
    ensures Inserted(ix, 1, 1, i, x, y) == Ok(r) && NoZero(r) && Holds(r, i, x, y)
    ensures ix.slots[1].Fresh? ==> r.endPointer == ix.endPointer
    ensures forall id, px, py :: id != 0 && Holds(ix, id, px, py) ==> Holds(r, id, px, py)
  {
    if ix.slots[1].Fresh? {
      InsertedStep(ix, 1, 1, i, x, y);
    } else {
      InsertedOk(ix, 1, 1, i, x, y);
    }
    var s, parent := InsertedFrame(ix, 1, 1, i, x, y);
    r := Inserted(ix, 1, 1, i, x, y).value;
    assert r.slots[s] == r.slots[s].(id := i, xpos := x, ypos := y);
    forall id, px, py | id != 0 && Holds(ix, id, px, py)
      ensures Holds(r, id, px, py)
    {
      HoldsKept(ix, r, s, parent, i, x, y, id, px, py);
    }
  }

  /** An insertion that changes the table only as Changed says keeps every node whose id
      is not 0, with its id and centroid. */
  lemma {:induction false} HoldsKept(ix: Index, r: Index, s: int, parent: int, i: int, x: real, y: real,
                                     id: int, px: real, py: real)
    requires |r.slots| == |ix.slots| && Changed(ix, r, s, parent, i, x, y)
    requires r.endPointer == ix.endPointer || r.endPointer == ix.endPointer + 1
    requires id != 0 && Holds(ix, id, px, py)
    ensures Holds(r, id, px, py)
  {
    var q :| 0 <= q < |ix.slots| && ix.slots[q].Node? && ix.slots[q] == ix.slots[q].(id := id, xpos := px, ypos := py);
    assert q != s;
    assert r.slots[q].Node? && r.slots[q] == r.slots[q].(id := id, xpos := px, ypos := py);
  }

  /** The tree hangs together from the root: slot 0 holds no node, every node holds a
      positive id, and every slot from 2 to end_pointer holds a node that a link of the
      node at the lower slot parents[p] leads to. */
  predicate Rooted(ix: Index, parents: seq<int>) {
    |parents| == |ix.slots|
    && (forall p :: 0 <= p < |ix.slots| && ix.slots[p].Node? ==> 1 <= p && ix.slots[p].id > 0)
    && forall p :: 2 <= p <= ix.endPointer && p < |ix.slots| ==> ParentOk(ix, parents, p)
  }

  /** The slot p holds a node, and the node at parents[p], lower down the table, links
      to it. */
  predicate ParentOk(ix: Index, parents: seq<int>, p: int)
    requires |parents| == |ix.slots| && 0 <= p < |ix.slots|
  {
    var q := parents[p];
    ix.slots[p].Node? && 1 <= q < p && ix.slots[q].Node? && (ix.slots[q].left == p || ix.slots[q].right == p)
  }

  /** add_point from the root of a tree that hangs together, for a positive id, keeps it
      hanging together: a new slot hangs off the node whose link was created for it. */
  lemma {:induction false} InsertRooted(ix: Index, parents: seq<int>, i: int, x: real, y: real) returns (after: seq<int>)
    requires Valid(ix) && Rooted(ix, parents) && i > 0 && 1 < |ix.slots|
    requires Inserted(ix, 1, 1, i, x, y).Ok?
    ensures Rooted(Inserted(ix, 1, 1, i, x, y).value, after)
  {
    var s, parent := InsertedFrame(ix, 1, 1, i, x, y);
    var r := Inserted(ix, 1, 1, i, x, y).value;
    assert ix.slots[s].Fresh?;
    if r.endPointer == ix.endPointer {
      after := parents;
      assert 2 <= s <= ix.endPointer ==> ParentOk(ix, parents, s);
      assert s <= r.endPointer;
      assert ix.endPointer >= 2 && 2 < |ix.slots| ==> ParentOk(ix, parents, 2);
    } else {
      after := parents[s := parent];
      forall p | 2 <= p <= r.endPointer && p < |r.slots|
        ensures ParentOk(r, after, p)
      {
        if p != s {
          assert ParentOk(ix, parents, p);
          assert after[p] == parents[p];
        }
      }
    }
  }

  /** In a tree that hangs together, the unpruned walk from the root lists everything
      the walk from any node lists. */
  lemma {:induction false} ScanReaches(ix: Index, parents: seq<int>, p: int, qx: real, qy: real, d: real)
    requires Valid(ix) && Rooted(ix, parents) && 1 <= p < |ix.slots| && ix.slots[p].Node?
    ensures forall k :: k in Scan(ix, p, qx, qy, d) ==> k in Scan(ix, 1, qx, qy, d)
    decreases p
  {
    if p >= 2 {
      assert p <= ix.endPointer;
      assert ParentOk(ix, parents, p);
      var q := parents[p];
      ScanReaches(ix, parents, q, qx, qy, d);
      var n := ix.slots[q];
      assert Scan(ix, q, qx, qy, d)
             == Scan(ix, n.right, qx, qy, d) + Scan(ix, n.left, qx, qy, d)
                + (if InWindow(n, qx, qy, d) then [n.id] else []);
    }
  }

  /** Nothing stored in the window is missed: on an ordered tree that hangs together,
      get_point from the root reports every node whose point is in the window. */
  lemma {:induction false} HeldFound(ix: Index, parents: seq<int>, regions: seq<Region>, i: int, x: real, y: real,
                                     qx: real, qy: real, d: real)
    requires Valid(ix) && Rooted(ix, parents) && Ordered(ix, regions)
    requires Holds(ix, i, x, y) && PointInWindow(x, y, qx, qy, d)
    ensures i in Found(ix, 1, 1, qx, qy, d)
  {
    var q :| 0 <= q < |ix.slots| && ix.slots[q].Node? && ix.slots[q] == ix.slots[q].(id := i, xpos := x, ypos := y);
    var n := ix.slots[q];
    assert n.id == i && InWindow(n, qx, qy, d);
    ScanReaches(ix, parents, q, qx, qy, d);
    assert Scan(ix, q, qx, qy, d)
           == Scan(ix, n.right, qx, qy, d) + Scan(ix, n.left, qx, qy, d) + [i];
    FoundScan(ix, regions, 1, 1, qx, qy, d);
  }

  /** With one object the root slot 1 is missing from the table: KeyError. */
  lemma {:induction false} BuiltSingle(xs: seq<real>, ys: seq<real>)
    requires |xs| == |ys| == 1
    ensures Built(xs, ys, 1) == Raise(KeyError)
  {
    assert Built(xs, ys, 1) == Inserted(Reset(1), 1, 1, 0, xs[0], ys[0]);
  }

  /** The rebuilt tree is ordered. */
  lemma {:induction false} BuiltOrdered(xs: seq<real>, ys: seq<real>, k: nat) returns (regions: seq<Region>)
    requires |xs| == |ys| && k <= |xs| && Built(xs, ys, k).Ok?
    ensures Ordered(Built(xs, ys, k).value, regions)
  {
    if k == 0 {
      regions := ResetOrdered(|xs|);
    } else {
      var earlier := BuiltOrdered(xs, ys, k - 1);
      var ix := Built(xs, ys, k - 1).value;
      assert Built(xs, ys, k) == Inserted(ix, 1, 1, k - 1, xs[k - 1], ys[k - 1]);
      regions := InsertOrdered(ix, earlier, 1, 1, k - 1, xs[k - 1], ys[k - 1]);
    }
  }

  /** The neighbour query of make on the rebuilt tree: get_point from the root reports
      exactly the stored objects in the window that the unpruned walk finds, never
      object 0, each one in the window; and it misses no object from 1 on whose
      centroid is in the window. */
  lemma {:induction false} QueryComplete(xs: seq<real>, ys: seq<real>, qx: real, qy: real, d: real)
    requires |xs| == |ys| && 2 <= |xs|
    ensures Built(xs, ys, |xs|).Ok?
    ensures var ix := Built(xs, ys, |xs|).value;
            var found := Found(ix, 1, 1, qx, qy, d);
            found == Scan(ix, 1, qx, qy, d)
            && 0 !in found
            && forall k :: 0 <= k < |found| ==> Reported(ix, found[k], qx, qy, d)
    ensures var found := Found(Built(xs, ys, |xs|).value, 1, 1, qx, qy, d);
            forall j :: 1 <= j < |xs| && PointInWindow(xs[j], ys[j], qx, qy, d) ==> j in found
  {
    BuiltOk(xs, ys, |xs|);
    var regions := BuiltOrdered(xs, ys, |xs|);
    var parents := BuiltTracked(xs, ys, |xs|);
    var ix := Built(xs, ys, |xs|).value;
    FoundScan(ix, regions, 1, 1, qx, qy, d);
    var found := Found(ix, 1, 1, qx, qy, d);
    if 0 in found {
      assert false;
    }
    forall j | 1 <= j < |xs| && PointInWindow(xs[j], ys[j], qx, qy, d)
      ensures j in found
    {
      HeldFound(ix, parents, regions, j, xs[j], ys[j], qx, qy, d);
    }
  }

  /** The table after the first k >= 2 objects, as written: valid, end_pointer at most
      k - 1, and every object from 1 on has a node under its id at its own centroid. */
  predicate WrittenHolds(ix: Index, xs: seq<real>, ys: seq<real>, k: nat)
    requires |xs| == |ys| && k <= |xs|
  {
    Valid(ix) && |ix.slots| == |xs| && ix.endPointer <= k - 1
    && forall j :: 1 <= j < k ==> Holds(ix, j, xs[j], ys[j])
  }

  /** The rebuild as written keeps every object but object 0, and its tree hangs
      together from the root. */
  lemma {:induction false} BuiltTracked(xs: seq<real>, ys: seq<real>, k: nat) returns (parents: seq<int>)
    requires |xs| == |ys| && 2 <= k <= |xs|
    ensures Built(xs, ys, k).Ok? && WrittenHolds(Built(xs, ys, k).value, xs, ys, k)
    ensures Rooted(Built(xs, ys, k).value, parents)
    decreases k
  {
    if k == 2 {
      BuiltTwo(xs, ys);
      var ix := Built(xs, ys, 2).value;
      var one := Stored(Reset(|xs|), 1, 0, xs[0], ys[0]);
      assert forall p :: 0 <= p < |ix.slots| && p != 1 ==> ix.slots[p] == one.slots[p] == Fresh;
      assert ix.slots[1] == ix.slots[1].(id := 1, xpos := xs[1], ypos := ys[1]);
      parents := seq(|xs|, p => 0);
    } else {
      var earlier := BuiltTracked(xs, ys, k - 1);
      var r;
      r, parents := WrittenStep(Built(xs, ys, k - 1).value, earlier, xs, ys, k);
    }
  }

  /** One insertion of the rebuild as written, from object 2 on. */
  lemma {:induction false} WrittenStep(ix: Index, parents: seq<int>, xs: seq<real>, ys: seq<real>, k: nat)
    returns (r: Index, after: seq<int>)
    requires |xs| == |ys| && 3 <= k <= |xs| && WrittenHolds(ix, xs, ys, k - 1) && Rooted(ix, parents)
    ensures Inserted(ix, 1, 1, k - 1, xs[k - 1], ys[k - 1]) == Ok(r) && WrittenHolds(r, xs, ys, k)
    ensures Rooted(r, after)
  {
    assert NoZero(ix);
    r := InsertHolds(ix, k - 1, xs[k - 1], ys[k - 1]);
    after := InsertRooted(ix, parents, k - 1, xs[k - 1], ys[k - 1]);
  }

  /** self.mylist after get_point has written ids from position start on. */
  function Recorded(m: map<int, int>, start: int, ids: seq<int>): map<int, int> {
    if ids == [] then m
    else Recorded(m, start, ids[..|ids| - 1])[start + |ids| - 1 := ids[|ids| - 1]]
  }

  /** Entry start + k holds the k-th id, every other key keeps its entry, and no other
      key appears. */
  lemma {:induction false} RecordedEntries(m: map<int, int>, start: int, ids: seq<int>)
    ensures var r := Recorded(m, start, ids);
            forall key :: start <= key < start + |ids| ==> key in r && r[key] == ids[key - start]
    ensures var r := Recorded(m, start, ids);
            forall key :: key in m && !(start <= key < start + |ids|) ==> key in r && r[key] == m[key]
    ensures var r := Recorded(m, start, ids);
            forall key :: key in r ==> key in m || start <= key < start + |ids|
  {
    if ids != [] {
      var n := |ids| - 1;
      RecordedEntries(m, start, ids[..n]);
      var r := Recorded(m, start, ids);
      assert r == Recorded(m, start, ids[..n])[start + n := ids[n]];
      forall key | start <= key < start + |ids| ensures key in r && r[key] == ids[key - start] {
        if key < start + n {
          assert ids[..n][key - start] == ids[key - start];
        }
      }
      forall key | key in m && !(start <= key < start + |ids|) ensures key in r && r[key] == m[key] {
        assert key != start + n;
      }
      forall key | key in r ensures key in m || start <= key < start + |ids| {
        if key != start + n {
          assert key in Recorded(m, start, ids[..n]);
        }
      }
    }
  }

  /** Writing one more id at the next position. */
  lemma {:induction false} RecordedSnoc(m: map<int, int>, start: int, ids: seq<int>, v: int)
    ensures Recorded(m, start, ids)[start + |ids| := v] == Recorded(m, start, ids + [v])
  {
    assert (ids + [v])[..|ids|] == ids;
  }

  /** Writing a and then b from where a stopped is writing a + b. */
  lemma {:induction false} RecordedAppend(m: map<int, int>, start: int, a: seq<int>, b: seq<int>)
    ensures Recorded(Recorded(m, start, a), start + |a|, b) == Recorded(m, start, a + b)
  {
    if b != [] {
      var n := |b| - 1;
      RecordedAppend(m, start, a, b[..n]);
      assert (a + b)[..|a + b| - 1] == a + b[..n];
    } else {
      assert a + b == a;
    }
  }

  /** A rebuild that failed stays failed: an exception leaves the loop. */
  lemma {:induction false} BuiltFails(xs: seq<real>, ys: seq<real>, k: nat, m: nat)
    requires |xs| == |ys| && k <= m <= |xs| && Built(xs, ys, k).Raise?
    ensures Built(xs, ys, m).Raise?
    decreases m - k
  {
    if k < m {
      BuiltFails(xs, ys, k + 1, m);
    }
  }

  /** The part of a dorling_cartogram object the tree works on: the table, end_pointer,
      the centre coordinates by object id, and the neighbour buffer with its count. */
  class Cartogram {
    var tree: seq<Slot>
    var endPointer: int
    var xValues: seq<real>
    var yValues: seq<real>
    var mylist: map<int, int>
    var neighborsWithinDistance: int

    /** __init__: an empty tree, end_pointer 1, an empty mylist, and the centroids. */
    constructor (xs: seq<real>, ys: seq<real>)
      ensures tree == [] && endPointer == 1 && xValues == xs && yValues == ys
      ensures mylist == map[] && neighborsWithinDistance == 0
    {
      tree := [];
      endPointer := 1;
      xValues := xs;
      yValues := ys;
      mylist := map[];
      neighborsWithinDistance := 0;
    }

    function State(): Index
      reads this
    {
      Index(tree, endPointer)
    }

    /** add_point(pointer, axis, obj) for the object with id i. */
    method AddPoint(pointer: int, axis: int, i: int) returns (r: Result<()>)
      requires Valid(State()) && 1 <= pointer <= endPointer && 0 <= i < |xValues| && |yValues| == |xValues|
      modifies this
      ensures xValues == old(xValues) && yValues == old(yValues)
      ensures mylist == old(mylist) && neighborsWithinDistance == old(neighborsWithinDistance)
      ensures var expected := Inserted(old(State()), pointer, axis, i, xValues[i], yValues[i]);
              (r.Ok? <==> expected.Ok?) && (r.Raise? ==> r.error == KeyError)
              && (expected.Ok? ==> State() == expected.value)
      decreases |tree| - pointer
    {
      ghost var ix := State();
      var x, y := xValues[i], yValues[i];
      if pointer >= |tree| {
        return Raise(KeyError);
      }
      var slot := tree[pointer];
      if Id(slot) == 0 {
        tree := tree[pointer := Node(i, 0, 0, x, y)];
        assert State() == Stored(ix, pointer, i, x, y);
        return Ok(());
      }
      var goLeft := if axis == 1 then x >= slot.xpos else y >= slot.ypos;
      var child := if goLeft then slot.left else slot.right;
      if child == 0 {
        InsertedLink(ix, pointer, axis, i, x, y, goLeft);
        endPointer := endPointer + 1;
        if endPointer >= |tree| {
          return Raise(KeyError);
        }
        tree := tree[pointer := if goLeft then slot.(left := endPointer) else slot.(right := endPointer)];
        child := endPointer;
        assert State() == Linked(ix, pointer, goLeft);
      } else {
        InsertedFollow(ix, pointer, axis, i, x, y, goLeft);
      }
      r := AddPoint(child, 3 - axis, i);
    }

    /** get_point(pointer, axis, obj, distance) for the object with id i: the ids found
        are written to mylist from neighbors_within_distance on, which counts them. */
    method GetPoint(pointer: int, axis: int, i: int, distance: real)
      requires Valid(State()) && pointer < |tree| && 0 <= i < |xValues| && |yValues| == |xValues|
      modifies this
      ensures tree == old(tree) && endPointer == old(endPointer) && xValues == old(xValues) && yValues == old(yValues)
      ensures var found := Found(State(), pointer, axis, xValues[i], yValues[i], distance);
              mylist == Recorded(old(mylist), old(neighborsWithinDistance), found)
              && neighborsWithinDistance == old(neighborsWithinDistance) + |found|
      decreases if pointer <= 0 then 0 else |tree| + 1 - pointer, 1
    {
      if pointer <= 0 || Id(tree[pointer]) <= 0 {
        return;
      }
      ghost var ix, start, before := State(), neighborsWithinDistance, mylist;
      ghost var x, y, n := xValues[i], yValues[i], tree[pointer];
      FoundStep(ix, pointer, axis, x, y, distance);
      ghost var right := Right(ix, pointer, axis, x, y, distance);
      ghost var left := Left(ix, pointer, axis, x, y, distance);
      ghost var own := if InWindow(n, x, y, distance) then [n.id] else [];
      ghost var found := Found(ix, pointer, axis, x, y, distance);
      assert found == right + left + own;
      SearchRight(pointer, axis, i, distance);
      SearchLeft(pointer, axis, i, distance);
      RecordedAppend(before, start, right, left);
      ghost var middle := mylist;
      RecordSelf(pointer, i, distance);
      assert mylist == Recorded(middle, start + |right + left|, own);
      RecordedAppend(before, start, right + left, own);
      assert State() == ix && mylist == Recorded(before, start, found);
    }

    /** The first recursive call of get_point at a stored node: the right link, when
        the window reaches below the node's coordinate on the axis it splits. */
    method SearchRight(pointer: int, axis: int, i: int, distance: real)
      requires Valid(State()) && 0 < pointer < |tree| && Id(tree[pointer]) > 0
      requires 0 <= i < |xValues| && |yValues| == |xValues|
      modifies this
      ensures tree == old(tree) && endPointer == old(endPointer) && xValues == old(xValues) && yValues == old(yValues)
      ensures var found := Right(State(), pointer, axis, xValues[i], yValues[i], distance);
              mylist == Recorded(old(mylist), old(neighborsWithinDistance), found)
              && neighborsWithinDistance == old(neighborsWithinDistance) + |found|
      decreases |tree| + 1 - pointer, 0
    {
      var x, y, slot := xValues[i], yValues[i], tree[pointer];
      assert Recorded(mylist, neighborsWithinDistance, []) == mylist;
      if axis == 1 {
        if x - distance < slot.xpos {
          GetPoint(slot.right, 3 - axis, i, distance);
        }
      }
      if axis == 2 {
        if y - distance < slot.ypos {
          GetPoint(slot.right, 3 - axis, i, distance);
        }
      }
    }

    /** The second recursive call: the left link, when the window reaches the node's
        coordinate on the axis it splits. */
    method SearchLeft(pointer: int, axis: int, i: int, distance: real)
      requires Valid(State()) && 0 < pointer < |tree| && Id(tree[pointer]) > 0
      requires 0 <= i < |xValues| && |yValues| == |xValues|
      modifies this
      ensures tree == old(tree) && endPointer == old(endPointer) && xValues == old(xValues) && yValues == old(yValues)
      ensures var found := Left(State(), pointer, axis, xValues[i], yValues[i], distance);
              mylist == Recorded(old(mylist), old(neighborsWithinDistance), found)
              && neighborsWithinDistance == old(neighborsWithinDistance) + |found|
      decreases |tree| + 1 - pointer, 0
    {
      var x, y, slot := xValues[i], yValues[i], tree[pointer];
      assert Recorded(mylist, neighborsWithinDistance, []) == mylist;
      if axis == 1 {
        if x + distance >= slot.xpos {
          GetPoint(slot.left, 3 - axis, i, distance);
        }
      }
      if axis == 2 {
        if y + distance >= slot.ypos {
          GetPoint(slot.left, 3 - axis, i, distance);
        }
      }
    }

    /** The last part of get_point: the node's own id is written when its point lies in
        the window around the object. */
    method RecordSelf(pointer: int, i: int, distance: real)
      requires 0 < pointer < |tree| && Id(tree[pointer]) > 0 && 0 <= i < |xValues| && |yValues| == |xValues|
      modifies this
      ensures tree == old(tree) && endPointer == old(endPointer) && xValues == old(xValues) && yValues == old(yValues)
      ensures var n := tree[pointer];
              var own := if InWindow(n, xValues[i], yValues[i], distance) then [n.id] else [];
              mylist == Recorded(old(mylist), old(neighborsWithinDistance), own)
              && neighborsWithinDistance == old(neighborsWithinDistance) + |own|
    {
      var x, y, slot := xValues[i], yValues[i], tree[pointer];
      if x - distance < slot.xpos && x + distance >= slot.xpos {
        if y - distance < slot.ypos && y + distance >= slot.ypos {
          RecordedSnoc(mylist, neighborsWithinDistance, [], slot.id);
          mylist := mylist[neighborsWithinDistance := slot.id];
          neighborsWithinDistance := neighborsWithinDistance + 1;
          return;
        }
      }
    }

    /** The top of each iteration of make: end_pointer back to 1, a fresh table of n
        slots, and every object added from the root in order. */
    method Rebuild() returns (r: Result<()>)
      requires |yValues| == |xValues|
      modifies this
      ensures xValues == old(xValues) && yValues == old(yValues)
      ensures mylist == old(mylist) && neighborsWithinDistance == old(neighborsWithinDistance)
      ensures var expected := Built(xValues, yValues, |xValues|);
              (r.Ok? <==> expected.Ok?) && (expected.Ok? ==> State() == expected.value)
    {
      endPointer := 1;
      tree := seq(|xValues|, p => Fresh);
      assert State() == Reset(|xValues|);
      for k := 0 to |xValues|
        invariant xValues == old(xValues) && yValues == old(yValues)
        invariant mylist == old(mylist) && neighborsWithinDistance == old(neighborsWithinDistance)
        invariant Built(xValues, yValues, k).Ok? && State() == Built(xValues, yValues, k).value
      {
        var added := AddPoint(1, 1, k);
        if added.Raise? {
          BuiltFails(xValues, yValues, k + 1, |xValues|);
          return added;
        }
      }
      return Ok(());
    }

    /** The neighbour search for one object in make: the count back to 0, then
        get_point from the root with the object's distance. */
    method Query(i: int, distance: real)
      requires Valid(State()) && 1 < |tree| && 0 <= i < |xValues| && |yValues| == |xValues|
      modifies this
      ensures tree == old(tree) && endPointer == old(endPointer) && xValues == old(xValues) && yValues == old(yValues)
      ensures var found := Found(State(), 1, 1, xValues[i], yValues[i], distance);
              mylist == Recorded(old(mylist), 0, found) && neighborsWithinDistance == |found|
    {
      neighborsWithinDistance := 0;
      GetPoint(1, 1, i, distance);
    }
  }
}
