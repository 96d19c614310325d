/** A population: a named, numbered row of organism cells, each empty or
    holding one organism, and the iterator that walks its cells. The iterator
    position is a `size_t`, so stepping below 0 wraps around to `SIZE_MAX`.
    Organisms are values of the type parameter `O`; cloning one is a parameter. */
module Populations {
  import opened Common

  /** A placement callback a placement module installs on a population. */
  datatype PlaceFun = NoPlaceFun | PlaceInjectOf(owner: string)

  class Population<O> {
    var name: string
    var id: int
    var orgs: seq<Option<O>>
    var placeBirthFun: PlaceFun
    var placeInjectFun: PlaceFun

    ghost predicate Valid()
      reads this
    {
      |orgs| <= SIZE_MAX
    }

    constructor (name: string, id: int)
      ensures Valid() && this.name == name && this.id == id && orgs == []
      ensures placeBirthFun == NoPlaceFun && placeInjectFun == NoPlaceFun
    {
      this.name := name;
      this.id := id;
      orgs := [];
      placeBirthFun := NoPlaceFun;
      placeInjectFun := NoPlaceFun;
    }

    /** The copy constructor, corrected: each organism is cloned into the same
        cell of the copy and an empty cell stays empty (the loop as written
        dereferences the empty cell; see `CopyCellsAsWritten`). The copy's id
        is not initialised, so nothing is said about it. */
    constructor Copy(src: Population<O>, clone: O -> O)
      requires src.Valid()
      ensures Valid() && name == src.name + "_copy" && |orgs| == |src.orgs|
      ensures forall i :: 0 <= i < |orgs| ==> (orgs[i].Some? <==> src.orgs[i].Some?)
      ensures forall i :: 0 <= i < |orgs| && src.orgs[i].Some? ==> orgs[i] == Some(clone(src.orgs[i].value))
      ensures placeBirthFun == NoPlaceFun && placeInjectFun == NoPlaceFun
    {
      name := src.name + "_copy";
      orgs := seq(|src.orgs|, _ => None);
      placeBirthFun := NoPlaceFun;
      placeInjectFun := NoPlaceFun;
      new;
      var i := 0;
      while i < |orgs|
        invariant 0 <= i <= |orgs| == |src.orgs|
        invariant name == src.name + "_copy"
        invariant forall j :: 0 <= j < i ==> (orgs[j].Some? <==> src.orgs[j].Some?)
        invariant forall j :: 0 <= j < i && src.orgs[j].Some? ==> orgs[j] == Some(clone(src.orgs[j].value))
        invariant forall j :: i <= j < |orgs| ==> orgs[j].None?
        invariant placeBirthFun == NoPlaceFun && placeInjectFun == NoPlaceFun
      {
        if src.orgs[i].Some? {
          orgs := orgs[i := Some(clone(src.orgs[i].value))];
        }
        i := i + 1;
      }
    }

    function GetName(): string reads this { name }
    function GetID(): int reads this { id }

    method SetID(newId: int)
      modifies this
      ensures id == newId && name == old(name) && orgs == old(orgs)
      ensures placeBirthFun == old(placeBirthFun) && placeInjectFun == old(placeInjectFun)
    {
      id := newId;
    }

    /** Appends one empty cell and returns its index, as the controller's
        `PushEmpty` does for a population. */
    method PushEmpty() returns (index: nat)
      requires |orgs| < SIZE_MAX
      modifies this
      ensures Valid() && orgs == old(orgs) + [None] && index == |old(orgs)|
      ensures name == old(name) && id == old(id)
      ensures placeBirthFun == old(placeBirthFun) && placeInjectFun == old(placeInjectFun)
    {
      index := |orgs|;
      orgs := orgs + [None];
    }

    method SetPlaceBirthFun(f: PlaceFun)
      modifies this
      ensures placeBirthFun == f && placeInjectFun == old(placeInjectFun)
      ensures name == old(name) && id == old(id) && orgs == old(orgs)
    {
      placeBirthFun := f;
    }

    method SetPlaceInjectFun(f: PlaceFun)
      modifies this
      ensures placeInjectFun == f && placeBirthFun == old(placeBirthFun)
      ensures name == old(name) && id == old(id) && orgs == old(orgs)
    {
      placeInjectFun := f;
    }
  }

  // ---------------------------------------------------------------------------
  // Positions.

  /** `size_t` decrement: 0 wraps around to `SIZE_MAX`. */
  function Dec(p: nat): (r: nat)
    requires p <= SIZE_MAX
    ensures r <= SIZE_MAX && (p > 0 ==> r == p - 1) && (p == 0 ==> r == SIZE_MAX)
  {
    if p == 0 then SIZE_MAX else p - 1
  }

  /** `size_t` increment: `SIZE_MAX` wraps around to 0. */
  function Inc(p: nat): (r: nat)
    requires p <= SIZE_MAX
    ensures r <= SIZE_MAX && (p < SIZE_MAX ==> r == p + 1) && (p == SIZE_MAX ==> r == 0)
  {
    if p == SIZE_MAX then 0 else p + 1
  }

  /** Where skipping forward over empty cells from `p` stops. */
  function NextOccupied<O>(cells: seq<Option<O>>, p: nat): nat
    decreases |cells| - p
  {
    if p >= |cells| || cells[p].Some? then p else NextOccupied(cells, p + 1)
  }

  /** Skipping forward stays put on an occupied cell or past the end;
      otherwise it stops at the first occupied cell after `p`, or at the end,
      having passed only empty cells. */
  lemma {:induction false} NextOccupiedStops<O>(cells: seq<Option<O>>, p: nat)
    ensures p <= NextOccupied(cells, p)
    ensures (p >= |cells| || cells[p].Some?) ==> NextOccupied(cells, p) == p
    ensures p < |cells| ==> NextOccupied(cells, p) <= |cells|
    ensures NextOccupied(cells, p) < |cells| ==> cells[NextOccupied(cells, p)].Some?
    ensures forall i :: p <= i < NextOccupied(cells, p) ==> i < |cells| && cells[i].None?
    decreases |cells| - p
  {
    if p < |cells| && cells[p].None? {
      NextOccupiedStops(cells, p + 1);
    }
  }

  /** `operator++` from a cell `p` lands on the smallest occupied index above
      `p`, or on the end when there is none. */
  lemma {:induction false} IncrementFindsNext<O>(cells: seq<Option<O>>, p: nat)
    requires p < |cells| <= SIZE_MAX
    ensures p < NextOccupied(cells, Inc(p)) <= |cells|
    ensures NextOccupied(cells, Inc(p)) < |cells| ==> cells[NextOccupied(cells, Inc(p))].Some?
    ensures forall i :: p < i < NextOccupied(cells, Inc(p)) ==> cells[i].None?
  {
    NextOccupiedStops(cells, p + 1);
  }

  /** Where skipping backward over empty cells from `p` stops: an occupied
      cell, or any position at or past the end (where wrapping lands). */
  function PrevOccupied<O>(cells: seq<Option<O>>, p: nat): nat
    requires |cells| <= SIZE_MAX && p <= SIZE_MAX
    decreases if p < |cells| then p + 1 else 0
  {
    if p >= |cells| || cells[p].Some? then p else PrevOccupied(cells, Dec(p))
  }

  /** Skipping backward from a cell `p` stops at the largest occupied index at
      or below `p`, or wraps past the end when every cell up to `p` is empty. */
  lemma {:induction false} PrevOccupiedStops<O>(cells: seq<Option<O>>, p: nat)
    requires |cells| <= SIZE_MAX && p < |cells|
    ensures PrevOccupied(cells, p) <= p ==>
              cells[PrevOccupied(cells, p)].Some?
              && forall i :: PrevOccupied(cells, p) < i <= p ==> cells[i].None?
    ensures PrevOccupied(cells, p) > p ==>
              PrevOccupied(cells, p) >= |cells| && forall i :: 0 <= i <= p ==> cells[i].None?
    decreases p
  {
    if cells[p].None? && p > 0 {
      PrevOccupiedStops(cells, p - 1);
    }
  }

  /** `operator--` from a position `p` up to the end lands on the largest
      occupied index below `p`; when there is none it wraps around to a
      position at or past the end. */
  lemma {:induction false} DecrementFindsPrevious<O>(cells: seq<Option<O>>, p: nat)
    requires p <= |cells| <= SIZE_MAX
    ensures PrevOccupied(cells, Dec(p)) < p ==>
              cells[PrevOccupied(cells, Dec(p))].Some?
              && forall i :: PrevOccupied(cells, Dec(p)) < i < p ==> cells[i].None?
    ensures PrevOccupied(cells, Dec(p)) >= p ==>
              PrevOccupied(cells, Dec(p)) >= |cells| && forall i :: 0 <= i < p ==> cells[i].None?
  {
    if p > 0 {
      PrevOccupiedStops(cells, p - 1);
    }
  }

  // ---------------------------------------------------------------------------
  // The iterator.

  /** The copy constructor's loop as written: it clones through every cell,
      so it reaches a null dereference (`None`) exactly when some cell of the
      source is empty, and otherwise yields a clone of every organism. */
  method CopyCellsAsWritten<O>(cells: seq<Option<O>>, clone: O -> O) returns (r: Option<seq<Option<O>>>)
    ensures r.None? <==> exists i :: 0 <= i < |cells| && cells[i].None?
    ensures r.Some? ==> |r.value| == |cells| && forall i :: 0 <= i < |cells| ==> r.value[i] == Some(clone(cells[i].value))
  {
    var out: seq<Option<O>> := [];
    var i := 0;
    while i < |cells|
      invariant 0 <= i <= |cells| && |out| == i
      invariant forall j :: 0 <= j < i ==> cells[j].Some? && out[j] == Some(clone(cells[j].value))
    {
      if cells[i].None? {
        return None;
      }
      out := out + [Some(clone(cells[i].value))];
      i := i + 1;
    }
    return Some(out);
  }

  /** A one-cell population whose cell is empty is enough to reach the null
      dereference of the copy loop as written. */
  method EmptyCellCopyAsWritten<O>(clone: O -> O) returns (r: Option<seq<Option<O>>>)
    ensures r.None?
  {
    var cells: seq<Option<O>> := [None];
    assert cells[0].None?;
    r := CopyCellsAsWritten(cells, clone);
  }

  class Iterator<O> {
    var pop: Population<O>
    var pos: nat

    ghost predicate Valid()
      reads this, pop
    {
      pos <= SIZE_MAX && pop.Valid()
    }

    constructor (p: Population<O>, at: nat)
      requires p.Valid() && at <= SIZE_MAX
      ensures Valid() && pop == p && pos == at
    {
      pop := p;
      pos := at;
    }

    constructor Copy(that: Iterator<O>)
      requires that.Valid()
      ensures Valid() && pop == that.pop && pos == that.pos
    {
      pop := that.pop;
      pos := that.pos;
    }

    function PopName(): string reads this, pop { pop.name }
    function PopID(): int reads this, pop { pop.id }
    function PopSize(): nat reads this, pop { |pop.orgs| }

    function OrgPtr(): Option<O>
      reads this, pop
      requires pos < PopSize()
    {
      pop.orgs[pos]
    }

    predicate IsOccupied()
      reads this, pop
      requires pos < PopSize()
    {
      OrgPtr().Some?
    }

    /** Skips forward over empty cells. */
    method ToOccupied()
      requires Valid()
      modifies this
      ensures Valid() && pop == old(pop) && pos == NextOccupied(pop.orgs, old(pos))
    {
      while pos < PopSize() && OrgPtr().None?
        invariant pos <= SIZE_MAX && NextOccupied(pop.orgs, pos) == NextOccupied(pop.orgs, old(pos))
        invariant pop == old(pop)
        decreases |pop.orgs| - pos
      {
        pos := pos + 1;
      }
    }

    /** `operator++`: one step, then on to the next occupied cell. */
    method Increment()
      requires Valid()
      modifies this
      ensures Valid() && pop == old(pop) && pos == NextOccupied(pop.orgs, Inc(old(pos)))
    {
      pos := Inc(pos);
      ToOccupied();
    }

    /** `operator--`: one step back, then on back to an occupied cell,
        wrapping below 0. */
    method Decrement()
      requires Valid()
      modifies this
      ensures Valid() && pop == old(pop) && pos == PrevOccupied(pop.orgs, Dec(old(pos)))
    {
      pos := Dec(pos);
      while pos < PopSize() && OrgPtr().None?
        invariant Valid() && PrevOccupied(pop.orgs, pos) == PrevOccupied(pop.orgs, Dec(old(pos)))
        invariant pop == old(pop)
        decreases if pos < |pop.orgs| then pos + 1 else 0
      {
        pos := Dec(pos);
      }
    }

    predicate Equal(that: Iterator<O>) reads this, that { pop == that.pop && pos == that.pos }
    predicate NotEqual(that: Iterator<O>) reads this, that { pop != that.pop || pos != that.pos }
    predicate Less(that: Iterator<O>) reads this, that { pop == that.pop && pos < that.pos }
    predicate LessEq(that: Iterator<O>) reads this, that { pop == that.pop && pos <= that.pos }
    predicate Greater(that: Iterator<O>) reads this, that { pop == that.pop && pos > that.pos }
    predicate GreaterEq(that: Iterator<O>) reads this, that { pop == that.pop && pos >= that.pos }

    /** `operator bool`: the iterator is on a cell of its population, so the
        cell it is on can be read. */
    predicate AsBool(): (r: bool)
      reads this, pop
      ensures r <==> pos < |pop.orgs|
      ensures r ==> OrgPtr() == pop.orgs[pos]
    {
      pos < PopSize()
    }

    /** `operator*` on a non-const iterator: skip to an occupied cell, which must
        exist, and return its organism. */
    method Deref() returns (o: O)
      requires Valid() && NextOccupied(pop.orgs, pos) < |pop.orgs|
      modifies this
      ensures Valid() && pop == old(pop) && pos == NextOccupied(pop.orgs, old(pos))
      ensures pop.orgs[pos] == Some(o)
    {
      NextOccupiedStops(pop.orgs, pos);
      ToOccupied();
      o := OrgPtr().value;
    }

    /** `operator*` on a const iterator: the cell must be occupied; nothing moves. */
    method ConstDeref() returns (o: O)
      requires Valid() && pos < PopSize() && IsOccupied()
      ensures pop.orgs[pos] == Some(o)
    {
      o := OrgPtr().value;
    }

    /** `begin()`: position 0, without skipping empty cells. */
    method Begin() returns (it: Iterator<O>)
      requires Valid()
      ensures fresh(it) && it.Valid() && it.pop == pop && it.pos == 0
    {
      it := new Iterator(pop, 0);
    }

    /** `end()`: just past the last cell. */
    method End() returns (it: Iterator<O>)
      requires Valid()
      ensures fresh(it) && it.Valid() && it.pop == pop && it.pos == PopSize()
      ensures !it.AsBool()
    {
      it := new Iterator(pop, PopSize());
    }
  }

  /** The comparisons: `!=` is the negation of `==`, iterators over different
      populations are unordered, and within one population exactly one of
      `<`, `==` and `>` holds, with `<=` and `>=` their unions. */
  lemma {:induction false} ComparisonsAgree<O>(a: Iterator<O>, b: Iterator<O>)
    ensures a.NotEqual(b) <==> !a.Equal(b)
    ensures a.pop != b.pop ==> !a.Less(b) && !a.LessEq(b) && !a.Greater(b) && !a.GreaterEq(b)
    ensures a.pop == b.pop ==>
              (a.Less(b) || a.Equal(b) || a.Greater(b))
              && !(a.Less(b) && a.Greater(b)) && !(a.Less(b) && a.Equal(b)) && !(a.Equal(b) && a.Greater(b))
    ensures a.LessEq(b) <==> a.Less(b) || a.Equal(b)
    ensures a.GreaterEq(b) <==> a.Greater(b) || a.Equal(b)
    ensures a.Less(b) <==> b.Greater(a)
  {
  }

  /** A walk with `operator++` from position 0 to the end visits cell 0 and
      then every occupied cell, in increasing order. */
  method WalkFromBegin<O>(p: Population<O>) returns (visited: seq<nat>)
    requires p.Valid()
    ensures forall k :: 0 <= k < |visited| ==> visited[k] < |p.orgs|
    ensures |visited| > 0 <==> |p.orgs| > 0
    ensures |visited| > 0 ==> visited[0] == 0
    ensures forall k :: 0 < k < |visited| ==> p.orgs[visited[k]].Some?
    ensures forall k :: 0 < k < |visited| ==> visited[k - 1] < visited[k]
    ensures forall i :: 0 <= i < |p.orgs| && p.orgs[i].Some? ==> i in visited
  {
    var it := new Iterator(p, 0);
    var stop := new Iterator(p, |p.orgs|);
    visited := [];
    while it.NotEqual(stop)
      invariant it.Valid() && it.pop == p && stop.pop == p && stop.pos == |p.orgs|
      invariant it.pos <= |p.orgs|
      invariant forall k :: 0 <= k < |visited| ==> visited[k] < it.pos
      invariant forall k :: 0 < k < |visited| ==> p.orgs[visited[k]].Some?
      invariant forall k :: 0 < k < |visited| ==> visited[k - 1] < visited[k]
      invariant forall i :: 0 <= i < it.pos && p.orgs[i].Some? ==> i in visited
      invariant |visited| == 0 <==> it.pos == 0
      invariant |visited| > 0 ==> visited[0] == 0
      invariant |visited| > 0 ==> it.pos < |p.orgs| ==> p.orgs[it.pos].Some?
      decreases |p.orgs| - it.pos
    {
      IncrementFindsNext(p.orgs, it.pos);
      visited := visited + [it.pos];
      it.Increment();
    }
  }
}
