/** The free-list placement module: a new organism goes into the lowest empty
    cell of a managed population, and the population grows by one empty cell
    only when it has none. Populations it does not manage get no position. */
module FreeListPlacements {
  import opened Common
  import opened Populations

  /** A position in some population, or the default, invalid position. */
  datatype OrgPosition<O> = NoPosition | Position(pop: Population<O>, index: nat)

  /** The index of the first empty cell at or after `i`, or the end. */
  function FirstEmpty<O>(cells: seq<Option<O>>, i: nat): nat
    decreases |cells| - i
  {
    if i >= |cells| || cells[i].None? then i else FirstEmpty(cells, i + 1)
  }

  /** Scanning from 0 finds the lowest empty cell, or the end when every cell is occupied. */
  lemma {:induction false} FirstEmptyIsLowest<O>(cells: seq<Option<O>>, i: nat)
    requires i <= |cells|
    ensures i <= FirstEmpty(cells, i) <= |cells|
    ensures FirstEmpty(cells, i) < |cells| ==> cells[FirstEmpty(cells, i)].None?
    ensures forall j :: i <= j < FirstEmpty(cells, i) ==> cells[j].Some?
    decreases |cells| - i
  {
    if i < |cells| && cells[i].Some? {
      FirstEmptyIsLowest(cells, i + 1);
    }
  }

  class FreeListPlacement<O> {
    const name: string
    /** The managed populations (the "target" collection). */
    var targets: set<Population<O>>

    /** Manages the controller's first population until configured otherwise. */
    constructor (first: Population<O>, name: string)
      ensures this.name == name && targets == {first}
    {
      this.name := name;
      targets := {first};
    }

    /** The configuration's choice of managed populations. */
    method SetTargets(pops: set<Population<O>>)
      modifies this
      ensures targets == pops
    {
      targets := pops;
    }

    /** Installs this module's placement, for both births and injections, on
        every managed population among `pops`, and touches no other population. */
    method SetupModule(pops: seq<Population<O>>)
      modifies set p | p in pops
      ensures forall p :: p in pops && p in targets ==>
                p.placeBirthFun == PlaceInjectOf(name) && p.placeInjectFun == PlaceInjectOf(name)
      ensures forall p :: p in pops && p !in targets ==>
                p.placeBirthFun == old(p.placeBirthFun) && p.placeInjectFun == old(p.placeInjectFun)
      ensures forall p :: p in pops ==> p.orgs == old(p.orgs) && p.name == old(p.name) && p.id == old(p.id)
    {
      var k := 0;
      while k < |pops|
        invariant 0 <= k <= |pops|
        invariant forall p :: p in pops[..k] && p in targets ==>
                    p.placeBirthFun == PlaceInjectOf(name) && p.placeInjectFun == PlaceInjectOf(name)
        invariant forall p :: p in pops && p !in pops[..k] ==>
                    p.placeBirthFun == old(p.placeBirthFun) && p.placeInjectFun == old(p.placeInjectFun)
        invariant forall p :: p in pops && p !in targets ==>
                    p.placeBirthFun == old(p.placeBirthFun) && p.placeInjectFun == old(p.placeInjectFun)
        invariant forall p :: p in pops ==> p.orgs == old(p.orgs) && p.name == old(p.name) && p.id == old(p.id)
      {
        var pop := pops[k];
        if pop in targets {
          pop.SetPlaceBirthFun(PlaceInjectOf(name));
          pop.SetPlaceInjectFun(PlaceInjectOf(name));
        }
        assert pops[..k + 1] == pops[..k] + [pop];
        k := k + 1;
      }
    }

    /** Places an organism into `pop`: the lowest empty cell when there is one,
        otherwise a newly appended empty cell; no position at all when `pop` is
        not managed. */
    method PlaceInject(pop: Population<O>) returns (r: OrgPosition<O>)
      requires pop.Valid() && |pop.orgs| < SIZE_MAX
      modifies pop
      ensures pop !in targets ==> r == NoPosition && pop.orgs == old(pop.orgs)
      ensures pop in targets && FirstEmpty(old(pop.orgs), 0) < |old(pop.orgs)| ==>
                r == Position(pop, FirstEmpty(old(pop.orgs), 0)) && pop.orgs == old(pop.orgs)
      ensures pop in targets && FirstEmpty(old(pop.orgs), 0) == |old(pop.orgs)| ==>
                r == Position(pop, |old(pop.orgs)|) && pop.orgs == old(pop.orgs) + [None]
      ensures pop.name == old(pop.name) && pop.id == old(pop.id)
      ensures pop.placeBirthFun == old(pop.placeBirthFun) && pop.placeInjectFun == old(pop.placeInjectFun)
    {
      if pop in targets {
        var i := 0;
        while i < |pop.orgs|
          invariant 0 <= i <= |pop.orgs|
          invariant FirstEmpty(pop.orgs, i) == FirstEmpty(pop.orgs, 0)
        {
          if pop.orgs[i].None? {
            return Position(pop, i);
          }
          i := i + 1;
        }
        var index := pop.PushEmpty();
        return Position(pop, index);
      }
      return NoPosition;
    }

    /** The birth callback: the parent's position plays no part, so a birth is
        placed exactly as an injection. */
    method PlaceBirth(pop: Population<O>, parent: OrgPosition<O>) returns (r: OrgPosition<O>)
      requires pop.Valid() && |pop.orgs| < SIZE_MAX
      modifies pop
      ensures pop !in targets ==> r == NoPosition && pop.orgs == old(pop.orgs)
      ensures pop in targets && FirstEmpty(old(pop.orgs), 0) < |old(pop.orgs)| ==>
                r == Position(pop, FirstEmpty(old(pop.orgs), 0)) && pop.orgs == old(pop.orgs)
      ensures pop in targets && FirstEmpty(old(pop.orgs), 0) == |old(pop.orgs)| ==>
                r == Position(pop, |old(pop.orgs)|) && pop.orgs == old(pop.orgs) + [None]
      ensures pop.name == old(pop.name) && pop.id == old(pop.id)
      ensures pop.placeBirthFun == old(pop.placeBirthFun) && pop.placeInjectFun == old(pop.placeInjectFun)
    {
      r := PlaceInject(pop);
    }
  }

  /** A placement into a managed population lands on an empty cell, below
      which every cell is occupied, and the population grows only when it was
      full. */
  method PlacementLandsOnEmptyCell<O>(cells: seq<Option<O>>) returns (index: nat, grows: bool)
    requires |cells| < SIZE_MAX
    ensures index <= |cells| && (grows <==> index == |cells|)
    ensures index < |cells| ==> cells[index].None?
    ensures forall j :: 0 <= j < index ==> cells[j].Some?
  {
    var pop := new Population<O>("pop", 0);
    pop.orgs := cells;
    var placer := new FreeListPlacement(pop, "FreeListPlacement");
    FirstEmptyIsLowest(cells, 0);
    var r := placer.PlaceInject(pop);
    index := r.index;
    grows := |pop.orgs| > |cells|;
  }
}
