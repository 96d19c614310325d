/** Hosts and endosymbionts. A symbiont latches the first time a host claims
    it; a host, when initialised, claims the first unclaimed symbiont of its
    symbiont collection and records that symbiont's position. The collection
    is given as the sequence of its cells in iteration order; positions are
    values of the type parameter `P`. */
module Organisms {

  class SymbiontOrg {
    var hasHost: bool

    /** A new symbiont has no host. */
    constructor ()
      ensures !hasHost
    {
      hasHost := false;
    }

    /** The default copy constructor copies the flag. */
    constructor Copy(that: SymbiontOrg)
      ensures hasHost == that.hasHost
    {
      hasHost := that.hasHost;
    }

    /** A symbiont describes itself by its kind alone. */
    function ToString(): (r: string)
      ensures r == "Symbiont"
    {
      "Symbiont"
    }

    /** Mutation does nothing to a symbiont and reports no mutations. */
    method Mutate() returns (count: nat)
      ensures count == 0
    {
      count := 0;
    }

    /** Claims this symbiont: succeeds exactly when it had no host, and leaves
        it hosted either way. */
    method TrySetHost() returns (r: bool)
      modifies this
      ensures r == !old(hasHost) && hasHost
    {
      r := !hasHost;
      hasHost := true;
    }
  }

  /** A cell of the symbiont collection: empty, a symbiont, or some other organism. */
  datatype Cell<P> = EmptyCell | SymbiontCell(sym: SymbiontOrg, at: P) | OtherOrgCell(at: P)

  function Symbionts<P>(cells: seq<Cell<P>>): set<SymbiontOrg>
  {
    set i | 0 <= i < |cells| && cells[i].SymbiontCell? :: cells[i].sym
  }

  /** The cell a host's initialisation claims: the first holding a symbiont
      without a host, or the end when there is none. */
  function FirstUnhosted<P>(cells: seq<Cell<P>>, i: nat): (r: nat)
    reads Symbionts(cells)
    ensures i <= |cells| ==> i <= r <= |cells|
    ensures r < |cells| ==> cells[r].SymbiontCell? && !cells[r].sym.hasHost
    decreases |cells| - i
  {
    if i >= |cells| then i
    else if cells[i].SymbiontCell? && !cells[i].sym.hasHost then i
    else FirstUnhosted(cells, i + 1)
  }

  /** Every symbiont before the claimed cell already has a host. */
  lemma {:induction false} FirstUnhostedIsFirst<P>(cells: seq<Cell<P>>, i: nat)
    requires i <= |cells|
    ensures forall j :: i <= j < FirstUnhosted(cells, i) ==> !cells[j].SymbiontCell? || cells[j].sym.hasHost
    decreases |cells| - i
  {
    if i < |cells| && !(cells[i].SymbiontCell? && !cells[i].sym.hasHost) {
      FirstUnhostedIsFirst(cells, i + 1);
    }
  }

  class HostOrg<P> {
    var symbionts: seq<P>

    constructor ()
      ensures symbionts == []
    {
      symbionts := [];
    }

    /** The copy constructor copies only the organism base: the copy starts
        without symbionts. */
    constructor Copy(that: HostOrg<P>)
      ensures symbionts == []
    {
      symbionts := [];
    }

    /** "Host with N symbionts", with `show` rendering the count. */
    function ToString(show: nat -> string): (r: string)
      reads this
      ensures |r| == 10 + |show(|symbionts|)| + 10
      ensures r[..10] == "Host with " && r[|r| - 10..] == " symbionts"
      ensures r[10..|r| - 10] == show(|symbionts|)
    {
      var r := "Host with " + show(|symbionts|) + " symbionts";
      assert r[..10] == "Host with " && r[10..|r| - 10] == show(|symbionts|);
      r
    }

    /** Mutation does nothing to a host and reports no mutations. */
    method Mutate() returns (count: nat)
      ensures count == 0
    {
      count := 0;
    }

    method AddSymbiont(sym: P)
      modifies this
      ensures symbionts == old(symbionts) + [sym]
    {
      symbionts := symbionts + [sym];
    }

    function GetSymbionts(): seq<P> reads this { symbionts }

    /** The capture loop of `Initialize`: try each symbiont cell in order and
        stop at the first that accepts this host. Only that symbiont changes,
        and it is the only position added. */
    method Initialize(cells: seq<Cell<P>>)
      modifies this, Symbionts(cells)
      ensures old(FirstUnhosted(cells, 0)) < |cells| ==>
                var k := old(FirstUnhosted(cells, 0));
                && symbionts == old(symbionts) + [cells[k].at]
                && cells[k].sym.hasHost
                && forall s :: s in Symbionts(cells) && s != cells[k].sym ==> s.hasHost == old(s.hasHost)
      ensures old(FirstUnhosted(cells, 0)) == |cells| ==>
                && symbionts == old(symbionts)
                && forall s :: s in Symbionts(cells) ==> s.hasHost == old(s.hasHost)
    {
      ghost var k := FirstUnhosted(cells, 0);
      FirstUnhostedIsFirst(cells, 0);
      var i := 0;
      while i < |cells|
        invariant 0 <= i <= k
        invariant symbionts == old(symbionts)
        invariant forall s :: s in Symbionts(cells) ==> s.hasHost == old(s.hasHost)
      {
        if cells[i].SymbiontCell? {
          var sym := cells[i].sym;
          assert sym in Symbionts(cells);
          var claimed := sym.TrySetHost();
          if claimed {
            symbionts := symbionts + [cells[i].at];
            return;
          }
        }
        i := i + 1;
      }
    }
  }

  /** A symbiont is claimed at most once: of two claims, only the first of a
      fresh symbiont succeeds, and a copy of a claimed symbiont refuses too. */
  method ClaimOnce() returns (first: bool, second: bool, copyClaim: bool)
    ensures first && !second && !copyClaim
  {
    var s := new SymbiontOrg();
    first := s.TrySetHost();
    second := s.TrySetHost();
    var t := new SymbiontOrg.Copy(s);
    copyClaim := t.TrySetHost();
  }

  /** A host initialised over a collection of an empty cell, another organism,
      a hosted symbiont and a free symbiont claims the free one, records its
      position and reports one symbiont; a second host finds nothing to claim. */
  method CaptureFirstFree(show: nat -> string) returns (claimed: seq<nat>, text: string, secondClaimed: seq<nat>)
    ensures claimed == [3] && text == "Host with " + show(1) + " symbionts"
    ensures secondClaimed == []
  {
    var hosted := new SymbiontOrg();
    var ignored := hosted.TrySetHost();
    var free := new SymbiontOrg();
    var cells: seq<Cell<nat>> := [EmptyCell, OtherOrgCell(1), SymbiontCell(hosted, 2), SymbiontCell(free, 3)];
    assert FirstUnhosted(cells, 2) == 3;
    var host := new HostOrg<nat>();
    host.Initialize(cells);
    claimed := host.GetSymbionts();
    text := host.ToString(show);
    var other := new HostOrg<nat>();
    assert FirstUnhosted(cells, 3) == 4;
    other.Initialize(cells);
    secondClaimed := other.GetSymbionts();
  }
}
