/** The controller's registries: the worlds of a run, in creation order, with
    one of them current, and the organism types, keyed by name. A world is
    recorded by its name and id; an organism type by its name and the kind of
    organism it wraps. */
module Controller {
  import opened Common

  datatype World = World(name: string, id: nat)
  datatype OrganismType = OrganismType(name: string, orgKind: string)

  /** The index of the first world named `name`, or -1. */
  function FindWorld(worlds: seq<World>, name: string, from: nat): (r: int)
    requires from <= |worlds|
    ensures r == -1 || from <= r < |worlds|
    decreases |worlds| - from
  {
    if from == |worlds| then -1
    else if worlds[from].name == name then from
    else FindWorld(worlds, name, from + 1)
  }

  /** `FindWorld` answers -1 exactly when no world from `from` on has the
      name, and otherwise the first index that has it. */
  lemma {:induction false} FindWorldIsFirst(worlds: seq<World>, name: string, from: nat)
    requires from <= |worlds|
    ensures FindWorld(worlds, name, from) == -1 <==> forall i :: from <= i < |worlds| ==> worlds[i].name != name
    ensures FindWorld(worlds, name, from) >= 0 ==>
              worlds[FindWorld(worlds, name, from)].name == name
              && forall i :: from <= i < FindWorld(worlds, name, from) ==> worlds[i].name != name
    decreases |worlds| - from
  {
    if from < |worlds| && worlds[from].name != name {
      FindWorldIsFirst(worlds, name, from + 1);
    }
  }

  class Mabe {
    var worlds: seq<World>
    var curWorld: nat
    var orgTypes: map<string, OrganismType>

    /** Every world knows its index, the current world is one of them (or the
        `size_t(-1)` "none yet" value before the first), and every organism
        type is filed under its own name. */
    ghost predicate Valid()
      reads this
    {
      && (forall i :: 0 <= i < |worlds| ==> worlds[i].id == i)
      && (|worlds| == 0 ==> curWorld == SIZE_MAX)
      && (|worlds| > 0 ==> curWorld < |worlds|)
      && (forall n :: n in orgTypes ==> orgTypes[n].name == n)
    }

    constructor ()
      ensures Valid() && worlds == [] && curWorld == SIZE_MAX && orgTypes == map[]
    {
      worlds := [];
      curWorld := SIZE_MAX;
      orgTypes := map[];
    }

    function GetNumWorlds(): (r: nat)
      reads this
      ensures r == |worlds|
    {
      |worlds|
    }

    /** Appends a world whose id is the previous world count and makes it current. */
    method AddWorld(name: string) returns (w: World)
      requires Valid()
      modifies this
      ensures Valid() && worlds == old(worlds) + [w] && w == World(name, |old(worlds)|)
      ensures curWorld == |old(worlds)| && GetNumWorlds() == old(GetNumWorlds()) + 1
      ensures orgTypes == old(orgTypes)
    {
      curWorld := |worlds|;
      w := World(name, curWorld);
      worlds := worlds + [w];
    }

    /** The world with id `id`, which must exist. */
    function GetWorldById(id: int): (w: World)
      reads this
      requires Valid() && 0 <= id < |worlds|
      ensures w in worlds && w.id == id
    {
      worlds[id]
    }

    /** The current world; with no world yet, "main_world" is created first. */
    method GetWorld() returns (w: World)
      requires Valid()
      modifies this
      ensures Valid() && orgTypes == old(orgTypes)
      ensures old(|worlds|) == 0 ==> worlds == [World("main_world", 0)] && curWorld == 0 && w == worlds[0]
      ensures old(|worlds|) > 0 ==> worlds == old(worlds) && curWorld == old(curWorld) && w == worlds[curWorld]
    {
      if |worlds| == 0 {
        var ignored := AddWorld("main_world");
      }
      w := GetWorldById(curWorld);
    }

    /** The id of the first world named `name`, or -1 when there is none. */
    method GetWorldID(name: string) returns (r: int)
      ensures r == FindWorld(worlds, name, 0)
      ensures r == -1 <==> forall i :: 0 <= i < |worlds| ==> worlds[i].name != name
      ensures r >= 0 ==> r < |worlds| && worlds[r].name == name && forall i :: 0 <= i < r ==> worlds[i].name != name
    {
      FindWorldIsFirst(worlds, name, 0);
      var i := 0;
      while i < |worlds|
        invariant 0 <= i <= |worlds|
        invariant FindWorld(worlds, name, i) == FindWorld(worlds, name, 0)
      {
        if worlds[i].name == name {
          return i;
        }
        i := i + 1;
      }
      return -1;
    }

    /** The first world named `name`, which must exist. */
    method GetWorldByName(name: string) returns (w: World)
      requires Valid() && exists i :: 0 <= i < |worlds| && worlds[i].name == name
      ensures w in worlds && w.name == name
      ensures forall i :: 0 <= i < w.id ==> worlds[i].name != name
    {
      var id := GetWorldID(name);
      w := GetWorldById(id);
    }

    /** The organism type named `typeName`, which must exist. */
    function GetOrganismType(typeName: string): (t: OrganismType)
      reads this
      requires Valid() && typeName in orgTypes
      ensures t.name == typeName
    {
      orgTypes[typeName]
    }

    /** Registers a new organism type, whose name must not be taken. */
    method AddOrganismType(typeName: string, orgKind: string) returns (t: OrganismType)
      requires Valid() && typeName !in orgTypes
      modifies this
      ensures Valid() && t == OrganismType(typeName, orgKind)
      ensures orgTypes == old(orgTypes)[typeName := t] && typeName in orgTypes
      ensures worlds == old(worlds) && curWorld == old(curWorld)
    {
      t := OrganismType(typeName, orgKind);
      orgTypes := orgTypes[typeName := t];
    }

    /** The organism type named `typeName`, registered first if it is new. */
    method GetFullOrganismType(typeName: string, orgKind: string) returns (t: OrganismType)
      requires Valid()
      modifies this
      ensures Valid() && typeName in orgTypes && t == orgTypes[typeName] && t.name == typeName
      ensures typeName in old(orgTypes) ==> orgTypes == old(orgTypes)
      ensures typeName !in old(orgTypes) ==>
                t == OrganismType(typeName, orgKind) && orgTypes == old(orgTypes)[typeName := t]
      ensures worlds == old(worlds) && curWorld == old(curWorld)
    {
      if typeName !in orgTypes {
        t := OrganismType(typeName, orgKind);
        orgTypes := orgTypes[typeName := t];
        return;
      }
      t := orgTypes[typeName];
    }
  }

  /** Asking twice for the same organism type, even with a different kind the
      second time, gives the same type and registers it once. */
  method GetOrCreateTwice(typeName: string, kind1: string, kind2: string)
    returns (first: OrganismType, second: OrganismType, registered: nat)
    ensures first == second == OrganismType(typeName, kind1) && registered == 1
  {
    var m := new Mabe();
    first := m.GetFullOrganismType(typeName, kind1);
    second := m.GetFullOrganismType(typeName, kind2);
    registered := |m.orgTypes.Keys|;
    assert m.orgTypes.Keys == {typeName};
  }

  /** The first request for the current world creates "main_world" with id 0;
      a later request creates nothing; an added world gets the next id, becomes
      current and can be found by name, while an unknown name is not found. */
  method WorldLifecycle(other: string) returns (main: World, again: World, added: World, current: World,
                                                 found: int, missing: int, count: nat)
    requires other != "main_world" && other != ""
    ensures main == again == World("main_world", 0)
    ensures added == current == World(other, 1) && found == 1 && missing == -1 && count == 2
  {
    var m := new Mabe();
    main := m.GetWorld();
    again := m.GetWorld();
    added := m.AddWorld(other);
    current := m.GetWorld();
    found := m.GetWorldID(other);
    missing := m.GetWorldID("");
    count := m.GetNumWorlds();
  }
}
