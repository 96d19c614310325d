/** The data the configuration interpreter works on: entries, the scopes that
    own them, and the arena that holds every scope. A scope refers to its
    enclosing scope by id; a child scope is always created after its parent, so
    parent ids are smaller and walking outward terminates at the global scope. */
module ConfigScopes {
  import opened Common

  type ScopeId = nat

  /** What an entry holds: a number, a string, a nested scope, or nothing yet. */
  datatype EntryValue = Value(num: real) | Str(text: string) | Struct(child: ScopeId) | Placeholder

  /** The run-time type compared by an assignment to an existing variable. */
  datatype EntryType = ValueType | StringType | StructType | PlaceholderType

  /** One configuration variable with its name, description, default text and flags. */
  datatype Entry = Entry(name: string, desc: string, defaultVal: string, value: EntryValue,
                         temporary: bool, builtin: bool)
  {
    function Type(): EntryType
    {
      match value
      case Value(_) => ValueType
      case Str(_) => StringType
      case Struct(_) => StructType
      case Placeholder => PlaceholderType
    }

    predicate IsPlaceholder() { value.Placeholder? }
  }

  /** A scope: its name, its enclosing scope (None for the global scope) and its
      entries by name (so names are unique within a scope). */
  datatype Scope = Scope(name: string, parent: Option<ScopeId>, entries: map<string, Entry>)

  type Arena = map<ScopeId, Scope>

  /** Parents exist and have smaller ids; every entry is filed under its own name. */
  ghost predicate WellFormed(a: Arena)
  {
    && (forall id | id in a && a[id].parent.Some? :: a[id].parent.value in a && a[id].parent.value < id)
    && (forall id, n | id in a && n in a[id].entries :: a[id].entries[n].name == n)
  }

  /** `s` lies on the chain of scopes from `id` out to the global scope. */
  ghost predicate InChain(a: Arena, id: ScopeId, s: ScopeId)
    requires WellFormed(a) && id in a
    ensures InChain(a, id, s) ==> s in a && s <= id
    decreases id
  {
    s == id || (a[id].parent.Some? && InChain(a, a[id].parent.value, s))
  }

  /** A scope on the chain of a scope on the chain of `id` is on the chain of `id`. */
  lemma {:induction false} InChainTransitive(a: Arena, id: ScopeId, mid: ScopeId, s: ScopeId)
    requires WellFormed(a) && id in a && InChain(a, id, mid) && InChain(a, mid, s)
    ensures InChain(a, id, s)
    decreases id
  {
    if id != mid {
      InChainTransitive(a, a[id].parent.value, mid, s);
    }
  }

  /** Finds the scope that holds `name`: only `id` itself when `scan` is false,
      otherwise the innermost scope on the chain outward from `id`. */
  function LookupEntry(a: Arena, id: ScopeId, name: string, scan: bool): (r: Option<ScopeId>)
    requires WellFormed(a) && id in a
    ensures r.Some? ==> r.value in a && name in a[r.value].entries && InChain(a, id, r.value)
    ensures name in a[id].entries ==> r == Some(id)
    ensures !scan ==> (r.Some? <==> name in a[id].entries)
    ensures scan && r.None? ==> forall s: ScopeId {:trigger InChain(a, id, s)} :: InChain(a, id, s) ==> name !in a[s].entries
    ensures scan && r.Some? ==> forall s: ScopeId {:trigger InChain(a, id, s)} :: InChain(a, id, s) && s > r.value ==> name !in a[s].entries
    decreases id
  {
    if name in a[id].entries then Some(id)
    else if scan && a[id].parent.Some? then LookupEntry(a, a[id].parent.value, name, true)
    else None
  }

  /** The entry a fresh placeholder gets: a name and nothing else. */
  function PlaceholderEntry(name: string): (e: Entry)
    ensures e.name == name && e.IsPlaceholder() && !e.temporary && !e.builtin
  {
    Entry(name, "", "", Placeholder, false, false)
  }

  /** Files `e` under its own name in scope `id`, replacing what was there. */
  function Replace(a: Arena, id: ScopeId, e: Entry): (r: Arena)
    requires WellFormed(a) && id in a
    ensures WellFormed(r) && r.Keys == a.Keys
    ensures forall s | s in a :: r[s].parent == a[s].parent && r[s].name == a[s].name
    ensures r[id].entries == a[id].entries[e.name := e]
    ensures forall s | s in a && s != id :: r[s] == a[s]
  {
    a[id := a[id].(entries := a[id].entries[e.name := e])]
  }

  /** Adds a placeholder for `name` to scope `id`. */
  function AddPlaceholder(a: Arena, id: ScopeId, name: string): (r: Arena)
    requires WellFormed(a) && id in a
    ensures WellFormed(r) && r.Keys == a.Keys
    ensures name in r[id].entries && r[id].entries[name].IsPlaceholder()
    ensures forall n | n in a[id].entries && n != name :: n in r[id].entries && r[id].entries[n] == a[id].entries[n]
    ensures r[id].parent == a[id].parent && forall s | s in a && s != id :: r[s] == a[s]
  {
    Replace(a, id, PlaceholderEntry(name))
  }

  /** Overwrites the value of `dst` with that of `src`, keeping everything else of `dst`. */
  function CopyValue(dst: Entry, src: Entry): (r: Entry)
    requires dst.Type() == src.Type()
    ensures r.value == src.value && r.Type() == dst.Type()
    ensures r.name == dst.name && r.desc == dst.desc && r.defaultVal == dst.defaultVal
    ensures r.temporary == dst.temporary && r.builtin == dst.builtin
  {
    dst.(value := src.value)
  }
}
