/** The meaning of the configuration interpreter as functions: how a variable
    reference is resolved, how a value is read, and what a statement and a
    statement list do to the scope arena. The imperative interpreter in module
    `ConfigInterp` is proved to compute exactly these functions; the lemmas
    here state what the interpreter promises. */
module ConfigSpec {
  import opened Common
  import opened ConfigTokens
  import opened ConfigScopes

  type Byte = b: int | 0 <= b < 256

  /** The lexeme conversions the interpreter calls (text to number, character
      literal to its 8-bit code, string literal to its unescaped text). Their
      implementations are not part of this model. */
  datatype Literals = Literals(number: string -> real, charCode: string -> Byte, text: string -> string)

  /** Reading an 8-bit code back through C++'s signed `char`. */
  function SignedChar(b: Byte): (r: int)
    ensures -128 <= r < 128 && (r - b) % 256 == 0
  {
    if b < 128 then b else b - 256
  }

  /** Why a script is rejected. Every error aborts the whole load. */
  datatype ErrorKind =
    | TooManyDots
    | ExpectedIdentifier
    | UnknownVariable(name: string)
    | ExpectedAssign
    | ExpectedValue
    | ExpectedSemicolon
    | TypeMismatch(name: string)

  /** An error with the token position the diagnostic names. */
  datatype Error = Error(pos: nat, kind: ErrorKind)

  datatype Result<T> = Ok(value: T) | Fail(error: Error)

  /** A resolved variable: the scope holding it, its name, and the position after the reference. */
  datatype Located = Located(scope: ScopeId, name: string, pos: nat)

  datatype VarOut = VarOut(loc: Located, arena: Arena)

  /** A value read by the interpreter: a variable in a scope, or a temporary entry. */
  datatype Ref = InScope(scope: ScopeId, name: string) | Temp(entry: Entry)

  datatype ValueOut = ValueOut(ref: Ref, pos: nat)

  datatype StmtOut = StmtOut(pos: nat, arena: Arena)

  /** A located variable that exists in the arena. */
  ghost predicate ValidLoc(a: Arena, loc: Located)
  {
    loc.scope in a && loc.name in a[loc.scope].entries
  }

  ghost predicate ValidRef(a: Arena, r: Ref)
  {
    r.InScope? ==> r.scope in a && r.name in a[r.scope].entries
  }

  function Deref(a: Arena, r: Ref): Entry
    requires ValidRef(a, r)
  {
    match r
    case InScope(s, n) => a[s].entries[n]
    case Temp(e) => e
  }

  /** The entry a literal produces: unnamed, undescribed and temporary. */
  function LiteralEntry(v: EntryValue): (e: Entry)
    ensures e.value == v && e.temporary && !e.builtin && e.name == ""
  {
    Entry("", "", "", v, true, false)
  }

  // ---------------------------------------------------------------------------
  // Leading dots.

  /** The scope a run of `numDots` leading dots selects, as the loop in the source
      computes it: one dot keeps the scope; for more, the loop walks to the
      parent without ever counting down, so it can only stop at the global
      scope's missing parent, which is an error (None). */
  function ClimbDots(a: Arena, cur: ScopeId, numDots: nat): (r: Option<ScopeId>)
    requires WellFormed(a) && cur in a
    ensures r == (if numDots <= 1 then Some(cur) else None)
    decreases cur
  {
    if numDots > 1 then
      match a[cur].parent
      case None => None
      case Some(p) => ClimbDots(a, p, numDots)
    else Some(cur)
  }

  /** Number of scopes enclosing `id`. */
  function Depth(a: Arena, id: ScopeId): nat
    requires WellFormed(a) && id in a
    decreases id
  {
    match a[id].parent
    case None => 0
    case Some(p) => 1 + Depth(a, p)
  }

  /** The climb the comments describe: `numDots - 1` parent hops, an error only
      past the global scope. */
  function ClimbDotsIntended(a: Arena, cur: ScopeId, numDots: nat): (r: Option<ScopeId>)
    requires WellFormed(a) && cur in a
    ensures r.Some? <==> numDots <= Depth(a, cur) + 1
    ensures r.Some? ==> r.value in a && InChain(a, cur, r.value)
    ensures r.Some? && numDots >= 1 ==> Depth(a, r.value) == Depth(a, cur) - (numDots - 1)
    ensures numDots <= 1 ==> r == Some(cur)
    decreases numDots
  {
    if numDots > 1 then
      match a[cur].parent
      case None => None
      case Some(p) => ClimbDotsIntended(a, p, numDots - 1)
    else Some(cur)
  }

  /** `..` names the parent scope in the intended reading but fails as written. */
  lemma {:induction false} TwoDotsFailAsWritten(a: Arena, cur: ScopeId)
    requires WellFormed(a) && cur in a && a[cur].parent.Some?
    ensures ClimbDots(a, cur, 2) == None
    ensures ClimbDotsIntended(a, cur, 2) == a[cur].parent
  {
  }

  // ---------------------------------------------------------------------------
  // Variable references.

  /** Resolves the variable reference at `pos` from scope `cur`, as the source
      does. A leading dot run climbs with `ClimbDots`, the loop as written: one
      dot keeps `cur` and a longer run fails. A read (`createOk` false) without
      leading dots searches outward; a write or a dotted reference searches
      `cur` only. A write to an unknown name adds a placeholder and stops
      there. A dot run after a found name resolves the following name again
      from the same scope, not from inside the entry just found. */
  function ResolveVar(toks: seq<Token>, a: Arena, pos: nat, cur: ScopeId, createOk: bool): (r: Result<VarOut>)
    requires WellFormed(a) && cur in a && pos <= |toks|
    ensures r.Ok? ==> pos < r.value.loc.pos <= |toks|
    ensures r.Ok? ==> WellFormed(r.value.arena) && r.value.arena.Keys == a.Keys
                      && ValidLoc(r.value.arena, r.value.loc)
    ensures r.Ok? && !createOk ==> r.value.arena == a
    ensures r.Ok? && createOk ==> r.value.loc.scope == cur
    ensures r.Ok? && r.value.arena != a ==>
              createOk && r.value.loc.name !in a[cur].entries
              && r.value.arena == AddPlaceholder(a, cur, r.value.loc.name)
    ensures r.Ok? && r.value.loc.scope != cur ==>
              !createOk && !IsDots(toks, pos) && InChain(a, cur, r.value.loc.scope)
    ensures IsDots(toks, pos) && GetSize(toks, pos) >= 2 ==> r == Fail(Error(pos, TooManyDots))
    ensures r.Fail? ==> r.error.kind == TooManyDots || r.error.kind == ExpectedIdentifier
                        || (r.error.kind.UnknownVariable? && !createOk)
    decreases |toks| - pos
  {
    var dotted := IsDots(toks, pos);
    var climbed := if dotted then ClimbDots(a, cur, GetSize(toks, pos)) else Some(cur);
    if climbed.None? then Fail(Error(pos, TooManyDots))
    else
      var scope := climbed.value;
      var p := if dotted then pos + 1 else pos;
      var scan := !createOk && !dotted;
      if !IsID(toks, p) then Fail(Error(p, ExpectedIdentifier))
      else
        var name := toks[p].lexeme;
        match LookupEntry(a, scope, name, scan)
        case None =>
          if createOk then Ok(VarOut(Located(scope, name, p + 1), AddPlaceholder(a, scope, name)))
          else Fail(Error(p + 1, UnknownVariable(name)))
        case Some(found) =>
          if IsDots(toks, p + 1) then ResolveVar(toks, a, p + 1, scope, createOk)
          else Ok(VarOut(Located(found, name, p + 1), a))
  }

  /** `ResolveVar` with the corrected climb, `ClimbDotsIntended`: a leading run
      of n dots names the scope n-1 levels out, and fails only past the global
      scope. Everything else is as in `ResolveVar`. */
  function ResolveVarIntended(toks: seq<Token>, a: Arena, pos: nat, cur: ScopeId, createOk: bool): (r: Result<VarOut>)
    requires WellFormed(a) && cur in a && pos <= |toks|
    ensures r.Ok? ==> pos < r.value.loc.pos <= |toks|
    ensures r.Ok? ==> WellFormed(r.value.arena) && r.value.arena.Keys == a.Keys
                      && ValidLoc(r.value.arena, r.value.loc)
    ensures r.Ok? && !createOk ==> r.value.arena == a
    ensures r.Ok? ==> InChain(a, cur, r.value.loc.scope)
    ensures r.Ok? && r.value.arena != a ==>
              createOk && r.value.loc.name !in a[r.value.loc.scope].entries
              && r.value.arena == AddPlaceholder(a, r.value.loc.scope, r.value.loc.name)
    ensures r.Fail? ==> pos <= r.error.pos
    ensures IsDots(toks, pos) ==> (r == Fail(Error(pos, TooManyDots)) <==> GetSize(toks, pos) > Depth(a, cur) + 1)
    ensures r.Fail? ==> r.error.kind == TooManyDots || r.error.kind == ExpectedIdentifier
                        || (r.error.kind.UnknownVariable? && !createOk)
    decreases |toks| - pos
  {
    var dotted := IsDots(toks, pos);
    var climbed := if dotted then ClimbDotsIntended(a, cur, GetSize(toks, pos)) else Some(cur);
    if climbed.None? then Fail(Error(pos, TooManyDots))
    else
      var scope := climbed.value;
      var p := if dotted then pos + 1 else pos;
      var scan := !createOk && !dotted;
      if !IsID(toks, p) then Fail(Error(p, ExpectedIdentifier))
      else
        var name := toks[p].lexeme;
        match LookupEntry(a, scope, name, scan)
        case None =>
          if createOk then Ok(VarOut(Located(scope, name, p + 1), AddPlaceholder(a, scope, name)))
          else Fail(Error(p + 1, UnknownVariable(name)))
        case Some(found) =>
          if IsDots(toks, p + 1) then
            var r := ResolveVarIntended(toks, a, p + 1, scope, createOk);
            if r.Ok? then InChainTransitive(a, cur, scope, r.value.loc.scope); r else r
          else Ok(VarOut(Located(found, name, p + 1), a))
  }

  // ---------------------------------------------------------------------------
  // Values.

  /** Reads the value at `pos`: a variable reference (read mode) or a literal,
      which becomes a temporary entry. Anything else is an error. */
  function EvalValue(toks: seq<Token>, a: Arena, pos: nat, cur: ScopeId, lits: Literals): (r: Result<ValueOut>)
    requires WellFormed(a) && cur in a && pos <= |toks|
    ensures r.Ok? ==> pos < r.value.pos <= |toks| && ValidRef(a, r.value.ref)
    ensures r.Ok? && r.value.ref.Temp? ==> r.value.pos == pos + 1 && r.value.ref.entry.temporary
    ensures !IsID(toks, pos) && !IsDots(toks, pos) ==>
              (r.Ok? <==> IsNumber(toks, pos) || IsChar(toks, pos) || IsString(toks, pos))
    ensures r.Fail? ==> !r.error.kind.TypeMismatch?
  {
    if IsID(toks, pos) || IsDots(toks, pos) then
      match ResolveVar(toks, a, pos, cur, false)
      case Fail(e) => Fail(e)
      case Ok(v) => Ok(ValueOut(InScope(v.loc.scope, v.loc.name), v.loc.pos))
    else if IsNumber(toks, pos) then
      Ok(ValueOut(Temp(LiteralEntry(Value(lits.number(toks[pos].lexeme)))), pos + 1))
    else if IsChar(toks, pos) then
      Ok(ValueOut(Temp(LiteralEntry(Value(SignedChar(lits.charCode(toks[pos].lexeme)) as real))), pos + 1))
    else if IsString(toks, pos) then
      Ok(ValueOut(Temp(LiteralEntry(Str(lits.text(toks[pos].lexeme)))), pos + 1))
    else
      Fail(Error(pos, ExpectedValue))
  }

  // ---------------------------------------------------------------------------
  // Statements.

  /** Reconciles an assignment to the variable `lname` of scope `ls` with the
      value `rhs`. A placeholder is replaced by the right-hand entry renamed to
      the placeholder's name, description and default: moved when it is a
      temporary, cloned otherwise, which in this value model both file a copy.
      An existing variable must have the same type and then takes the value in
      place; a type clash is reported at `start`. */
  function Assign(a: Arena, ls: ScopeId, lname: string, rhs: Entry, start: nat): (r: Result<Arena>)
    requires WellFormed(a) && ls in a && lname in a[ls].entries
    ensures r.Ok? ==> WellFormed(r.value) && r.value.Keys == a.Keys
    ensures r.Ok? ==> forall s | s in a && s != ls :: r.value[s] == a[s]
    ensures r.Ok? ==> lname in r.value[ls].entries
                      && r.value[ls].entries == a[ls].entries[lname := r.value[ls].entries[lname]]
    ensures var lhs := a[ls].entries[lname];
            r.Ok? ==> r.value[ls].entries[lname] ==
                        if lhs.IsPlaceholder()
                        then rhs.(name := lhs.name, desc := lhs.desc, defaultVal := lhs.defaultVal)
                        else lhs.(value := rhs.value)
    ensures r.Fail? <==> !a[ls].entries[lname].IsPlaceholder() && a[ls].entries[lname].Type() != rhs.Type()
    ensures r.Fail? ==> r.error == Error(start, TypeMismatch(lname))
  {
    var lhs := a[ls].entries[lname];
    if lhs.IsPlaceholder() then
      Ok(Replace(a, ls, rhs.(name := lhs.name, desc := lhs.desc, defaultVal := lhs.defaultVal)))
    else if lhs.Type() != rhs.Type() then
      Fail(Error(start, TypeMismatch(lname)))
    else
      Ok(Replace(a, ls, CopyValue(lhs, rhs)))
  }

  /** One statement: a lone `;`, or `VAR = VALUE ;` in scope `scope`. */
  function ExecStatement(toks: seq<Token>, a: Arena, pos: nat, scope: ScopeId, lits: Literals): (r: Result<StmtOut>)
    requires WellFormed(a) && scope in a && pos <= |toks|
    ensures r.Ok? ==> pos < r.value.pos <= |toks| && WellFormed(r.value.arena) && r.value.arena.Keys == a.Keys
  {
    if AsChar(toks, pos) == ';' then Ok(StmtOut(pos + 1, a))
    else
      match ResolveVar(toks, a, pos, scope, true)
      case Fail(e) => Fail(e)
      case Ok(lhs) => ExecAssignment(toks, lhs, pos, scope, lits)
  }

  /** The rest of `VAR = VALUE ;` once the left-hand variable `lhs` has been
      resolved from the statement starting at `start`. */
  function ExecAssignment(toks: seq<Token>, lhs: VarOut, start: nat, scope: ScopeId, lits: Literals): (r: Result<StmtOut>)
    requires WellFormed(lhs.arena) && scope in lhs.arena && ValidLoc(lhs.arena, lhs.loc)
    requires lhs.loc.pos <= |toks|
    ensures r.Ok? ==> lhs.loc.pos < r.value.pos <= |toks| && WellFormed(r.value.arena)
                      && r.value.arena.Keys == lhs.arena.Keys
    ensures r.Fail? && r.error.kind.TypeMismatch? ==>
              r.error.pos == start && !lhs.arena[lhs.loc.scope].entries[lhs.loc.name].IsPlaceholder()
  {
    if AsChar(toks, lhs.loc.pos) != '=' then Fail(Error(lhs.loc.pos, ExpectedAssign))
    else
      match EvalValue(toks, lhs.arena, lhs.loc.pos + 1, scope, lits)
      case Fail(e) => Fail(e)
      case Ok(rhs) => ExecConclude(toks, lhs, rhs, start)
  }

  /** The end of `VAR = VALUE ;` once the value `rhs` has been read: the `;`
      and the reconciliation of the two sides. */
  function ExecConclude(toks: seq<Token>, lhs: VarOut, rhs: ValueOut, start: nat): (r: Result<StmtOut>)
    requires WellFormed(lhs.arena) && ValidLoc(lhs.arena, lhs.loc) && ValidRef(lhs.arena, rhs.ref)
    requires lhs.loc.pos < rhs.pos <= |toks|
    ensures r.Ok? ==> lhs.loc.pos < r.value.pos <= |toks| && WellFormed(r.value.arena)
                      && r.value.arena.Keys == lhs.arena.Keys
    ensures r.Fail? && r.error.kind.TypeMismatch? ==>
              r.error.pos == start && !lhs.arena[lhs.loc.scope].entries[lhs.loc.name].IsPlaceholder()
  {
    if AsChar(toks, rhs.pos) != ';' then Fail(Error(rhs.pos, ExpectedSemicolon))
    else
      match Assign(lhs.arena, lhs.loc.scope, lhs.loc.name, Deref(lhs.arena, rhs.ref), start)
      case Fail(e) => Fail(e)
      case Ok(a') => Ok(StmtOut(rhs.pos + 1, a'))
  }

  /** Statements until the tokens run out or a `}` comes up; the `}` is not consumed. */
  function ExecStatementList(toks: seq<Token>, a: Arena, pos: nat, scope: ScopeId, lits: Literals): (r: Result<StmtOut>)
    requires WellFormed(a) && scope in a && pos <= |toks|
    ensures r.Ok? ==> pos <= r.value.pos <= |toks| && WellFormed(r.value.arena) && r.value.arena.Keys == a.Keys
    ensures r.Ok? ==> r.value.pos == |toks| || AsChar(toks, r.value.pos) == '}'
    decreases |toks| - pos
  {
    if pos < |toks| && AsChar(toks, pos) != '}' then
      match ExecStatement(toks, a, pos, scope, lits)
      case Fail(e) => Fail(e)
      case Ok(o) => ExecStatementList(toks, o.arena, o.pos, scope, lits)
    else Ok(StmtOut(pos, a))
  }
}
