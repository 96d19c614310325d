/** The configuration interpreter: a token sequence is walked statement by
    statement, binding names in a tree of scopes. Each method threads the token
    position the way the source passes `size_t & pos`, changes the scopes in
    place, and is proved to compute the function of the same name in
    `ConfigSpec`. An error is returned instead of terminating the process. */
module ConfigInterp {
  import opened Common
  import opened ConfigTokens
  import opened ConfigScopes
  import opened ConfigSpec

  /** Id of the outermost, global scope. */
  const Root: ScopeId := 0

  class Config {
    var tokens: seq<Token>
    var scopes: Arena
    const lits: Literals

    ghost predicate Valid()
      reads this
    {
      WellFormed(scopes) && Root in scopes
    }

    /** A configuration holding only the empty global scope. */
    constructor (lits: Literals)
      ensures Valid() && this.lits == lits && tokens == []
      ensures scopes == map[Root := Scope("global", None, map[])]
    {
      this.lits := lits;
      tokens := [];
      scopes := map[Root := Scope("global", None, map[])];
    }

    /** Runs the statements of `toks` against the global scope. */
    method Load(toks: seq<Token>) returns (r: Result<nat>)
      requires Valid()
      modifies this
      ensures Valid() && tokens == toks
      ensures match ExecStatementList(toks, old(scopes), 0, Root, lits)
              case Ok(o) => r == Ok(o.pos) && scopes == o.arena
              case Fail(e) => r == Fail(e)
    {
      tokens := toks;
      r := ProcessStatementList(0, Root);
    }

    /** Resolves the variable reference at `pos` from scope `cur`. */
    method ProcessVar(pos: nat, cur: ScopeId, createOk: bool) returns (r: Result<Located>)
      requires Valid() && cur in scopes && pos <= |tokens|
      modifies this
      ensures Valid() && tokens == old(tokens)
      ensures match ResolveVar(tokens, old(scopes), pos, cur, createOk)
              case Ok(v) => r == Ok(v.loc) && scopes == v.arena
              case Fail(e) => r == Fail(e) && scopes == old(scopes)
      decreases |tokens| - pos
    {
      ghost var spec := ResolveVar(tokens, scopes, pos, cur, createOk);
      var p := pos;
      var scope := cur;
      var scan := !createOk;
      if IsDots(tokens, p) {
        scan := false;
        var climbed := Climb(cur, GetSize(tokens, p));
        if climbed.None? {
          return Fail(Error(p, TooManyDots));
        }
        scope := climbed.value;
        p := p + 1;
      }
      if !IsID(tokens, p) {
        return Fail(Error(p, ExpectedIdentifier));
      }
      var name := tokens[p].lexeme;
      p := p + 1;
      var found := LookupEntry(scopes, scope, name, scan);
      if found.None? {
        if !createOk {
          return Fail(Error(p, UnknownVariable(name)));
        }
        scopes := AddPlaceholder(scopes, scope, name);
        return Ok(Located(scope, name, p));
      }
      if IsDots(tokens, p) {
        assert spec == ResolveVar(tokens, scopes, p, scope, createOk);
        r := ProcessVar(p, scope, createOk);
      } else {
        r := Ok(Located(found.value, name, p));
      }
    }

    /** Climbs from `cur` for a run of `numDots` dots, as the source's loop
        does: while more than one dot is left it moves to the parent, but it
        never lowers the dot count, so a run of two or more walks out to the
        global scope and then reports that there are too many dots. */
    method Climb(cur: ScopeId, numDots: nat) returns (r: Option<ScopeId>)
      requires Valid() && cur in scopes
      ensures r == ClimbDots(scopes, cur, numDots)
    {
      var scope := cur;
      while numDots > 1
        invariant scope in scopes
        invariant ClimbDots(scopes, scope, numDots) == ClimbDots(scopes, cur, numDots)
        decreases scope
      {
        var parent := scopes[scope].parent;
        if parent.None? {
          return None;
        }
        scope := parent.value;
      }
      return Some(scope);
    }

    /** Reads the value at `pos` in scope `cur`: a variable or a temporary literal entry. */
    method ProcessValue(pos: nat, cur: ScopeId) returns (r: Result<ValueOut>)
      requires Valid() && cur in scopes && pos <= |tokens|
      modifies this
      ensures Valid() && tokens == old(tokens) && scopes == old(scopes)
      ensures r == EvalValue(tokens, scopes, pos, cur, lits)
    {
      if IsID(tokens, pos) || IsDots(tokens, pos) {
        var v := ProcessVar(pos, cur, false);
        match v
        case Fail(e) => r := Fail(e);
        case Ok(loc) => r := Ok(ValueOut(InScope(loc.scope, loc.name), loc.pos));
      } else if IsNumber(tokens, pos) {
        var tmp := LiteralEntry(Value(lits.number(tokens[pos].lexeme)));
        r := Ok(ValueOut(Temp(tmp), pos + 1));
      } else if IsChar(tokens, pos) {
        var code := SignedChar(lits.charCode(tokens[pos].lexeme));
        r := Ok(ValueOut(Temp(LiteralEntry(Value(code as real))), pos + 1));
      } else if IsString(tokens, pos) {
        var tmp := LiteralEntry(Str(lits.text(tokens[pos].lexeme)));
        r := Ok(ValueOut(Temp(tmp), pos + 1));
      } else {
        r := Fail(Error(pos, ExpectedValue));
      }
    }

    /** Processes one statement of scope `scope`. After an error the load is
        abandoned; a type clash leaves every scope as it was. */
    method ProcessStatement(pos: nat, scope: ScopeId) returns (r: Result<nat>)
      requires Valid() && scope in scopes && pos <= |tokens|
      modifies this
      ensures Valid() && tokens == old(tokens)
      ensures match ExecStatement(tokens, old(scopes), pos, scope, lits)
              case Ok(o) => r == Ok(o.pos) && scopes == o.arena
              case Fail(e) => r == Fail(e)
      ensures r.Fail? && r.error.kind.TypeMismatch? ==> scopes == old(scopes)
    {
      var start := pos;
      if AsChar(tokens, pos) == ';' {
        return Ok(pos + 1);
      }
      ghost var a0 := scopes;
      var lhs := ProcessVar(pos, scope, true);
      if lhs.Fail? {
        return Fail(lhs.error);
      }
      ghost var lhsOut := ResolveVar(tokens, a0, pos, scope, true).value;
      assert lhsOut == VarOut(lhs.value, scopes);
      r := ProcessAssignment(lhs.value, start, scope);
    }

    /** The rest of a `VAR = VALUE ;` statement starting at `start`, once its
        left-hand variable has been resolved to `lhs`. */
    method ProcessAssignment(lhs: Located, start: nat, scope: ScopeId) returns (r: Result<nat>)
      requires Valid() && scope in scopes && ValidLoc(scopes, lhs) && lhs.pos <= |tokens|
      modifies this
      ensures Valid() && tokens == old(tokens)
      ensures match ExecAssignment(tokens, VarOut(lhs, old(scopes)), start, scope, lits)
              case Ok(o) => r == Ok(o.pos) && scopes == o.arena
              case Fail(e) => r == Fail(e)
      ensures r.Fail? ==> scopes == old(scopes)
    {
      ghost var spec := ExecAssignment(tokens, VarOut(lhs, scopes), start, scope, lits);
      var p := lhs.pos;
      if AsChar(tokens, p) != '=' {
        return Fail(Error(p, ExpectedAssign));
      }
      var rhs := ProcessValue(p + 1, scope);
      if rhs.Fail? {
        return Fail(rhs.error);
      }
      assert spec == ExecConclude(tokens, VarOut(lhs, scopes), rhs.value, start);
      r := Conclude(lhs, rhs.value, start);
    }

    /** Requires the `;` after the value `rhs` and makes the variable `lhs` take
        it: a placeholder is replaced, an existing variable of the same type
        takes the value in place, and a type clash leaves everything unchanged. */
    method Conclude(lhs: Located, rhs: ValueOut, start: nat) returns (r: Result<nat>)
      requires Valid() && ValidLoc(scopes, lhs) && ValidRef(scopes, rhs.ref)
      requires lhs.pos < rhs.pos <= |tokens|
      modifies this
      ensures Valid() && tokens == old(tokens)
      ensures match ExecConclude(tokens, VarOut(lhs, old(scopes)), rhs, start)
              case Ok(o) => r == Ok(o.pos) && scopes == o.arena
              case Fail(e) => r == Fail(e) && scopes == old(scopes)
    {
      if AsChar(tokens, rhs.pos) != ';' {
        return Fail(Error(rhs.pos, ExpectedSemicolon));
      }
      var lhsEntry := scopes[lhs.scope].entries[lhs.name];
      var rhsEntry := Deref(scopes, rhs.ref);
      if lhsEntry.IsPlaceholder() {
        // A temporary right-hand side is moved and any other is cloned; the
        // slot receives the entry renamed after the placeholder either way.
        var newEntry := rhsEntry.(name := lhsEntry.name, desc := lhsEntry.desc,
                                  defaultVal := lhsEntry.defaultVal);
        scopes := Replace(scopes, lhs.scope, newEntry);
      } else {
        if lhsEntry.Type() != rhsEntry.Type() {
          return Fail(Error(start, TypeMismatch(lhs.name)));
        }
        scopes := Replace(scopes, lhs.scope, CopyValue(lhsEntry, rhsEntry));
        // A temporary right-hand side is released here; as a value it simply goes away.
      }
      r := Ok(rhs.pos + 1);
    }

    /** Processes statements until the tokens run out or a `}` is next; the `}`
        is left for the caller. Returns the position reached. */
    method ProcessStatementList(pos: nat, scope: ScopeId) returns (r: Result<nat>)
      requires Valid() && scope in scopes && pos <= |tokens|
      modifies this
      ensures Valid() && tokens == old(tokens)
      ensures match ExecStatementList(tokens, old(scopes), pos, scope, lits)
              case Ok(o) => r == Ok(o.pos) && scopes == o.arena
              case Fail(e) => r == Fail(e)
    {
      var p := pos;
      while p < |tokens| && AsChar(tokens, p) != '}'
        invariant Valid() && scope in scopes && pos <= p <= |tokens| && tokens == old(tokens)
        invariant ExecStatementList(tokens, old(scopes), pos, scope, lits)
                  == ExecStatementList(tokens, scopes, p, scope, lits)
        decreases |tokens| - p
      {
        var s := ProcessStatement(p, scope);
        if s.Fail? {
          return Fail(s.error);
        }
        p := s.value;
      }
      r := Ok(p);
    }
  }
}
