/** What the interpreter promises, stated over the functions of `ConfigSpec`:
    how names are searched, what leading dots do, what literals produce, and
    how an assignment treats placeholders and existing variables. */
module ConfigProperties {
  import opened Common
  import opened ConfigTokens
  import opened ConfigScopes
  import opened ConfigSpec

  // ---------------------------------------------------------------------------
  // Statement lists.

  /** A lone `;` is a statement of its own: one token, no change to any scope. */
  lemma {:induction false} EmptyStatement(toks: seq<Token>, a: Arena, pos: nat, scope: ScopeId, lits: Literals)
    requires WellFormed(a) && scope in a && pos <= |toks|
    requires AsChar(toks, pos) == ';'
    ensures ExecStatement(toks, a, pos, scope, lits) == Ok(StmtOut(pos + 1, a))
  {
  }

  /** A statement list that starts at a `}` (or at the end) does nothing. */
  lemma {:induction false} StatementListStopsAtBrace(toks: seq<Token>, a: Arena, pos: nat, scope: ScopeId, lits: Literals)
    requires WellFormed(a) && scope in a && pos <= |toks|
    requires pos == |toks| || AsChar(toks, pos) == '}'
    ensures ExecStatementList(toks, a, pos, scope, lits) == Ok(StmtOut(pos, a))
  {
  }

  /** Once the left-hand side of a statement other than `;` is resolved, the
      statement is the rest of the assignment. */
  lemma {:induction false} StatementIsAssignment(toks: seq<Token>, a: Arena, pos: nat, scope: ScopeId, lits: Literals,
                                                 lhs: VarOut)
    requires WellFormed(a) && scope in a && pos <= |toks| && AsChar(toks, pos) != ';'
    requires ResolveVar(toks, a, pos, scope, true) == Ok(lhs)
    ensures WellFormed(lhs.arena) && scope in lhs.arena && ValidLoc(lhs.arena, lhs.loc) && pos < lhs.loc.pos <= |toks|
    ensures ExecStatement(toks, a, pos, scope, lits) == ExecAssignment(toks, lhs, pos, scope, lits)
  {
  }

  /** After `=` and a value, the assignment is its conclusion. */
  lemma {:induction false} ValueConcludesAssignment(toks: seq<Token>, lhs: VarOut, start: nat, scope: ScopeId,
                                                    lits: Literals, rhs: ValueOut)
    requires WellFormed(lhs.arena) && scope in lhs.arena && ValidLoc(lhs.arena, lhs.loc) && lhs.loc.pos <= |toks|
    requires AsChar(toks, lhs.loc.pos) == '='
    requires EvalValue(toks, lhs.arena, lhs.loc.pos + 1, scope, lits) == Ok(rhs)
    ensures ValidRef(lhs.arena, rhs.ref) && lhs.loc.pos < rhs.pos <= |toks|
    ensures ExecAssignment(toks, lhs, start, scope, lits) == ExecConclude(toks, lhs, rhs, start)
  {
  }

  /** With the `;` in place, the conclusion is the reconciliation of the two sides. */
  lemma {:induction false} ConcludeAssigns(toks: seq<Token>, lhs: VarOut, rhs: ValueOut, start: nat)
    requires WellFormed(lhs.arena) && ValidLoc(lhs.arena, lhs.loc) && ValidRef(lhs.arena, rhs.ref)
    requires lhs.loc.pos < rhs.pos <= |toks| && AsChar(toks, rhs.pos) == ';'
    ensures ExecConclude(toks, lhs, rhs, start) ==
              match Assign(lhs.arena, lhs.loc.scope, lhs.loc.name, Deref(lhs.arena, rhs.ref), start)
              case Fail(e) => Fail(e)
              case Ok(a') => Ok(StmtOut(rhs.pos + 1, a'))
  {
  }

  /** A statement other than `;` resolves its left-hand side for writing,
      requires `=`, reads a value, requires `;`, and then reconciles the two
      sides; a type clash is reported at the statement's first token. */
  lemma {:induction false} AssignmentStatement(toks: seq<Token>, a: Arena, pos: nat, scope: ScopeId, lits: Literals,
                            lhs: VarOut, rhs: ValueOut)
    requires WellFormed(a) && scope in a && pos <= |toks| && AsChar(toks, pos) != ';'
    requires ResolveVar(toks, a, pos, scope, true) == Ok(lhs)
    requires AsChar(toks, lhs.loc.pos) == '='
    requires EvalValue(toks, lhs.arena, lhs.loc.pos + 1, scope, lits) == Ok(rhs)
    requires AsChar(toks, rhs.pos) == ';'
    ensures ExecStatement(toks, a, pos, scope, lits) ==
              match Assign(lhs.arena, lhs.loc.scope, lhs.loc.name, Deref(lhs.arena, rhs.ref), pos)
              case Fail(e) => Fail(e)
              case Ok(a') => Ok(StmtOut(rhs.pos + 1, a'))
  {
    StatementIsAssignment(toks, a, pos, scope, lits, lhs);
    ValueConcludesAssignment(toks, lhs, pos, scope, lits, rhs);
    ConcludeAssigns(toks, lhs, rhs, pos);
  }

  /** A missing `=` after the left-hand side is reported at that token. */
  lemma {:induction false} MissingAssignFails(toks: seq<Token>, a: Arena, pos: nat, scope: ScopeId, lits: Literals, lhs: VarOut)
    requires WellFormed(a) && scope in a && pos <= |toks| && AsChar(toks, pos) != ';'
    requires ResolveVar(toks, a, pos, scope, true) == Ok(lhs)
    requires AsChar(toks, lhs.loc.pos) != '='
    ensures ExecStatement(toks, a, pos, scope, lits) == Fail(Error(lhs.loc.pos, ExpectedAssign))
  {
    StatementIsAssignment(toks, a, pos, scope, lits, lhs);
  }

  /** An error in the value ends the statement with that error. */
  lemma {:induction false} BadValueFails(toks: seq<Token>, a: Arena, pos: nat, scope: ScopeId, lits: Literals,
                      lhs: VarOut, e: Error)
    requires WellFormed(a) && scope in a && pos <= |toks| && AsChar(toks, pos) != ';'
    requires ResolveVar(toks, a, pos, scope, true) == Ok(lhs)
    requires AsChar(toks, lhs.loc.pos) == '='
    requires EvalValue(toks, lhs.arena, lhs.loc.pos + 1, scope, lits) == Fail(e)
    ensures ExecStatement(toks, a, pos, scope, lits) == Fail(e)
  {
    StatementIsAssignment(toks, a, pos, scope, lits, lhs);
  }

  /** A missing `;` after the value is reported at that token. */
  lemma {:induction false} MissingSemicolonFails(toks: seq<Token>, a: Arena, pos: nat, scope: ScopeId, lits: Literals,
                              lhs: VarOut, rhs: ValueOut)
    requires WellFormed(a) && scope in a && pos <= |toks| && AsChar(toks, pos) != ';'
    requires ResolveVar(toks, a, pos, scope, true) == Ok(lhs)
    requires AsChar(toks, lhs.loc.pos) == '='
    requires EvalValue(toks, lhs.arena, lhs.loc.pos + 1, scope, lits) == Ok(rhs)
    requires AsChar(toks, rhs.pos) != ';'
    ensures ExecStatement(toks, a, pos, scope, lits) == Fail(Error(rhs.pos, ExpectedSemicolon))
  {
    StatementIsAssignment(toks, a, pos, scope, lits, lhs);
    ValueConcludesAssignment(toks, lhs, pos, scope, lits, rhs);
  }

  // ---------------------------------------------------------------------------
  // Name search.

  /** A plain name read without leading dots is searched for outward from `cur`;
      if no enclosing scope has it, the error names the position after it. */
  lemma {:induction false} PlainReadScansOutward(toks: seq<Token>, a: Arena, pos: nat, cur: ScopeId)
    requires WellFormed(a) && cur in a && pos <= |toks|
    requires IsID(toks, pos) && !IsDots(toks, pos + 1)
    ensures var name := toks[pos].lexeme;
            ResolveVar(toks, a, pos, cur, false) ==
              match LookupEntry(a, cur, name, true)
              case Some(s) => Ok(VarOut(Located(s, name, pos + 1), a))
              case None => Fail(Error(pos + 1, UnknownVariable(name)))
  {
  }

  /** A name written to is looked up in `cur` only; when `cur` lacks it, a
      placeholder is added there and returned. */
  lemma {:induction false} WriteSearchesCurrentScopeOnly(toks: seq<Token>, a: Arena, pos: nat, cur: ScopeId)
    requires WellFormed(a) && cur in a && pos <= |toks|
    requires IsID(toks, pos) && !IsDots(toks, pos + 1)
    ensures var name := toks[pos].lexeme;
            ResolveVar(toks, a, pos, cur, true) ==
              if name in a[cur].entries then Ok(VarOut(Located(cur, name, pos + 1), a))
              else Ok(VarOut(Located(cur, name, pos + 1), AddPlaceholder(a, cur, name)))
  {
  }

  /** A write to an unknown name returns its new placeholder at once, even when a
      dot run follows it. */
  lemma {:induction false} UnknownWriteStopsAtPlaceholder(toks: seq<Token>, a: Arena, pos: nat, cur: ScopeId)
    requires WellFormed(a) && cur in a && pos <= |toks|
    requires IsID(toks, pos) && toks[pos].lexeme !in a[cur].entries
    ensures var name := toks[pos].lexeme;
            ResolveVar(toks, a, pos, cur, true) == Ok(VarOut(Located(cur, name, pos + 1), AddPlaceholder(a, cur, name)))
  {
  }

  /** A single leading dot searches exactly the current scope, for reads too. */
  lemma {:induction false} SingleDotSearchesCurrentScope(toks: seq<Token>, a: Arena, pos: nat, cur: ScopeId, createOk: bool)
    requires WellFormed(a) && cur in a && pos <= |toks|
    requires IsDots(toks, pos) && GetSize(toks, pos) == 1 && IsID(toks, pos + 1) && !IsDots(toks, pos + 2)
    ensures var name := toks[pos + 1].lexeme;
            ResolveVar(toks, a, pos, cur, createOk) ==
              if name in a[cur].entries then Ok(VarOut(Located(cur, name, pos + 2), a))
              else if createOk then Ok(VarOut(Located(cur, name, pos + 2), AddPlaceholder(a, cur, name)))
              else Fail(Error(pos + 2, UnknownVariable(name)))
  {
  }

  /** As written, two or more leading dots always fail at the dot run, however
      deep `cur` is. */
  lemma {:induction false} LongDotRunFails(toks: seq<Token>, a: Arena, pos: nat, cur: ScopeId, createOk: bool)
    requires WellFormed(a) && cur in a && pos <= |toks|
    requires IsDots(toks, pos) && GetSize(toks, pos) >= 2
    ensures ResolveVar(toks, a, pos, cur, createOk) == Fail(Error(pos, TooManyDots))
  {
  }

  /** With the corrected climb, a leading run of n dots names the scope n-1
      levels out, and only that scope is searched, for reads too. */
  lemma {:induction false} IntendedDotRunSearchesOneScope(toks: seq<Token>, a: Arena, pos: nat, cur: ScopeId, createOk: bool)
    requires WellFormed(a) && cur in a && pos <= |toks|
    requires IsDots(toks, pos) && 1 <= GetSize(toks, pos) <= Depth(a, cur) + 1
    requires IsID(toks, pos + 1) && !IsDots(toks, pos + 2)
    ensures var name := toks[pos + 1].lexeme;
            var s := ClimbDotsIntended(a, cur, GetSize(toks, pos)).value;
            && InChain(a, cur, s) && Depth(a, s) == Depth(a, cur) - (GetSize(toks, pos) - 1)
            && ResolveVarIntended(toks, a, pos, cur, createOk) ==
                 if name in a[s].entries then Ok(VarOut(Located(s, name, pos + 2), a))
                 else if createOk then Ok(VarOut(Located(s, name, pos + 2), AddPlaceholder(a, s, name)))
                 else Fail(Error(pos + 2, UnknownVariable(name)))
  {
  }

  /** With the corrected climb, a reference that does not start with dots
      resolves exactly as in `ResolveVar` until its first dot run. */
  lemma {:induction false} IntendedAgreesWithoutDots(toks: seq<Token>, a: Arena, pos: nat, cur: ScopeId, createOk: bool)
    requires WellFormed(a) && cur in a && pos <= |toks|
    requires !IsDots(toks, pos) && !IsDots(toks, pos + 1)
    ensures ResolveVarIntended(toks, a, pos, cur, createOk) == ResolveVar(toks, a, pos, cur, createOk)
  {
  }

  /** After a found name, a dot run starts a new reference from the same scope
      `cur`, not from inside the entry just found. */
  lemma {:induction false} MemberAccessStaysInScope(toks: seq<Token>, a: Arena, pos: nat, cur: ScopeId, createOk: bool)
    requires WellFormed(a) && cur in a && pos <= |toks|
    requires IsID(toks, pos) && IsDots(toks, pos + 1)
    requires LookupEntry(a, cur, toks[pos].lexeme, !createOk).Some?
    ensures ResolveVar(toks, a, pos, cur, createOk) == ResolveVar(toks, a, pos + 1, cur, createOk)
  {
  }

  // ---------------------------------------------------------------------------
  // Literals.

  /** Number, character and string literals each take one token and yield a
      temporary entry; a character yields its signed code as a number. */
  lemma {:induction false} LiteralsAreTemporaries(toks: seq<Token>, a: Arena, pos: nat, cur: ScopeId, lits: Literals)
    requires WellFormed(a) && cur in a && pos <= |toks|
    requires IsNumber(toks, pos) || IsChar(toks, pos) || IsString(toks, pos)
    ensures var lex := toks[pos].lexeme;
            EvalValue(toks, a, pos, cur, lits) == Ok(ValueOut(Temp(LiteralEntry(
              if IsNumber(toks, pos) then Value(lits.number(lex))
              else if IsChar(toks, pos) then Value(SignedChar(lits.charCode(lex)) as real)
              else Str(lits.text(lex)))), pos + 1))
  {
  }

  /** A placeholder promoted from a right-hand side takes that entry's
      temporary flag with it: renaming sets the name, description and default
      and nothing else, so a variable promoted from a literal stays flagged
      temporary. */
  lemma {:induction false} PromotionKeepsTemporaryFlag(a: Arena, ls: ScopeId, lname: string, rhs: Entry, start: nat)
    requires WellFormed(a) && ls in a && lname in a[ls].entries && a[ls].entries[lname].IsPlaceholder()
    ensures Assign(a, ls, lname, rhs, start).Ok?
    ensures var e := Assign(a, ls, lname, rhs, start).value[ls].entries[lname];
            e.temporary == rhs.temporary && e.value == rhs.value && e.name == lname
  {
    assert a[ls].entries[lname].name == lname;
  }

  /** Any token other than a name, a dot run or a literal is not a value. */
  lemma {:induction false} NonValueTokenFails(toks: seq<Token>, a: Arena, pos: nat, cur: ScopeId, lits: Literals)
    requires WellFormed(a) && cur in a && pos <= |toks|
    requires !IsID(toks, pos) && !IsDots(toks, pos) && !IsNumber(toks, pos)
             && !IsChar(toks, pos) && !IsString(toks, pos)
    ensures EvalValue(toks, a, pos, cur, lits) == Fail(Error(pos, ExpectedValue))
  {
  }
}
