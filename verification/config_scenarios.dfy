/** Short scripts and what the interpreter's functions make of them, for any
    scope arena of the stated shape: a type clash, an inner name shadowing an
    outer one, a reference to the parent scope with `..`, as written and
    corrected, and `x = x ;`. */
module ConfigScenarios {
  import opened Common
  import opened ConfigTokens
  import opened ConfigScopes
  import opened ConfigSpec
  import opened ConfigProperties

  function Id(name: string): Token { Token(Identifier, name) }
  function Sym(c: char): Token { Token(Symbol, [c]) }

  /** `a = "x" ;` in a scope whose `a` holds a number is a type clash reported
      at the start of the statement. */
  lemma {:induction false} StringIntoNumberFails(toks: seq<Token>, a: Arena, cur: ScopeId, pos: nat, lits: Literals)
    requires WellFormed(a) && cur in a && pos + 4 <= |toks|
    requires toks[pos] == Id("a") && toks[pos + 1] == Sym('=') && toks[pos + 2].kind == StringLit
    requires toks[pos + 3] == Sym(';')
    requires "a" in a[cur].entries && a[cur].entries["a"].value.Value?
    ensures ExecStatement(toks, a, pos, cur, lits) == Fail(Error(pos, TypeMismatch("a")))
  {
    var text := LiteralEntry(Str(lits.text(toks[pos + 2].lexeme)));
    assert ResolveVar(toks, a, pos, cur, true) == Ok(VarOut(Located(cur, "a", pos + 1), a)) by {
      WriteSearchesCurrentScopeOnly(toks, a, pos, cur);
    }
    assert EvalValue(toks, a, pos + 2, cur, lits) == Ok(ValueOut(Temp(text), pos + 3)) by {
      LiteralsAreTemporaries(toks, a, pos + 2, cur, lits);
    }
    AssignmentStatement(toks, a, pos, cur, lits, VarOut(Located(cur, "a", pos + 1), a), ValueOut(Temp(text), pos + 3));
  }

  /** `b = a ;` in a scope that has its own `a` copies that `a`, whatever the
      enclosing scopes hold. */
  lemma {:induction false} InnerNameShadowsOuter(toks: seq<Token>, a: Arena, cur: ScopeId, lits: Literals)
    requires WellFormed(a) && cur in a && |toks| == 4
    requires toks[0] == Id("b") && toks[1] == Sym('=') && toks[2] == Id("a") && toks[3] == Sym(';')
    requires "a" in a[cur].entries && "b" !in a[cur].entries
    ensures var r := ExecStatement(toks, a, 0, cur, lits);
            r.Ok? && r.value.pos == 4 && "b" in r.value.arena[cur].entries
            && r.value.arena[cur].entries["b"].value == a[cur].entries["a"].value
  {
    var a1 := AddPlaceholder(a, cur, "b");
    assert ResolveVar(toks, a, 0, cur, true) == Ok(VarOut(Located(cur, "b", 1), a1)) by {
      WriteSearchesCurrentScopeOnly(toks, a, 0, cur);
    }
    assert EvalValue(toks, a1, 2, cur, lits) == Ok(ValueOut(InScope(cur, "a"), 3)) by {
      PlainReadScansOutward(toks, a1, 2, cur);
    }
    AssignmentStatement(toks, a, 0, cur, lits, VarOut(Located(cur, "b", 1), a1), ValueOut(InScope(cur, "a"), 3));
  }

  /** `b = ..a ;` in a scope that has a parent is meant to read `a` from that
      parent, but the dot count is never lowered while climbing, so the
      statement fails at the dot run. */
  lemma {:induction false} ParentReferenceFails(toks: seq<Token>, a: Arena, cur: ScopeId, lits: Literals)
    requires WellFormed(a) && cur in a && a[cur].parent.Some? && |toks| == 5
    requires toks[0] == Id("b") && toks[1] == Sym('=') && toks[2] == Token(Dots, "..")
    requires toks[3] == Id("a") && toks[4] == Sym(';') && "b" !in a[cur].entries
    ensures ExecStatement(toks, a, 0, cur, lits) == Fail(Error(2, TooManyDots))
  {
    var a1 := AddPlaceholder(a, cur, "b");
    assert ResolveVar(toks, a, 0, cur, true) == Ok(VarOut(Located(cur, "b", 1), a1)) by {
      UnknownWriteStopsAtPlaceholder(toks, a, 0, cur);
    }
    assert EvalValue(toks, a1, 2, cur, lits) == Fail(Error(2, TooManyDots)) by {
      LongDotRunFails(toks, a1, 2, cur, false);
    }
    BadValueFails(toks, a, 0, cur, lits, VarOut(Located(cur, "b", 1), a1), Error(2, TooManyDots));
  }

  /** With the corrected climb, the reference `..a` in a scope whose parent has
      an `a` names that `a`, where the resolver as written fails. */
  lemma {:induction false} ParentReferenceReadsParent(toks: seq<Token>, a: Arena, cur: ScopeId)
    requires WellFormed(a) && cur in a && a[cur].parent.Some? && |toks| == 2
    requires toks[0] == Token(Dots, "..") && toks[1] == Id("a")
    requires "a" in a[a[cur].parent.value].entries
    ensures ResolveVarIntended(toks, a, 0, cur, false) == Ok(VarOut(Located(a[cur].parent.value, "a", 2), a))
    ensures ResolveVar(toks, a, 0, cur, false) == Fail(Error(0, TooManyDots))
  {
    var parent := a[cur].parent.value;
    assert ClimbDotsIntended(a, cur, 2) == Some(parent);
    IntendedDotRunSearchesOneScope(toks, a, 0, cur, false);
  }

  /** `x = x ;` where no scope on the chain knows `x`: the left-hand side adds a
      placeholder first, the right-hand side then finds it, and `x` is left a
      placeholder, which later statements can read. */
  lemma {:induction false} SelfAssignmentKeepsPlaceholder(toks: seq<Token>, a: Arena, cur: ScopeId, lits: Literals)
    requires WellFormed(a) && cur in a && |toks| == 4
    requires toks[0] == Id("x") && toks[1] == Sym('=') && toks[2] == Id("x") && toks[3] == Sym(';')
    requires "x" !in a[cur].entries
    ensures var r := ExecStatement(toks, a, 0, cur, lits);
            r.Ok? && "x" in r.value.arena[cur].entries && r.value.arena[cur].entries["x"].IsPlaceholder()
  {
    var a1 := AddPlaceholder(a, cur, "x");
    assert ResolveVar(toks, a, 0, cur, true) == Ok(VarOut(Located(cur, "x", 1), a1)) by {
      WriteSearchesCurrentScopeOnly(toks, a, 0, cur);
    }
    assert EvalValue(toks, a1, 2, cur, lits) == Ok(ValueOut(InScope(cur, "x"), 3)) by {
      PlainReadScansOutward(toks, a1, 2, cur);
    }
    AssignmentStatement(toks, a, 0, cur, lits, VarOut(Located(cur, "x", 1), a1), ValueOut(InScope(cur, "x"), 3));
  }
}
