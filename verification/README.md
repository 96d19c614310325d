# MABE2 core, modelled in Dafny

This project models the central pieces of MABE2 (Modular Agent-Based
Evolver). The model works on values, and it proves what each piece
promises.

- **Config interpreter** (`source/config/Config.h`). A token sequence is
  run statement by statement against a tree of scopes:
  - variable references resolve by current-scope or outward search;
  - dot runs and member access;
  - placeholders are created for new names and later promoted;
  - literals become temporary entries;
  - assignment either promotes the placeholder or type-checks and copies
    the value.

  `ConfigSpec` defines the interpreter as functions. The class
  `ConfigInterp.Config` holds the token sequence and the scope tree as
  fields, and each of its methods is proved equal to its function. The
  dot-climbing loop of `ProcessVar` never counts its dots down (see
  Findings). The interpreter (`ConfigSpec.ResolveVar` and
  `ConfigInterp.Config.Climb`) follows that loop as written: one dot names
  the current scope, and every run of two or more dots fails with "too many
  dots". The corrected climb, one scope per dot after the first, is the
  separate resolver `ConfigSpec.ResolveVarIntended`, and the lemmas about
  it are named as intended.
  `ConfigProperties` and `ConfigScenarios` state what the interpreter does
  with each form of statement.
- **Config entries** (`tests/component/config/ConfigEntry.cpp`). An entry
  either owns a copy of its value (`ConfigEntry_Var`) or reads and writes
  through a host variable (`ConfigEntry_Linked`). It converts between
  numbers and text, and it has the name, description and flag accessors
  the tests exercise.
- **Data collection** (`source/core/data_collect.h`). The Count, Mode, Min
  and Max summaries of a container, each proved against a reference
  definition.
- **Populations** (`source/core/Population.h`). A population is a sequence
  of cells, each empty or holding an organism. It has a copy constructor
  and an iterator that skips empty cells, with `size_t` wrap-around on
  `++` and `--`.
- **Free-list placement** (`source/placement/FreeListPlacement.hpp`). A new
  organism goes into the first empty cell of a managed population, or at
  the end when there is none.
- **Hosts and symbionts** (`source/orgs/HostOrg.hpp`,
  `source/orgs/SymbiontOrg.hpp`). A symbiont latches onto its first host.
  An initialising host captures the first free symbiont.
- **Controller registries** (`source/core/MABE.h`). The list of worlds with
  its current world, and the organism-type table.

Some inputs come from code outside the model and are passed in as
parameters:
- the numeric and text conversions of literals (`ConfigSpec.Literals`);
- `emp::to_string` and `std::stod` (`ConfigEntries.Codec`, and `show` in
  `HostOrg.ToString`);
- the organism clone function;
- the contents of a symbiont collection.

## Model

| member | source | states |
|---|---|---|
| ConfigTokens.HasToken | source/config/Config.h:93 | A token exists only at a position from 0 up to, but not including, the length. A negative position has none. |
| ConfigTokens.IsKind | source/config/Config.h:94-98 | A kind test holds only on an existing token of that kind, and never past either end. |
| ConfigTokens.IsID | source/config/Config.h:94 | An identifier is an existing token of that kind, and never a dot run. |
| ConfigTokens.IsDots | source/config/Config.h:98 | A dot run is an existing token of that kind, and never an identifier. |
| ConfigTokens.GetSize | source/config/Config.h:106 | The size is the lexeme's length, the number of dots for a dot run, and 0 past either end. |
| ConfigTokens.AsLexeme | source/config/Config.h:103-105 | The text is the token's lexeme, or empty past either end. Its length is always `GetSize`. |
| ConfigTokens.AsChar | source/config/Config.h:100-102 | The character is non-NUL only for a symbol token with a non-empty lexeme, and then it is the lexeme's first character. A symbol with a non-empty lexeme always gives its first character. |
| ConfigScopes.LookupEntry | source/config/Config.h:229 | A found scope holds the name and lies on the chain from the current scope outward. The current scope wins. Without scanning only the current scope counts. With scanning, no nearer scope holds the name, and "not found" means no scope on the chain holds it. |
| ConfigScopes.PlaceholderEntry | source/config/Config.h:232-236 | A new placeholder carries the name, has no type yet and is neither temporary nor built-in. |
| ConfigScopes.AddPlaceholder | source/config/Config.h:232-236 | Afterwards the scope holds a placeholder under the name. Its other entries, its parent, every other scope and the set of scopes are unchanged. |
| ConfigScopes.Replace | source/config/Config.h:305-327 | Only the named slot of the one scope changes. Every other scope and every parent link stay as they were. |
| ConfigScopes.CopyValue | source/config/Config.h:337-343 | The target takes the source's value. It keeps its own name, description, default and flags. |
| ConfigSpec.SignedChar | source/config/Config.h:263-270 | A character literal's code is read as a signed `char`, in -128..127 and congruent to the byte modulo 256. |
| ConfigSpec.LiteralEntry | source/config/Config.h:254-279 | A literal yields an unnamed temporary entry holding its value. |
| ConfigSpec.ClimbDots | source/config/Config.h:213-221 | As written, a run of one dot stays in the current scope and any longer run fails, whatever the depth. |
| ConfigSpec.ClimbDotsIntended | source/config/Config.h:213-221 | A run of n dots climbs n-1 levels. It succeeds exactly when that many ancestors exist, and it lands on an ancestor at the expected depth. |
| ConfigSpec.TwoDotsFailAsWritten | source/config/Config.h:213-221 | In a scope that has a parent, `..` fails as written but reaches the parent as intended. |
| ConfigSpec.ResolveVar | source/config/Config.h:204-243 | Resolving consumes at least one token. A write stays in the current scope, and a read that leaves it lands on a scope of the outward chain. A read never changes the scopes. A write may only add a placeholder for a name its scope lacks. A leading run of two or more dots always fails with "too many dots". Failures are limited to too many dots, a missing identifier, or an unknown name on a read. |
| ConfigSpec.ResolveVarIntended | source/config/Config.h:204-243 | With the corrected climb, resolving lands on a scope of the outward chain, and errors are never reported before the start. A leading dot run fails with "too many dots" exactly when it would climb past the global scope. |
| ConfigSpec.EvalValue | source/config/Config.h:247-284 | A value consumes tokens and refers to a live entry or to a one-token temporary. A non-name, non-literal token is an "expected value" error. A value never fails with a type clash. |
| ConfigSpec.Assign | source/config/Config.h:304-343 | A placeholder is replaced by the right-hand side under its own name. Otherwise the value is copied. It fails exactly when a typed target meets a different type, with the error at the statement start. No other scope changes. |
| ConfigSpec.ExecStatement | source/config/Config.h:287-302 | A statement consumes tokens and keeps the scope tree well formed, with the same set of scopes. |
| ConfigSpec.ExecAssignment | source/config/Config.h:299-302 | After the left-hand side, the rest of the statement consumes tokens, and a type clash is reported at the statement start. |
| ConfigSpec.ExecConclude | source/config/Config.h:302-343 | After the value, the statement concludes on `;` and reports a type clash at the statement start. |
| ConfigSpec.ExecStatementList | source/config/Config.h:171-174 | A statement list stops only at the end of the tokens or in front of a `}`, with the scope tree well formed. |
| ConfigInterp.Config.constructor | source/config/Config.h:177-182 | A new configuration holds only the empty global scope. |
| ConfigInterp.Config.Load | source/config/Config.h:184-191 | Loading runs the statement list over the tokens from the global scope. The new scope tree and the outcome are those of `ExecStatementList`. |
| ConfigInterp.Config.ProcessVar | source/config/Config.h:204-243 | The imperative resolver returns the location and leaves the scope tree that `ResolveVar` describes, or its error. |
| ConfigInterp.Config.Climb | source/config/Config.h:213-219 | The dot-climbing loop as written, which never counts its dots down, gives the same answer as `ClimbDots`. |
| ConfigInterp.Config.ProcessValue | source/config/Config.h:247-284 | Gives exactly `EvalValue` and changes no scope. |
| ConfigInterp.Config.ProcessStatement | source/config/Config.h:287-302 | Leaves exactly the outcome and scope tree of `ExecStatement`. A type clash leaves the scopes untouched. |
| ConfigInterp.Config.ProcessAssignment | source/config/Config.h:299-302 | Leaves exactly the outcome of `ExecAssignment`. A failure leaves the scopes untouched. |
| ConfigInterp.Config.Conclude | source/config/Config.h:302-343 | Leaves exactly the outcome of `ExecConclude`. |
| ConfigInterp.Config.ProcessStatementList | source/config/Config.h:171-174 | Leaves exactly the outcome of `ExecStatementList`. |
| ConfigProperties.EmptyStatement | source/config/Config.h:293-296 | A lone `;` consumes one token and changes nothing. |
| ConfigProperties.StatementListStopsAtBrace | source/config/Config.h:171-174 | A list starting at `}` or at the end does nothing. |
| ConfigProperties.AssignmentStatement | source/config/Config.h:299-302 | A statement resolves the left side for writing, needs `=`, reads a value, needs `;`, then assigns. |
| ConfigProperties.MissingAssignFails | source/config/Config.h:300 | A missing `=` is reported at the token after the left-hand side. |
| ConfigProperties.BadValueFails | source/config/Config.h:301 | An error in the value is the statement's error. |
| ConfigProperties.MissingSemicolonFails | source/config/Config.h:302 | A missing `;` is reported at the token after the value. |
| ConfigProperties.PlainReadScansOutward | source/config/Config.h:229 | A plain name that is read is searched for from the current scope outward. |
| ConfigProperties.WriteSearchesCurrentScopeOnly | source/config/Config.h:229-236 | A name that is written is searched for only in the current scope. If it is absent, a placeholder is added there, even when an outer scope has the name. |
| ConfigProperties.UnknownWriteStopsAtPlaceholder | source/config/Config.h:232-236 | A write to an unknown name returns its placeholder without looking at a following dot run. |
| ConfigProperties.SingleDotSearchesCurrentScope | source/config/Config.h:210-229 | A leading single dot searches only the current scope, for reads too. An unknown written name becomes a placeholder there, and an unknown read name fails. |
| ConfigProperties.LongDotRunFails | source/config/Config.h:213-221 | As written, a leading run of two or more dots fails at the dot run with "too many dots", however deep the current scope is. |
| ConfigProperties.IntendedDotRunSearchesOneScope | source/config/Config.h:210-229 | With the corrected climb, a leading run of n dots within the available depth names the ancestor n-1 levels out. Only that scope is searched, for reads too. |
| ConfigProperties.IntendedAgreesWithoutDots | source/config/Config.h:224-243 | Without a leading dot run, and without one right after the name, the corrected resolver gives the same result as the one as written. |
| ConfigProperties.MemberAccessStaysInScope | source/config/Config.h:239 | After a found name, a dot run continues resolution from the same scope. |
| ConfigProperties.LiteralsAreTemporaries | source/config/Config.h:254-279 | Number, character and string literals each take one token and yield a temporary of the right kind. |
| ConfigProperties.PromotionKeepsTemporaryFlag | source/config/Config.h:307-324 | Promoting a placeholder always succeeds. The new entry has the placeholder's name and the right-hand side's value, and it keeps the right-hand side's temporary flag. |
| ConfigProperties.NonValueTokenFails | source/config/Config.h:281 | Any other token is an "expected value" error at that token. |
| ConfigScenarios.StringIntoNumberFails | source/config/Config.h:330-334 | Assigning a string literal to a number variable is a type clash reported at the statement start. |
| ConfigScenarios.InnerNameShadowsOuter | source/config/Config.h:229 | `b = a ;` copies the current scope's own `a`, whatever outer scopes hold. |
| ConfigScenarios.ParentReferenceFails | source/config/Config.h:213-221 | As written, `b = ..a ;` in a scope that has a parent fails at the `..` with "too many dots". |
| ConfigScenarios.ParentReferenceReadsParent | source/config/Config.h:213-239 | With the corrected climb, `..a` names the parent scope's `a`. The resolver as written fails on it with "too many dots". |
| ConfigScenarios.SelfAssignmentKeepsPlaceholder | source/config/Config.h:305-327 | `x = x ;` for an unknown `x` reads back the placeholder just created and leaves a placeholder. |
| ConfigEntries.TypeName | tests/component/config/ConfigEntry.cpp:56-57 | The type name is "Value" exactly for numeric entries and "String" exactly for string entries. |
| ConfigEntries.ToDouble | tests/component/config/ConfigEntry.cpp:23-32 | A number reads as itself. An int reads as its value. A string reads by parsing. |
| ConfigEntries.ToText | tests/component/config/ConfigEntry.cpp:24-32 | A string reads as itself. A number reads as the rendering of its double value. |
| ConfigEntries.FromDouble | tests/component/config/ConfigEntry.cpp:73-75 | Setting a double keeps the stored type. An int truncates toward zero, and a string stores the rendering. |
| ConfigEntries.FromText | tests/component/config/ConfigEntry.cpp:76-79 | Setting text keeps the stored type. A string stores the text, and a number stores the parsed value. |
| ConfigEntries.SetValueThenAsDouble | tests/component/config/ConfigEntry.cpp:73-74 | Setting a double and reading it back gives the same double, when the type can hold it. |
| ConfigEntries.SetStringThenAsString | tests/component/config/ConfigEntry.cpp:76-78 | Setting text and reading it back gives the same text, when the type can hold it. |
| ConfigEntries.HostVar.constructor | tests/component/config/ConfigEntry.cpp:19 | The host variable holds its initial value. |
| ConfigEntries.HostVar.Set | tests/component/config/ConfigEntry.cpp:28 | Assigning to the host variable replaces its value. |
| ConfigEntries.ConfigEntry.Stored | tests/component/config/ConfigEntry.cpp:23-32 | The value an entry reads has the entry's type. For a linked entry it is the host variable's current value. |
| ConfigEntries.ConfigEntry.Var | tests/component/config/ConfigEntry.cpp:287-302 | A variable entry owns a copy of the initial value, carries its name and description, and its flags are clear. |
| ConfigEntries.ConfigEntry.Linked | tests/component/config/ConfigEntry.cpp:17-32 | A linked entry reads the host variable, carries its name and description, and its flags are clear. |
| ConfigEntries.ConfigEntry.IsLocal | tests/component/config/ConfigEntry.cpp:42 | An entry is local exactly when it is not linked. |
| ConfigEntries.ConfigEntry.AsDouble | tests/component/config/ConfigEntry.cpp:23-30 | Reads the current stored value as a double. |
| ConfigEntries.ConfigEntry.AsString | tests/component/config/ConfigEntry.cpp:24-32 | Reads the current stored value as text. |
| ConfigEntries.ConfigEntry.SetName | tests/component/config/ConfigEntry.cpp:60-62 | Renames the entry and leaves its value, description and flags alone. |
| ConfigEntries.ConfigEntry.SetDesc | tests/component/config/ConfigEntry.cpp:63-65 | Changes the description only. |
| ConfigEntries.ConfigEntry.SetTemporary | tests/component/config/ConfigEntry.cpp:67-68 | Sets the temporary flag only. |
| ConfigEntries.ConfigEntry.SetBuiltIn | tests/component/config/ConfigEntry.cpp:69-70 | Sets the built-in flag only. |
| ConfigEntries.ConfigEntry.SetValue | tests/component/config/ConfigEntry.cpp:73-75 | Stores the converted double. A linked entry writes it through to the host variable; a variable entry writes only its own copy. |
| ConfigEntries.ConfigEntry.SetString | tests/component/config/ConfigEntry.cpp:76-79 | Stores the converted text, written through to the host variable when linked. |
| ConfigEntries.LinkedIntTracksVariable | tests/component/config/ConfigEntry.cpp:17-81 | A linked int entry reads 0 and "0", then 1 and "1" after the host changes. `SetValue(2.0)` / `SetString("3")` leave the host at 2 and then 3. |
| ConfigEntries.LinkedStringWritesText | tests/component/config/ConfigEntry.cpp:211-276 | A linked string entry sees host changes, and `SetValue(2.0)` stores the text "2" in the host. |
| ConfigEntries.VarIntIsSnapshot | tests/component/config/ConfigEntry.cpp:287-352 | A variable int entry ignores later host changes, and setting it leaves the host untouched. |
| ConfigEntries.VarStringIsSnapshot | tests/component/config/ConfigEntry.cpp:354-419 | A variable string entry ignores later host changes, and setting it leaves the host untouched. |
| ConfigEntries.FlagsAndNames | tests/component/config/ConfigEntry.cpp:37-70 | Type predicates and type name agree with the stored type. The entry is local exactly when not linked. Fresh flags are clear and the setters set them. Renaming and redescribing take effect. |
| DataCollect.StrLessIsStrictTotal | source/core/data_collect.h:65 | Lexicographic string order is irreflexive, transitive and total. |
| DataCollect.Count | source/core/data_collect.h:22-29 | The count is the number of distinct collected values. It is at most the container size and zero exactly for an empty container. |
| DataCollect.CountIgnoresOrderAndRepeats | source/core/data_collect.h:24-27 | Containers with the same elements collect the same value set. |
| DataCollect.ModeIsUnique | source/core/data_collect.h:43-48 | There is at most one mode in the sense used: most frequent, and the least such value on ties. |
| DataCollect.Mode | source/core/data_collect.h:33-51 | Gives no value exactly for an empty container. Otherwise it gives a most frequent value, the smallest among ties, as the ascending scan with a strict `>` picks. |
| DataCollect.BestBound | source/core/data_collect.h:63-66 | The fold's result is the start or an element, and nothing in the container beats it. |
| DataCollect.BestIsAValue | source/core/data_collect.h:63-66 | When no element is beaten by the start, the fold's result is an element. |
| DataCollect.Extreme | source/core/data_collect.h:63-66 | The scan loop computes the fold that keeps a value only when it strictly beats the current best. |
| DataCollect.Min | source/core/data_collect.h:53-69 | The minimum scan is that fold under `<`. |
| DataCollect.Max | source/core/data_collect.h:71-84 | The maximum scan is that fold under `>`. |
| DataCollect.IntMinIsLeast | source/core/data_collect.h:56-67 | Starting from the largest int, the result is a member at or below every value. On an empty container it is the start. |
| DataCollect.IntMaxIsGreatest | source/core/data_collect.h:74-82 | Starting from the smallest int, the result is a member at or above every value. |
| DataCollect.DoubleMinIsLeast | source/core/data_collect.h:56-67 | Starting from the largest double, the result is a member at or below every value. |
| DataCollect.DoubleMaxMissesNegatives | source/core/data_collect.h:76 | As written, the double maximum of `[-1.0]` is the smallest positive double, which is not in the container. |
| DataCollect.DoubleMaxFromLowest | source/core/data_collect.h:74-82 | Starting from the lowest double, the result is a member at or above every value. |
| DataCollect.StringMinStartAsWritten | source/core/data_collect.h:61 | The string start as written is 126 copies of the character with code 22. |
| DataCollect.StringMinStart | source/core/data_collect.h:61 | The intended start is 22 tildes. |
| DataCollect.StringMinMissesPrintable | source/core/data_collect.h:61 | As written, the string minimum of `["a"]` is the start itself, which is not in the container. |
| DataCollect.TildesAbovePrintable | source/core/data_collect.h:61 | No printable string of at most n characters lies below n tildes. |
| DataCollect.StringMinIsLeast | source/core/data_collect.h:56-67 | From 22 tildes, the minimum of printable strings of at most 22 characters is a member below no other. |
| DataCollect.StringMaxIsGreatest | source/core/data_collect.h:74-82 | From the empty string, the maximum is a member, or "" when empty, and no value exceeds it. |
| Populations.Population.constructor | source/core/Population.h:101 | A new population has the name and id and no cells. |
| Populations.Population.Copy | source/core/Population.h:102-106 | Corrected: the copy is named with "_copy" appended. It has the same cells, empty where the original is empty, and a clone of every organism, cell by cell. |
| Populations.CopyCellsAsWritten | source/core/Population.h:103-105 | The copy loop as written dereferences null exactly when some cell is empty. Otherwise it clones every organism. |
| Populations.EmptyCellCopyAsWritten | source/core/Population.h:103-105 | A population with one empty cell reaches the null dereference. |
| Populations.Population.SetID | source/core/Population.h:114 | Changes the id only. |
| Populations.Population.PushEmpty | source/placement/FreeListPlacement.hpp:66 | Appends one empty cell and returns its index. |
| Populations.Population.SetPlaceBirthFun | source/placement/FreeListPlacement.hpp:42-46 | Installs the birth placement only. |
| Populations.Population.SetPlaceInjectFun | source/placement/FreeListPlacement.hpp:47-51 | Installs the inject placement only. |
| Populations.Inc | source/core/Population.h:58 | `++` on a `size_t` position adds one, wrapping from the maximum to 0. |
| Populations.Dec | source/core/Population.h:65-66 | `--` on a `size_t` position subtracts one, wrapping from 0 to the maximum. |
| Populations.NextOccupiedStops | source/core/Population.h:54 | Advancing stops at the first occupied cell at or after the position, or at the end, and skips only empty cells. |
| Populations.IncrementFindsNext | source/core/Population.h:57-61 | From a valid position, `++` lands strictly later, on the next occupied cell or the end, skipping only empty cells. |
| Populations.PrevOccupiedStops | source/core/Population.h:66 | Backing up stops at the last occupied cell at or before the position. With none, it wraps past zero to a position beyond the end. |
| Populations.DecrementFindsPrevious | source/core/Population.h:64-68 | `--` lands on the previous occupied cell. With none, it wraps to a position at or beyond the end. |
| Populations.Iterator.constructor | source/core/Population.h:39 | An iterator points at the given population and position. |
| Populations.Iterator.Copy | source/core/Population.h:40 | A copied iterator has the same population and position. |
| Populations.Iterator.ToOccupied | source/core/Population.h:54 | The loop moves to the next occupied cell or the end, as `NextOccupied` says. |
| Populations.Iterator.Increment | source/core/Population.h:57-61 | `++` moves to the next occupied cell after the wrapped successor. |
| Populations.Iterator.Decrement | source/core/Population.h:64-68 | `--` moves to the previous occupied cell before the wrapped predecessor. |
| Populations.ComparisonsAgree | source/core/Population.h:71-76 | `!=` is the negation of `==`. Iterators over different populations are unordered. `<=` and `>=` are `<` or `==` and `>` or `==`, and `<` is the converse of `>`. |
| Populations.Iterator.Deref | source/core/Population.h:79 | Dereferencing first advances to an occupied cell and returns its organism. |
| Populations.Iterator.ConstDeref | source/core/Population.h:83 | The const dereference returns the organism at the current, occupied cell without moving. |
| Populations.Iterator.AsBool | source/core/Population.h:86 | The iterator converts to true exactly when it is on a cell of its population, which can then be read. |
| Populations.Iterator.Begin | source/core/Population.h:89 | `begin` points at position 0 of the same population. |
| Populations.Iterator.End | source/core/Population.h:95 | `end` points just past the last cell, and it converts to false. |
| Populations.WalkFromBegin | source/core/Population.h:57-98 | Walking with `++` from `begin` until `end` visits position 0 and then every occupied cell, in increasing order. It visits nothing else. |
| FreeListPlacements.FirstEmptyIsLowest | source/placement/FreeListPlacement.hpp:60-64 | The scan finds the lowest empty cell, or the end when every cell is occupied. |
| FreeListPlacements.FreeListPlacement.constructor | source/placement/FreeListPlacement.hpp:23-29 | A new placement module manages the first population under its name. |
| FreeListPlacements.FreeListPlacement.SetTargets | source/placement/FreeListPlacement.hpp:33-35 | The configured collection becomes the set of managed populations. |
| FreeListPlacements.FreeListPlacement.SetupModule | source/placement/FreeListPlacement.hpp:38-54 | Each managed population gets this module's birth and inject placement. Unmanaged populations keep theirs. No cells change. |
| FreeListPlacements.FreeListPlacement.PlaceInject | source/placement/FreeListPlacement.hpp:57-70 | An unmanaged population gets no position. A managed one gets its lowest empty cell, or a newly appended empty cell when it is full. |
| FreeListPlacements.FreeListPlacement.PlaceBirth | source/placement/FreeListPlacement.hpp:42-46 | A birth is placed exactly as an injection, whatever the parent's position. |
| FreeListPlacements.PlacementLandsOnEmptyCell | source/placement/FreeListPlacement.hpp:57-70 | Placement lands on an empty cell with every earlier cell occupied. The population grows exactly when no cell was empty. |
| Organisms.SymbiontOrg.constructor | source/orgs/SymbiontOrg.hpp:28-29 | A new symbiont has no host. |
| Organisms.SymbiontOrg.Copy | source/orgs/SymbiontOrg.hpp:30 | A copied symbiont keeps the host flag. |
| Organisms.SymbiontOrg.ToString | source/orgs/SymbiontOrg.hpp:37-39 | A symbiont describes itself as "Symbiont". |
| Organisms.SymbiontOrg.Mutate | source/orgs/SymbiontOrg.hpp:41-43 | Mutation reports zero mutations. |
| Organisms.SymbiontOrg.TrySetHost | source/orgs/SymbiontOrg.hpp:45-49 | Succeeds exactly when there was no host, and leaves the symbiont hosted either way. |
| Organisms.ClaimOnce | source/orgs/SymbiontOrg.hpp:45-49 | Only the first claim of a fresh symbiont succeeds, and a copy of a claimed symbiont refuses too. |
| Organisms.FirstUnhostedIsFirst | source/orgs/HostOrg.hpp:60-66 | Every symbiont before the claimed cell already has a host. |
| Organisms.HostOrg.constructor | source/orgs/HostOrg.hpp:29-30 | A new host has no symbionts. |
| Organisms.HostOrg.Copy | source/orgs/HostOrg.hpp:31 | A copied host starts without symbionts. |
| Organisms.HostOrg.ToString | source/orgs/HostOrg.hpp:45-47 | The description is "Host with ", then the rendered symbiont count, then " symbionts". The count's text can be read back from between the two. |
| Organisms.HostOrg.Mutate | source/orgs/HostOrg.hpp:49 | Mutation reports zero mutations. |
| Organisms.HostOrg.AddSymbiont | source/orgs/HostOrg.hpp:51 | Appends the position to the host's symbionts. |
| Organisms.HostOrg.Initialize | source/orgs/HostOrg.hpp:58-69 | The host claims the first unhosted symbiont, records its position and changes no other symbiont. With none free, nothing changes. |
| Organisms.CaptureFirstFree | source/orgs/HostOrg.hpp:45-69 | A host skips the empty cell, the other organism and the hosted symbiont, and claims the free one. It then reports one symbiont. A second host finds nothing to claim. |
| Controller.FindWorldIsFirst | source/core/MABE.h:108-110 | The search gives -1 exactly when no world has the name, and otherwise the first index that has it. |
| Controller.Mabe.constructor | source/core/MABE.h:31-36 | A new controller has no worlds, no current world (`size_t(-1)`) and no organism types. |
| Controller.Mabe.GetNumWorlds | source/core/MABE.h:82 | The world count is the number of worlds held. |
| Controller.Mabe.AddWorld | source/core/MABE.h:85-89 | The new world's id is the previous world count. It is appended and made current, and the count grows by one. |
| Controller.Mabe.GetWorldById | source/core/MABE.h:92-95 | Gives the world whose id is the given one. |
| Controller.Mabe.GetWorld | source/core/MABE.h:99-105 | With no worlds, "main_world" is created with id 0 and returned. Otherwise the current world is returned and nothing changes. |
| Controller.Mabe.GetWorldID | source/core/MABE.h:108-110 | Gives -1 exactly when no world has the name, and otherwise the first index of a world with that name. |
| Controller.Mabe.GetWorldByName | source/core/MABE.h:113-119 | Gives the first world with the name. |
| Controller.Mabe.GetOrganismType | source/core/MABE.h:123-126 | Gives the registered type of that name. |
| Controller.Mabe.AddOrganismType | source/core/MABE.h:140-145 | Registers a type under a name not yet taken, changing nothing else. |
| Controller.Mabe.GetFullOrganismType | source/core/MABE.h:129-137 | A known name gives its registered type unchanged. An unknown name registers a new type first. |
| Controller.GetOrCreateTwice | source/core/MABE.h:129-137 | Asking twice for one name, even with a different kind, gives the first type and registers it once. |
| Controller.WorldLifecycle | source/core/MABE.h:85-119 | The first request creates "main_world" with id 0, and a second one creates nothing. An added world gets id 1 and becomes current. It is found by name, an unknown name is not found, and the count is 2. |

## Left out

- The lexer, reading a file, `Write`, debugging output and the header-comment handling of `Config.h` are not modelled. The interpreter starts from a token sequence.
- The interpreter's fatal `Error` (print, then `exit(1)`) is modelled as a `Fail` result carrying the token position and the kind of error.
- `RequireNumber`, `RequireString` and `RequireLexeme` are not modelled, because the modelled functions never call them.
- The conversion of literal text to a number or string (`emp::from_string`, escape handling) is the parameter `ConfigSpec.Literals`.
- ConfigSpec.Assign: a variable promoted from a literal keeps the literal's temporary flag, because renaming does not clear it (`PromotionKeepsTemporaryFlag`). Whether the source's literal entries carry the flag is decided by their constructor in `ConfigEntry.h`, which is not part of this model; the model follows the "temporary" comments at `Config.h:255-274`. In the source, a flagged live variable would later take the move and delete paths: `b = a ;` into a placeholder would move `a`'s own entry into `b`, and `d = a ;` onto an existing `d` would delete `a`'s entry. The value model does neither. It files a copy of `a`'s value and keeps `a`.
- Memory ownership is not modelled, because entries are values:
  - moving a temporary right-hand side into a placeholder slot;
  - cloning a non-temporary one;
  - deleting temporaries afterwards.
- Struct, array and function entries, `{ }` blocks, `@` paths, `:` accessors and `+` expressions are not modelled, because the interpreter of `Config.h` does not process them. The statement list of `Config.h` stops at a `}`, and the model does too.
- `ConfigEntries`: the text conversions (`emp::to_string`, `stod`) are the parameter `ConfigEntries.Codec`, and the scenario lemmas name the renderings they rely on.
- `ConfigEntries`: the test contract's `ConfigEntry` and the interpreter's `ConfigScopes.Entry` are modelled independently. `ConfigEntry.h` is not part of this model, so nothing ties the two together.
- `ConfigEntries`: the double test cases are not modelled separately, because they repeat the int cases with `DoubleVal`.
- `ConfigEntries`: `ConfigEntry_Functions`, `GetScope` and `IsScope` are not modelled, because the tests leave them unresolved.
- ConfigSpec.SignedChar: assumes that `char` is a signed 8-bit type. Where `char` is unsigned (as on ARM), a character literal's code is 0..255 instead.
- `ConfigEntries.Trunc`: a double outside the int range, converted to int, is undefined in C++; the model simply truncates.
- `DataCollect`: rendering the result with `emp::to_string`, and `Mean`, are not modelled.
- `DataCollect`: NaN among doubles is not modelled.
- `DataCollect`: the default start for types that are neither arithmetic nor strings is the caller's `start` parameter of `Min` and `Max`.
- `DataCollect.Mode`: on an empty container the source returns an indeterminate value for arithmetic types and the empty string for strings. The model returns `None`.
- `DataCollect.Count`: the hash set is modelled as a mathematical set of values.
- `Populations`: organisms are values of a type parameter, and cloning is a parameter function.
- `Populations`: the move constructor, the destructor and object identity are not modelled.
- `Populations.Population.Copy`: the source leaves the copy's `id` uninitialised, so the model states nothing about it.
- `Populations.Iterator`: the unused `skip_empty` field is left out.
- `Populations.Iterator`: `operator bool` calls `IsOccupied`, which reads `orgs[pos]` even at the end position, and discards the result. Only the `pos < PopSize()` answer is modelled.
- `Populations.Iterator.Deref`: dereferencing with no occupied cell left is a null dereference in the source, so the model requires an occupied cell ahead.
- `Populations.Population.PushEmpty`: the controller's `PushEmpty` is not part of this model. The model appends one empty cell, as the placement module relies on.
- `FreeListPlacements`:
  - `Collection` is modelled as a set of populations;
  - `OrgPosition` as a population and index;
  - the collection iterator as a scan over every cell.
  `MABE.hpp` and `Module.h` are not part of this model. `MABE_REGISTER_MODULE` and the module description are left out.
- `Organisms`: the host's destructor (`ClearOrgAt`), `Randomize`, `SetupConfig`, `ManagerData` and the lookup of the symbiont collection by name are left out. The collection is passed in as its cells.
- `Organisms`: `dynamic_cast` is modelled by the `Cell` variants.
- `Organisms.HostOrg.ToString`: the count rendering is the parameter `show`.
- `Controller`: command-line handling, `Setup`, `Update`, the random generator, module and population management, and the destructor are left out. Worlds are records of name and id; organism types are records of name and organism kind.
- `Controller.Mabe.AddWorld`: the narrowing `(int)` cast of the world count is not modelled. It only matters past 2^31-1 worlds.
- `Controller.Mabe.GetWorldById`: the debug-only `emp_assert` on the id is modelled as a precondition.
- `Controller.Mabe.GetOrganismType`: the debug-only `emp_assert` that the type exists is modelled as a precondition.
- `Controller.Mabe.AddOrganismType`: the debug-only `emp_assert` that the type is new is modelled as a precondition.
- `Controller.Mabe.GetWorldByName`: the debug-only `emp_assert` that the world exists is modelled as a precondition.

## Findings

| source | as written | input that shows it | evidently intended | confidence | as-written member | corrected member |
|---|---|---|---|---|---|---|
| source/config/Config.h:216-219 | The loop that climbs to the parent scope while `num_dots > 1` never decrements `num_dots`. The parent of the global scope is null, so any run of two or more dots ends in the "too many dots" error. | `b = ..a ;` inside a scope that has a parent | `..` reaches the parent scope, and each further dot climbs one more level | high; not executed | ConfigSpec.TwoDotsFailAsWritten | ConfigSpec.ClimbDotsIntended |
| source/core/Population.h:103-105 | The copy constructor clones through every cell of the original, and an empty cell holds null. | copying a population that has one empty cell | an empty cell stays empty in the copy | medium; not executed | Populations.CopyCellsAsWritten | Populations.Population.Copy |
| source/core/data_collect.h:76 | The maximum starts from `numeric_limits<double>::min()`, the smallest positive double. | the maximum of `[-1.0]` | start from `numeric_limits<double>::lowest()` | high; not executed | DataCollect.DoubleMaxMissesNegatives | DataCollect.DoubleMaxFromLowest |
| source/core/data_collect.h:61 | `std::string('~',22)` selects the (count, char) constructor, giving 126 characters of code 22, which sorts below printable text. | the minimum of `["a"]` | 22 tildes, as the comment on that line says | high; not executed | DataCollect.StringMinMissesPrintable | DataCollect.StringMinIsLeast |
