# Kconfig engine: model and proofs

This project models the Kconfig engine in `buildroot-external/scripts/kconfiglib.py`: the values of
symbols and choices with their caches, menu finalization, loop detection, configuration files,
incremental builds, expressions, and the macro preprocessor. Properties of the model are proved with
Dafny; `dafny verify dfyconfig.toml` checks all of them.

## Parts

**Values, caches and invalidation.** `Evaluation` says what each value property (visibility, tristate
and string value, assignable values, choice mode and selection) computes from the user's input and from
other properties, and which properties it really reads, which is less than it mentions because
evaluation short-circuits. `Semantics` turns this into evaluation from scratch along a rank. `Engine`
has the `Kconfig` class with the cached fields; its methods are the property getters, setters and
`_rec_invalidate()`. The main result is `Engine.Kconfig.Run`: in any run of assignments and reads, every
read returns what evaluation from scratch gives for the user's input at that moment. The invariant
behind it is that every cached value has only read cached values, and `Invalidation` shows why it
survives although invalidation stops at items without a cached visibility. `ValueLaws` has laws of the
values: choice modes, `assignable`, ranges. `ValueMeaning` and `ChoiceMeaning` say what each value is in terms
of what is declared: which default, range, selection and prompt decides, and what becomes of a user value.

**Dependencies and loops.** `DependencyGraphs` builds the `_dependents` sets. `LoopSearch` has the
three-colour search as a function and shows that what it raises is a dependency loop, which does not turn
around in a choice; `LoopCheck` has the methods, with the fields that they change. `LoopCompleteness` and
`LoopExactness` say what completion means: there is a loop if and only if a symbol of a choice leads to an
earlier symbol of it. `Termination` turns completion into a rank along which evaluation terminates,
`Initialization` puts everything together, and `MissedLoops` shows that none of the conditions can be
dropped.

**Configuration files.** `ConfigText` has the line patterns and string literals, `Loading` what a file
does to the user's input, `LineMeaning` what each kind of line does, `RoundTrip` exactly when saving and loading (full or minimal) restores all
values and modes, `MinimalMeaning` what a minimal file leaves out, `ConfigFile` the order and the comments of
a written file, `ConfigSections` its layout, `ConfigSaving` the method that writes it with the memoised values, and `SyncDeps` the dependency files of incremental builds.
`Numbers` models `int()`, `str()` and `hex()`.

**Menu finalization.** `MenuTree` describes it as a function on trees. `MenuNodes` and `MenuFinalizer`
do it in place on linked nodes (`next`, `list`, `parent`) and are proved to do what the function says.
`MenuOrder` shows that the definition order is kept, `Propagation` what the conditions mean afterwards,
`Collection` and `ChoiceTypes` what symbols and choices collect, `ChoiceMembers` that the members of
a choice are limited by its mode, and `MenuDependence` what it means for an item to be in an implicit
submenu. `MenuWalk` is the walk over the result that needs no stack.

**Expressions and macros.** `Grammar` has the grammar of expressions and the parser as a function, which
accepts exactly the grammar; `Parsing` is the parser over the tokens of a line; `Printing` is
`expr_str()`. `Macros` has macro expansion as functions with their termination argument, `Preprocessor`
the expander with its counters, `MacroText` what expansion means, and for which text it succeeds, and
`MacroMeaning` what a call computes from its arguments.

## What the code depends on but does not check

These assumptions are predicates in the model.

- `Dependencies.WellFormed`: identifiers refer to something; a choice symbol that can be visible mentions its
  choice in one of its conditions; the defaults of a choice name symbols of that choice.
  `LoopCompleteness.Paired`: no symbol is in two choices.
- `Semantics.Ranked`: evaluation does not go in circles. The loop check establishes this
  (`Termination.EvaluationTerminates`) on three conditions, each of which is needed (`MissedLoops`).
  `LoopExactness.NoWayBack`: no symbol of a choice leads to an earlier symbol of it.
  `Termination.NestedOk`: what mentions a choice, but is not one of its symbols, also mentions one of its
  symbols, as the items of an implicit submenu below a choice symbol do. `Termination.ModulesApart`: nothing
  among what MODULES depends on is tristate or has to do with a choice, because types read MODULES without
  an edge that the check could see.
- `ValueLaws.ChoiceSane`: the symbols of a choice have prompts only inside it
  (see `ChoiceMembers.ChoiceSymbolIsSane`).
- `RoundTrip.PlainChoices`: choices are bool or tristate, and there are no `option env` or
  `option defconfig_list` symbols.
- `RoundTrip.Guarded`: prompts hold only where the direct dependencies do, which finalization
  establishes (see `Collection.PromptsAreGuarded`).
- `RoundTrip.Representable` and `ConfigText.NamesOk`: values fit on a line, and names are distinct and can
  be read back. `ConfigFile.AllHarmless`: no menu or comment title reads as `CONFIG_FOO is not set`,
  because the title is written after `# ` and would unset FOO.

## Where the code differs from its documentation

The model follows the code. For each difference there is an exact condition and a configuration on which
the documented behaviour fails.

- Writing a configuration and loading it again can change values: a `default y` under a prompt that is
  only visible to m is written as y and read back as m. The mode of a choice can be lost if none of its
  symbols is m or y, because modes are inferred from symbols. `RoundTrip.FullConfigRoundTrip` says
  exactly when; `Counterexamples.FullRoundTripFails` and `LostValues.OptionalModeFails` are examples.
- A minimal configuration can lose an assignment: a symbol that is visible to m and selected to m is left
  out as unchangeable, although with `default y` the user can lower it from y to m. The text of a selected
  string, int or hex symbol is left out as well, although a select does not fix it; and so is a bool symbol
  that is selected by default in a tristate choice, which then falls back to m mode. See
  `RoundTrip.MinConfigRoundTrip`, `Counterexamples.MinRoundTripFails`, `LostValues.SelectedTextFails` and
  `LostValues.MixedModeFails`.
- `Symbol.assignable` offers m for a symbol that is visible to m, selected to m and implied to y, but
  `tri_value` then promotes m to y. See `ValueLaws.AssignableIsExact` and `Counterexamples.AssignableFails`.
- `Symbol.assignable` offers only y for the symbols of a choice in y mode, although all but the selected one
  can be set to n (which they are) as well; and in m mode it goes by selects and implies, which do not affect
  choice symbols: it withholds n from a selected symbol, and offers y instead of m for an implied one. See
  `ChoiceMeaning.MemberAssignableIsExact`.
- A replacing load does not forget an old user selection of a choice if the file only assigns m inside it.
  See `Loading.LoadForgets` and `Counterexamples.LoadRemembers`.
- The loop check misses loops through choices: when it comes from a symbol of a choice to an earlier one, that
  has been checked already. With symbols A, B and C of a bool choice, B depending on X, and X having
  `default y if C`, it passes, and with B selected by the user evaluation recurses without end. What depends
  on the mode of a choice alone, and on MODULES through a type, is not visited either. See
  `LoopExactness.CheckIsExact`, `Termination.EvaluationTerminates`, `MissedLoops.BackwardLoopIsMissed`,
  `MissedLoops.NestedLoopIsMissed` and `MissedLoops.ModulesLoopIsMissed`.
- `_expr_depends_on()` treats `sym != y` like `sym = y`, because `and` binds tighter than `or`; its comment
  lists `sym != n` only. So an item can be in the submenu of a symbol and be visible where the symbol is n.
  `MenuDependence.AcceptedIsN` says exactly when; `MenuDependence.UnequalYIsTaken` is an example.
- For a minimal configuration, the default of a symbol counts an imply even where the dependencies of the symbol
  are not met. See `ValueMeaning.MinimalDefaultIs` and `ValueMeaning.ValueIs`.

## Model

| member | source | states |
|---|---|---|
| `Engine.Kconfig.Run` | buildroot-external/scripts/kconfiglib.py:4879-4908 | In any sequence of assignments, resets and reads, each read returns what evaluation from scratch gives for the input at that point, and the caches stay coherent |
| `Engine.Kconfig.Read` | buildroot-external/scripts/kconfiglib.py:4301-4538 | A read of any property returns its value from scratch, changes no input and only adds to the caches |
| `Engine.Kconfig.SymVisibility` | buildroot-external/scripts/kconfiglib.py:4532-4538 | Returns the visibility from scratch, caches it, and keeps all caches coherent |
| `Engine.Kconfig.SymTriValue` | buildroot-external/scripts/kconfiglib.py:4442-4519 | Returns the tristate value from scratch, caches it together with `_write_to_conf`, and keeps all caches coherent |
| `Engine.Kconfig.SymStrValue` | buildroot-external/scripts/kconfiglib.py:4301-4439 | Returns the string value from scratch, with ranges and defaults, caches it, and keeps all caches coherent |
| `Engine.Kconfig.SymAssignable` | buildroot-external/scripts/kconfiglib.py:4827-4871 | Returns the assignable values from scratch, caches them, and keeps all caches coherent |
| `Engine.Kconfig.ChVisibility` | buildroot-external/scripts/kconfiglib.py:5233-5239 | The same for the visibility of a choice |
| `Engine.Kconfig.ChModeValue` | buildroot-external/scripts/kconfiglib.py:5204-5221 | The same for the mode of a choice, which is not cached itself |
| `Engine.Kconfig.ChSelection` | buildroot-external/scripts/kconfiglib.py:5438-5467 | The same for the selection of a choice, from the user or from defaults, among visible symbols |
| `Engine.Kconfig.ChAssignable` | buildroot-external/scripts/kconfiglib.py:5419-5436 | The same for the assignable modes of a choice |
| `Engine.Kconfig.ExprValue` | buildroot-external/scripts/kconfiglib.py:6002-6056 | Evaluates an expression with short-circuiting; everything that was really read is cached afterwards |
| `Engine.Kconfig.RecInvalidate` | buildroot-external/scripts/kconfiglib.py:4879-4908 | Terminates on cyclic graphs; clears the caches of a set of items around the given one, and no dependent of an item of that set has a cached visibility afterwards |
| `Engine.Kconfig.InvalidateAll` | buildroot-external/scripts/kconfiglib.py:3555-3563 | Clears the caches of all items |
| `Engine.Kconfig.StillValid` | buildroot-external/scripts/kconfiglib.py:4879-4930 | After an invalidation from an item and a change of its input, the remaining caches are coherent with the new input |
| `Engine.Kconfig.SetValue` | buildroot-external/scripts/kconfiglib.py:4572-4659 | Stores exactly the values that the type accepts, selects a choice symbol set to y, and keeps the caches coherent |
| `Engine.Kconfig.UnsetValue` | buildroot-external/scripts/kconfiglib.py:4661-4668 | Forgets the user value and keeps the caches coherent |
| `Engine.Kconfig.SetMode` | buildroot-external/scripts/kconfiglib.py:5258-5297 | Stores exactly the modes that the type of the choice accepts and keeps the caches coherent |
| `Engine.Kconfig.UnsetMode` | buildroot-external/scripts/kconfiglib.py:5299-5306 | Forgets mode and selection of a choice and keeps the caches coherent |
| `Invalidation.SurvivorsAreValid` | buildroot-external/scripts/kconfiglib.py:4887-4908 | What stays cached when invalidation stops at items without a cached visibility has the same value under the new input, and has read only what stays cached, unless what it read cannot matter |
| `Invalidation.ClosureSurvives` | buildroot-external/scripts/kconfiglib.py:4887-4908 | The invariant that cached values have read cached values only carries over to what survives |
| `Invalidation.InvisibleIgnoresUser` | buildroot-external/scripts/kconfiglib.py:4910-4930 | User values have no effect on symbols that are never visible, such as promptless ones, so that these need not be invalidated |
| `Semantics.StepAgree` | buildroot-external/scripts/kconfiglib.py:6013-6026 | A property computed in two environments that agree on what it really read is the same and reads the same |
| `Semantics.EvalUnique` | buildroot-external/scripts/kconfiglib.py:4301-4519 | Evaluation from scratch is the only assignment of values to properties that satisfies the equations of all properties |
| `Dependencies.ReadsAreReached` | buildroot-external/scripts/kconfiglib.py:3480-3553 | Whatever a property can read is the same item, an item it depends on by `_dependents`, or MODULES; a choice symbol that can never be visible may also read its choice |
| `ValueLaws.ChoiceModes` | buildroot-external/scripts/kconfiglib.py:5438-5452 | In n mode all symbols of a choice are n; in m mode each is n or m as the user says; in y mode exactly the selected one is y if any is visible, and otherwise all are n |
| `ValueLaws.SelectionIsVisible` | buildroot-external/scripts/kconfiglib.py:5438-5467 | A choice has a selection exactly in y mode with a visible symbol; it is visible, and the user selection if that is visible |
| `ValueLaws.SettingToYSelects` | buildroot-external/scripts/kconfiglib.py:4645-4659 | After a choice symbol is set to y it is the only y symbol, exactly if the choice is in y mode and the symbol is visible |
| `ValueLaws.AssignableIsExact` | buildroot-external/scripts/kconfiglib.py:4827-4871 | `assignable` is exactly what can be set with effect, if and only if m is not promoted by an imply |
| `ValueLaws.AssignableModeIsExact` | buildroot-external/scripts/kconfiglib.py:5419-5436 | The same for choice modes, without exception |
| `ValueLaws.RangeSafety` | buildroot-external/scripts/kconfiglib.py:4327-4416 | With an active range that is not empty, an int or hex value is in the range whatever the user and the defaults say |
| `ValueMeaning.ExpressionIs` | buildroot-external/scripts/kconfiglib.py:6002-6056 | Conjunction is the minimum, disjunction the maximum, negation turns values around, and a comparison is y or n as its operands are related: as numbers if both are, unless both are strings, and else in the order of texts |
| `Numbers.StrCmpIs` | buildroot-external/scripts/kconfiglib.py:6375-6378 | Texts are compared character by character; a proper prefix comes first |
| `Numbers.TextOrder` | buildroot-external/scripts/kconfiglib.py:6375-6378 | Any two texts are related in exactly one way, and the order is transitive |
| `ValueMeaning.VisibilityIs` | buildroot-external/scripts/kconfiglib.py:6300-6327 | A symbol is as visible as its most visible prompt, up to the two special cases for choice symbols and the promotion of m |
| `ValueMeaning.FirstExists` | buildroot-external/scripts/kconfiglib.py:4478-4483 | There is exactly one first active default, and one first active range, counting the end of the list if none is active |
| `ValueMeaning.ValueIs` | buildroot-external/scripts/kconfiglib.py:4460-4504 | The value of a bool or tristate symbol from the user value or the first active default, then implies, selects and promotion, and when it is written |
| `ValueMeaning.TextIs` | buildroot-external/scripts/kconfiglib.py:4418-4428 | A visible string symbol has the user text, and otherwise the text of the first active default, or none |
| `ValueMeaning.NumberIs` | buildroot-external/scripts/kconfiglib.py:4336-4416 | A visible int or hex symbol keeps a user text that fits the first active range, and otherwise has the first active default, or the nearer end of the range if that does not fit; a non-empty range always holds |
| `ValueMeaning.OtherTextIs` | buildroot-external/scripts/kconfiglib.py:4309-4318 | Logic symbols have n, m or y as text, and undefined ones their name |
| `ValueMeaning.MinimalDefaultIs` | buildroot-external/scripts/kconfiglib.py:4932-4965 | What write_min_config() takes for the default: the first active default, or select or imply if larger; no imply promotes m |
| `ChoiceMeaning.ChoiceVisibilityIs` | buildroot-external/scripts/kconfiglib.py:6300-6327 | A choice is as visible as its most visible prompt, with m promoted where it cannot be m |
| `ChoiceMeaning.ModeIs` | buildroot-external/scripts/kconfiglib.py:5204-5221 | The mode is what the user asked for, at least m unless the choice is optional, and at most the visibility |
| `ChoiceMeaning.SelectionIs` | buildroot-external/scripts/kconfiglib.py:5438-5467 | In y mode the user selection if visible, else the first active default with a visible symbol, else the first visible symbol |
| `ChoiceMeaning.MemberIs` | buildroot-external/scripts/kconfiglib.py:4506-4516 | The value of a choice symbol, and that it is written exactly if it is visible |
| `ChoiceMeaning.MemberAssignableIsExact` | buildroot-external/scripts/kconfiglib.py:4841-4871 | A value is offered for a choice symbol exactly if setting it takes effect, except in the cases that are named |
| `Numbers.DigitsAre` | buildroot-external/scripts/kconfiglib.py:6367-6372 | Exactly the runs of digits with single underscores between them are numerals, and they stand for the digits in their places |
| `Numbers.SignedIs` | buildroot-external/scripts/kconfiglib.py:6367-6372 | Numbers are read with blanks around them and one sign |
| `Numbers.UnsignedIs` | buildroot-external/scripts/kconfiglib.py:6367-6372 | Which prefixes are allowed in which base, and which base they stand for |
| `Numbers.IntTextIs` | buildroot-external/scripts/kconfiglib.py:4402-4408 | Clamped values are written with a sign, the prefix of the base, and digits without needless zeros |
| `Numbers.IntTextRoundTrip` | buildroot-external/scripts/kconfiglib.py:4402-4406 | `int()` in base 10 or 16 reads back what `str()` or `hex()` wrote |
| `DependencyGraphs.DependencyGraph.DependOn` | buildroot-external/scripts/kconfiglib.py:6330-6346 | Adds the item to the dependents of exactly the items in the expression |
| `DependencyGraphs.DependencyGraph.BuildDep` | buildroot-external/scripts/kconfiglib.py:3480-3539 | The dependents of an item are exactly the items that mention it |
| `DependencyGraphs.DependencyGraph.AddChoiceDeps` | buildroot-external/scripts/kconfiglib.py:3541-3553 | Adds choices as dependents of their symbols, and nothing else |
| `LoopSearch.CheckIsSound` | buildroot-external/scripts/kconfiglib.py:6573-6690 | What a search raises is a dependency loop: distinct items, each depending on the next, that does not go from a symbol to its choice and straight back; a partial loop leads back to an active item |
| `LoopSearch.FoundIsSound` | buildroot-external/scripts/kconfiglib.py:6682-6690 | On the way back a partial loop grows by the current item, or is complete and a real loop |
| `LoopCompleteness.CheckDone` | buildroot-external/scripts/kconfiglib.py:6600-6645 | What has been checked, with its dependents and choices, when a search returns without a loop, also by way of a skipped symbol or an ignored choice |
| `LoopExactness.CheckIsExact` | buildroot-external/scripts/kconfiglib.py:1117-1120 | The check raises only loops; if it completes, there is a loop exactly if a symbol of a choice leads to an earlier one; so where none does, it completes exactly if there is no loop |
| `LoopExactness.NoLoopIsLeft` | buildroot-external/scripts/kconfiglib.py:6608-6624 | Once everything has been finished, and no symbol of a choice leads to an earlier one, there is no loop |
| `LoopExactness.WayBackIsLoop` | buildroot-external/scripts/kconfiglib.py:6600-6606 | A symbol that leads to an earlier one of its choice is on a loop through the choice |
| `LoopExactness.MissedLoopsHaveChoices` | buildroot-external/scripts/kconfiglib.py:6608-6624 | A loop of symbols alone is never missed |
| `LoopCheck.LoopChecker.CheckSym` | buildroot-external/scripts/kconfiglib.py:6573-6645 | The search from a symbol changes colours and finds loops as the function `LoopSearch.Check` says |
| `LoopCheck.LoopChecker.CheckChoice` | buildroot-external/scripts/kconfiglib.py:6648-6679 | The same for a choice, with the symbol that is skipped |
| `LoopCheck.LoopChecker.CheckAll` | buildroot-external/scripts/kconfiglib.py:1117-1120 | What is raised is a loop; completion means that there is none, unless a symbol of a choice leads to an earlier one, and then each loop runs through a choice |
| `Termination.EvaluationTerminates` | buildroot-external/scripts/kconfiglib.py:6577-6600 | Completion of the check yields a rank along which evaluation terminates, also with choices |
| `Initialization.Init` | buildroot-external/scripts/kconfiglib.py:1114-1124 | Set-up succeeds if and only if there is no dependency loop, and the result has coherent caches |
| `MissedLoops.BackwardLoopIsMissed` | buildroot-external/scripts/kconfiglib.py:6648-6679 | A configuration with a choice that passes the check although there is a loop and evaluation does not terminate |
| `MissedLoops.BackwardGoesRound` | buildroot-external/scripts/kconfiglib.py:5438-5467 | In it, the selection is found by reading a visibility, for which a value is read, for which the selection is read |
| `MissedLoops.NestedLoopIsMissed` | buildroot-external/scripts/kconfiglib.py:6648-6664 | A configuration that passes the check although the visibility of a choice is read for a symbol in a menu inside of it, and the symbol for the visibility |
| `MissedLoops.ModulesLoopIsMissed` | buildroot-external/scripts/kconfiglib.py:3480-3539 | A configuration that passes the check although MODULES is read for the type of a symbol, and the symbol for MODULES |
| `ConfigText.ConfStringMatchIsExact` | buildroot-external/scripts/kconfiglib.py:7172-7174 | The pattern for string values captures a text if and only if it is an escaped body followed by a quote, and it captures nothing else |
| `ConfigText.StringLiteralRoundTrip` | buildroot-external/scripts/kconfiglib.py:6190-6208 | For every string, the pattern captures exactly its escaped form, and unescaping gives the string back |
| `Engine.Kconfig.LoadConfig` | buildroot-external/scripts/kconfiglib.py:1247-1366 | Loading a file, replacing or merging, has exactly the effect on the input that `Loading.Load` describes, and keeps the caches coherent |
| `Loading.LoadIs` | buildroot-external/scripts/kconfiglib.py:1289-1366 | After a replacing load each user value is the last valid one in the file, and modes and selections follow the file except for the stale ones of undecided choices |
| `LineMeaning.LogicLineIs` | buildroot-external/scripts/kconfiglib.py:1281-1311 | CONFIG_FOO=... sets a bool or tristate symbol by the first character of the value, infers the mode of its choice, and changes nothing if the character or the type does not allow it |
| `LineMeaning.UnsetLineIs` | buildroot-external/scripts/kconfiglib.py:1325-1351 | The line that FOO is not set stands for n on bool and tristate symbols and for nothing on others |
| `LineMeaning.StringLineIs` | buildroot-external/scripts/kconfiglib.py:1313-1322 | A string symbol gets the unescaped literal, and nothing if there is no literal |
| `LineMeaning.NumberLineIs` | buildroot-external/scripts/kconfiglib.py:1353-1354 | An int or hex symbol gets the text if it is a number, and no negative one for hex |
| `LineMeaning.UndefinedLineIs` | buildroot-external/scripts/kconfiglib.py:1276-1279 | Assignments to undefined symbols change nothing |
| `LineMeaning.OtherLineIs` | buildroot-external/scripts/kconfiglib.py:1325-1336 | Lines that are no assignments change nothing |
| `LineMeaning.LineByLine` | buildroot-external/scripts/kconfiglib.py:1269-1355 | Without replacing, a file is loaded line by line |
| `LineMeaning.ReplacingIsFresh` | buildroot-external/scripts/kconfiglib.py:1356-1366 | With replacing, user values are those of loading into a fresh instance; so are modes and selections, except that one survives if the file gives the other |
| `Inputs.NumberIsSet` | buildroot-external/scripts/kconfiglib.py:4572-4659 | Which numbers set_value() takes, and what changes |
| `ConfigText.SetMatchIsExact` | buildroot-external/scripts/kconfiglib.py:981-981 | The pattern for assignments matches exactly the lines of that form |
| `ConfigText.UnsetMatchIsExact` | buildroot-external/scripts/kconfiglib.py:982-983 | The pattern for unset symbols matches exactly the lines that start with that form |
| `Loading.LoadForgets` | buildroot-external/scripts/kconfiglib.py:1356-1366 | A replacing load depends on nothing but the file, if and only if the file gives both or neither of mode and selection to each choice |
| `Loading.LoadedLikeFresh` | buildroot-external/scripts/kconfiglib.py:1356-1366 | Then all values equal those of a fresh instance that loads the file |
| `Loading.BoolChoicesDecide` | buildroot-external/scripts/kconfiglib.py:1294-1311 | Files always decide bool choices |
| `Engine.Kconfig.ConfigLine` | buildroot-external/scripts/kconfiglib.py:4540-4563 | The line of a symbol, if it is written out, is that of its value from scratch |
| `Engine.Kconfig.StrDefaultValue` | buildroot-external/scripts/kconfiglib.py:4932-4965 | Returns the default value from scratch, without the user value |
| `Engine.Kconfig.MinConfigContents` | buildroot-external/scripts/kconfiglib.py:1695-1730 | The minimal configuration holds exactly the lines of the symbols that differ from their default and could have been set |
| `RoundTrip.FullConfigRoundTrip` | buildroot-external/scripts/kconfiglib.py:1503-1655 | Saving and a replacing load restore all values and modes, whatever the instance held, if and only if no value is truncated to a visibility of m and no choice has a mode that cannot be inferred from its symbols |
| `MinimalMeaning.LeftOutIs` | buildroot-external/scripts/kconfiglib.py:1705-1728 | A written symbol is left out of a minimal file exactly if selects leave no say, or its value is its default, or it is selected by default in a choice that is not optional |
| `RoundTrip.MinConfigRoundTrip` | buildroot-external/scripts/kconfiglib.py:1658-1730 | The same for a minimal configuration, if and only if no symbol is wrongly omitted as unchangeable and no mode is lost |
| `RoundTrip.ConfigStringParsed` | buildroot-external/scripts/kconfiglib.py:4540-4563 | The line written for a symbol is read as the assignment of its value |
| `RoundTrip.LoadRestores` | buildroot-external/scripts/kconfiglib.py:1289-1366 | Loading the written assignments gives each kept symbol the value it was written with, and nothing to the others |
| `RoundTrip.SaveAndLoad` | buildroot-external/scripts/kconfiglib.py:1503-1580 | The full round trip on lines, whatever comments are between them |
| `RoundTrip.MinSaveAndLoad` | buildroot-external/scripts/kconfiglib.py:1658-1730 | The minimal round trip on lines |
| `ConfigSections.MenuSection` | buildroot-external/scripts/kconfiglib.py:1610-1656 | A visible menu gives a heading, the lines of its children and an end line; other menus only the lines of their children |
| `ConfigSections.LeafLines` | buildroot-external/scripts/kconfiglib.py:1634-1656 | A symbol gives its line once, after a blank line if a section has ended, and a comment a heading |
| `ConfigFile.WrittenLines` | buildroot-external/scripts/kconfiglib.py:1594-1655 | Of what is written for the menu tree, the lines read as assignments are those of its symbols, each symbol once, in the order of its first node |
| `ConfigFile.WrittenFileRoundTrip` | buildroot-external/scripts/kconfiglib.py:1583-1655 | The file written for a menu tree, comments included, restores all values and modes if and only if no value is truncated and no mode is lost |
| `ConfigSaving.ConfigContents` | buildroot-external/scripts/kconfiglib.py:1594-1655 | The walk over the links asks the memoised properties for texts and conditions, keeps the caches coherent, and writes what recursion over the tree writes with the values from scratch: nodes, children, and end comments on leaving |
| `ConfigSaving.SavedFileRoundTrip` | buildroot-external/scripts/kconfiglib.py:1583-1655 | Loading what this writes, into any instance, restores all values and modes if and only if none is truncated or lost |
| `ConfigFile.NodeIter` | buildroot-external/scripts/kconfiglib.py:1907-1956 | Yields each node once in definition order, or for symbols only their first nodes |
| `ConfigFile.DefinitionOrder` | buildroot-external/scripts/kconfiglib.py:1917-1924 | The finalized tree defines the same symbols in the same order as the parsed one |
| `ConfigFile.UniqueSymsAreUnique` | buildroot-external/scripts/kconfiglib.py:6357-6364 | Each defined symbol occurs exactly once |
| `MenuWalk.FollowLinks` | buildroot-external/scripts/kconfiglib.py:1594-1612 | Following `next`, `list` and `parent` without a stack ends, and does what a walk by recursion does |
| `MenuWalk.NextKeepsRest` | buildroot-external/scripts/kconfiglib.py:1932-1944 | Each step of the walk leaves exactly the rest of the walk to do |
| `SyncDeps.DepDirectory.LoadOldVals` | buildroot-external/scripts/kconfiglib.py:1841-1882 | Reads the remembered values from the lines of auto.conf, and touches the names in it that are not known any more |
| `SyncDeps.DepDirectory.SyncDeps` | buildroot-external/scripts/kconfiglib.py:1794-1839 | Touches exactly the symbols whose visible state has changed since the last call, and remembers the new state |
| `SyncDeps.OldValsAreRead` | buildroot-external/scripts/kconfiglib.py:1884-1905 | What is remembered in auto.conf is read back exactly |
| `SyncDeps.RemovedAreTouched` | buildroot-external/scripts/kconfiglib.py:1878-1882 | After a change of the defined symbols, the names touched are exactly those of the symbols that were visible and are gone |
| `SyncDeps.SyncAll` | buildroot-external/scripts/kconfiglib.py:1794-1839 | Over any sequence of configurations, each call touches exactly what changed since the call before |
| `SyncDeps.HeaderChangeIsChange` | buildroot-external/scripts/kconfiglib.py:1460-1501 | A symbol whose line in autoconf.h appears, vanishes or changes is touched |
| `SyncDeps.ChangeIsHeaderChange` | buildroot-external/scripts/kconfiglib.py:1460-1501 | Except for hex symbols, only these are touched |
| `SyncDeps.NoChangeNoTouch` | buildroot-external/scripts/kconfiglib.py:1800-1839 | A call touches nothing if and only if no visible state has changed |
| `MenuNodes.PropagateDeps` | buildroot-external/scripts/kconfiglib.py:3651-3701 | In place, the children receive exactly what `MenuTree.PropagatedAll` says, and links are unchanged |
| `MenuNodes.FlattenLevel` | buildroot-external/scripts/kconfiglib.py:6490-6516 | In place, the siblings become `MenuTree.Flatten`, with correct next, list and parent links |
| `MenuNodes.LiftChildren` | buildroot-external/scripts/kconfiglib.py:6502-6514 | The children of a node become its next siblings, with its parent as theirs |
| `MenuNodes.RemoveIfsLevel` | buildroot-external/scripts/kconfiglib.py:6519-6542 | In place, the children become `MenuTree.RemoveIfs`, with correct links |
| `MenuFinalizer.Finalizer.AddPropsToSym` | buildroot-external/scripts/kconfiglib.py:3703-3734 | The loops over selects and implies add to the symbols what `Collection.AddProps` says |
| `MenuFinalizer.Finalizer.FinalizeChoice` | buildroot-external/scripts/kconfiglib.py:3642-3649 | Adds dependencies and defaults to the choice and makes the symbols of its children its members |
| `MenuFinalizer.Finalizer.InferTypes` | buildroot-external/scripts/kconfiglib.py:6557-6570 | Finds the type of a choice and fills in the missing types of its symbols |
| `MenuFinalizer.Finalizer.TakeItems` | buildroot-external/scripts/kconfiglib.py:3600-3608 | The run of siblings with an automatic menu dependency is finalized and gets the symbol as parent |
| `MenuFinalizer.Finalizer.FinalizeNode` | buildroot-external/scripts/kconfiglib.py:3570-3649 | In place, a node and its siblings become `MenuTree.Finalize`, properly linked, and the tables collect what was finalized in the order of entry |
| `MenuFinalizer.Finalizer.FinalizeTop` | buildroot-external/scripts/kconfiglib.py:1097-1098 | The whole menu tree: each node is finalized once, in definition order and with what its surroundings contribute; all nodes but the `if` nodes stay, in order, properly linked |
| `MenuOrder.FinalizeKeeps` | buildroot-external/scripts/kconfiglib.py:3570-3649 | Finalizing a node finalizes it, what is below it and the siblings it takes in, each once and in definition order; the result lists the same nodes but for `if` nodes, of which none is left below the root |
| `MenuOrder.SubmenuIsMaximal` | buildroot-external/scripts/kconfiglib.py:3600-3608 | An implicit submenu takes the longest run of siblings with an automatic menu dependency |
| `MenuDependence.AcceptedIsN` | buildroot-external/scripts/kconfiglib.py:6453-6478 | Where a bool or tristate symbol is n, a condition that depends on it is n exactly if one of its conjuncts is a dependency other than `sym != y`, or another conjunct is n by itself |
| `MenuDependence.SubmenuIsHidden` | buildroot-external/scripts/kconfiglib.py:3600-3608 | The items of an implicit submenu are invisible where its symbol is n, except those that are in it by `sym != y` alone, for which their other conditions decide |
| `MenuDependence.SubmenuIs` | buildroot-external/scripts/kconfiglib.py:3599-3614 | A symbol takes the items that follow it into its submenu as long as one of the conditions of each is a dependency on it: the symbol, or a comparison with m, y or n of the listed forms |
| `MenuDependence.DependentIsChild` | buildroot-external/scripts/kconfiglib.py:3599-3614 | An item that depends on an expression becomes a child of the symbol before it exactly if an operand is a dependency on the symbol, as a plain one is |
| `MenuDependence.UnequalYIsTaken` | buildroot-external/scripts/kconfiglib.py:6472-6474 | An item that depends on `S != y` gets into the submenu of S and is visible exactly when S is not y |
| `MenuOrder.FlattenIs` | buildroot-external/scripts/kconfiglib.py:6490-6516 | A node without a prompt that is no choice is followed by its children, flattened as well; other nodes stay as they are |
| `MenuOrder.FlattenKeeps` | buildroot-external/scripts/kconfiglib.py:6490-6516 | Flattening keeps the order of all nodes and leaves `if` nodes without children |
| `Propagation.EveryNodeOnce` | buildroot-external/scripts/kconfiglib.py:3616-3632 | Finalization meets each node of the parsed tree once, in order, with exactly what the nodes around it propagate to it |
| `Propagation.DepIsMin` | buildroot-external/scripts/kconfiglib.py:3651-3665 | The dependencies of a node hold to a degree exactly if its own, those of the nodes around it up to the innermost choice, and the mode of that choice do |
| `Propagation.PromptIsMin` | buildroot-external/scripts/kconfiglib.py:3667-3701 | A prompt holds exactly if its own condition, the dependencies and, for symbols and choices, each enclosing `visible if` do |
| `Propagation.ConditionsAreMin` | buildroot-external/scripts/kconfiglib.py:3675-3693 | Conditions of defaults, ranges, selects and implies become the minimum with the dependencies; order, values and targets are kept |
| `Propagation.InsideIsLimited` | buildroot-external/scripts/kconfiglib.py:3659-3665 | Inside a choice, dependencies and prompt mention the mode of the choice, or are n |
| `Propagation.AndIsMin` | buildroot-external/scripts/kconfiglib.py:2863-2875 | `_make_and()` computes a minimum in spite of its simplifications |
| `Propagation.OrIsMax` | buildroot-external/scripts/kconfiglib.py:2877-2889 | `_make_or()` computes a maximum in spite of its simplifications |
| `Collection.ListsAreCollected` | buildroot-external/scripts/kconfiglib.py:3715-3721 | The defaults, ranges, selects and implies of a symbol are those of its nodes, concatenated in definition order |
| `Collection.DependenciesAreMax` | buildroot-external/scripts/kconfiglib.py:3713-3734 | Direct dependencies are the maximum over the nodes of a symbol; reverse dependencies are the maximum over all selects, or implies, of the symbol |
| `Collection.PromptsAreGuarded` | buildroot-external/scripts/kconfiglib.py:3667-3713 | After finalization a symbol is visible at most as far as its direct dependencies hold |
| `ChoiceMembers.MembersAreLimited` | buildroot-external/scripts/kconfiglib.py:3651-3701 | The nodes that end up directly below a choice, also from `if` blocks and implicit submenus, have a prompt that the mode of the choice bounds |
| `ChoiceMembers.ChoiceSymbolIsSane` | buildroot-external/scripts/kconfiglib.py:3651-3734 | A symbol all of whose nodes are in a choice has prompts that the mode of the choice bounds, and mentions the choice unless all of its prompts are n |
| `ChoiceTypes.InferredTypeIs` | buildroot-external/scripts/kconfiglib.py:6557-6563 | A choice without a type takes that of the first of its symbols that has one |
| `ChoiceTypes.MembersAre` | buildroot-external/scripts/kconfiglib.py:6550-6555 | The symbols of a choice are those of its direct children, in order |
| `ChoiceTypes.ClosedChoiceHasTypes` | buildroot-external/scripts/kconfiglib.py:6545-6570 | A choice owns the symbols of its children; known types are kept; if one type of the choice or its symbols is known, all of them are known afterwards, and otherwise none |
| `Grammar.ParserIsExact` | buildroot-external/scripts/kconfiglib.py:3399-3404 | A line of tokens is accepted if and only if the grammar derives it, and the result is the one expression that it derives |
| `Parsing.Parser.ParseExpr` | buildroot-external/scripts/kconfiglib.py:3390-3429 | Advances over the tokens as the grammar says, and raises an error exactly if it does not derive them |
| `Parsing.Parser.ParseAndExpr` | buildroot-external/scripts/kconfiglib.py:3431-3438 | The same for chains of `&&` |
| `Parsing.Parser.ParseAFactor` | buildroot-external/scripts/kconfiglib.py:3440-3474 | The same for symbols, relations, negations and parentheses; m becomes m && MODULES in conditions |
| `Parsing.Parser.ExpectExprAndEol` | buildroot-external/scripts/kconfiglib.py:2579-2585 | Accepts the rest of the line exactly if the grammar derives it, with the expression derived |
| `Printing.PrintedIsParsed` | buildroot-external/scripts/kconfiglib.py:6074-6115 | Parsing the tokens of `expr_str(e)` gives e with each chain nested to the right |
| `Printing.PrintIsFactor` | buildroot-external/scripts/kconfiglib.py:6349-6354 | Parentheses are printed where the grammar needs them |
| `Printing.AndIsSplit` | buildroot-external/scripts/kconfiglib.py:6145-6187 | An AND chain is rebuilt from the operands that `split_expr()` gives |
| `Printing.OrIsSplit` | buildroot-external/scripts/kconfiglib.py:6145-6187 | The same for an OR chain |
| `Printing.RebuiltKeepsValue` | buildroot-external/scripts/kconfiglib.py:6002-6028 | The rebuilt expression has the value of the original in every environment |
| `Preprocessor.Expander.ExpandWhole` | buildroot-external/scripts/kconfiglib.py:2660-2673 | Terminates for all variables; expands like the function `Macros.ExpandWhole`; on a normal return all counters are as before |
| `Preprocessor.Expander.ExpandMacro` | buildroot-external/scripts/kconfiglib.py:2742-2802 | The same for one macro |
| `Preprocessor.Expander.FnVal` | buildroot-external/scripts/kconfiglib.py:2804-2858 | The same for a function value: variables with their limits on recursion, then functions, then the environment |
| `Macros.ExpandMacro` | buildroot-external/scripts/kconfiglib.py:2742-2802 | The text before the macro and after its closing parenthesis is untouched, and the rest of the text gets shorter |
| `Macros.BudgetShrinks` | buildroot-external/scripts/kconfiglib.py:2812-2824 | Each expansion of a variable uses up some of a finite budget |
| `MacroText.ExpansionIsMeaning` | buildroot-external/scripts/kconfiglib.py:2660-2673 | For text that contains macro calls nested in any way, expansion replaces each call by its value, from the inside out, and leaves everything else alone; values are not expanded again |
| `MacroText.ExpansionIsExact` | buildroot-external/scripts/kconfiglib.py:2757-2802 | Expansion succeeds exactly on text made of characters and properly closed calls whose values are free of errors, and gives their meaning; a missing parenthesis is an error |
| `MacroMeaning.CallIs` | buildroot-external/scripts/kconfiglib.py:2773-2858 | A number with an argument gives the argument; otherwise a variable gives the meaning of its value with the parts of the call as arguments, unless it is stuck; then functions, then the environment, then nothing |
| `MacroMeaning.SubstEval` | buildroot-external/scripts/kconfiglib.py:2773-2792 | Evaluating a text with arguments is evaluating it with every reference to an argument replaced by the argument |
| `MacroMeaning.CallIsSubstitution` | buildroot-external/scripts/kconfiglib.py:2804-2830 | Calling a variable means what its value means once the arguments are substituted |
| `MacroText.CallExpands` | buildroot-external/scripts/kconfiglib.py:2742-2802 | A call is replaced by the value of its name and expanded arguments: commas inside of parentheses do not separate arguments |
| `Counterexamples.ModularIsBuilt` | buildroot-external/scripts/kconfiglib.py:3703-3734 | Finalization of four parsed nodes, with and without a select and an imply, leads to the configuration of the following three |
| `Counterexamples.FullRoundTripFails` | buildroot-external/scripts/kconfiglib.py:1503-1580 | A configuration whose values a full save and load changes |
| `Counterexamples.MinRoundTripFails` | buildroot-external/scripts/kconfiglib.py:1658-1730 | A configuration whose values a minimal save and load changes |
| `Counterexamples.AssignableFails` | buildroot-external/scripts/kconfiglib.py:4827-4871 | A configuration in which `assignable` offers a value that has no effect |
| `Counterexamples.LoadRemembers` | buildroot-external/scripts/kconfiglib.py:1356-1366 | A line that assigns m to a symbol of a tristate choice; loading it in two instances with different histories gives different user input |
| `Counterexamples.TwoTristatesIsRanked` | buildroot-external/scripts/kconfiglib.py:5438-5467 | Evaluation terminates on this configuration, whose choice is as the laws about choices assume |
| `LostValues.OptionalModeFails` | buildroot-external/scripts/kconfiglib.py:1294-1311 | A configuration whose values and modes do not all survive saving and loading, because an optional choice in y mode has no visible symbol |
| `LostValues.SelectedTextFails` | buildroot-external/scripts/kconfiglib.py:1706-1710 | A configuration in which the text of a selected string symbol does not survive minimal saving and loading |
| `LostValues.MixedModeFails` | buildroot-external/scripts/kconfiglib.py:1716-1726 | A configuration whose values and modes do not all survive minimal saving and loading, because a bool symbol of a tristate choice is skipped |

## Left out

- The Kconfig language below expressions (`_parse_block()`, `_parse_props()`, the tokenizer, `source`, help
  texts, old syntax): the model starts from a parsed menu tree and from tokens.
- File input and output, encodings, backups, paths. Files are sequences of lines, and the dependency files
  sets of touched symbols and names.
- Warnings, error texts, `__repr__()`, `custom_str()`, locations, and the `missing_syms` list. The value of
  `direct_dep` that is read for a warning about unmet select dependencies is not read in the model.
- Environment variables, `$(shell)` and user-defined functions of the preprocessor are arbitrary total
  functions from arguments to text or an error. Variable assignments and macros in names and quoted strings
  (`_parse_assignment()`, `_expand_name()`, `_expand_str()`) are not modelled.
- Preprocessor.Expander.ExpandWhole: says nothing about the counters after an error, since the code does not restore
  them then.
- Python's `int()` and `str.isspace()` are modelled for ASCII text.
- RoundTrip.FullConfigRoundTrip: says nothing about `option env` and `option defconfig_list` symbols.
- Initialization.Init: instances that pass the check although one of the conditions for a rank does not hold are not
  set up in the model, since their getters need not return.
- The order in which Python goes over a set of dependents is arbitrary; results hold for every order.
- SyncDeps.ChangeIsHeaderChange: hex symbols may be touched when only a `0x` prefix came or went.
- `Symbol.nodes` and `Choice.nodes`, `referenced`, `orig_*`, `eval_string()`, `unset_values()`,
  `load_allconfig()` and the sanity checks add only easy members.
- The other files of the repository are build configuration, packages, shell scripts and tests.
