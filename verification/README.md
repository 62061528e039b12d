# Kconfig, unifdef and fixdep: a verified model

This project models three C programs of the kernel build tools and proves what they promise.

* **unifdef** (`scripts/kbuild/unifdef/unifdef.c`) removes conditional groups from C files. The model has the table of
  transition functions with its stack, the evaluator of `#if` conditions with its precedence table, and the
  classification of lines. `CppConditionals` defines conditional inclusion as in section 6.10.1 of ISO/IEC 9899:1999,
  independently of unifdef. The main results are `UnifdefFile.OutputMeansInput`, about all three together: nothing
  that counts is lost; and `UnifdefGroups.OutputReduced`: nothing that was decided is left.
* **Kconfig** (`scripts/kbuild/kconfig`) rewrites dependency expressions over n < m < y, checks the dependency graph for
  cycles, computes the values of symbols, relinks the menu tree, expands macros, and saves and loads configurations.
* **fixdep** (`scripts/kbuild/fixdep/fixdep.c`) collects the configuration names that source files mention.

## How it is built

Code that changes things step by step is modelled by classes, arrays and loops, and each such method is proved against
a definition on values; the properties are proved of the definition. Where a definition could be wrong and still
consistent, rules say what it gives in each case, without using it.

| part | definition on values | program |
|---|---|---|
| unifdef lines | `UnifdefTable`, `UnifdefPreserves`, `UnifdefReduces`, `UnifdefGroups`, `UnifdefBlanks`, `UnifdefAccepts` | `Unifdef.Program` |
| unifdef conditions | `UnifdefExpr`, `UnifdefGrammar`, `UnifdefReading` | `UnifdefIfEval.Evaluator` |
| expressions | `KconfigExpr`, `KconfigCompare`, `KconfigTransform`, `KconfigEq`, `KconfigJoin`, `KconfigSlots`, `KconfigDups`, `KconfigUnique`, `KconfigSubmenu`, `KconfigTaken` | `KconfigEqInPlace.Canceller`, `KconfigDupsInPlace.Simplifier` (slots: `KconfigTree`) |
| cycle check | `KconfigSymbols` | `KconfigCheckDeps.Checker` |
| values | `KconfigValue`, `KconfigRules`, `KconfigDirDep`, `KconfigPlaces`, `KconfigReload` | `KconfigEvaluator.Evaluator`, `KconfigSetValue.Session`, `KconfigChoice` |
| menu tree | `MenuForest`, `MenuFinalize`, `MenuRules`, `MenuVisible` | `MenuRelink.Menus` |
| saving | `ConfWriteSpec` | `ConfWrite.Writer` |
| lines and loading | `ConfEscape`, `ConfLine`, `ConfRules`, `ConfHeading` | `ConfEscape` (arrays), `ConfRead.Reader`, `ConfHeading.PrintComment`; both directions meet in `ConfSave`, and with the evaluator in `ConfCycle` |
| macros | `MacroText`, `MacroExpand`, `MacroRules` | `MacroProgram.Expander` |
| fixdep | `FixdepNames` | `Fixdep.Scanner` |

`dafny verify dfyconfig.toml` checks everything.

## Where code and documentation differ

The model follows the code. These statements fail as one would first write them; the lemmas named say exactly
when the code is right.

* The rule for `A=c1 && A!=c2` takes different constants for different values (`KconfigJoin.JoinConstExact`).
* `expr_trans_compare` drops the difference between m and y under a negation, and compares the name of an undefined
  symbol (`KconfigSubmenu.NegationExact`, `KconfigSubmenu.UndefinedExact`).
* `expr_trans_bool` goes wrong below a negation (`KconfigTransform.TransBoolNegatedComparison`), but is only given
  expressions whose negations stand on symbols, since `expr_transform` comes first (`KconfigDirDep.TransBoolWhereCalled`).
* `expr_alloc_or` drops a missing operand, which means y; so `dir_dep` of a symbol with several definitions can be too
  low (`KconfigPlaces.PlacesDepExact`, `KconfigPlaces.PlacesBoundExact`, `KconfigDirDep.TwoPlaces`).
* Asking `sym_set_tristate_value` for the current value skips the range check, and the value may change
  (`KconfigSetValue.TakesEffect`, `KconfigSetValue.CurrentValueLost`).
* A symbol whose default is above what its prompt allows does not survive saving and loading
  (`KconfigReload.ReloadKeeps`, `KconfigReload.ReloadLoses`).
* Numerals in `#if` conditions, and the values of -D, are cut down to an int (`UnifdefIfEval.NumeralVerdict`,
  `UnifdefIfEval.SymbolVerdict`, `UnifdefIfEval.SymbolTruncated`).
* A macro clause with 16 outer commas is not refused, but has one part more than the array of arguments has slots
  (`MacroProgram.Expander.Cut`, `MacroProgram.SlotsOverrun`).
* An int or hex symbol with an empty or invalid value, and a string with a newline, do not read back
  (`ConfLine.LineRoundTrip`).

## Assumptions in the contracts

* Bool symbols are never m where expressions are rewritten (`EnvOk`); the evaluator guarantees it
  (`KconfigValue.SolutionOk`).
* MODULES is computed first and held fixed; int, hex and string symbols keep their texts during an evaluation.
* The answers of the C library and of the outside are arbitrary functions: the number parsers, `strtoul`, the built-in
  macro functions, the environment, the hash function, and whether a menu is visible.

## Model

| member | source | states |
|---|---|---|
| UnifdefPreserves.FilePreserved | scripts/kbuild/unifdef/unifdef.c:457-504 | if unifdef ends normally, input and output are well nested and select the same text lines under every truth assignment that agrees with the TRUE/FALSE classifications, dodgy and ignored lines and edited keywords included; how much is removed is said by OutputReduced |
| UnifdefPreserves.StepAgrees | scripts/kbuild/unifdef/unifdef.c:418-456 | one transition keeps the stack, the preprocessor reading the input and the preprocessor reading the output in agreement; abort() is not reached; the machine exits only with all groups closed |
| UnifdefPreserves.RunKeeps | scripts/kbuild/unifdef/unifdef.c:583-596 | the same agreement after every prefix of every file |
| UnifdefGroups.OutputReduced | scripts/kbuild/unifdef/unifdef.c:457-504 | of a file without dodgy directives that is accepted, exactly what a definition on its groups keeps is left: a true group gives way to its text, a false branch goes, the first unknown branch opens the group, a true one behind it becomes the #else and the rest its #endif; and the exit status is 1 exactly if lines went |
| UnifdefReduces.ForestKept | scripts/kbuild/unifdef/unifdef.c:418-504 | the same for any stretch of whole groups, from any state of the machine: where text is deleted, nothing of it is left |
| UnifdefReduces.MoreKeeps | scripts/kbuild/unifdef/unifdef.c:427-456 | and for the rest of a group, by the state in which its current branch ends |
| UnifdefGroups.WellNestedExactly | scripts/kbuild/unifdef/unifdef.c:418-504 | a file is well nested for the preprocessor exactly if it reads as groups to its end |
| UnifdefGroups.RunDecided | scripts/kbuild/unifdef/unifdef.c:418-504 | at every point of every file, dodgy or not, no line with a decided condition stands in the output as an #if or #elif |
| UnifdefPreserves.Turn | scripts/kbuild/unifdef/unifdef.c:427-437 | an #elif or #else, in whatever form it is written or deleted, leaves the groups of input and output related |
| UnifdefPreserves.OpenGroup | scripts/kbuild/unifdef/unifdef.c:440-451 | the first line of a group, printed or dropped, leaves the groups of input and output related |
| UnifdefPreserves.CloseGroup | scripts/kbuild/unifdef/unifdef.c:433-438 | an #endif is printed exactly if its group is open in the output |
| UnifdefPreserves.NeverAborts | scripts/kbuild/unifdef/unifdef.c:507-547 | no file, well nested or not, reaches one of the abort() calls; OUTSIDE is the bottom of the stack and only the bottom |
| UnifdefPreserves.OpenGroupsMatch | scripts/kbuild/unifdef/unifdef.c:458-499 | the groups open in the output are as many as the levels in the PASS and MIDDLE states |
| UnifdefPreserves.ComplaintsJustified | scripts/kbuild/unifdef/unifdef.c:418-421 | a complaint about nesting is made only for files that are not well nested |
| UnifdefPreserves.UnterminatedJustified | scripts/kbuild/unifdef/unifdef.c:421 | Premature EOF is reported only for files with an unclosed group |
| UnifdefAccepts.RunNests | scripts/kbuild/unifdef/unifdef.c:526-547 | the stack is as deep as the groups that are open, and the limit is reported only when it is reached |
| UnifdefAccepts.RefusalJustified | scripts/kbuild/unifdef/unifdef.c:418-547 | every complaint is about what is there: bad nesting, an unclosed group, a 64th open group, a dodgy directive, an open comment; and what is accepted has none of the limits exceeded |
| UnifdefAccepts.AcceptsExactly | scripts/kbuild/unifdef/unifdef.c:418-547 | a file without dodgy directives is accepted exactly if it is well nested, has at most 63 groups open at any line, and ends outside comments |
| UnifdefAccepts.DodgyDecided | scripts/kbuild/unifdef/unifdef.c:445-447 | a dodgy line with a decided condition, first in its group or behind an unknown branch, is refused, or with the option for it passed through as if unknown |
| UnifdefAccepts.DodgyUnedited | scripts/kbuild/unifdef/unifdef.c:457-504 | a dodgy line that is accepted is left as it is or goes with the text around it, save for an unknown #elif behind false branches |
| UnifdefPreserves.WrittenReads | scripts/kbuild/unifdef/unifdef.c:553-578 | what a written, edited, dropped or blanked line does to the preprocessor that reads the output |
| UnifdefBlanks.BlanksAround | scripts/kbuild/unifdef/unifdef.c:557-575 | with -B the blank lines around a deleted section become as many as there were on the longer side |
| UnifdefBlanks.TextCounts | scripts/kbuild/unifdef/unifdef.c:563-567 | a line with text starts the count of blank lines anew on both sides |
| UnifdefBlanks.FreshCounts | scripts/kbuild/unifdef/unifdef.c:583-596 | at the top of the file nothing is dropped |
| UnifdefBlanks.NumbersKept | scripts/kbuild/unifdef/unifdef.c:569-574 | with -b every line of the output stands for the input line of the same number |
| Unifdef.Program.FlushLine | scripts/kbuild/unifdef/unifdef.c:553-578 | the counters and the output after flushline are those of the value-level Flush |
| Unifdef.Program.DoStep | scripts/kbuild/unifdef/unifdef.c:418-504 | one transition on the global arrays does what the table says, or reports the same message |
| Unifdef.Program.Process | scripts/kbuild/unifdef/unifdef.c:583-596 | the driver loop ends, never by abort(); if it ends normally the output selects the same text as the input in every agreeing world, no decided line is left in it, and without dodgy lines it is exactly what the definition on groups keeps |
| UnifdefGrammar.ParseShows | scripts/kbuild/unifdef/unifdef.c:825-944 | whatever the evaluator reads is the text of a condition of the grammar: precedence or, &&, equality, relational, unary; each level grouped to the left |
| UnifdefGrammar.ShowParses | scripts/kbuild/unifdef/unifdef.c:802-944 | every condition of the grammar is read back as itself, up to what cannot belong to it |
| UnifdefGrammar.Unambiguous | scripts/kbuild/unifdef/unifdef.c:802-817 | no text has two readings |
| UnifdefReading.TokenMeans | scripts/kbuild/unifdef/unifdef.c:746-777 | what each operator token makes of two numerals, as 0 or 1 |
| UnifdefReading.NotMeans | scripts/kbuild/unifdef/unifdef.c:832-852 | a negation is 1 for zero and 0 for anything else, and parentheses change nothing |
| UnifdefReading.NumeralChars | scripts/kbuild/unifdef/unifdef.c:853 | a numeral begins with a digit |
| UnifdefReading.PrecedenceOfC | scripts/kbuild/unifdef/unifdef.c:802-817 | of two operators the tighter one in C takes the operand between them, and the first of equals |
| UnifdefReading.ArgsExactly | scripts/kbuild/unifdef/unifdef.c:1083-1103 | the arguments skipped go from a parenthesis right behind the name to the first place where as many are closed as opened, or there are none |
| UnifdefReading.ArgumentsRule | scripts/kbuild/unifdef/unifdef.c:885-897 | a name takes the arguments behind it, unless -U declares it undefined |
| UnifdefIfEval.Evaluator.EvalTable | scripts/kbuild/unifdef/unifdef.c:913-944 | the loop over one row of the precedence table reads what the parser reads and returns the value as far as it is known; it fails exactly on a syntax error or a value of -D that is no number |
| UnifdefIfEval.Evaluator.EvalUnary | scripts/kbuild/unifdef/unifdef.c:825-907 | the same for !, parentheses, numerals, defined and symbols; constexpr is cleared by symbols only |
| UnifdefIfEval.Evaluator.ApplyOp | scripts/kbuild/unifdef/unifdef.c:746-777 | the operator functions: known operands are combined, a deciding operand of or or && suffices unless logic is strict |
| UnifdefIfEval.Evaluator.SkipArgs | scripts/kbuild/unifdef/unifdef.c:1083-1103 | skips a balanced parenthesis, or nothing |
| UnifdefIfEval.Evaluator.IfEval | scripts/kbuild/unifdef/unifdef.c:952-962 | the verdict of ifeval; constants alone decide nothing without -k; errors decide nothing |
| UnifdefIfEval.EvaluateSound | scripts/kbuild/unifdef/unifdef.c:746-907 | what the evaluator knows of a condition is true of it in every world in which numerals have their values and the symbols are as -D and -U say, with strict and with loose logic, if its ints decide as unbounded integers do; where unbounded integers decide otherwise, it is false of it in all those worlds |
| UnifdefIfEval.UnboundedSound | scripts/kbuild/unifdef/unifdef.c:746-907 | with unbounded integers what is known of a condition is its value in every possible world, without any condition on the values |
| UnifdefIfEval.HeldAgrees | scripts/kbuild/unifdef/unifdef.c:746-907 | the ints decide as unbounded integers do if an int holds the numerals and -D values that are compared, and tells zero of those that are only tested |
| UnifdefIfEval.StrtolRule | scripts/kbuild/unifdef/unifdef.c:855 | what a long holds is kept, and larger values become its bounds, of which an int keeps -1 and 0 |
| UnifdefIfEval.VerdictSound | scripts/kbuild/unifdef/unifdef.c:692-712 | a line found true (false) is the text of exactly one condition; if the ints decide as unbounded integers do, that is nonzero (zero) in every possible world, and where those decide otherwise, it is zero (nonzero) in every possible world |
| UnifdefIfEval.StrictExact | scripts/kbuild/unifdef/unifdef.c:746-749 | strict logic decides a condition exactly if all its symbols are known |
| UnifdefIfEval.LooseExact | scripts/kbuild/unifdef/unifdef.c:768-777 | loose logic decides a condition exactly if its symbols are known as far as they matter: one known operand that is zero settles an &&, one that is not settles an or |
| UnifdefIfEval.WrongExact | scripts/kbuild/unifdef/unifdef.c:892-894 | the evaluation fails exactly for a symbol, outside defined, whose -D value is no number |
| UnifdefIfEval.DecidedExactly | scripts/kbuild/unifdef/unifdef.c:952-962 | a line is decided exactly if all of it is one condition, which is known or settled, fails nowhere, and mentions a name unless -k is given |
| UnifdefIfEval.LooseDecidesMore | scripts/kbuild/unifdef/unifdef.c:768-777 | loose logic decides whatever strict logic decides, in the same way |
| UnifdefIfEval.NumeralVerdict | scripts/kbuild/unifdef/unifdef.c:853-859 | a lone numeral is judged rightly exactly if it is zero or the low 32 bits that strtol gives of it are not: the long is cut down to int |
| UnifdefIfEval.NumeralTruncated | scripts/kbuild/unifdef/unifdef.c:855 | the concrete case: 4294967296 is taken for false |
| UnifdefIfEval.SymbolVerdict | scripts/kbuild/unifdef/unifdef.c:888-896 | a lone symbol with a numeral as its -D value is judged rightly under the same condition on that value |
| UnifdefIfEval.SymbolTruncated | scripts/kbuild/unifdef/unifdef.c:892 | the concrete case: with -DX=4294967296, #if X is taken for false, though X is nonzero in every possible world, and there is one |
| UnifdefFile.ClassifiedTruly | scripts/kbuild/unifdef/unifdef.c:640-740 | the line types TRUE, FALSE and their #elif and ignored forms agree with the condition in every possible world, provided a decided condition is decided as with unbounded integers |
| UnifdefReading.IfdefRule | scripts/kbuild/unifdef/unifdef.c:676-690 | an #ifdef or #ifndef is decided exactly if its symbol is known and nothing is behind it, and by whether -D or -U names it; ignored symbols have their own kinds |
| UnifdefReading.IfLineRule | scripts/kbuild/unifdef/unifdef.c:692-695 | an #if or #elif is decided exactly if its condition is |
| UnifdefReading.OtherLineRule | scripts/kbuild/unifdef/unifdef.c:696-703 | #else, #endif and other lines |
| UnifdefFile.OutputMeansInput | scripts/kbuild/unifdef/unifdef.c:640-740 | evaluation, classification and state machine together: if the ints decide no condition otherwise than unbounded integers, the preprocessor selects the same text lines from the output as from the input, with a world for each line that is as -D and -U say and may differ from the others, as when the file defines symbols itself |
| KconfigExpr.CompareTri | scripts/kbuild/kconfig/expr.c:1030-1102 | comparing a bool or tristate symbol with y, m or n is comparing values |
| KconfigCompare.NumbersRule | scripts/kbuild/kconfig/expr.c:1076-1102 | two texts that are numbers are compared as numbers |
| KconfigCompare.NumberRule | scripts/kbuild/kconfig/expr.c:998-1028 | y, m and n are 2, 1 and 0 for bool and tristate symbols, and no numbers for others |
| KconfigCompare.UnsignedRule | scripts/kbuild/kconfig/expr.c:1076-1102 | with one that takes all 64 bits both are compared without a sign |
| KconfigCompare.TextsRule | scripts/kbuild/kconfig/expr.c:1076-1102 | two string symbols, or anything that is no number, are compared as texts: a beginning, or the first difference, decides |
| KconfigCompare.OrderRule | scripts/kbuild/kconfig/expr.c:1076-1102 | of less, equal and greater exactly one holds, and the other operators follow |
| KconfigExpr.AllocAndExact | scripts/kbuild/kconfig/expr.c:52-57 | a null operand counts as y: expr_alloc_and is the conjunction |
| KconfigExpr.AllocOrExact | scripts/kbuild/kconfig/expr.c:59-64 | expr_alloc_or is the disjunction exactly if no operand is missing, or both are, or the result is y |
| KconfigTransform.Transform | scripts/kbuild/kconfig/expr.c:694-849 | terminates: re-transforming after a De Morgan step never gets heavier |
| KconfigTransform.TransformKeepsValue | scripts/kbuild/kconfig/expr.c:694-849 | the rewritten expression has the same tristate value in every environment in which bool symbols are never m |
| KconfigTransform.TransformNormal | scripts/kbuild/kconfig/expr.c:694-849 | negation ends up only on symbols other than y, m and n, and no bool symbol is tested for equality with them |
| KconfigTransform.TransformFixes | scripts/kbuild/kconfig/expr.c:694-849 | exactly the expressions in that form are left alone |
| KconfigTransform.TransformIdempotent | scripts/kbuild/kconfig/expr.c:694-849 | transforming twice is transforming once |
| KconfigTransform.TransBoolKeepsNonNo | scripts/kbuild/kconfig/expr.c:402-429 | keeps "is not n" when no comparison that it rewrites stands below a negation |
| KconfigTransform.TransBoolExactly | scripts/kbuild/kconfig/expr.c:402-429 | all tests of a tristate for not being n go, and nothing else changes |
| KconfigDirDep.PropTests | scripts/kbuild/kconfig/menu.c:380-384 | the conditions of a bool have none left; those of a tristate are the conjunction as it stands |
| KconfigDirDep.TransBoolWhereCalled | scripts/kbuild/kconfig/menu.c:380-384 | where the program calls it, "is not n" is kept in every environment: what is passed has negations on symbols only |
| KconfigTransform.TransBoolNegatedComparison | scripts/kbuild/kconfig/expr.c:402-429 | below a negation, as in !(A!=n), it is kept exactly if the symbol is not m |
| KconfigEq.ElimYNKeepsValue | scripts/kbuild/kconfig/expr.c:316-397 | removing y and n operands keeps the value |
| KconfigEq.ElimYNShrinks | scripts/kbuild/kconfig/expr.c:316-397 | it shrinks exactly the expressions that have such an operand, removes them all, and leaves the others as they are |
| KconfigEq.ElimEq1Cancels | scripts/kbuild/kconfig/expr.c:150-206 | what is cancelled had one common value on both sides |
| KconfigEq.ExprEqSound | scripts/kbuild/kconfig/expr.c:252-303 | expressions that expr_eq equates have the same value in every environment |
| KconfigEq.ExprEqOptSound | scripts/kbuild/kconfig/expr.c:252-303 | the same with null expressions |
| KconfigEq.ExprEqComplete | scripts/kbuild/kconfig/expr.c:252-303 | on one operator over symbols, negated symbols and comparisons, expr_eq holds exactly if the multisets of operands are equal |
| KconfigEq.ElimEq1Difference | scripts/kbuild/kconfig/expr.c:150-206 | cancelling leaves exactly the two multiset differences of the operands |
| KconfigEq.ElimEqSuperset | scripts/kbuild/kconfig/expr.c:221-241 | if the second side cancels down to y, the first was never above it |
| KconfigEqInPlace.Canceller.EliminateEq1 | scripts/kbuild/kconfig/expr.c:150-194 | overwriting slots of two trees while the recursion walks both comes to the value-level cancelling; trans_count is raised whenever a tree changes |
| KconfigEqInPlace.Canceller.EliminateEq | scripts/kbuild/kconfig/expr.c:221-246 | both rounds of cancelling and the removal of y and n, in place |
| KconfigEqInPlace.Canceller.Equal | scripts/kbuild/kconfig/expr.c:252-303 | expr_eq on copies of both trees gives the verdict that is proved sound and complete |
| KconfigJoin.JoinSound | scripts/kbuild/kconfig/expr.c:431-587 | two joined operands have the value of the one that replaces them, if different constants compared with one symbol never denote the same value |
| KconfigJoin.JoinConstExact | scripts/kbuild/kconfig/expr.c:539-553 | the rule for two constants is right for every value of the symbol exactly if the constants are one symbol or never denote the same tristate |
| KconfigJoin.JoinConstFails | scripts/kbuild/kconfig/expr.c:539-553 | it is wrong for A=y && A!="2" |
| KconfigJoin.JoinShape | scripts/kbuild/kconfig/expr.c:431-587 | a join is no larger than its first operand and stays an operand of the level |
| KconfigDups.Dups1KeepsValue | scripts/kbuild/kconfig/expr.c:596-651 | a pass over two slots of one shared tree keeps the value, under the same condition, and compares nothing new but y, m and n where one of them was |
| KconfigDups.PassShrinks | scripts/kbuild/kconfig/expr.c:664-686 | a pass that joins anything shrinks the tree once y and n are removed: the loop terminates |
| KconfigDups.ElimDupsKeepsValue | scripts/kbuild/kconfig/expr.c:664-686 | expr_eliminate_dups keeps the tristate value in every environment in which no two constants clash: different ones compared with a symbol denote different values, and one that denotes a value is not compared along with y, m or n |
| KconfigUnique.ElimDupsUnique | scripts/kbuild/kconfig/expr.c:653-686 | afterwards, on every level, no two operands are equal for expr_eq, no symbol, negation, comparison or single level of them stands twice, and no two operands are one of the pairs that make one |
| KconfigUnique.JoinExactly | scripts/kbuild/kconfig/expr.c:431-587 | two operands are joined exactly if they are equal, or one of the listed pairs of tests of one symbol: a tristate equal to two of y, m and n, or a bool and its negation, under an or; a symbol and its being y, not n or not m, a tristate equal to one constant and unequal to another, or unequal to two of y, m and n, under an and |
| KconfigDups.ElimDupsNotOnSymbols | scripts/kbuild/kconfig/expr.c:664-686 | negations stay on symbols |
| KconfigDupsInPlace.Simplifier.EliminateDups1 | scripts/kbuild/kconfig/expr.c:596-651 | overwriting the slots of the tree while the recursion walks it comes to the value-level pass, and trans_count counts its joins |
| KconfigDupsInPlace.Simplifier.JoinInPlace | scripts/kbuild/kconfig/expr.c:615-650 | the join of two slots: the first becomes the neutral constant, the second the join |
| KconfigDupsInPlace.Simplifier.EliminateDups | scripts/kbuild/kconfig/expr.c:664-686 | the loop ends with the value kept where no constants clash, no duplicate or joinable pair left on any level, a tree no larger, and trans_count restored |
| KconfigSubmenu.DependsSound | scripts/kbuild/kconfig/expr.c:879-920 | an entry taken by expr_depends_symbol is off whenever the symbol is off |
| KconfigTaken.DependsExactly | scripts/kbuild/kconfig/expr.c:879-920 | expr_depends_symbol holds exactly if an operand of the outer && is the symbol, or tests it for y, for m, or for not being n |
| KconfigTaken.PlainlyTaken | scripts/kbuild/kconfig/menu.c:443-448 | an entry with such an operand is taken, whatever the prompt of the symbol |
| KconfigTaken.NeverTaken | scripts/kbuild/kconfig/menu.c:443-445 | an entry without a condition, or whose condition does not contain the symbol, is not |
| KconfigTaken.SupersetOfOne | scripts/kbuild/kconfig/menu.c:458-466 | against a prompt with one condition the superset test holds exactly if that is among the operands of the entry |
| KconfigTaken.SupersetOfMany | scripts/kbuild/kconfig/menu.c:458-466 | against several plain ones exactly if each stands among those of the entry, as often |
| KconfigSubmenu.TransCompareExact | scripts/kbuild/kconfig/expr.c:922-985 | comparing with n computes "is not n" exactly, if no negated operand is m |
| KconfigSubmenu.NegationExact | scripts/kbuild/kconfig/expr.c:953-954 | for any negation it does so exactly if the operand is not m |
| KconfigSubmenu.UndefinedExact | scripts/kbuild/kconfig/expr.c:975-981 | for an undefined symbol, which is n, it does so exactly if its name is n |
| KconfigSubmenu.SupersetSound | scripts/kbuild/kconfig/menu.c:430-474 | an entry taken by the superset test is off whenever the prompt of the symbol is |
| KconfigSubmenu.TakesSound | scripts/kbuild/kconfig/menu.c:437-474 | whatever moves into a submenu was visible only with the symbol on or its prompt visible |
| KconfigSymbols.RankedAcyclic | scripts/kbuild/kconfig/symbol.c:1249-1278 | a graph whose dependencies always have smaller ranks has no cycle |
| KconfigSymbols.DependenciesExactly | scripts/kbuild/kconfig/symbol.c:1164-1210 | what a symbol depends on: its dependencies, the conditions of its properties but for selects and implies, and its defaults |
| KconfigCheckDeps.Checker.CheckId | scripts/kbuild/kconfig/symbol.c:1249-1278 | sym_check_deps: flags and stack are restored; a symbol returned lies on a cycle |
| KconfigCheckDeps.Checker.CheckDependencies | scripts/kbuild/kconfig/symbol.c:1164-1210 | all expressions of a symbol are visited, selects and implies not |
| KconfigCheckDeps.Checker.CheckExpr | scripts/kbuild/kconfig/symbol.c:1129-1161 | every symbol of an expression is visited |
| KconfigCheckDeps.Checker.CheckAll | scripts/kbuild/kconfig/symbol.c:1249-1278 | run on all symbols, it reports nothing exactly if the graph is acyclic; every report lies on a cycle; every CHECK flag is clear afterwards |
| KconfigCheckDeps.StackCycle | scripts/kbuild/kconfig/symbol.c:1254-1257 | a symbol met again while under check closes a cycle |
| KconfigCheckDeps.DoneRanked | scripts/kbuild/kconfig/symbol.c:1260-1278 | the order in which checks complete ranks the symbols |
| KconfigValue.NewValueAgree | scripts/kbuild/kconfig/symbol.c:324-466 | the value of a symbol depends only on the symbols it refers to |
| KconfigRules.UserRule | scripts/kbuild/kconfig/symbol.c:379-387 | what the user set counts while the symbol is visible, cut to the visibility and held up by selects |
| KconfigRules.HiddenRule | scripts/kbuild/kconfig/symbol.c:379-387 | a hidden symbol does not count it |
| KconfigRules.UnsetRule | scripts/kbuild/kconfig/symbol.c:392-398 | without it the value is the expression of the first default whose condition is not n, capped by that condition, and no less than the selects; rounded for bools |
| KconfigRules.BareRule | scripts/kbuild/kconfig/symbol.c:392-409 | without such a default it is what selects it |
| KconfigRules.ImplyRule | scripts/kbuild/kconfig/symbol.c:399-409 | an imply raises the default, but not above the direct dependency; selects go above |
| KconfigRules.DefaultRule | scripts/kbuild/kconfig/symbol.c:82-92 | the default property and value are those of the first one that applies |
| KconfigRules.PromptRule | scripts/kbuild/kconfig/symbol.c:186-199 | the visibility of the prompts is that of the most visible one |
| KconfigRules.VisibleRule | scripts/kbuild/kconfig/symbol.c:200-205 | only tristates with modules are ever visible as m |
| KconfigRules.DependencyRule | scripts/kbuild/kconfig/symbol.c:207-237 | a missing direct dependency is y, missing selects and implies are n, and bools round m up |
| KconfigRules.WrittenRule | scripts/kbuild/kconfig/symbol.c:361-401 | a bool or tristate symbol goes to the file exactly if it has a visible prompt, is selected or implied, or its first default is not n |
| KconfigRules.TextWrittenRule | scripts/kbuild/kconfig/symbol.c:361-425 | an int, hex or string symbol, exactly if it has a visible prompt or its first default names a symbol |
| KconfigRules.TextSymbolRule | scripts/kbuild/kconfig/symbol.c:348-360 | int, hex, string and undefined symbols count as n |
| KconfigRules.UnknownRule | scripts/kbuild/kconfig/symbol.c:357-360 | an undefined symbol never goes to the file |
| KconfigValue.SolutionExists | scripts/kbuild/kconfig/symbol.c:324-466 | on an acyclic graph the recursive definition of all values has a solution |
| KconfigValue.SolutionUnique | scripts/kbuild/kconfig/symbol.c:324-466 | and only one |
| KconfigValue.SolutionOk | scripts/kbuild/kconfig/symbol.c:411-412 | a bool symbol is never m |
| KconfigEvaluator.Evaluator.CalcValue | scripts/kbuild/kconfig/symbol.c:324-413 | memoised evaluation terminates, reads no half-computed symbol, and leaves the symbol valid with all its attributes equal to the plain definition, which the rules of KconfigRules pin down; int, hex and string symbols count as n and are written when visible or with a default |
| KconfigEvaluator.Evaluator.CalcVisibility | scripts/kbuild/kconfig/symbol.c:176-237 | visibility and the three dependencies, m promoted to y for bools |
| KconfigEvaluator.Evaluator.CalcUnset | scripts/kbuild/kconfig/symbol.c:379-413 | the value without a user setting: default, then implies capped by the direct dependency |
| KconfigEvaluator.Evaluator.CalcText | scripts/kbuild/kconfig/symbol.c:414-430 | an int, hex or string symbol: the symbol that its default names is computed too, and makes it written |
| KconfigEvaluator.Evaluator.CalcDefault | scripts/kbuild/kconfig/symbol.c:392-396 | the value of the first default whose condition is not n |
| KconfigEvaluator.Evaluator.FindDefault | scripts/kbuild/kconfig/symbol.c:82-92 | sym_get_default_prop: the first default whose condition is not n |
| KconfigEvaluator.Evaluator.CalcExpr | scripts/kbuild/kconfig/expr.c:1030-1102 | the value of an expression, its symbols computed on the way |
| KconfigEvaluator.Evaluator.CalcMany | scripts/kbuild/kconfig/symbol.c:324-466 | asked in any order, every valid symbol has the value of the plain definition |
| KconfigEvaluator.CheckAndEvaluate | scripts/kbuild/kconfig/symbol.c:1249-1278 | check and evaluation together: accepted exactly if acyclic, and then every value is that of the unique solution |
| KconfigDirDep.RewriteMMeaning | scripts/kbuild/kconfig/menu.c:77-106 | with MODULES n every operand m stands for n; with MODULES on nothing changes |
| KconfigDirDep.PropagateExact | scripts/kbuild/kconfig/menu.c:335-373 | a propagated condition is exactly the conjunction of the parent dependency and the own one |
| KconfigDirDep.VisibilityWithin | scripts/kbuild/kconfig/symbol.c:176-200 | prompts within the direct dependency make a visibility within it |
| KconfigDirDep.ValueBounded | scripts/kbuild/kconfig/symbol.c:366-413 | conditions within the direct dependency bound the value, or the unmet-dependency condition holds |
| KconfigDirDep.DirectDependencyBound | scripts/kbuild/kconfig/menu.c:335-385 | after finalisation of a symbol with one definition: the value is at most the direct dependency, or dir_dep < rev_dep; whatever the user value, defaults and implies |
| KconfigDirDep.TwoPlaces | scripts/kbuild/kconfig/menu.c:483 | the concrete shape: with a second place the bound holds for every user value exactly if nothing is bounded |
| KconfigPlaces.PlacesDepExact | scripts/kbuild/kconfig/menu.c:483 | the dependency collected from all definitions is the disjunction of theirs exactly if all or none of them has one, or that of one is y |
| KconfigPlaces.BoundedExact | scripts/kbuild/kconfig/symbol.c:366-413 | the bound holds for every setting of the user exactly if the warning is due, or visibility and default keep it |
| KconfigPlaces.PlacesBound | scripts/kbuild/kconfig/menu.c:335-385 | if every definition has a dependency, or none has, the bound holds whatever the user, selects, defaults and implies |
| KconfigPlaces.PlacesBoundExact | scripts/kbuild/kconfig/menu.c:335-385 | for any number of definitions with any properties: the bound holds for every setting of the user exactly if the warning is due, or the prompts at the places without a dependency are within what is collected from the others, and so is the default |
| KconfigReload.ReloadKeeps | scripts/kbuild/kconfig/confdata.c:527-590 | saved and loaded again, all symbols have their values again exactly if no visible bool or tristate symbol is above its prompt without being selected |
| KconfigReload.ReloadLoses | scripts/kbuild/kconfig/symbol.c:366-413 | the concrete case: a symbol visible as m and y by default is saved as y and comes back as m |
| KconfigReload.UserValuesSurvive | scripts/kbuild/kconfig/confdata.c:546-565 | values of bool symbols, and all that the user set, survive saving and loading |
| KconfigSetValue.Unaffected | scripts/kbuild/kconfig/symbol.c:498-532 | symbols that do not depend on the changed one keep their values |
| KconfigSetValue.TakesEffect | scripts/kbuild/kconfig/symbol.c:479-532 | after a change the symbol has the requested value exactly if the change sticks; within range it always does |
| KconfigSetValue.RangeExactly | scripts/kbuild/kconfig/symbol.c:479-496 | a new value is within range exactly if setting it brings it about and the prompt allows more than the selects demand: nothing is refused that could be had |
| KconfigSetValue.CurrentValueLost | scripts/kbuild/kconfig/symbol.c:498-532 | asking for the current value is accepted without a range check and may lose it |
| KconfigSetValue.CacheStale | scripts/kbuild/kconfig/symbol.c:498-532 | what was computed before the user asks for the current value is right for the new settings exactly if the value stays |
| KconfigSetValue.Session.SetTristateValue | scripts/kbuild/kconfig/symbol.c:498-532 | rejected exactly if the value is new and out of range, and then nothing changes; accepted, the new solution has the value, and the empty cache is valid for it; after asking for the current value the old cache is right exactly if the value stays |
| KconfigChoice.ChoiceDefaultValue | scripts/kbuild/kconfig/symbol.c:245-269 | the first visible declared default, else the first visible value |
| KconfigChoice.CalcChoice | scripts/kbuild/kconfig/symbol.c:271-301 | the pick of the user if visible, else the default rule; no value exactly if none is visible, and then the choice is n |
| KconfigChoice.CalcMode | scripts/kbuild/kconfig/symbol.c:374-413 | the value of the choice itself: y exactly if it is selected, or the user wants it and its prompt is visible |
| KconfigChoice.ModeIsValue | scripts/kbuild/kconfig/symbol.c:374-413 | it is the value of a bool symbol with the prompts and selects of the choice and nothing else |
| KconfigChoice.MandatoryOn | scripts/kbuild/kconfig/menu.c:578-591 | a choice that is not optional is on whenever its prompt is visible, whatever the user set |
| KconfigChoice.CalcAll | scripts/kbuild/kconfig/symbol.c:366-437 | exactly one value is y, the rightful one, if the choice is selected or wanted and allowed and any value is visible; all are n otherwise |
| KconfigChoice.FinalizedHidden | scripts/kbuild/kconfig/menu.c:315-321 | with the choice as parent dependency a value is hidden while the choice is off |
| MenuFinalize.FinalizeKeepsOrder | scripts/kbuild/kconfig/menu.c:410-563 | submenu creation and flattening, at every level, keep the pre-order of the nodes |
| MenuFinalize.FlattenKeepsOrder | scripts/kbuild/kconfig/menu.c:554-563 | lifting children keeps the pre-order |
| MenuRules.FlattenLifts | scripts/kbuild/kconfig/menu.c:554-563 | the loop that puts children into the list that it walks leaves the list with the children of promptless entries lifted, at any depth of such entries; all others keep theirs |
| MenuRules.SymbolTakes | scripts/kbuild/kconfig/menu.c:410-481 | a symbol without children takes the entries behind it up to the first that does not belong to it, and none only if the first does not |
| MenuRules.OthersStay | scripts/kbuild/kconfig/menu.c:322-400 | any other node takes nothing; its children are finished, and stay its children |
| MenuRules.TakenFinished | scripts/kbuild/kconfig/menu.c:472-475 | an entry that is taken is finished first, and may take from those behind it |
| MenuRules.ListFinished | scripts/kbuild/kconfig/menu.c:405-411 | a list is finished from its front, each node with what those before it have left |
| MenuFinalize.FinalizeFlat | scripts/kbuild/kconfig/menu.c:522-563 | below a finished node only entries with a prompt have children |
| MenuFinalize.SubmenuExact | scripts/kbuild/kconfig/menu.c:441-481 | each entry of a submenu was taken; it stops at the end or at an entry that is not; what is behind stays untouched |
| MenuVisible.SubmenuHidden | scripts/kbuild/kconfig/menu.c:430-481 | with the tests of expr.c as answers: every entry of the submenu made for a bool or tristate symbol is hidden wherever the symbol is off and its prompt hidden, if the conditions of that entry and that prompt have bool and tristate operands, negate no m, and compare no constant but y, m and n that denotes a value; and the next entry is one that the tests do not take |
| MenuRelink.Menus.FinalizeNode | scripts/kbuild/kconfig/menu.c:285-592 | the pointer program does what the forest-level definition says; list, next and parent pointers stay consistent; nothing outside the node and its siblings changes |
| MenuRelink.Menus.AdoptSiblings | scripts/kbuild/kconfig/menu.c:441-475 | the loop over the entries after a symbol: finished, then given the new parent |
| MenuRelink.Menus.MoveIntoList | scripts/kbuild/kconfig/menu.c:477-481 | the adopted entries leave the sibling chain and become the list of the node |
| MenuRelink.Menus.FlattenChildren | scripts/kbuild/kconfig/menu.c:486-564 | the loop over the children of a node, lifting those of entries without a prompt |
| MenuRelink.Menus.Splice | scripts/kbuild/kconfig/menu.c:554-563 | children move up behind their parent, with parent pointers and links right |
| MenuRelink.Menus.FinalizeRoot | scripts/kbuild/kconfig/menu.c:285-592 | for the root: it ends, the order is kept, every parent pointer names the owner of the list, and the nodes finalised are those of the menu in order, none twice |
| ConfWriteSpec.WalkMeets | scripts/kbuild/kconfig/confdata.c:883-927 | every node below the root is met once, in pre-order |
| ConfWriteSpec.EachSymbolOnce | scripts/kbuild/kconfig/confdata.c:895-906 | each symbol to be written has exactly one line, every other symbol none |
| ConfWriteSpec.FirstLinesExact | scripts/kbuild/kconfig/confdata.c:895-906 | a line is there exactly for the first node of its symbol |
| ConfWriteSpec.SymbolsExactly | scripts/kbuild/kconfig/confdata.c:895-906 | a symbol has a line exactly if it is no choice, is to be written, and has a node |
| ConfWriteSpec.HeadingsExactly | scripts/kbuild/kconfig/confdata.c:886-920 | headings are there exactly for the visible nodes without a symbol, ends for those of them with children |
| ConfWriteSpec.WalkBrackets | scripts/kbuild/kconfig/confdata.c:886-926 | headings with children and their "# end of" lines are bracketed, and whatever is written stands inside the headings of exactly the visible menus around its node |
| ConfWriteSpec.WalkMarks | scripts/kbuild/kconfig/confdata.c:886-921 | every visible menu has one heading, every visible menu with children one end |
| ConfWriteSpec.WalkSpaces | scripts/kbuild/kconfig/confdata.c:900-921 | a blank line stands exactly between the end of a menu and a symbol line |
| ConfWriteSpec.WholeFile | scripts/kbuild/kconfig/confdata.c:883-931 | all of this for the file of a whole menu in which no node occurs twice |
| ConfWriteSpec.PlacesLaidOut | scripts/kbuild/kconfig/confdata.c:886-926 | in such a menu every node has one place: the visible menus around it, which the brackets are compared with |
| ConfWrite.Writer.VisitNode | scripts/kbuild/kconfig/confdata.c:885-906 | one node under the cursor |
| ConfWrite.Writer.ClimbOut | scripts/kbuild/kconfig/confdata.c:915-926 | the climb by parent pointers closes the menus it leaves and finds the next node, or the end |
| ConfWrite.Writer.Write | scripts/kbuild/kconfig/confdata.c:883-931 | the cursor loop terminates and writes what the recursive walk writes, which is the right file if no node occurs twice; the WRITTEN flags are cleared |
| ConfEscape.UnescapeEscape | scripts/kbuild/kconfig/symbol.c:874-915 | taking the backslashes out undoes escaping, whatever follows the closing quote |
| ConfEscape.UnescapeCut | scripts/kbuild/kconfig/confdata.c:257-271 | a quoted text that is cut off is never accepted |
| ConfEscape.EscapedSize | scripts/kbuild/kconfig/symbol.c:881-893 | the first pass finds the size of the quoted text and its NUL |
| ConfEscape.EscapeStringValue | scripts/kbuild/kconfig/symbol.c:874-915 | the second pass exactly fills the buffer of that size with the quoted text |
| ConfEscape.UnescapeInPlace | scripts/kbuild/kconfig/confdata.c:257-271 | the in-place loop with memmove leaves the unescaped text, or finds no closing quote |
| ConfLine.StringValid | scripts/kbuild/kconfig/symbol.c:557-598 | the character loops accept exactly the decimal and hexadecimal numerals |
| ConfLine.LineRoundTrip | scripts/kbuild/kconfig/confdata.c:605-626 | a printed line reads back to the same name and setting exactly if a bool is not m, a numeral is valid, and a string has no newline |
| ConfLine.StringReads | scripts/kbuild/kconfig/confdata.c:257-284 | a string with a newline is rejected when read, any other is read back |
| ConfLine.NumeralReads | scripts/kbuild/kconfig/confdata.c:273-284 | a text that is no numeral, the empty one included, does not come back |
| ConfRules.DecimalExactly | scripts/kbuild/kconfig/symbol.c:564-576 | the texts allowed for an int are the usual notations of the integers, and -0 |
| ConfRules.DigitCodes | scripts/kbuild/kconfig/symbol.c:568-583 | the digits of both kinds, by their codes |
| ConfRules.HexadecimalExactly | scripts/kbuild/kconfig/symbol.c:577-585 | those for a hex are hexadecimal digits, after 0x or 0X or not |
| ConfRules.StateRule | scripts/kbuild/kconfig/confdata.c:605-626 | the lines of a bool or tristate symbol, character by character |
| ConfRules.NumeralRule | scripts/kbuild/kconfig/confdata.c:605-626 | the line of an int or hex symbol |
| ConfRules.StringRule | scripts/kbuild/kconfig/confdata.c:720-737 | the line of a string symbol |
| ConfRules.EscapeRule | scripts/kbuild/kconfig/symbol.c:874-915 | quotes and backslashes, and nothing else, get a backslash before them, wherever they stand |
| ConfRules.AssignedRule | scripts/kbuild/kconfig/confdata.c:462-500 | an assignment is split at its first = sign |
| ConfRules.ValueRule | scripts/kbuild/kconfig/confdata.c:467-472 | the value ends at the newline, or before a carriage return that stands there |
| ConfRules.UnsetRule | scripts/kbuild/kconfig/confdata.c:431-461 | a comment that says is not set, whatever follows, sets a bool or tristate to n |
| ConfRules.OtherWordsRule | scripts/kbuild/kconfig/confdata.c:432-438 | a comment with other words behind the name says nothing |
| ConfRules.OtherRule | scripts/kbuild/kconfig/confdata.c:431-500 | other comments and empty lines say nothing, and anything else is complained about |
| ConfRules.UnfinishedRule | scripts/kbuild/kconfig/confdata.c:436-465 | so do an assignment without = and a comment that ends with the name |
| ConfRules.TriRule | scripts/kbuild/kconfig/confdata.c:235-258 | a bool or tristate goes by the first character of its value |
| ConfRead.Reader.SetSymVal | scripts/kbuild/kconfig/confdata.c:230-289 | conf_set_sym_val on the buffer sets what the value-level reader says |
| ConfRead.Reader.TakeLine | scripts/kbuild/kconfig/confdata.c:427-520 | one line changes the settings, and the state of the choice that it sets a value of, as the value-level reader says |
| ConfRead.Reader.ReadFile | scripts/kbuild/kconfig/confdata.c:408-524 | the old settings go, choices start unread, and every line is taken in order |
| ConfRead.Reader.TurnChoice | scripts/kbuild/kconfig/confdata.c:502-520 | the symbol just set turns the state of its choice and of no other |
| ConfRead.ChoiceLargest | scripts/kbuild/kconfig/confdata.c:519 | the value of a choice is the largest that is read for one of its symbols |
| ConfRead.ChoicePicks | scripts/kbuild/kconfig/confdata.c:513-517 | the value picked is the one that the last y names, if there is any y |
| ConfRead.ChoiceUnset | scripts/kbuild/kconfig/confdata.c:507-512 | a choice stops counting as set by the user exactly if one of its values is read as m after one was y |
| ConfRead.ChoiceRoundTrip | scripts/kbuild/kconfig/confdata.c:502-520 | a saved bool choice reads back with its value, its pick, and its flag set |
| ConfRead.GetLine | scripts/kbuild/kconfig/confdata.c:312-344 | a line ends with its newline or with the file |
| ConfRules.LinesRule | scripts/kbuild/kconfig/confdata.c:312-344 | the file is taken line by line, the last one even without a newline |
| ConfRules.NulRule | scripts/kbuild/kconfig/confdata.c:427-500 | what follows a NUL in a line is not seen |
| ConfRead.FileRoundTrip | scripts/kbuild/kconfig/confdata.c:427-521 | a written file, comments and unset symbols included, reads back line by line to what its rows say |
| ConfHeading.PrintComment | scripts/kbuild/kconfig/confdata.c:628-646 | the loop of the comment printer prints just that text |
| ConfHeading.CommentPrinted | scripts/kbuild/kconfig/confdata.c:628-646 | the text printed for a comment is one written row for each of its lines |
| ConfHeading.HeadingShape | scripts/kbuild/kconfig/confdata.c:748-761 | the heading is the notice and the title between bare hashes; a title that fills the buffer loses its end and the last hash |
| ConfHeading.HeadingFine | scripts/kbuild/kconfig/confdata.c:748-761 | no line of the heading passes for a setting when the title does not |
| ConfSave.SaveAndLoad | scripts/kbuild/kconfig/confdata.c:839-952 | what conf_write saves, heading included, is what is read back: each symbol to be written gets its value again, and nothing else is set |
| ConfSave.PieceText | scripts/kbuild/kconfig/confdata.c:889-919 | the text of a heading, an end and a blank line |
| ConfCycle.LoadedUser | scripts/kbuild/kconfig/confdata.c:839-952 | the settings loaded are the values of exactly the bool and tristate symbols that the computation wants written; int, hex and string symbols may be among the others |
| ConfCycle.CycleKeeps | scripts/kbuild/kconfig/confdata.c:527-590 | computed, saved, loaded and computed again, all values are the same exactly if no visible bool or tristate symbol is above its prompt without being selected to its value |
| MacroText.CloseFinds | scripts/kbuild/kconfig/preprocess.c:469-479 | the counting loop finds a closing parenthesis exactly if there is one that matches, and finds that one |
| MacroText.ClauseParts | scripts/kbuild/kconfig/preprocess.c:384-399 | the clause cut out keeps the nesting count of the comma splitter at zero or above; its parts are balanced, have no outer comma, and join to the clause |
| MacroText.SplitBalanced | scripts/kbuild/kconfig/preprocess.c:384-399 | the same for every state of the splitting loop |
| MacroExpand.DollarTakes | scripts/kbuild/kconfig/preprocess.c:453-488 | a reference is the clause up to its matching parenthesis, and the cursor goes on just behind it |
| MacroExpand.DollarUnterminated | scripts/kbuild/kconfig/preprocess.c:481-482 | without a matching parenthesis it is an error |
| MacroRules.ArgumentRule | scripts/kbuild/kconfig/preprocess.c:362-366 | a clause that is a number from 1 to the number of arguments is that argument |
| MacroRules.ArgumentPlaced | scripts/kbuild/kconfig/preprocess.c:453-488 | in the value of a function it is replaced by the argument, and the text goes on behind it |
| MacroRules.CallRule | scripts/kbuild/kconfig/preprocess.c:384-417 | otherwise a clause of plain parts refers to the first, with the others as arguments |
| MacroRules.CommaRule | scripts/kbuild/kconfig/preprocess.c:384-399 | more than 16 outer commas are refused, and with 16 the array overruns |
| MacroRules.RecursiveRule | scripts/kbuild/kconfig/preprocess.c:269-270 | a recursive variable is its value expanded with the arguments of this reference |
| MacroRules.SimpleRule | scripts/kbuild/kconfig/preprocess.c:271-272 | a simple variable is its value |
| MacroRules.RecursionRule | scripts/kbuild/kconfig/preprocess.c:260-265 | a variable under expansion is refused without arguments, and with them when it is met more than 1000 times over |
| MacroRules.OutsideRule | scripts/kbuild/kconfig/preprocess.c:420-432 | a name that is no variable is a built-in function, or without arguments a variable of the environment, or nothing |
| MacroRules.TokenRule | scripts/kbuild/kconfig/preprocess.c:559-574 | a token without references ends before the first character that is no letter, digit, dash or underscore |
| MacroExpand.ExpandAppend | scripts/kbuild/kconfig/preprocess.c:495-537 | expansion goes piece by piece |
| MacroExpand.PlainStays | scripts/kbuild/kconfig/preprocess.c:495-537 | text without references is left alone |
| MacroExpand.ExpandEnds | scripts/kbuild/kconfig/preprocess.c:549-552 | a text is expanded to its end |
| MacroExpand.CountsOnlyStop | scripts/kbuild/kconfig/preprocess.c:251-277 | the counts never change a result: what is made with some expansions under way is made just so with fewer |
| MacroExpand.BudgetStep | scripts/kbuild/kconfig/preprocess.c:264-267 | raising a count uses up the budget that bounds the recursion |
| MacroProgram.Expander.ExpandString | scripts/kbuild/kconfig/preprocess.c:495-552 | the loop terminates with an error or with the expansion; on success all counts are restored |
| MacroProgram.Expander.ExpandDollar | scripts/kbuild/kconfig/preprocess.c:453-488 | the cursor ends just past the matching parenthesis |
| MacroProgram.Expander.EvalClause | scripts/kbuild/kconfig/preprocess.c:346-439 | argument, variable, built-in, environment, or nothing, in that order; more than 16 arguments are an error, and with 16 the model stops where the array overruns |
| MacroProgram.Expander.Cut | scripts/kbuild/kconfig/preprocess.c:384-399 | the splitting loop yields the parts, or refuses more than 16 arguments; the slots that it fills lie within the array of 16 exactly if the outer commas are not 16 |
| MacroText.SplitCounts | scripts/kbuild/kconfig/preprocess.c:384-399 | the parts are one more than the outer commas |
| MacroProgram.SlotsOverrun | scripts/kbuild/kconfig/preprocess.c:350-399 | there is such a clause: 16 commas make 17 parts |
| MacroProgram.Expander.Refer | scripts/kbuild/kconfig/preprocess.c:251-277 | a variable is expanded unless it is under way without arguments or more than 1000 times; the count is restored |
| FixdepNames.WordsExact | scripts/kbuild/fixdep/fixdep.c:206-228 | the words found are exactly the maximal runs of identifier characters |
| FixdepNames.NameOfExact | scripts/kbuild/fixdep/fixdep.c:216-225 | a word names w exactly if it is CONFIG_w_MODULE, or CONFIG_w where w has no such suffix; w not empty |
| FixdepNames.IdentCodes | scripts/kbuild/fixdep/fixdep.c:212-219 | the characters of a run: ASCII letters, digits and the underscore |
| FixdepNames.EndsWithExact | scripts/kbuild/fixdep/fixdep.c:195-204 | a text ends in another exactly if it is some text with that behind it |
| FixdepNames.BareModule | scripts/kbuild/fixdep/fixdep.c:216-225 | the prefix alone, or with nothing but the suffix, names nothing |
| FixdepNames.ListedExactly | scripts/kbuild/fixdep/fixdep.c:206-228 | a name is listed exactly if some file has such a maximal run |
| FixdepNames.FirstUsesOnce | scripts/kbuild/fixdep/fixdep.c:183-193 | no name is listed twice |
| Fixdep.Scanner.IsDefinedConfig | scripts/kbuild/fixdep/fixdep.c:150-160 | a name is found in its chain exactly if it was printed before, for any hash function |
| Fixdep.Scanner.UseConfig | scripts/kbuild/fixdep/fixdep.c:165-193 | a new name is entered and printed, a known one is not |
| Fixdep.Scanner.ParseConfigFile | scripts/kbuild/fixdep/fixdep.c:206-228 | the strstr loop uses exactly the names of the maximal runs, in order |
| Fixdep.Scanner.ParseFiles | scripts/kbuild/fixdep/fixdep.c:206-228 | over any sequence of files the names printed are their names at their first uses |
| Fixdep.StrStr | scripts/kbuild/fixdep/fixdep.c:211 | the next occurrence, or the end |
| Fixdep.RunEnd | scripts/kbuild/fixdep/fixdep.c:217-219 | the end of the run of identifier characters |

## Left out

- The front ends (`mconf.c`, `nconf.c`, `gconf.c`, `qconf.cc`, `lxdialog`, the prompts of `conf.c`), the Go packager and the kernel test driver: they are calls into terminals, toolkits, registries and the kernel.
- Files, renaming, environment lookups, popen, messages and exit codes; a fatal error is an error result.
- Memory management: trees are values, or slots of one tree; nothing is freed.
- The Kconfig lexer and parser, which build the definitions and menus that the model starts from.
- Comment and literal lexing of unifdef (`skipcomment`), the tokens and comment states are given; the parser of `-D` and `-U`; the options `-c`, `-s`, `-S`, `-n`; reading a symbol listed as ignored inside ignored text.
- Suffixes of numerals in `#if` conditions and unsigned arithmetic: values are integers.
- UnifdefIfEval.EvaluateSound: where an int decides a condition that unbounded integers leave undecided, as it does `X && 4294967296` for an unknown X, nothing is claimed.
- KconfigTransform.TransformKeepsValue: `expr_transform`, `expr_trans_bool` and `expr_eliminate_yn`, which put each result back where its operand came from, are modelled on values; the walks over two slots at once are modelled in place.
- KconfigTransform.TransBoolKeepsNonNo: the condition is sufficient; below a negation it is needed exactly for a single comparison, and nested ones may cancel out. The program passes nothing else than the condition allows.
- KconfigEvaluator.Evaluator.CalcValue: the texts of int, hex and string symbols, and their ranges, are given and not computed; symbols in choices are left out, and with them the NO_WRITE flag, which only choices have.
- KconfigEvaluator.Evaluator.CalcVisibility: the branches for choice values; `KconfigChoice` has bool choices by themselves.
- KconfigCheckDeps.Checker.CheckId: choice values and choice symbols, as in `CheckAll`.
- KconfigCheckDeps.Checker.CheckAll: choice groups (`sym_check_choice_deps`), the flags of constants, and the printing of the cycle are not modelled; range bounds are not followed, as in the code.
- KconfigChoice.CalcAll: tristate choices and the modes that set choice values at random.
- KconfigSetValue.Session.SetTristateValue: symbols in choices, MODULES itself, and the SYMBOL_CHANGED flags.
- MenuRelink.Menus.FinalizeNode: the answers to "does this entry belong into the submenu" are arbitrary; what the code computes for them is in `KconfigSubmenu`, and `MenuVisible` puts the two together. Warnings, choice values and the setting of types are left out of the relinking.
- ConfRead.Reader.ReadFile: the line counter and warnings, and a last line of one character, whose test reads what an earlier line left in the buffer.
- ConfWriteSpec.WholeFile: the test whether the file changed; the heading of the file is in `ConfHeading`, and `ConfSave` puts it on top.
- MacroExpand.ExpandAppend: what the program does once a part of a clause goes behind the array of arguments, which is undefined; the model stops there (`MacroProgram.Expander.Cut` says when it happens); `variable_add` and the list of environment variables to be remembered are left out.
- Fixdep.Scanner.ParseFiles: the parsing of the dependency file that names the files.
