# Dafny models of the zsh 3.0.8 core algorithms

zsh is a shell, but several of its parts are self-contained algorithms that everything else
leans on. This project models those parts in Dafny and proves what they are for. Dafny's
verifier is the only judge here: nothing of the shell itself was executed.

| files | what they model |
|---|---|
| `Glob*.dfy` | patterns: the compiler that makes a shared graph of nodes and the backtracking matcher (`Src/glob.c`) |
| `Math*.dfy` | arithmetic: the operator-precedence parser that executes while it parses (`Src/math.c`) |
| `Mem*.dfy` | the ZSH_MEM allocator: blocks, the coalescing free list, arrays of small blocks (`Src/mem.c`) |
| `Heap*.dfy` | the stack of heaps: `pushheap`, `freeheap`, `popheap`, `halloc` (`Src/mem.c`) |
| `Input*.dfy`, `Alias*.dfy` | the input stack with unget, and alias expansion on it (`Src/input.c`, `Src/lex.c`) |
| `Brace*.dfy` | brace expansion as rewriting of a list of words (`Src/glob.c`, `Src/subst.c`) |
| `Conditions.dfy` | `[[ ... ]]`: printer, parser and evaluator (`Src/text.c`, `Src/parse.c`, `Src/cond.c`) |
| `Loop*.dfy` | break, continue and return by global flags (`Src/loop.c`, `Src/exec.c`, `Src/builtin.c`) |
| `HashTables.dfy` | chained hash tables with rehashing (`Src/hashtable.c`) |
| `PathNorm.dfy` | path normalisation, `fixdir` (`Src/builtin.c`) |
| `NumberPrinting.dfy` | `convbase` and reading its output back (`Src/params.c`, `Src/utils.c`, `Src/math.c`) |
| `Signal*.dfy` | the queue of deferred signals (`Src/signals.h`, `Src/signals.c`) |

Code that works on global state is modelled by classes whose methods update fields, arrays
and linked nodes; each method is proved against a specification on values, and the theorems
are about that specification. `dafny verify dfyconfig.toml` checks the whole project.

## Findings

Places where the code does less than one would expect. Each is kept as it is in the code; a
lemma shows an input, and the exact condition is proved beside it.

- A pattern compiled without parentheses lets `a|b` accept `ax` (`GlobMatchpat.BareAlternation`).
  What such a pattern accepts is `GlobMatchpat.BareReaches`; when that is right is
  `GlobMatchpat.BareExact`. `matchpat` adds the parentheses; `getmatch` (Src/glob.c:1289) and
  `typeset -m` do not.
- A repeated group takes the first match of its body and never tries another, so `(a|ab)#c`
  does not match `abc` (`GlobMatchpat.RepeatedNotExact`). A match is always right.
- `skipparens` counts the parentheses in classes too, so that with the parentheses of
  `matchpat` the pattern `[(]` is a bad one (`GlobMatchpat.OpenInClass`). Where it finds the
  end of no group the pattern is always rejected (`GlobMatchpat.ParseReg`); it finds the right
  one if the parentheses in each class are balanced (`GlobMatchpat.BalancedWhole`).
- A plus or minus sign after a binary plus or minus is taken for a binary one: `a - -b` is
  an error (`MathForms.DoubleSign`), while after any other operator it is a sign
  (`MathForms.SignLater`).
- A zero divisor or negative exponent is an error even in an operand that `&&`, `||` or `?:`
  skips: `1 || 1 / 0` is an error (`MathExpr.SkippedDivisor`). The evaluator reports an error
  exactly when such an operand is met (`MathEvaluator.WholeExpression`).
- `zfree` leaves `m_lfree` alone when the freed block becomes the last free block without
  being merged, and the next sbrk cuts it off the list (`MemTheorems.LosesBlock`). Nothing is
  lost by an sbrk exactly if `m_lfree` is the last block listed (`MemAllocator.NoneForgotten`);
  the variant `moves` of the model, which updates `m_lfree`, never loses anything.
- At the end of a string source the look-ahead after an alias cannot be put back, and the
  alias `ls` of the text `ls` is expanded again and again (`AliasExpansion.EndOfString`). The
  aliases in use survive a look-ahead exactly if there was a character left or no alias was at
  the end of its text (`AliasExpansion.LookAheadExact`). Where every line
  ends with a token, or the last one with a blank, all words of a script are read whatever the
  aliases are (`AliasExpansion.ReadLines`).
- After two open braces that are not closed, with nothing but characters between them,
  `hasbraces` looks at nothing more, and tokens stay in the word: `{{{a,b}` is not expanded
  (`BraceFound.TwoUnclosed`). A group is found exactly if it opens before that place
  (`BraceFound.FoundExactly`).
- An empty word that brace expansion comes to later is removed: `{a,}` gives only `a`, but
  `{,a}` gives both words (`BraceList.EmptyLost`). The list is the product exactly if no word
  but the first choice of each is empty (`BraceList.Prefork`).
- A `!` after a pipeline that leaves a loop still changes the status (`LoopCorrect.LateDenial`);
  harmless exactly if the text after the pipeline makes no other status of its status
  (`LoopCorrect.DenialExact`).
- `return`, `break` and `continue` in the condition of a loop are mistaken for the end of the
  loop when their status says so (`LoopCorrect.ReturnInCondition`,
  `LoopCorrect.ContinueInCondition`); exactly when is `LoopCorrect.ConditionExact`.
- Numbers printed in a base above 41 cannot all be read back
  (`NumberPrinting.ReadBackUpTo41`).
- A sixteenth pending signal makes the queue forget the other fifteen, or never end
  (`SignalQueue.Signals.Defer`). A region has room exactly up to fifteen
  (`SignalRuns.RegionHolds`).

## Model

| member | source | states |
|---|---|---|
| GlobCompiler.Compiler.ParseComp | Src/glob.c:2014-2155 | On a printed pattern, whose classes hold any tokens but a closing bracket, the compiler stops where the pattern ends, leaves `tail` as it was, and the node it returns stands for the intended graph with `tail` after it; nothing in the text changes but that tokens in classes and stray closing brackets become the characters they are written as; a text with an unclosed group is rejected, and any other text gives well-formed nodes or is rejected |
| GlobCompiler.Compiler.ParseCompSw | Src/glob.c:2158-2200 | The same for alternatives, all of which continue with the one shared `tail` |
| GlobLanguage.CompilePat | Src/glob.c:2014-2155 | Every way through the graph of a pattern is the pending text, then a match of the pattern, then a way through what follows, and conversely |
| GlobLanguage.AlternativesStand | Src/glob.c:2158-2200 | Inside parentheses the graph of alternatives is passed exactly by a match of one of them followed by a way through the shared continuation |
| GlobMatcher.FindHit | Src/glob.c:1777-1833 | The search through a character class stops at the first member or range that takes in the character, and finds none only if there is none |
| GlobMatcher.Matcher.DoesMatch | Src/glob.c:1684-1757 | The loop with its cursor ends where the lazy closures and first working alternatives lead, and terminates on every subject when no closure body matches the empty string |
| GlobMatcher.RunFinds | Src/glob.c:1689-1740 | If each closure body has one end from each place, the matcher finds a way through whenever there is one, although it never goes back into a body |
| GlobMatchpat.BareReaches | Src/glob.c:1283-1299 | A pattern compiled as it stands accepts a subject exactly if an alternative but the last matches a beginning of it or the last one matches all of it |
| GlobMatchpat.BareExact | Src/glob.c:1283-1299 | That is what the pattern describes exactly if no alternative but the last matches a mere beginning; always, if there is no bar |
| GlobMatchpat.MatchReg | Src/glob.c:1289-1296 | parsereg and domatch on a printed pattern whose groups end where skipparens finds an end: a success is always right; if closure bodies have one end, success and acceptance agree |
| GlobMatchpat.MatchPat | Src/glob.c:1169-1188 | With the parentheses of matchpat: a success implies that the whole subject is in the language, for all closures whose bodies are not empty and groups that end where skipparens finds an end; both directions if closure bodies have one end |
| GlobMatchpat.MatchPlain | Src/glob.c:1169-1188 | For such patterns of literals, `?`, classes, `*`, one-element closures and parenthesised alternatives the result is exactly membership in the declared language |
| GlobMatchpat.ParseReg | Src/glob.c:1925-1932 | The compiled pattern stands for the printed one; a text in which skipparens finds a group without an end gives no pattern |
| GlobMatchpat.BalancedWhole | Src/glob.c:2064-2067 | Groups end where skipparens finds an end, with the parentheses of matchpat too, if the parentheses within each class are balanced |
| GlobMatchpat.MatchToken | Src/glob.c:2134-2139 | A class of the token written as `*`, `?`, `[`, `(`, `)`, a bar or `#` matches just that character, and a class of one other character that one |
| GlobMatchpat.MatchStray | Src/glob.c:2141-2143 | A closing bracket that closes nothing matches just a closing bracket |
| GlobMatchpat.OpenInClass | Src/glob.c:2064-2067 | With the parentheses of matchpat the class of an opening parenthesis is rejected, although it describes one |
| GlobForms.MatchEither | Src/glob.c:2158-2200 | u or v: the subjects u and v and no others, for all u and v |
| GlobForms.MatchAround | Src/glob.c:2038-2053 | u, `*`, v: the subjects that begin with u and go on to end with v |
| GlobForms.MatchQuest | Src/glob.c:1750-1757 | `?`: all subjects of one character |
| GlobForms.MatchRange | Src/glob.c:1760-1833 | `[lo-hi]`: the characters from lo to hi and both of these; with `^` all others |
| GlobForms.MatchHashes | Src/glob.c:1684-1757 | `c#`: any number of c, and `c##` at least one |
| GlobForms.MatchRepeated | Src/glob.c:1684-1757 | `(u)#`: u repeated any number of times, for all u that are not empty |
| GlobMatchpat.WholeMatch | Src/glob.c:1175-1181 | A parenthesised pattern accepts exactly the strings that the pattern describes |
| GlobMatchpat.BareAlternation | Src/glob.c:1649-1656 | The alternatives a and b without parentheses let the subject ax through |
| GlobMatchpat.RepeatedNotExact | Src/glob.c:1689-1740 | The repeated group of a or ab, followed by c, describes abc and does not match it |
| MathOps.DivisionIdentity | Src/math.c:536-545 | C division truncates: quotient times divisor plus remainder is the dividend, and the remainder follows the dividend's sign |
| MathMachine.Parse | Src/math.c:820-876 | Whatever the tokens: noeval is as on entry, the stack stays within its size, errors stick, and nothing is assigned where evaluation was suppressed on entry |
| MathExpr.WalkIsValue | Src/math.c:702-716 | Evaluating every operand, but suppressing the ones that are not needed, gives the left-to-right short-circuit value and assignments unless a suppressed operand traps |
| MathExpr.SkippedDivisor | Src/math.c:536-545 | 1 or-else 1 / 0 is 1, and the evaluator reports a division by zero |
| MathCorrect.ReadExpr | Src/math.c:820-876 | From a printed tree that fits its surroundings the parser pushes exactly the tree's value, makes its assignments and stops before the next token, or reports an error exactly if something in it traps |
| MathEvaluator.Evaluator.ZzLex | Src/math.c:150-394 | The lexer on fields is the lexing function: token, value, unary flag and table of names |
| MathEvaluator.Evaluator.Execute | Src/math.c:489-697 | op on the array of values is the operator function on the value stack |
| MathEvaluator.Evaluator.MathParse | Src/math.c:820-876 | The recursive loop on the globals is the parsing function, for every token stream |
| MathEvaluator.WholeExpression | Src/math.c:721-780 | A tree of the table grammar within the limits leaves one value, the standard one, with the standard variables, and an error exactly if something traps, suppressed operands included |
| MathEvaluator.AnyText | Src/math.c:820-876 | For every text and state: noeval, stack depth, table of names and cursor stay within bounds, and suppressed evaluation assigns nothing |
| MathEvaluator.MathEval | Src/math.c:785-798 | The value of a whole printed expression and the variables after it are the standard ones, an error is reported exactly if something traps, and the empty text is 0; for every text it gives the answer that the rows below are about |
| MathEvaluator.AnswerIs | Src/math.c:785-798 | The answer to the text of a tree is the outcome of walking the tree |
| MathTexts.GroupsLeft | Doc/zsh.texi:2256-2301 | x op y op' z means (x op y) op' z for every two operators of which the first is listed before the second, or with it (but for `**`), operands being any numbers or names |
| MathTexts.GroupsRight | Doc/zsh.texi:2256-2301 | It means x op (y op' z) where the second is listed before the first, and for `**` twice |
| MathTexts.Additive | Src/math.c:532-553 | a + b, a - b and a * b have these values |
| MathTexts.Divisions | Src/math.c:536-545 | a / b truncates towards zero, a % b has the sign of a, and by zero both are errors |
| MathTexts.Powers | Src/math.c:675-683 | a ** b is the product of b times a; a negative exponent is an error |
| MathTexts.Comparisons | Src/math.c:562-585 | The six comparisons give 1 where they hold and 0 otherwise |
| MathTexts.Connectives | Src/math.c:586-597 | The and, or and exclusive or of truth values, and the comma |
| MathTexts.Bitwise | Src/math.c:520-561 | Each bit operator gives what the bit operation of its name gives |
| MathForms.Signed | Src/math.c:499-519 | The prefix operators on a number |
| MathForms.SignFirst | Src/math.c:107-119 | A sign in front belongs to the first operand alone, whatever operator follows |
| MathForms.SignLater | Src/math.c:107-119 | After an operator a sign belongs to the operand after it alone |
| MathForms.DoubleSign | Src/math.c:156-177 | A plus or minus sign after a binary plus or minus is an error |
| MathForms.Steps | Src/math.c:507-674 | Increments and decrements, before and after a name, change the name by one and have the new or the old value |
| MathForms.Stores | Src/math.c:604-608 | An assignment gives the name its value, and has it |
| MathForms.Applies | Src/math.c:609-692 | x op= b assigns what x op b gives and is wrong where that is |
| MathForms.AssignLast | Doc/zsh.texi:2256-2301 | Every operator binds tighter than an assignment |
| MathForms.AssignRight | Doc/zsh.texi:2256-2301 | Assignments group to the right |
| MathForms.CommaLast | Doc/zsh.texi:2256-2301 | The comma comes after assignments, on both sides |
| MathForms.Chooses | Src/math.c:598-601 | c ? a : b is a if c is not zero and b if it is |
| MathForms.ChoiceLater | Doc/zsh.texi:2256-2301 | Every operator of the table binds tighter than a conditional, before the question mark and after the colon |
| MathForms.ChoiceRight | Doc/zsh.texi:2256-2301 | Conditionals group to the right |
| MathForms.ChoiceFirst | Doc/zsh.texi:2256-2301 | An assignment takes a whole conditional; the comma does not belong to one |
| MathForms.LeftValue | Src/math.c:107-119 | The value of a op b op' c is that of (a op b) op' c, in the arithmetic of the two operators |
| MathForms.RightValue | Src/math.c:107-119 | And that of a op (b op' c) |
| MathForms.Sums | Src/math.c:107-119 | a + b * c, a * b + c and a - b - c have just these values |
| MathForms.Equalities | Src/math.c:107-119 | Comparisons are made before equality on either side of it |
| MathForms.Logic | Src/math.c:107-119 | And before or, on either side of it |
| MathForms.PowerTexts | Src/math.c:107-136 | a ** b ** c is a to the power b to the c, and -a ** b is the power of -a |
| MathForms.StoresTwice | Src/math.c:122-136 | x = y = a sets both |
| MathForms.TwoChoices | Src/math.c:122-136 | a ? b : c ? d : e chooses among the three |
| MemAllocator.Segments.constructor | Src/mem.c:500-510 | An allocator without memory is consistent |
| MemAllocator.Segments.FindFit | Src/mem.c:625 | The search returns the first listed block that is large enough and the one before it |
| MemAllocator.Segments.Carve | Src/mem.c:698-727 | A block is taken whole or split; the rest, if longer than M_MIN, takes its place on the list; blocks in use keep every word |
| MemAllocator.Segments.Extend | Src/mem.c:656-697 | New memory, whole pages that just hold the block and its header, becomes one block after the one `m_lfree` points to; what was listed after that one is cut off |
| MemAllocator.Segments.Obtain | Src/mem.c:624-760 | malloc of a large block: NULL exactly if nothing fits and no memory is granted; else a block that was not held, of the size up to M_MIN more, with every other block's words unchanged |
| MemAllocator.Segments.FindPlace | Src/mem.c:903 | The place of a block on the ascending list |
| MemAllocator.Segments.GiveBack | Src/mem.c:946-957 | brk shrinks the last free block by whole pages, keeps the tiling and leaves less than a page and M_MIN |
| MemAllocator.Segments.Release | Src/mem.c:902-959 | zfree of a large block gives exactly that block back, merged with free neighbours, keeps the words of all others, and does nothing for NULL, strange or free addresses |
| MemAllocator.NoneForgotten | Src/mem.c:694-696 | An sbrk loses no listed block exactly if the list is empty or `m_lfree` is its last block |
| MemTheorems.EveryWord | Src/mem.c:487-500 | Every word between the lowest and highest address is in exactly one block |
| MemTheorems.WordsPartitioned | Src/mem.c:497-510 | Each of those words is in a block handed out, a listed one or a lost one, only one of these, with its header intact |
| MemTheorems.FreeListCanonical | Src/mem.c:915-941 | The free list is determined by the held blocks alone: all the rest, ascending and merged as far as possible |
| MemTheorems.LosesBlock | Src/mem.c:934-941 | A run of the code as it is after which a freed block is neither held nor listed |
| MemSmall.SlotSize | Src/mem.c:529-532 | M_BSLEN recovers the slot size exactly as long as the block is less than M_SNUM units longer than asked for |
| MemSmall.LiveApart | Src/mem.c:729-760 | Two blocks handed out, large or small, are the same or do not overlap |
| MemSmall.TakeLive | Src/mem.c:587-608 | Taking a slot adds just that slot to what is handed out |
| MemSmall.GiveLive | Src/mem.c:843-862 | Giving a slot back removes just that slot |
| MemSmall.AllFree | Src/mem.c:863-873 | An array with fifty free slots has none in use |
| MemMalloc.Malloc.FindRoom | Src/mem.c:581-585 | The first array of the list has room, or none of the list has |
| MemMalloc.Malloc.NewArray | Src/mem.c:729-753 | A new array of fifty slots hands out its first one, and nothing that was handed out changes |
| MemMalloc.Malloc.Alloc | Src/mem.c:547-760 | malloc adds one block of at least the size to those handed out, at an address that was not in use, and keeps their words; size 0 gives the highest address |
| MemMalloc.Malloc.FindArray | Src/mem.c:798-809 | The one array that an address is in is found with any hint below M_NSMALL, and none is searched for with a larger one |
| MemMalloc.OnePlace | Src/mem.c:798-809 | No address is in the blocks of two arrays, so it does not matter with which list the search begins |
| MemMalloc.Malloc.Free | Src/mem.c:770-959 | zfree removes exactly the given block and keeps the words of all others; the lists, headers and blocks in use afterwards are determined by the address alone, for every hint below M_NSMALL and for larger hints on large blocks |
| MemMalloc.Malloc.Realloc | Src/mem.c:983-1024 | The new block starts with the words of the old one as far as both reach, the old one is gone, and all other blocks are as they were |
| HeapStack.StepValid | Src/mem.c:152-285 | Every operation keeps: marks nested and within use, heaps apart, saved depth not increasing along the list |
| HeapStack.UnsavedSuffix | Src/mem.c:195-222 | The heaps without a saved mark are the end of the list, so that freeing them frees no heap that stays |
| HeapStack.FreeIsPopPush | Src/mem.c:173-190 | freeheap is popheap and pushheap on the heaps with saved marks; on the whole list exactly if all have one |
| HeapStack.BracketRestores | Src/mem.c:152-222 | After any well-bracketed run the popheap gives back the list of heaps and every used mark of its pushheap |
| HeapStack.HandedStays | Src/mem.c:152-285 | A byte handed out before a pushheap is handed out all the time until its popheap |
| HeapStack.HallocFresh | Src/mem.c:228-281 | halloc hands out bytes that were not in use, and exactly those |
| HeapList.Heaps.Pushheap | Src/mem.c:152-168 | The loop over the linked list is the push on the list of heaps |
| HeapList.Heaps.Freeheap | Src/mem.c:173-190 | The same for freeheap |
| HeapList.Heaps.Popheap | Src/mem.c:195-222 | The same for popheap; what is freed is what is cut off the list |
| HeapList.Heaps.Halloc | Src/mem.c:228-281 | The same for halloc: the first heap with room, or a new one at the end |
| InputStream.Input.Inpush | Src/input.c:426-479 | A pushed string comes before what remains if it continues; the level below is recorded and the alias is in use |
| InputStream.Input.Inpoptop | Src/input.c:483-508 | The level below is current again as recorded and its alias is not in use any more; the next word may be an alias wherever it stands exactly if it might before or the text of that alias ends with a blank |
| InputStream.Input.Inpop | Src/input.c:514-523 | The level and all it continues on are removed |
| InputStream.Input.Ingetc | Src/input.c:151-187 | The head of the remaining input is taken; at its end a line becomes the level that the others continued on, or lexstop is set, with just the continued levels gone; the aliases whose texts have ended are those of the levels popped |
| InputStream.Input.Inungetc | Src/input.c:319-373 | The character is at the head of the remaining input again; alias levels popped just before it are back; nothing happens after lexstop |
| InputStream.Input.Peek | Src/input.c:151-187 | A character read and put back leaves the remaining input as it was in every state of the stack, and inbufct is its length |
| AliasExpansion.DepthBound | Src/input.c:444-449 | An alias is in use exactly while a level comes from it, so the stack is no deeper than the number of aliases and the levels that come from none |
| AliasExpansion.LookAhead | Src/lex.c:1042 | The character after a word, put back, leaves the remaining input, the measure and at least the aliases that were in use |
| AliasExpansion.LookAheadExact | Src/input.c:319-373 | The aliases in use survive reading and putting back, also where a line has to be read, exactly if there was a character left or no alias was at its end |
| AliasExpansion.ReadWord | Src/lex.c:403-413 | Within a line or at its beginning a word is the longest run of characters that end none, after blanks, with the character after it still to be read |
| AliasExpansion.Exalias | Src/lex.c:1311-1322 | The text of an alias is pushed exactly if the word names one that is not in use and that is global, or the word is in command position, or it comes after an alias whose text ends with a blank |
| AliasExpansion.Expand | Src/lex.c:169-175 | Expanding a word, the first of a line too, terminates if every word has a character after it; each word read on the way is expanded exactly if it has to be, in command position the word left names no alias or one in use, and the words are read from the input in order, each alias giving way to its text |
| AliasExpansion.ReadAll | Src/lex.c:169-175 | Reading word after word terminates with the whole input used up, for every alias table and whatever is in command position, if every line ends with a token, or the last one with a blank; every word read was expanded exactly if it had to be, the words left are the others, and nothing of the input or of the texts is skipped but blanks |
| AliasExpansion.ReadLines | Src/input.c:106-143 | The same for a script or session from its first line: all lines are read, to the last character |
| AliasLaws.NoneExpanded | Src/lex.c:403-413 | Where no word is expanded the input is the blanks, words and tokens read, in order |
| AliasLaws.ToldNext | Src/lex.c:1311-1322 | One more word keeps the account: which words had to be expanded, and what of the input is left |
| AliasExpansion.EndOfString | Src/input.c:322 | At the end of a string the alias `ls` with text `ls` is read twice with no alias in use after each time |
| BraceExpansion.Skipparens | Src/utils.c:1232-1248 | The group is skipped to its closing brace, or to the end with the depth that is left |
| BraceFound.HasBraces | Src/glob.c:857-918 | For every string: a group is found exactly if a closed brace with a comma of its own opens before the scan gives up; it is the first one; what is before it has become characters, it is as it was, and behind it just the ends of groups without a comma before it have, and the brace that pairs with one before it, neither being closed; if none is found all has become characters up to where the scan gives up, and nothing else |
| BraceGroups.IsGroupMeans | Src/glob.c:857-917 | A brace is closed, and has a comma of its own, exactly as the balance of braces up to each position says |
| BraceFound.HasbracesFinds | Src/glob.c:857-917 | The scan with its three positions finds what there is to find |
| BraceFound.FoundExactly | Src/glob.c:857-917 | A group is found exactly if one opens before the scan gives up |
| BraceFound.TwoUnclosed | Src/glob.c:875-881 | `{{{a,b}` is not expanded, although `{{a,b}` is |
| BraceFound.AfterCommaless | Src/glob.c:886-898 | After a group without a comma the scan goes on: `{a}{a,b}` has its group at the second brace |
| BraceFound.FoundGroup | Src/glob.c:857-917 | A group that is found is closed, has a comma of its own and opens at the first open brace |
| BraceFound.HasbracesLoosens | Src/glob.c:857-917 | Nothing changes but that some tokens become characters |
| BraceReading.PrintedTop | Src/glob.c:857-917 | In a printed word a group is found exactly if there is one, and nothing changes |
| BracePrefork.Xpandbraces | Src/glob.c:1129-1162 | The word becomes one word for each piece of its first group, in order |
| BraceGroups.PiecesAre | Src/glob.c:1135-1160 | The pieces, with commas between them, are what is between the braces; each has all its braces matched and no comma outside of them |
| BracePrefork.FewerBraces | Src/glob.c:1129-1162 | Each of them has fewer open braces and is shorter |
| BracePrefork.ExpandPrinted | Src/glob.c:1129-1162 | On a printed word they are the printed choices of its first group |
| BraceWords.ChoicesDenote | Src/glob.c:1129-1162 | Replacing the first group by its choices keeps the Cartesian product and its order |
| BraceList.VisitAllDenotes | Src/subst.c:74-86 | What the loop leaves of a list is the list of products but for empty words, and exactly it if no word is empty when the loop comes to it |
| BraceList.Prefork | Src/subst.c:74-87 | The loop that changes its list terminates, and for all words it leaves, in order, the products of the words as they are read: exactly, if and only if no word is empty when it is come to, and else without these empty words; no token is left unless the scan gives up in a word |
| BraceList.PrintedList | Src/subst.c:74-87 | Printed words are read as themselves, and the scan gives up in none |
| BraceReading.ReadingKept | Src/glob.c:857-917 | A word in which hasbraces finds a group is read as before, and the scan gives up where it did |
| BraceReading.ReadingChars | Src/glob.c:906-916 | A word in which it finds none is read as its characters, which are what is left |
| BraceReading.ExpandReads | Src/glob.c:1129-1162 | The words that xpandbraces makes are read as the choices of the first group of the word, stray braces and groups without a comma or not |
| BraceReading.Commaless | Src/glob.c:892-898 | Characters in braces are read as they stand, and what follows as if it stood alone |
| BraceReading.PrintedReading | Src/glob.c:857-917 | A printed word is read as itself |
| BraceList.EmptyLost | Src/subst.c:82-83 | `{a,}` loses its empty word and `{,a}` does not |
| Conditions.Text.Getcond | Src/text.c:372-422 | The tokens appended to the buffer are those of the condition, with parentheses where they are asked for |
| Conditions.Parser.ParCond | Src/parse.c:984-1006 | The recursive descent on the current token is the parsing function, for every token list |
| Conditions.Evaluator.Evalcond | Src/cond.c:38-45 | The result is the Boolean value of the condition under the answers of the tests made; these are its leaves in order, those of a right operand exactly if the left one of && was true or that of or-else false |
| Conditions.EvalMeans | Src/cond.c:38-45 | So is the evaluation function, for every condition and every oracle |
| Conditions.EvalText | Src/parse.c:983-1095 | par_cond and evalcond on the tokens: a condition that is read is evaluated so |
| Conditions.TwoTests | Src/cond.c:41-44 | Two tests with && between them: the second is made exactly if the first holds; with or-else exactly if it does not |
| Conditions.AndFirst | Src/parse.c:984-1027 | && binds tighter than or-else, on either side of it |
| Conditions.Grouped | Src/parse.c:1073-1093 | `!` takes the next test or parenthesis alone, and parentheses group |
| Conditions.Operators | Src/parse.c:1278-1310 | Which test each operator of two operands stands for |
| Conditions.NormEval | Src/cond.c:38-45 | Grouping the connectives to the right keeps the tests, their order and the result |
| Conditions.NormPrint | Src/text.c:389-402 | It keeps the printed text |
| Conditions.RoundTrip | Src/parse.c:983-1095 | Reading the printed tokens of any condition succeeds, uses all of them, makes the same tests with the same result and prints as the same text |
| LoopMachine.Vars.RunBreak | Src/builtin.c:4792-4813 | break, continue and return set the flags, clamped to the loops there are |
| LoopMachine.Vars.RunList | Src/exec.c:593-700 | The walk over lists and their and-or chains on the globals is the machine function |
| LoopMachine.Vars.RunPipe | Src/exec.c:930-950 | Nothing is run while something is being left, but a `!` has its effect |
| LoopMachine.Vars.RunCall | Src/exec.c:2845-2862 | A function call ends a return and gives breaks its old value |
| LoopMachine.Vars.RunFor | Src/loop.c:34-72 | The loop over words on the globals is the machine function |
| LoopMachine.Vars.RunWhile | Src/loop.c:168-208 | The same for while and until |
| LoopMachine.Vars.RunRepeat | Src/loop.c:212-243 | The same for repeat |
| LoopCorrect.FlagsAreOutcomes | Src/loop.c:53-68 | For nested loops and calls with break, continue and return the flag machine runs the same commands with the same status as structured outcomes, with 0 <= breaks <= loops and contflag only while breaks > 0 |
| LoopCorrect.DenialExact | Src/exec.c:930-933 | After any pipeline that leaves, flags and outcome agree exactly if the text after it makes no other status of its status |
| LoopCorrect.ConditionExact | Src/loop.c:183-204 | For any condition that leaves, the exact condition under which the loop ends as the outcome says |
| LoopCorrect.LateDenial | Src/exec.c:930-933 | A loop body `break && ! x` changes the status without running x |
| LoopCorrect.ReturnInCondition | Src/loop.c:183-188 | `while return 5` makes a function return 0 |
| LoopCorrect.ContinueInCondition | Src/loop.c:183-188 | `until continue` ends and leaves contflag set |
| HashTables.Lookup | Src/hashtable.c:153-164 | Searching the chain that the hash selects finds exactly what the map has |
| HashTables.AddHolds | Src/hashtable.c:83-120 | Adding or replacing in that chain adds or replaces in the map, each name once |
| HashTables.RemoveHolds | Src/hashtable.c:178-205 | Removing in that chain removes in the map |
| HashTables.HashTable.AddNode | Src/hashtable.c:75-120 | The table agrees with the map with the node added, gives back the replaced node, and has grown by four exactly if it was full |
| HashTables.HashTable.Expand | Src/hashtable.c:395-417 | Rehashing keeps the map and the count and comes to no further expansion |
| HashTables.HashTable.RemoveNode | Src/hashtable.c:173-205 | The node of the name is returned and gone; nothing else changes |
| HashTables.HashTable.Empty | Src/hashtable.c:423-450 | The map is empty and the table has the new size |
| HashTables.HashTable.GetNode | Src/hashtable.c:129-144 | The node of the name, unless it is disabled |
| HashTables.HashTable.GetNode2 | Src/hashtable.c:153-164 | The node of the name, disabled or not |
| PathNorm.NormalPlain | Src/builtin.c:1460-1479 | No component of the normal form is empty, `.` or `..` |
| PathNorm.NormalAgain | Src/builtin.c:1428-1480 | The written normal form has no slash at its end but the root's, is its own normal form, and goes above nothing |
| PathNorm.SamePlace | Src/builtin.c:1420-1426 | From every directory the path leads where its normal form leads from as many levels up as are counted |
| PathNorm.Canonical | Src/builtin.c:1420-1426 | Two paths lead to the same place from everywhere exactly if they have the same normal form and count |
| PathNorm.SegsJoin | Src/builtin.c:1446-1451 | The components of two paths with a slash between them are those of the one and then of the other |
| PathNorm.SlashesAlike | Src/builtin.c:1446-1451 | Two slashes are as one |
| PathNorm.PopSeg | Src/builtin.c:1463-1466 | Scanning back takes off exactly the last component and never goes below the buffer |
| PathNorm.FixDir | Src/builtin.c:1428-1480 | The buffer receives the normal form and a terminator within the room of the path, and the unmatched `..` are counted |
| NumberPrinting.DigitsDenote | Src/params.c:1994-1999 | The digits denote the number, without a superfluous zero in front |
| NumberPrinting.DigitsOnly | Src/params.c:1994-1999 | No other string of capital digits without such a zero denotes it |
| NumberPrinting.Fits | Src/params.c:699 | Sign, base, digits and terminator fit 21 characters in decimal and 68 in any base an int can hold |
| NumberPrinting.Attained | Src/system.h:394 | The minimum fills both buffers, and it alone, in base 2 alone, fills the larger one |
| NumberPrinting.ConvBase | Src/params.c:1974-2000 | The buffer holds the printed number and a terminator and is not touched beyond it, for the minimum too |
| NumberPrinting.ReadDigits | Src/utils.c:1276-1283 | The digit loop of zstrtol takes the characters that the code accepts as digits in the base, in a number that wraps |
| NumberPrinting.SmallLetters | Src/utils.c:1276-1283 | A small letter is the digit that the capital one is, A being ten |
| NumberPrinting.SmallValue | Src/utils.c:1276-1283 | The value of a string does not depend on the case of its letters |
| NumberPrinting.ReadBack | Src/utils.c:1254-1286 | What is printed is read back as the same number in the same base up to its last character |
| NumberPrinting.ReadBackUpTo41 | Src/utils.c:1276-1285 | All numbers are read back exactly in the bases up to 41 |
| SignalRuns.EverySignalOnce | Src/signals.h:83-96 | In a run with matching regions and room every signal is handled once under the mask in force when it was caught, deferred ones in arrival order, even if handlers open regions and drain the queue |
| SignalRuns.RegionHolds | Src/signals.c:384-394 | In a region no handler begins and signals are put aside in order; there is room exactly for fifteen |
| SignalRuns.RunHasRoom | Src/signals.c:385-388 | A run with no more than fifteen signals in all never fills the queue |
| SignalRuns.DrainFifo | Src/signals.h:88-94 | Draining keeps: put aside is taken up and pending, in order, also when a handler drains the queue itself |
| SignalQueue.RingPut | Src/signals.c:389-391 | Writing at the moved rear appends to the queue |
| SignalQueue.RingNext | Src/signals.h:90-92 | Moving the front takes the first entry off |
| SignalQueue.Signals.Defer | Src/signals.c:384-395 | With room the signal is appended with its mask; with fifteen pending the rear catches up with the front and all are forgotten, or it leaves the circle |
| SignalQueue.Signals.UnqueueSignals | Src/signals.h:85-96 | The drain loop on the circular arrays is the draining of the queue |
| SignalQueue.Signals.Handler | Src/signals.c:384-397 | The handler defers or runs as the queue of values does |
| SignalQueue.Signals.RunActs | Src/signals.h:83-96 | A whole run on the arrays is the run on values |

## Left out

- GlobMatchpat.MatchPat: patterns whose classes make skipparens end a group early; patterns with `~`, `^`, `<a-b>`, leading-dot rules and case folding, and the bad-pattern message of malformed ones (GlobCompiler only shows that a printed pattern is never rejected); and a closure body that matches the empty string, on which the source may loop.
- GlobMatchpat.MatchReg: exactness for repeated groups goes one way only. The body is taken once at each place, so whether that end leads on depends on what follows the group: `(ab|a)#c` is matched exactly on every subject, `(ab|a)#bc` is not, and no condition on the group alone decides it.
- GlobMatchpat.BalancedWhole: one way only: parentheses that are not balanced within one class may be so with those of another.
- GlobMatcher.Matcher.DoesMatch: the skip of a leading Nularg, the `first` flag and exclusions; one character stands for a Meta pair.
- GlobCompiler.Compiler.ParseComp: EXTENDEDGLOB is set; `^` and `!` at the start of a class are read, not rewritten; nodes are allocated when what they point to is finished.
- MathEvaluator.MathEval: says nothing of the value of texts that are no printed trees or exceed the limits on stack and names (for those see MathEvaluator.AnyText); lexemes are already separated; the saving of outer levels and `lastbase`, special parameters, errors of setiparam and overflow are not modelled; `>>` and the bit operators are parameters.
- MathEvaluator.Evaluator.ZzLex: lexemes are already separated, and `lastbase` is left out.
- MathMachine.Parse: what reading below the empty stack gives is an arbitrary function of the position.
- MemAllocator.Segments.Obtain: memory is counted in words; the break is contiguous and only this allocator moves it; stealing an empty heap (Src/mem.c:627-655) is left out.
- MemAllocator.Segments.GiveBack: a brk that fails is left out.
- MemAllocator.Segments.Release: brk succeeds; the free of an address that points into the middle of a block is a precondition.
- MemMalloc.Malloc.Free: `free(malloc(0))` is not covered: the highest address passes the range test of the code, which then takes the last word below it for the length of a block. A hint of M_NSMALL units or more for a slot of an array is excluded; ZSH_SECURE_FREE is off.
- MemMalloc.Malloc.Realloc: the system has memory to give.
- MemMalloc.Malloc.NewArray: the used count, the links of the lists of arrays and of the free slots are fields of the model, not words of the memory, so that overwriting them is not modelled; the header word and the place of every slot are.
- HeapList.Heaps.Halloc: the brk trick, as in the next line.
- HeapStack.HallocFresh: the memory of the saved marks themselves and the brk trick of halloc (Src/mem.c:251-267) are left out; `malloc` returns a place apart from the heaps.
- InputStream.Input.Ingetc: no token bytes in the source text; line numbers, history and the freeing of buffers are left out; lines to come are a list.
- AliasExpansion.Expand: words are runs of characters without quoting; the levels that continue on another are alias texts, so neither history expansions nor characters put back on a level of their own; a text that ends in the middle of a word is excluded (see AliasExpansion.LookAheadExact).
- AliasExpansion.LookAhead: the same levels only; history expansions and characters put back on a level of their own are covered by InputStream.Input.Peek, which says nothing of the measure.
- AliasExpansion.ReadWord: no quoting and no comments; each character of a token of two is a token of its own.
- AliasExpansion.Exalias: reserved words, spelling correction and the line editor's part are left out.
- AliasExpansion.ReadAll: the alias table stays the same; which words are in command position is an arbitrary function of the words before them.
- InputStream.Input.Inpush: an alias that is in use is not pushed again, as exalias, the only caller that pushes one, sees to.
- BraceFound.HasBraces: numeric ranges and BRACECCL are left out.
- BracePrefork.Xpandbraces: numeric ranges and BRACECCL are left out.
- BraceList.Prefork: numeric ranges and BRACECCL are left out, and so are the other steps of prefork.
- Conditions.Evaluator.Evalcond: the result of a leaf test is an arbitrary function of the tests made before it.
- Conditions.RoundTrip: leaf tests are an oracle; the test builtin's own lexer is left out.
- LoopCorrect.FlagsAreOutcomes: `break 0` and negative arguments, and programs for which DenialExact or ConditionExact may fail at run time, are excluded by a condition on the text; errflag, errexit, traps, select, pipelines of several commands and a return outside functions are left out; turns and calls are bounded by a number that the statement leaves open.
- LoopMachine.Vars.RunList: pipelines of one command; background lists, errexit and traps are left out.
- LoopMachine.Vars.RunFor: the words are there before the loop begins; `select` is left out.
- LoopMachine.Vars.RunWhile: the number of turns and calls is bounded by a number that every statement leaves open.
- LoopMachine.Vars.RunRepeat: the count is a number, not an expression that is evaluated.
- LoopMachine.Vars.RunBreak: a missing argument (one level, the last status) and a return outside functions are left out.
- LoopMachine.Vars.RunCall: options, parameters and traps of doshfunc are left out.
- HashTables.HashTable.AddNode: chains are sequences; the hash function is arbitrary; the callbacks of the single tables are left out.
- PathNorm.FixDir: without HAVE_SUPERROOT; source and buffer are apart, as in the only call.
- NumberPrinting.ReadBack: blanks, `+`, octal and `0x` forms of zstrtol are left out; 64-bit numbers wrap.
- SignalQueue.Signals.Handler: of handler only the queueing branch and the masks; what its cases do is a list of actions that comes with the signal.
- SignalQueue.Signals.Defer: a full queue is not followed any further by the run theorems; system calls that block signals are taken to work.
- Job control, directory scanning, the line editor, completion, prompts, history and parameter scopes are not modelled.
