# DRM4G verified

A Dafny model of the parts of DRM4G whose behaviour is hardest to see from the code, with
proofs of what they promise. Three parts of the repository are covered.

**The docopt engine** (`drm4g/commands/docopt.py`), a small language implementation:

- `UsageParser`, `ArgvParser`, `Options`, `Procedures`: the recursive-descent parser of usage
  patterns and the parser of argv, on tokens; first as functions, then as the loops over a
  mutable token list that the source has.
- `OptionLaws`: how long options and clusters of letters are read, and which are refused, told
  without the parser: new and known ones, in a usage pattern and in argv.
- `Patterns`, `Transform`: the meaning of a pattern as a multiset of alternatives, and the
  worklist that computes it.
- `Repeats`, `FixPass`: which leaves may take more than one word, and the in-place pass that
  shares equal leaves and turns those into accumulators.
- `Elements`, `Matcher`, `Language`, `Capture`: the greedy matcher, the language it is sound
  for, and what it collects. Here each outcome owns its collected values; this is called the
  value reading.
- `Greedy`: on which patterns the matcher is also complete. That a word can be read from argv
  is stated by positions: each leaf takes the first element that fits it.
- `HeapMatcher`, `HeapProcedures`: the matcher as written, where collected objects are shared
  and changed in place (lines 126 and 128).
- `Telling`, `Straying`, `Counting`, `Reporting`: what the shared objects hold in the end, told
  without any objects; which additions of discarded matches stay; what options that count are
  made to forget; and when the dictionary docopt returns is that of the value reading.
- `Steady`, `Lines`: patterns, and usages of several lines, in which nothing stays.
- `ValueLaws`: what value a name has in the end, told by the elements typed for it and the
  pattern as written, defaults split into words included.
- `EndToEnd`, `OptionPrograms`, `DocoptProcedures`: all of it together, from tokens to the dictionary, as a
  function and as the procedures that compute it: the parsers' loops, the pattern built on the
  heap, `fix` in place, the matcher on shared objects. If docopt accepts, the words typed are
  split among the leaves of the usage pattern with none left over, and the dictionary reports
  for each leaf everything it took if and only if as many discarded matches stay under its
  name as matches are forgotten; for words and lists none is ever forgotten.

**The execution side**:

- `Callback`, `CallbackRuns`, `CallbackNames`: the execution manager's job list, status cells
  and callback thread, with the requests that pool threads answer, as interleaved steps; what
  is reported of each job, what is printed under each JID, and which answer belongs to which
  request.
- `ThreadPool`: the elastic thread pool as interleaved steps.
- `ProcessTree`: the killer of process trees, whose kills re-parent what it has yet to find.

**GridWay's bookkeeping** (`gridway-5.8/`):

- `ArrayPool`, `ArrayLaws`, `ArrayProcedures`: the array pool and the job pool with their back
  pointers, over every run of submissions and kills.
- `ClientPool`, `ClientSignal`, `ClientWait`: the client's loops over the job table and over
  replies in any order.
- `Accounting`, `AccountingLaws`, `AccountingProcedures`: accounting records, the two indexes,
  and the reports that join them, counter by counter.

Where the source changes things step by step the model does too: methods with loops, classes
with fields, arrays changed in place. Such methods are proved equal to functions, and the
functions carry the laws. Concurrent code is a set of atomic steps and a run is any
interleaving. `Basics` has what all share. What comes from outside (process output, batch-system statuses, socket replies)
is a parameter of the step that reads it.

## What was found

Some promises do not hold for all inputs. Each has an input that breaks it and a condition.

- **Values of discarded matches.** `collected` objects are shared between the outcomes of an
  Either, and nothing is undone. With `(-v (-v | -v))` and `-v -v` the option is counted three
  times (`HeapMatcher.HeapOvercounts`). With `(-v -v | -v)` it is counted once, because a first
  match sets the option back to one and so the branch that loses forgets what the other counted
  (`HeapMatcher.HeapUndercounts`). Every leaf reports what it took, and what strays, less what
  it was made to forget (`Reporting.ReportedExactly`); it is right if and only if strays and
  forgotten matches are equally many (`Reporting.RightExactly`). Words and lists forget
  nothing and are never reported short (`Reporting.NeverShort`); for an option that counts the
  two can cancel. Where the lines of a usage stray nowhere inside
  themselves, an option reports the count of the last line that took it, be it kept, beaten or
  failed, so it is right if and only if the kept line took it as often
  (`Reporting.LinesReport`). A condition on the pattern alone makes all reports right for every
  argv (`Reporting.SettledIsFaithful`); usage lines may repeat a word freely, and an option if
  only one of them mentions it or they begin with different commands (`Lines.LinesSettle`,
  `Lines.TwoLinesSettle`).
- **Greedy matching.** `[<a>] <b>` does not accept one word, although the pattern does
  (`Language.GreedyIsIncomplete`); the other direction always holds. On patterns in which
  nothing that may be skipped or repeated competes with a later leaf, words to be filled in at
  the end aside, the matcher accepts exactly what the pattern accepts
  (`Greedy.GreedyIsComplete`).
- **Stuck pools.** Without raising tasks a task can be left with nobody to take it if and only
  if the minimum is 0 and either workers retire or the maximum is 0 too
  (`ThreadPool.SticksExactly`). With raising tasks it happens exactly when all counted workers
  are lost, because line 73 ends a worker without lowering the counter
  (`ThreadPool.StuckExactly`).
- **Retirement never happens as written.** `self.tasks.get( timeout )` passes the timeout as
  `block`, against the docstring's intent, so Empty is never raised. The model lets workers
  retire or not; `SticksExactly` tells the two readings apart.
- **A JID put while it is listed** displaces a job. If the callback thread has that job neither
  in hand nor ahead, nothing more is ever reported about it (`Callback.ImpolitePutLosesJob`).
  If it has, the displaced job's end can still be reported, but then the new job is taken off
  the list in its stead (`Callback.DeleteHitsNewJob`, `CallbackRuns.AheadIsReported`). Over all
  runs, every job is listed until its end was seen if and only if whatever a put displaces and
  whatever a delete takes off was seen to end (`CallbackRuns.LawExactly`). What is reported of a
  job is in every run what is due for the statuses seen of it
  (`CallbackRuns.ReportsAreExpected`), and even then the statuses printed under a JID are those
  of the jobs put under it, one job after the other (`CallbackNames.PrintedAreDue`).
- **Table overruns.** The slot scans count tries but never look at the end of the table. Once
  all job numbers are used up, a single job's submission, which no count check precedes, reads
  past the job table, and some run gets there for every size but 0
  (`ArrayPool.JobOverrunExactly`). The scan for an array stays inside in every run if and only
  if there are no fewer array slots than job slots, or none at all (`ArrayPool.OverrunExactly`):
  there the check of the job count protects both tables. It counts jobs ever allocated, since the line that would lower it is
  commented out (`gw_job_pool.c:492`).
- **A job's records written twice.** Records are numbered from the newest, so writing a job
  again after it got a new record loses the new one and stores the oldest twice
  (`Accounting.NewestIsLost`). Writing two histories one after the other is like writing the
  second alone if and only if they agree wherever the first made a record
  (`Accounting.RewriteExactly`). The only caller writes a job as it is freed
  (`gw_job_pool.c:488`).
- **Repeated job numbers in a wait** leave all but the first exit code unset
  (`ClientWait.AllCodesSetExactly`).
- **Unnamed reasons** are counted in `tot` only (`Accounting.TotalIsSumExactly`).

## Model

| member | source | states |
|---|---|---|
| Patterns.AltsAllConcat | drm4g/commands/docopt.py:90-93 | the alternatives of two groups together are the pairwise sums of theirs, which is why flattening a branch into its siblings keeps the meaning |
| Patterns.AltsLength | drm4g/commands/docopt.py:72-96 | the number of alternatives is the recursively computed count: products along a group, sums over an Either, squares for OneOrMore |
| Patterns.OccIsPeak | drm4g/commands/docopt.py:57-61 | how often a leaf can occur, computed over the tree, is reached by some alternative and exceeded by none, unless an Either is empty |
| Transform.ExpandLighter | drm4g/commands/docopt.py:84-93 | each group an opened group is replaced by is strictly lighter, although OneOrMore doubles and Either copies its siblings |
| Transform.ExpandRounds | drm4g/commands/docopt.py:81-95 | opening a group uses up exactly one of the rounds it takes to finish |
| Transform.ExpandAlts | drm4g/commands/docopt.py:84-93 | the groups that replace a group have together exactly its alternatives |
| Transform.FirstBranchIsRemoved | drm4g/commands/docopt.py:84-86 | `children.remove(child)`, which removes by equality, takes out the occurrence that was found first |
| Transform.Open | drm4g/commands/docopt.py:87-93 | one loop turn per branch of an Either, one doubled group for OneOrMore, one group otherwise |
| Transform.Transform | drm4g/commands/docopt.py:72-96 | the result is an Either of leaf-only Requireds whose leaf multisets are, as a multiset, the alternatives of the pattern; as many as the count says; in exactly the foretold number of rounds |
| Matcher.MatchIsRun | drm4g/commands/docopt.py:112-130 | for every pattern, whether it matches and what it leaves do not depend on `collected`, which is extended by the events of the run in order |
| Matcher.MatchLoopIsRun | drm4g/commands/docopt.py:248-265 | the same for the loop of OneOrMore with its `l_` |
| Language.RunIsSound | drm4g/commands/docopt.py:219-279 | a successful run is a word of the pattern, and each of its leaves took the first argv element it could |
| Language.OptionRun | drm4g/commands/docopt.py:204-208 | an option is found wherever it stands in argv and whatever stands before it; it takes the first element of its name and leaves the others as they are |
| Language.WordRun | drm4g/commands/docopt.py:161-177 | an argument takes the first word, wherever it stands; a command takes it if it is its name and nothing otherwise |
| Language.MatchIsSound | drm4g/commands/docopt.py:112-279 | success derives a word of the pattern that accounts, in order, for exactly the elements removed, and leaves a subsequence; failure gives back what was passed in |
| Language.TakesExactly | drm4g/commands/docopt.py:112-130 | what is taken and what is left make up the argv as a multiset, and what is left is a subsequence of it |
| Language.GreedyIsIncomplete | drm4g/commands/docopt.py:232-238 | a pattern and a word of it, readable from the argv in order, that the matcher refuses |
| Greedy.ShapedRun | drm4g/commands/docopt.py:221-229 | what takes the same number of elements of each kind in all its words matches whenever a word can be taken, and leaves the same |
| Greedy.DecisiveRun | drm4g/commands/docopt.py:219-279 | if a word of a decisive pattern takes all there is of the kinds it competes for, the matcher matches and leaves the same |
| Greedy.FillerTakesAll | drm4g/commands/docopt.py:232-265 | optional and repeated words, nested in any way: if some word of the pattern takes all the words there are, so does the matcher |
| Greedy.OptionalWordsAreDecisive | drm4g/commands/docopt.py:232-265 | `[<a> <b>]`, `[<a> [<b>]]`, `[<a>]...` and `<x> [<a>] [<b>]` are decisive |
| Greedy.GreedyIsComplete | drm4g/commands/docopt.py:219-279 | on a decisive pattern the matcher matches with nothing left if and only if some word of the pattern takes the whole argv, each leaf the first element that fits it |
| Greedy.DocoptIsComplete | drm4g/commands/docopt.py:575-581 | the same of docopt, with `fix` in between |
| Language.CallsBound | drm4g/commands/docopt.py:256-262 | OneOrMore calls its child at most once per argv element and once more, or twice more on an empty argv |
| Language.LoopStopsAtFixpoint | drm4g/commands/docopt.py:256-262 | the loop stops where its child takes nothing |
| Language.RepeatIsExhausted | drm4g/commands/docopt.py:246-265 | after OneOrMore succeeds its child takes nothing more from what is left, whatever has been collected |
| Repeats.WordUses | drm4g/commands/docopt.py:57-61 | in a word of the pattern a leaf takes no more, counting up to two, than its occurrences in some alternative |
| Repeats.PlainUsedOnce | drm4g/commands/docopt.py:57-69 | in the tree that `fix` computes in place (`FixPass.Fix`) a leaf that does not accumulate takes at most one element in any word |
| Repeats.OccMap | drm4g/commands/docopt.py:57-69 | renaming leaves without merging any changes no occurrence count, so marking leaves does not change which are repeated |
| Capture.CollectAllGathers | drm4g/commands/docopt.py:112-130 | collecting orderly events gives one entry per name, and it holds all its leaf took: the count, the list of texts, or the one value |
| Capture.NothingOverwritten | drm4g/commands/docopt.py:57-69 | value reading: after `fix`, for every pattern and argv, a successful match has one entry for each name that took something, holding all it took |
| Capture.EverythingReported | drm4g/commands/docopt.py:578-580 | value reading: when docopt accepts, the argv elements are split among the leaves with none left over, and the dictionary has for each leaf all it took or its default |
| ValueLaws.WordsExactly | drm4g/commands/docopt.py:66 | splitting a default gives the words that, with spaces between and around them, make it up, and only those |
| ValueLaws.DefaultsMean | drm4g/commands/docopt.py:60-68 | a leaf that repeats starts from zero, from no words, or from the words of its default; any other keeps its value |
| ValueLaws.EveryValueMeans | drm4g/commands/docopt.py:578-580 | value reading: each name holds the number or the list of what was typed for it if its leaf repeats, and else the one string or True; untyped, the default as written |
| Capture.WeightConserved | drm4g/commands/docopt.py:112-130 | a successful match raises the weight of `collected` by exactly the number of argv elements it removes, for every tree |
| FixPass.Redirect | drm4g/commands/docopt.py:45-55 | in place, every leaf of the tree becomes its representative; nothing but children lists changes |
| FixPass.FixIdentities | drm4g/commands/docopt.py:45-55 | equal leaves become one object, and the tree keeps its shape and its printed form |
| FixPass.FixRepeating | drm4g/commands/docopt.py:57-69 | a leaf is marked if and only if it occurs more than once in some alternative, although values change while cases are still being counted |
| FixPass.FixShared | drm4g/commands/docopt.py:57-69 | on shared leaves the marked tree prints as the tree with its repeated leaves made accumulators |
| FixPass.Fix | drm4g/commands/docopt.py:40-43 | the tree afterwards prints as the exact fixed tree, equal leaves are one object, and a leaf is an accumulator if and only if it is repeated |
| HeapMatcher.HeapControl | drm4g/commands/docopt.py:112-130 | on shared objects, whether a pattern matches and what it leaves are as in the value reading, whatever is mutated |
| HeapMatcher.HeapAgrees | drm4g/commands/docopt.py:112-130 | the objects hold the values of the value reading when no match of an accumulating leaf is discarded |
| HeapMatcher.HeapOvercounts | drm4g/commands/docopt.py:270-279 | a pattern and an argv of two options counted as three |
| HeapMatcher.HeapUndercounts | drm4g/commands/docopt.py:125-128 | a pattern and an argv of two options counted as one |
| Telling.Tracks | drm4g/commands/docopt.py:112-130 | the one object of a name that ever changes holds at every point what a fold over the branches tried says, discarded ones included |
| Straying.NoStrays | drm4g/commands/docopt.py:125-128 | if no addition of a discarded match stays, the object of a name holds what the kept matches alone make of it |
| Straying.EveryStrayShows | drm4g/commands/docopt.py:125-128 | for words and lists, what the object of a name holds is what was taken and every addition that stays |
| Counting.TapeTells | drm4g/commands/docopt.py:125-128 | the object of an option that counts holds the number of its matches, kept or discarded, since the last one that found nothing collected |
| Counting.TapeCounts | drm4g/commands/docopt.py:219-279 | the matches of an option are those kept and those that stray; with nothing collected the first begins anew, with something collected none does |
| Counting.CountIs | drm4g/commands/docopt.py:125-128 | an option reports what it took and what strays, less what a later beginning makes it forget |
| Counting.LastBranchCounts | drm4g/commands/docopt.py:270-279 | where an Either is reached with nothing collected, the count is the one made in the last branch that took the option, whether it is kept, loses or fails |
| Counting.NeatBranchesCount | drm4g/commands/docopt.py:270-279 | if nothing strays inside the branches, that count is how often that branch took the option, so it is right if and only if the kept branch took it as often |
| Reporting.RightExactly | drm4g/commands/docopt.py:575-581 | docopt's dictionary equals that of the value reading if and only if, for each leaf that took something, as many discarded matches stay as are forgotten |
| Reporting.ReportedExactly | drm4g/commands/docopt.py:125-128 | what an accumulating leaf reports weighs what it took and what strays, less what is forgotten |
| Reporting.WithoutStrays | drm4g/commands/docopt.py:575-581 | a leaf of any kind under whose name nothing strays is reported right, an option that counts included |
| Reporting.LinesReport | drm4g/commands/docopt.py:575-581 | a usage of several lines that stray nowhere inside themselves reports an option as often as the last line that took it did, and right if and only if the kept line took it as often |
| Reporting.ReportsExactly | drm4g/commands/docopt.py:575-581 | docopt's dictionary reports for each leaf everything it took under the same condition |
| Reporting.NeverShort | drm4g/commands/docopt.py:125-128 | words and lists are reported with exactly as much on top of what they took as strays |
| Steady.TameStrays | drm4g/commands/docopt.py:219-279 | in a tame pattern no addition of a discarded match stays, for any argv, matching or not |
| Steady.FirmStrays | drm4g/commands/docopt.py:219-279 | in a firm pattern that matches none stays, for any argv |
| Lines.ApartFails | drm4g/commands/docopt.py:161-177 | of two lines that begin with different commands, where one matches the other fails before it comes to the option |
| Lines.SettledStrays | drm4g/commands/docopt.py:219-279 | in a settled pattern that matches and takes something under the name, none stays under it, for any argv |
| Lines.LinesSettle | drm4g/commands/docopt.py:470-473 | usage lines settled one by one are settled together: always for a word, for an option if only one mentions it or they begin with different commands |
| Lines.TwoLinesSettle | drm4g/commands/docopt.py:470-473 | two lines that begin with different commands and repeat the same word or option, or of which one repeats it |
| Reporting.SettledIsFaithful | drm4g/commands/docopt.py:575-581 | on a settled pattern docopt's dictionary is that of the value reading, for any argv |
| HeapProcedures.Memory.MatchLeaf | drm4g/commands/docopt.py:112-130 | a leaf's match as written, with its writes to shared objects; the element it takes is that of `OptionRun` and `WordRun` |
| HeapProcedures.Memory.MatchRequired | drm4g/commands/docopt.py:221-229 | the loop over the children: the first failure undoes `left` and `collected` but not the writes |
| HeapProcedures.Memory.MatchOptional | drm4g/commands/docopt.py:234-238 | the loop over the children, which always succeeds |
| HeapProcedures.Memory.MatchOneOrMore | drm4g/commands/docopt.py:248-265 | the loop with its test `l_ == l` on printed forms |
| HeapProcedures.Memory.MatchEither | drm4g/commands/docopt.py:270-279 | every branch runs on the same memory; the first with the shortest rest is returned |
| UsageParser.PatternRoundTrip | drm4g/commands/docopt.py:369-425 | printing any pattern in normal form and parsing the tokens gives back the same tree and table and uses all tokens |
| UsageParser.ExprIsNormal | drm4g/commands/docopt.py:377-425 | what the parser returns for any tokens is in normal form over the table it leaves, if it can be written down at all |
| UsageParser.ParsePrintParse | drm4g/commands/docopt.py:369-425 | for any tokens that parse, printing the tree and parsing again with the resulting table changes nothing |
| ArgvParser.SimilarFinds | drm4g/commands/docopt.py:306-320 | a full name, or a prefix only one option has, finds that option |
| OptionLaws.NewLong | drm4g/commands/docopt.py:303-317 | a long option nothing is known by is read as given, takes an argument exactly if one was written with `=`, and joins the table |
| OptionLaws.KnownLong | drm4g/commands/docopt.py:318-331 | a long option one entry is known by, in argv also by a prefix: its argument is the one written or the next token; an argument it does not take, and one that is missing, are refused |
| OptionLaws.AmbiguousLong | drm4g/commands/docopt.py:309-311 | a long name that two entries may be meant by is refused |
| OptionLaws.FlagsRead | drm4g/commands/docopt.py:334-366 | a cluster of flags, each new or known, in argv or in a usage pattern: one option per letter in order, the tokens after it stay, and exactly the new letters join the table |
| OptionLaws.ArgumentRead | drm4g/commands/docopt.py:351-365 | after any flags, a letter that takes an argument takes the rest of the cluster or else the next token, and is refused if there is none |
| OptionLaws.AmbiguousLetter | drm4g/commands/docopt.py:342-345 | a letter that two entries have is refused, whatever flags come before it |
| OptionLaws.FlagsInUsage | drm4g/commands/docopt.py:420-421 | a cluster of flags in a usage pattern is one leaf per letter |
| OptionLaws.FlagsInArgv | drm4g/commands/docopt.py:442-443 | a cluster of flags in argv is one element per letter, and reading goes on behind it |
| OptionLaws.WordOfUsage | drm4g/commands/docopt.py:422-425 | a token that is no bracket, bar, option or keyword is one leaf: an argument if in angle brackets or in capitals, and else a command |
| OptionLaws.BracketsRead | drm4g/commands/docopt.py:402-417 | around any normal body, round brackets make what must be matched and square ones what may be; `options` is the shortcut |
| OptionLaws.RepeatRead | drm4g/commands/docopt.py:390-399 | an ellipsis repeats the item before it |
| OptionLaws.AlternativesRead | drm4g/commands/docopt.py:377-387 | alternatives written without brackets: one item stands for itself, several for all of them together, none for nothing, and two or more alternatives make an Either |
| OptionLaws.UnmatchedBracket | drm4g/commands/docopt.py:408-414 | a bracket not closed where its contents end is refused |
| OptionLaws.LeftOver | drm4g/commands/docopt.py:369-374 | a pattern with tokens left over is refused |
| ArgvParser.ArgvRoundTrip | drm4g/commands/docopt.py:428-449 | any list of options and words, each in any of its spellings, is read as what was meant, in the same order, and the option table stays as it was |
| Procedures.Source.ParseLong | drm4g/commands/docopt.py:301-331 | the token list and the table change as the function says |
| Procedures.Source.ParseShorts | drm4g/commands/docopt.py:334-366 | the loop over the letters does what the function of `FlagsRead` and `ArgumentRead` says |
| Procedures.Source.ParseSeq | drm4g/commands/docopt.py:390-399 | the loop over atoms does what the recursion says |
| Procedures.Source.ParseExpr | drm4g/commands/docopt.py:377-387 | the loop over alternatives does what the recursion says |
| Procedures.Source.ParseAtom | drm4g/commands/docopt.py:402-425 | the branches of an atom, brackets included |
| Procedures.Source.ParsePattern | drm4g/commands/docopt.py:369-374 | the whole pattern, with the error for tokens left over |
| Procedures.Source.ParseArgv | drm4g/commands/docopt.py:428-449 | the loop over argv does what the recursion says; every turn uses up a token |
| EndToEnd.ParsedIsWellFormed | drm4g/commands/docopt.py:562-574 | a parsed usage pattern with `[options]` filled in meets what `fix` and `match` rely on: one leaf per name, no accumulators yet, no empty Either |
| EndToEnd.ArgvTyped | drm4g/commands/docopt.py:569 | what argv parsing returns has a string where an option takes one, even if argv brings options of its own |
| EndToEnd.TreeIsFilled | drm4g/commands/docopt.py:570-573 | the tree that is matched is the parsed one, in which every `[options]` has as its children exactly the documented options the pattern does not mention |
| OptionPrograms.ProgramReads | drm4g/commands/docopt.py:562-581 | for every usage pattern in normal form and every argv in any spelling, the program matches the pattern that was written with the argv that was meant |
| OptionPrograms.OptionsProgram | drm4g/commands/docopt.py:562-581 | the usage `[options]` accepts any argv that gives documented options without argument at most once each, in any spelling; each is reported True, every other by its default, and nothing else is reported |
| EndToEnd.ProgramReportsEverything | drm4g/commands/docopt.py:562-581 | from tokens to dictionary, on shared objects: an accepted argv is split among the leaves with none left over, and each leaf reports all it took if and only if, under the name of each that took something, as many discarded matches stay as are forgotten |
| EndToEnd.SettledProgramReportsEverything | drm4g/commands/docopt.py:562-581 | on a settled usage pattern each name has the value that what was typed for it gives, or its default as written, for any argv |
| EndToEnd.ProgramAcceptsExactly | drm4g/commands/docopt.py:562-581 | on a decisive usage pattern an argv is accepted if and only if some word of the pattern takes all of it |
| DocoptProcedures.BuildAll | drm4g/commands/docopt.py:377-425 | new objects for the leaves and branches of a pattern, no two shared, that print as the pattern |
| DocoptProcedures.Finish | drm4g/commands/docopt.py:575-581 | `fix` in place, the matcher on shared objects and the dictionary: from any pattern on the heap, the answer of the model |
| DocoptProcedures.Run | drm4g/commands/docopt.py:562-581 | from tokens to dictionary with all loops and objects: the answer, or error, of `EndToEnd.Program`, of which `ProgramReads`, `OptionsProgram` and the program laws above speak |
| ProcessTree.ChildrenAreNew | drm4g/managers/fork.py:53-54 | the live children of a process not yet killed are its original ones, and none was found before, whatever was re-parented |
| ProcessTree.Round | drm4g/managers/fork.py:52-58 | one turn of the inner loop, on the list that is rebound while it is walked, keeps the progress of the walk |
| ProcessTree.Finish | drm4g/managers/fork.py:49-58 | when nothing is left to kill, the dead are the job's process tree and no survivor changed parents |
| ProcessTree.Host.JobCancel | drm4g/managers/fork.py:49-58 | terminates; kills exactly the process tree, each process once and after its parent; what survives is as before; raises if and only if there is no such job, and then changes nothing |
| Callback.RunInv | drm4g/core/em_mad.py:97-234 | what holds after every step of every interleaving in which no JID is put while it is listed |
| Callback.CallbacksAreExpected | drm4g/core/em_mad.py:192-215 | the SUCCESS CALLBACK statuses of a job are exactly those due for the statuses seen; a terminal one comes exactly once and last; the job is listed until one was seen |
| Callback.SubmittedJobReports | drm4g/core/em_mad.py:131-132 | for a submitted job those are the statuses seen with consecutive repeats removed |
| Callback.TerminalOnce | drm4g/core/em_mad.py:205-210 | what is due contains one terminal status, at the end, if the job was seen to end, and none otherwise |
| Callback.PollTellsLatest | drm4g/core/em_mad.py:159-162 | a poll answers the status last known of the job |
| Callback.ImpolitePutLosesJob | drm4g/utils/list.py:32-37 | a job displaced by a put of its JID, which the callback thread has neither in hand nor ahead, is never listed again, and no more is reported or seen of it in any continuation |
| Callback.DeleteHitsNewJob | drm4g/core/em_mad.py:205-208 | a run in which the callback thread unlists a new job in place of the one that ended |
| CallbackRuns.RunAlways | drm4g/core/em_mad.py:97-234 | what holds after every step of every interleaving, polite or not |
| CallbackRuns.ReportsAreExpected | drm4g/core/em_mad.py:192-215 | in every run, polite or not, the statuses reported of a job are those due for the statuses seen of it, a terminal one once and last if it was seen to end |
| CallbackNames.JobsKeepTheirNames | drm4g/core/em_mad.py:131-132 | in every run, whatever is printed about a job, and wherever else it stands beside a JID, the JID is the one of the SUBMIT or RECOVER that put it |
| CallbackNames.JobsRemember | drm4g/managers/__init__.py:125-135 | what is known of a job is the status it was put with and the answers to the refreshes made of it |
| CallbackNames.PrintedAreDue | drm4g/core/em_mad.py:192-215 | in every run, polite or not, the statuses printed under a JID not in hand are those due for the jobs put under it, one job after the other |
| CallbackNames.ListedUntilTheEnd | drm4g/core/em_mad.py:205-208 | in a polite run a job not in hand is listed under its JID if and only if it was not last seen "DONE" or "FAILED", and nothing is seen of it after that |
| CallbackNames.EveryScanAsksOnce | drm4g/core/em_mad.py:199-203 | between its copy of the list and its sleep the callback thread refreshes each job that was listed exactly once, and no other, whatever happens meanwhile |
| CallbackNames.FailuresAreRaised | drm4g/core/em_mad.py:212-215 | a FAILURE CALLBACK is printed under a JID once for each refresh under it that raised |
| CallbackNames.PollAsked | drm4g/core/em_mad.py:159-164 | a POLL of a JID that is not listed fails at once; one of a listed JID is not answered by that step |
| CallbackNames.PollFetched | drm4g/core/em_mad.py:159-167 | a POLL that found its JID listed fails if and only if it is listed no more when the job is fetched |
| CallbackNames.PollAnswered | drm4g/core/em_mad.py:159-162 | any other POLL is answered under the JID it asked for, with the last status known of the job listed under it when it was fetched |
| CallbackNames.CancelAnswered | drm4g/core/em_mad.py:224-232 | a CANCEL that found its JID listed is answered under it, with success if and only if it is still listed when the job is fetched and the cancelling works |
| CallbackNames.EachIsAnsweredOnce | drm4g/core/em_mad.py:157-234 | requests made are those answered and those being answered |
| CallbackRuns.LawExactly | drm4g/core/em_mad.py:131-132 | over any run, every job whose end was not seen is listed if and only if each put finds its JID free or held by a job seen to end, and each delete the same |
| CallbackRuns.AheadIsReported | drm4g/core/em_mad.py:199-210 | a run in which a displaced job that was still ahead is reported to end while its delete takes the new job off the list |
| Callback.PutKeeps | drm4g/utils/list.py:32-37 | putting a job under a JID that is not listed keeps every job's reports and listing right |
| Callback.ListedAfterDelete | drm4g/utils/list.py:46-54 | a delete of a listed JID takes off the job listed under it and no other |
| Callback.List.Items | drm4g/utils/list.py:70-75 | a copy with every entry once |
| Callback.Mad.StepCallback | drm4g/core/em_mad.py:199-215 | each step of the loop body is a step of the model, the failure path included |
| Callback.Mad.StepPoll | drm4g/core/em_mad.py:157-169 | answering POLL in its three steps |
| ThreadPool.PoolIsSafe | drm4g/utils/dynamic.py:53-75 | in every reachable state the counter is within its bounds, live workers are those counted less those lost, and each task is in exactly one of queued, running in one worker, finished |
| ThreadPool.PoolGrows | drm4g/utils/dynamic.py:92-101 | until a worker retires, the pool has one worker more for each task added, from its minimum to its maximum |
| ThreadPool.LostByRaising | drm4g/utils/dynamic.py:68-73 | as many workers are lost as tasks have raised |
| ThreadPool.StuckExactly | drm4g/utils/dynamic.py:53-75 | a waiting task will never be taken if and only if every counted worker was lost to a raising task |
| ThreadPool.NeverStuck | drm4g/utils/dynamic.py:81-104 | fewer raising tasks than the minimum number of workers never stop the pool |
| ThreadPool.SticksExactly | drm4g/utils/dynamic.py:55-65 | without raising tasks the pool can be stuck if and only if its minimum is 0 and workers retire or the maximum is 0 |
| ThreadPool.WorkDecreases | drm4g/utils/dynamic.py:53-75 | while a task waits, every step that adds none makes progress |
| ThreadPool.QueueDrains | drm4g/utils/dynamic.py:53-75 | so a stretch in which a task always waits and none is added is no longer than the work there was |
| ThreadPool.DynamicPool.BeginAdd | drm4g/utils/dynamic.py:96-101 | under the lock, a worker is started and counted if the maximum allows |
| ThreadPool.DynamicPool.EndTask | drm4g/utils/dynamic.py:68-75 | a raising task ends its worker and changes no counter |
| ArrayPool.ScanMeets | gridway-5.8/src/array/gw_array_pool.c:155-167 | what a scan finds: the first free slot, or that there is none, or that it passed the end |
| ArrayPool.ArraySubmitted | gridway-5.8/src/array/gw_array_pool.c:135-212 | the check of the job count is all it takes for every job to be allocated; the jobs get the next numbers and the array the next one |
| ArrayPool.KillKeeps | gridway-5.8/src/dm/gw_dm_action_kill.c:60-104 | killing a job deletes its task, and the array with its last task, and keeps all links right |
| ArrayPool.PoolsAgree | gridway-5.8/src/array/gw_array_pool.c:104-212 | in every reachable state the array count is the occupied slots, tasks less freed ones are the undeleted ones, and undeleted tasks and array jobs are in bijection |
| ArrayPool.NeverReused | gridway-5.8/src/job/gw_job_pool.c:367-407 | a job or array number once given is never given again |
| ArrayLaws.KillExactly | gridway-5.8/src/dm/gw_dm_action_kill.c:60-104 | a kill of a job that exists takes it from its table and its task from its array, the array only with its last task, and changes nothing else; any other kill is refused |
| ArrayLaws.JobsAreThoseLeft | gridway-5.8/src/job/gw_job_pool.c:367-513 | in every reachable state the jobs are those whose number was given and that were not killed since |
| ArrayLaws.JobsStay | gridway-5.8/src/array/gw_array_pool.c:172-200 | a job keeps its array, its task and the number of tasks as long as it exists |
| ArrayLaws.ArraysAreThoseWithJobs | gridway-5.8/src/array/gw_array.c:86-100 | in every reachable state an array exists if and only if one of its jobs does |
| ArrayPool.OverrunExactly | gridway-5.8/src/array/gw_array_pool.c:146-167 | the scan for an array slot can pass the end of its table if and only if there are fewer array slots than job slots, and some |
| ArrayPool.JobOverrunExactly | gridway-5.8/src/job/gw_job_pool.c:379-388 | the scan for a job slot can pass the end of its table if and only if the table has slots at all |
| ArrayPool.OverrunsAre | gridway-5.8/src/dm/gw_dm_action_allocate.c:66 | in every reachable state, exactly which submissions pass the end of a table |
| ArrayProcedures.GwArray.constructor | gridway-5.8/src/array/gw_array.c:20-50 | a new array has no tasks and every entry -1 |
| ArrayProcedures.GwArray.AddTask | gridway-5.8/src/array/gw_array.c:67-82 | the next entry gets the job, in place, and its number is returned; -1 when the guard holds; past the end exactly when the last number is the last entry's |
| ArrayProcedures.GwArray.DelTask | gridway-5.8/src/array/gw_array.c:86-100 | an entry is deleted once, and what remains is returned |
| ArrayProcedures.Daemon.AllocateJob | gridway-5.8/src/job/gw_job_pool.c:367-407 | the scan and the new job, -1 and no change, or an overrun exactly when the function says so |
| ArrayProcedures.Daemon.AllocateArray | gridway-5.8/src/array/gw_array_pool.c:135-212 | the check, the scan and the loop over the tasks give the pools the function says, or -1 and no change, or an overrun exactly when it says so |
| ArrayProcedures.Daemon.FreeArray | gridway-5.8/src/array/gw_array_pool.c:104-129 | an occupied slot is emptied and uncounted; anything else changes nothing |
| ArrayProcedures.Daemon.KillJob | gridway-5.8/src/dm/gw_dm_action_kill.c:60-104 | the job's slot, its task and, with the last task, the array |
| ClientPool.ReceiveAll | gridway-5.8/src/client/gw_client_job_status.c:261-289 | the table is emptied and each answer stored at its own number if it fits |
| ClientPool.StoredAtOwnId | gridway-5.8/src/client/gw_client_job_status.c:269-289 | an entry is an answer about its own number, and no answer that fits is missing |
| ClientPool.StoredIsLast | gridway-5.8/src/client/gw_client_job_status.c:269-289 | of several answers about one number the last one is stored |
| ClientPool.RebuildJobIds | gridway-5.8/src/client/gw_client_submit.c:362-366 | the scan writes in place what the function says, and leaves the table exactly when some task number does not fit |
| ClientPool.RebuiltIsLast | gridway-5.8/src/client/gw_client_submit.c:362-366 | whatever the table holds, of several entries of the array with one task number the last one gives the job |
| ClientPool.ClientRebuilds | gridway-5.8/src/client/gw_client_submit.c:354-368 | in every reachable state, for answers in any order, the scan stays in its table and gives each undeleted task its job, leaving the rest |
| ClientPool.FreshArrayRebuilt | gridway-5.8/src/client/gw_client_submit.c:354-368 | right after a submission the client has the array's table exactly |
| ClientSignal.StatesCovered | gridway-5.8/include/gw_job.h:70-92 | the two switches name every state but LIMIT, and none twice; the first those before the prolog, stopped or over |
| ClientSignal.SignalArray | gridway-5.8/src/client/gw_client_signal.c:176-271 | what is sent and returned: unknown array exactly when nothing was sent, failed when some signal failed |
| ClientSignal.SignalsOnceIdleFirst | gridway-5.8/src/client/gw_client_signal.c:192-262 | each job of the array not in LIMIT is signalled exactly once, no other job is, and idle jobs come before active ones |
| ClientSignal.SignalsTheArray | gridway-5.8/src/client/gw_client_signal.c:186-268 | with the table the answers give, the jobs signalled are those answered for the array, and it is unknown exactly when there are none |
| ClientWait.TestAny | gridway-5.8/src/client/gw_client_wait.c:217-240 | success with the first finished job, put in the first place, if no error comes before; the first error otherwise; timeout if none is finished |
| ClientWait.TestAll | gridway-5.8/src/client/gw_client_wait.c:241-263 | success exactly when every job is in ZOMBIE or FAILED, each with its exit code; otherwise the first other job decides |
| ClientWait.CollectAll | gridway-5.8/src/client/gw_client_wait.c:382-446 | one event per job; if the first event that is no reply is a timeout or a broken connection that is returned, otherwise the code of the last failed reply or success; the codes are those of the successful replies heard; on success each of distinct jobs has the code of its own reply |
| ClientWait.EndingReturns | gridway-5.8/src/client/gw_client_wait.c:395-446 | the return code by the positions of the events: the first that is no reply decides, else the last failed reply |
| ClientWait.CollectAny | gridway-5.8/src/client/gw_client_wait.c:328-380 | no job succeeds at once; otherwise one reply decides and names the job |
| ClientWait.GatherAt | gridway-5.8/src/client/gw_client_wait.c:431-441 | for every sequence of replies: the first slot of a job has the code of the last successful reply about it, or is as it was, and later slots are as they were |
| ClientWait.EveryJobGetsItsCode | gridway-5.8/src/client/gw_client_wait.c:382-446 | when the wait for all of distinct jobs returns success, each job has the code of its own reply, in whatever order the replies came |
| ClientWait.OrderDoesNotMatter | gridway-5.8/src/client/gw_client_wait.c:382-446 | any permutation of the replies gives the same exit codes |
| ClientWait.AllCodesSetExactly | gridway-5.8/src/client/gw_client_wait.c:433-438 | every exit code is set, whatever the memory held, if and only if the jobs are distinct |
| Accounting.PutKeeps | gridway-5.8/src/acct/gw_acct.c:257-287 | a put keeps both indexes exact |
| Accounting.WritesHistory | gridway-5.8/src/acct/gw_acct.c:354-426 | a job gets a record for every step of its history that has none, and no record changes |
| AccountingLaws.EveryStepIsStored | gridway-5.8/src/acct/gw_acct.c:354-426 | after a job is written each step of its history is stored under its start time, number and place, with its owner, host, rank, reason and times, and found under both names |
| Accounting.WriteKeeps | gridway-5.8/src/acct/gw_acct.c:412-426 | writing a job keeps both indexes exact |
| Accounting.RewriteExactly | gridway-5.8/src/acct/gw_acct.c:397-426 | writing two histories of a job one after the other equals writing the second alone if and only if the second agrees with the first wherever that made a record |
| Accounting.NewestIsLost | gridway-5.8/src/job/gw_history.c:164-165 | a job written, given a new record at the head and written again has its oldest record twice and its newest not at all |
| Accounting.JoinIsScan | gridway-5.8/src/acct/gw_acct.c:513-535 | the join of the indexes meets exactly the records a scan finds, and is refused exactly when the host or the user has none |
| Accounting.SumPick | gridway-5.8/src/acct/gw_acct.c:539-609 | the sum over a cursor does not depend on the order in which it gives the records |
| Accounting.UserReportTotal | gridway-5.8/src/acct/gw_acct.c:627-729 | the rows of a user's report add up to the scan of that user's records |
| Accounting.HostReportTotal | gridway-5.8/src/acct/gw_acct.c:735-837 | the rows of a host's report add up to the scan of that host's records |
| Accounting.MarginalsAgree | gridway-5.8/src/acct/gw_acct.c:627-837 | for every time and counter, all users' reports and all hosts' reports add up to the same, the scan of all records |
| Accounting.TotalsCount | gridway-5.8/src/acct/gw_acct.c:566-608 | `tot` counts the records from the given time on, and the nine counters miss exactly those without a named reason |
| AccountingLaws.EachReasonCounted | gridway-5.8/src/acct/gw_acct.c:568-608 | each of the nine counters is the number of records from the given time on with the reason it is named for |
| AccountingLaws.ExecutionAdded | gridway-5.8/src/acct/gw_acct.c:547-562 | execution and suspension are the sums of entries 4 and 2 of the times of the counted records |
| AccountingLaws.TransferAdded | gridway-5.8/src/acct/gw_acct.c:432-445 | transfer adds, for each counted record, how long its prolog and its epilog took, up to the exit time where no end was noted, and nothing without a start |
| Accounting.TotalIsSumExactly | gridway-5.8/src/acct/gw_acct.c:566-608 | `tot` is the sum of the nine counters if and only if every counted record has a named reason |
| AccountingProcedures.AcctRow.Accumulate | gridway-5.8/src/acct/gw_acct.c:541-608 | one record's share is added in place, or nothing before the given time; what shares add up to is told by `EachReasonCounted`, `ExecutionAdded` and `TransferAdded` |
| AccountingProcedures.AcctDb.WriteRecord | gridway-5.8/src/acct/gw_acct.c:354-408 | the put that never overwrites, with the callbacks of both indexes |
| AccountingProcedures.AcctDb.WriteJob | gridway-5.8/src/acct/gw_acct.c:412-426 | the loop over the history |
| AccountingProcedures.AcctDb.JoinSearch | gridway-5.8/src/acct/gw_acct.c:449-621 | -1 and an untouched row if the host or user is unknown; otherwise the row counts the records a scan finds from the given time on, in all and by reason, and adds up their times |
| AccountingProcedures.AcctDb.ByUser | gridway-5.8/src/acct/gw_acct.c:627-729 | -1 on an empty store, no rows for an unknown user, otherwise one row per host with the join of host and user |
| AccountingProcedures.AcctDb.ByHost | gridway-5.8/src/acct/gw_acct.c:735-837 | the same with hosts and users exchanged |

## Left out

- Text handling before the docopt parser (sections, defaults, `Tokens.from_pattern`, `formal_usage`): the model starts from tokens and an option table. Tokens are taken to be non-empty with brackets apart, as the splitter makes them, so `token in '(['` is a test for one of the two brackets.
- Help and version printing, error message texts, and `str.isupper` beyond ASCII letters.
- UsageParser.ParsePrintParse: does not cover `...` after a cluster of several options, a command called `...` and an option called `--`, none of which the printed form can express.
- OptionPrograms.OptionsProgram: one usage, and options without arguments; for other usages `OptionPrograms.ProgramReads` says what is matched, `EndToEnd.ProgramAcceptsExactly` what is accepted and `EndToEnd.SettledProgramReportsEverything` what is reported.
- Reporting.SettledIsFaithful: the condition on the pattern is sufficient, not necessary; the exact condition for a pattern and an argv is `Reporting.RightExactly`.
- HeapMatcher.HeapAgrees: one direction, for any starting state; the exact condition for docopt's own starting state is `Reporting.RightExactly`.
- Greedy.GreedyIsComplete: the condition on the pattern is sufficient, not necessary; an optional word before a required one is shut out even where some commands in between would keep them apart.
- Capture.NothingOverwritten: in the value reading; for shared objects `Reporting.RightExactly` says when it holds.
- What CANCEL does to the remote job: it shows in the statuses seen later.
- Callback.CallbacksAreExpected: what it says of the list is for runs in which no JID is put while it is listed; the reports are right in every run by `CallbackRuns.ReportsAreExpected`, and the other puts are covered by `CallbackRuns.LawExactly`, `Callback.ImpolitePutLosesJob`, `Callback.DeleteHitsNewJob` and `CallbackRuns.AheadIsReported`.
- `do_INIT`, `do_FINALIZE`, submission itself, and what of `do_SUBMIT` runs before the job is put; the failure answers of SUBMIT and RECOVER, which put nothing.
- ThreadPool.PoolIsSafe: one pool per process, because the counters are module globals.
- ProcessTree.Host.JobCancel: no process starts or ends by itself meanwhile, and init is not in the job's tree.
- Mutexes, malloc failures, sockets, `select`, clocks, signals: locks decide what a step is, the rest are parameters or absent. A wait that times out is an event.
- `gw_job_pool_allocate_by_id`, used in recovery, and the kill of a running job before it can be freed.
- ArrayPool.PoolsAgree: for runs up to the first scan that passes the end of its table, after which the C program is undefined; `ArrayPool.OverrunsAre` tells exactly where that is.
- ClientPool.RebuildJobIds: what is in the table once a write has left it.
- DocoptProcedures.Run: the children of `[options]` are a parameter, in any order, as the source takes them from a set.
- A failed refresh of the client's table, which `gw_client_submit.c:358` ignores: the answers are taken to be complete.
- Berkeley DB (cursors, errors, sort order of names) and the truncation of long names: the store is a map, an index a map to key sets, and rows come in any order.
- `gw_acct_join_search_by_host_and_user`, a single join, and `gw_client_dep_cp`: nothing hard.
- Transform.Transform: that the tree it is given stays as it is holds by construction, since it runs on the tree's value; `FixPass.FixRepeating` reads that value from the heap.
- Integer widths of GridWay's counters and times: unbounded here.
- SSH, scp, the other batch-system managers, scheduler, templates, XML and printing code.
