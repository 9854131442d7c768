# Models of the pip_plugin and contrib algorithms

Dafny models of the algorithmic cores of this repository, with proofs about them. One module stands
for one source file or one layer of it. Code that changes things in place is a method over arrays or
over a class with the same fields; code made of recursion and expressions is a function; each loop has
its invariants. `dafny verify dfyconfig.toml` checks everything.

* **ltree** (`Lquery`, `LexOrder`, `LtreeOrder`, `LtreeGist`): the backtracking matcher of `lquery`
  with the static variable through which it hands its window to the recursive call; the order of label
  paths; the keys of the GiST index, their bounds and signatures, and the search for all its operators
  but full-text ones.
* **PIP connected sets and presampling** (`CsetModel`, `CsetSort`, `CsetShape`, `CsetVisit`, `Cset`,
  `Presample`): union by size with path compression over intrusive child lists and a search tree, and
  the lazy trie of 32 counters that emits sorted random numbers. The trie is proved equal to an eager
  one over the same random bits.
* **PIP equations, atoms and sampling** (`Eqn`, `Clauses`, `Solver`, `Sampling`): trees flattened into
  one buffer with 16-bit offsets, their relocation and composition; the grouping of variables by the
  atoms they share; bounds of one variable from linear atoms; rejection sampling group by group.
* **intarray** (`IntTool`, `IntCover`, `IntCompress`, `IntOptimal`, `IntSign`, `IntSearch`,
  `BoolQuery`, `BoolParse`, `BoolLex`, `BoolGrammar`, `BoolText`): lossy compression of keys into ranges and when it is optimal;
  boolean queries from text, with the exact set of texts accepted, to postfix to links to evaluation and
  back to text; the search of both
  index classes.
* **hstore** (`Hstore`, `HstoreParse`, `HstoreText`, `HstoreIO`): the packed sorted map, its operations,
  its parser with the exact set of texts accepted, and its printer.
* **fuzzystrmatch** (`Levenshtein`): the dynamic program over two rows and the metric it computes.
* `Basics`, `Bags`, `Machine`, `BitSign` and `CString` hold what several modules share: stock
  definitions, sums of bags, integer widths, bit vectors in bytes, and the reading of C strings.

Where the code does not do what it is for on all inputs, the model keeps the code's behaviour and the
exact condition is proved instead:

* adjacent wildcards of a query overwrite each other's window (`Lquery.AgreesIffHarmless`);
* the product that `ltree_compare` returns wraps for paths 14654 levels apart
  (`LtreeOrder.LtreeCompare`);
* differences of key elements wrap in the compression (`IntOptimal.CompressIsMinimalIff`), the number
  of integers in the ranges wraps too (`IntCompress.InternalSize`), and a range that ends at the
  largest integer is never left by the loop that expands it (`IntCompress.RunEndsIff`);
* an array of 200 integers or more is indexed with only a notice, and then read as ranges
  (`IntSearch.LongEntryKeepsMatchesIff`, `IntSearch.LongOddEntryKeepsMatchesIff`);
* the index over integers, whose answers are not rechecked, takes empty arrays for matches of queries
  that are true of nothing (`IntSearch.Search`);
* left offsets of queries and the offsets of equations are kept in 16 bits
  (`BoolQuery.LinksHoldIffOffsetsFit`, `Eqn.JoinEE`);
* one pending operator only is applied behind a closing parenthesis (`BoolParse.CompiledIffFits`, with
  `BoolParse.MisgroupedQuery` and `BoolParse.UnbalancedQuery`), and 16 may be pending
  (`BoolParse.PlainCompiled`);
* a negation overwrites the accumulators of the simplifier (`Solver.RightIffNothingLost`,
  `Solver.SumRightIff`).

Numbers are reals without NaN in equations and samples. Random bits and draws are given as functions
from a position to a value. Signed overflow, which C leaves undefined, is modelled as two's complement
wrap-around where the text above or a contract says so, and integers are unbounded elsewhere.

## Model

| member | source | states |
|---|---|---|
| Lquery.GetLexeme | postgresql-8.3.3/contrib/ltree/lquery_op.c:30-46 | returns the first maximal run without underscores at or after the start, and none exactly when no such run is left |
| Lquery.CompareSubnode | postgresql-8.3.3/contrib/ltree/lquery_op.c:48-84 | true exactly when every word of the variant matches some word of the level |
| Lquery.CheckLevel | postgresql-8.3.3/contrib/ltree/lquery_op.c:86-115 | true exactly when some variant accepts the level under its own flags |
| Lquery.AcceptsMeans | postgresql-8.3.3/contrib/ltree/lquery_op.c:48-115 | a variant accepts a label that is its name, or begins with it under the flag `*`, up to the case of ASCII letters under `@`; under `%` this is asked of each piece between underscores of the name and some piece of the label |
| Lquery.CheckCond | postgresql-8.3.3/contrib/ltree/lquery_op.c:137-281 | the recursive matcher with its static window decides the window meaning of what is left of query and path; `muse` is false again on every return |
| Lquery.LtqRegex | postgresql-8.3.3/contrib/ltree/lquery_op.c:283-308 | a match is a cut of the path among the query's items, each run of adjacent wildcards counting as its last one only; for harmless runs this is the plain meaning |
| Lquery.WindowIsSplit | postgresql-8.3.3/contrib/ltree/lquery_op.c:203-261 | the window meaning is the plain cut meaning of the query whose adjacent wildcards are reduced to the last |
| Lquery.AgreesIffHarmless | postgresql-8.3.3/contrib/ltree/lquery_op.c:237-241 | the matcher gives the plain meaning on all paths that can be stored if and only if each wildcard directly before another one takes no level, or needs none while the last of the run can take all that a path can spare; for queries that match anything, and bound the length or have no name for some label |
| Lquery.HarmlessAgrees | postgresql-8.3.3/contrib/ltree/lquery_op.c:237-241 | the first half, for every query |
| Lquery.AgreesIffIdleStars | postgresql-8.3.3/contrib/ltree/lquery_op.c:237-241 | for queries that bound the length of a path: if and only if every wildcard directly before another one is `{0,0}` |
| Lquery.OpenStarsAgree | postgresql-8.3.3/contrib/ltree/lquery_op.c:237-241 | `*.*` comes out right on every path that can be stored |
| Lquery.AdjacentStarsCounterexample | postgresql-8.3.3/contrib/ltree/lquery_op.c:239-240 | `*{1}.*{1}` accepts a path of one level |
| LtreeOrder.LtreeCompare | postgresql-8.3.3/contrib/ltree/ltree_op.c:59-85 | negative, zero or positive as the first path comes before, is, or comes after the second, if and only if the product for the difference in depth does not wrap 32 bits to the wrong sign |
| LtreeOrder.PathOrderMeans | postgresql-8.3.3/contrib/ltree/ltree_op.c:59-85 | a path comes before another one when at the first level where they differ its label comes before, or it ends there |
| LtreeOrder.PathsOrdered | postgresql-8.3.3/contrib/ltree/ltree_op.c:59-85 | the order is total, zero only for equal paths, transitive, and kept when both paths are cut to n levels |
| LtreeOrder.ShallowOrdered | postgresql-8.3.3/contrib/ltree/ltree_op.c:84 | no comparison of a path of at most 14653 levels wraps |
| LtreeOrder.DeepMisordered | postgresql-8.3.3/contrib/ltree/ltree_op.c:84 | with 14654 levels more than the empty path, a path is taken to come before it |
| LexOrder.LexIsOrder | postgresql-8.3.3/contrib/ltree/ltree_op.c:59-85 | lexicographic order over a total order is a total order |
| LexOrder.StrNCmpOrders | postgresql-8.3.3/contrib/ltree/ltree_op.c:70-76 | strncmp over the shorter length, then the lengths, is the lexicographic order of names |
| LexOrder.StringOrderMeans | postgresql-8.3.3/contrib/ltree/ltree_op.c:70-76 | a name comes before another one when at the first place where they differ its character is less, or it ends there |
| LtreeOrder.InnerIsParent | postgresql-8.3.3/contrib/ltree/ltree_op.c:153-175 | true exactly when one path is a beginning of the other |
| LtreeOrder.LcaInner | postgresql-8.3.3/contrib/ltree/ltree_op.c:431-494 | the longest path that is a proper ancestor of all, and none exactly when some path is empty |
| LtreeGist.Hashing | postgresql-8.3.3/contrib/ltree/ltree_gist.c:151-165 | sets just the hash bits of the path's levels, keeping those already set |
| LtreeGist.Gather | postgresql-8.3.3/contrib/ltree/ltree_gist.c:187-208 | after each key the bits are those before and those of the key, unless some key has every bit |
| LtreeGist.LtreeUnion | postgresql-8.3.3/contrib/ltree/ltree_gist.c:167-249 | the least key over the entries: it allows every path any of them allows, its bounds are bounds of entries, and it has no other bits |
| LtreeGist.SortByLeft | postgresql-8.3.3/contrib/ltree/ltree_gist.c:298-309 | the entries in the order of their left paths |
| LtreeGist.LtreePickSplit | postgresql-8.3.3/contrib/ltree/ltree_gist.c:285-440 | the entries, sorted by their left paths, are cut in the middle and each half gets the least key over it |
| LtreeGist.GistIsParent | postgresql-8.3.3/contrib/ltree/ltree_gist.c:442-460 | true exactly when some beginning of the query lies between the bounds; the query's depth is restored |
| LtreeGist.GistIsChild | postgresql-8.3.3/contrib/ltree/ltree_gist.c:471-494 | true exactly when the query lies between the bounds cut to its depth |
| LtreeGist.ChildKept | postgresql-8.3.3/contrib/ltree/ltree_gist.c:471-494 | a key that allows a descendant of the query is not rejected |
| LtreeGist.CountFirstGood | postgresql-8.3.3/contrib/ltree/ltree_io.c:453-482 | counts the leading levels that only one exact name can match |
| LtreeGist.GistTqcmp | postgresql-8.3.3/contrib/ltree/ltree_gist.c:535-562 | the sign of the result orders the path, cut to the good levels, against their names |
| LtreeGist.GistBetween | postgresql-8.3.3/contrib/ltree/ltree_gist.c:564-577 | true exactly when the good names lie between the bounds cut to as many levels |
| LtreeGist.GistQe | postgresql-8.3.3/contrib/ltree/ltree_gist.c:496-533 | true exactly when every bit is set or each level of exact names has a name whose bit is set |
| LtreeGist.MatchKept | postgresql-8.3.3/contrib/ltree/ltree_gist.c:496-577 | a key that allows a path which the matcher accepts passes both of these tests |
| LtreeGist.LeafConsistent | postgresql-8.3.3/contrib/ltree/ltree_gist.c:623-721 | on a leaf the answer is that of the operator |
| LtreeGist.InnerConsistent | postgresql-8.3.3/contrib/ltree/ltree_gist.c:623-721 | above the leaves the answer is exactly the bit test and the bounds test of the operator, and a key is rejected only if no path it allows matches, for comparisons, ancestor, descendant and lquery |
| LtreeGist.Insert | postgresql-8.3.3/contrib/ltree/ltree_gist.c:167-249 | inserting through any path of pages keeps every key above what is below it, and adds just the new path |
| LtreeGist.SplitPage | postgresql-8.3.3/contrib/ltree/ltree_gist.c:285-440 | two pages with the keys of the split are above what is below them and hold just the paths of the page |
| LtreeGist.Build | postgresql-8.3.3/contrib/ltree/ltree_gist.c:167-440 | after any run of insertions, page splits and root splits every key is above what is below it, and the paths stored are those inserted |
| LtreeGist.Search | postgresql-8.3.3/contrib/ltree/ltree_gist.c:623-721 | the index search returns the same list as looking at every stored path |
| CsetModel.RemoveKeepsLists | pip_plugin/src/list_utils.c:41-53 | removing a child leaves every child list doubly linked, in order and complete but for that child |
| CsetModel.AppendKeepsLists | pip_plugin/src/list_utils.c:15-26 | appending a loose element makes all child lists agree with the group roots again |
| CsetModel.CompressKeepsForest | pip_plugin/src/list_utils.c:180-200 | moving an element below its root keeps ranks, roots and class sizes |
| CsetModel.UnionKeepsForest | pip_plugin/src/list_utils.c:216-228 | hanging the smaller root below the larger one keeps them too, with 2^rank at most the class size |
| CsetModel.DepthIsLogarithmic | pip_plugin/src/list_utils.c:180-229 | 2^depth of an element is at most the size of its class, whatever was compressed |
| CsetModel.SameRootIffConnected | pip_plugin/src/list_utils.c:202-236 | two elements have the same root exactly when the equivalence closure of the linked pairs relates them |
| CsetSort.LookupFinds | pip_plugin/src/list_utils.c:134-150 | looking an item up in an ordered tree finds it exactly when it is there |
| CsetSort.HangInserts | pip_plugin/src/list_utils.c:152-165 | storing the new node through the pointer where the search ended inserts it into the tree |
| CsetSort.InOrderOnce | pip_plugin/src/list_utils.c:238-248 | the in-order walk lists every member once |
| CsetSort.InOrderDescends | pip_plugin/src/list_utils.c:238-248 | and the greater variable before the lesser one |
| CsetVisit.VisitsClassOnce | pip_plugin/src/list_utils.c:272-290 | the walk through the child lists below a root meets each member of its class once |
| Cset.ConnectedSet.FindGroupRoot | pip_plugin/src/list_utils.c:180-200 | returns the root of the class; unless the set is locked every element on the way up hangs directly below the root afterwards, and no other group root changes; all invariants are kept |
| Cset.ConnectedSet.Add | pip_plugin/src/list_utils.c:152-165 | a new item becomes a class of its own, an old one changes nothing; every invariant is kept |
| Cset.ConnectedSet.Link | pip_plugin/src/list_utils.c:202-229 | adds the pair to the linked pairs if both items are members and the set is not locked, and changes nothing otherwise; every invariant is kept |
| Cset.ConnectedSet.TestLink | pip_plugin/src/list_utils.c:231-236 | true exactly when the closure of the linked pairs relates the items |
| Cset.ConnectedSet.GroupSize | pip_plugin/src/list_utils.c:297-301 | the number of members of the class |
| Cset.ConnectedSet.DepthBound | pip_plugin/src/list_utils.c:180-229 | the bound on depth holds of every member in every valid state |
| Cset.ConnectedSet.IterateGroup | pip_plugin/src/list_utils.c:285-290 | visits the members of the class once each, in an order that a locked set repeats |
| Cset.ConnectedSet.IterateRoots | pip_plugin/src/list_utils.c:266-270 | visits each class once, through its root, from the greatest variable down |
| Presample.GenSorted | pip_plugin/src/list_utils.c:337-434 | the eager trie holds as many numbers as asked, in order and below its prefix |
| Presample.EverySortedList | pip_plugin/src/list_utils.c:337-434 | every sorted list of numbers in range is the outcome of some random bits |
| Presample.RestCounts | pip_plugin/src/list_utils.c:366-416 | the current count and the counts postponed at unset path bits are the number of values still to come |
| Presample.PresampleTree.Init | pip_plugin/src/list_utils.c:346-363 | what remains is the eager trie over the same random bits |
| Presample.PresampleTree.FindNext | pip_plugin/src/list_utils.c:379-416 | moves to the next leaf that holds anything without changing what remains, or tells that nothing does |
| Presample.PresampleTree.Next | pip_plugin/src/list_utils.c:425-434 | returns the least value still to come, where the path now stands, and removes it; `done` is written only when the leaf was empty |
| Presample.RestSorted | pip_plugin/src/list_utils.c:337-434 | what a state has still to deliver is in order and not below its path |
| Presample.PresampleTree.Load | pip_plugin/src/list_utils.c:366-372 | after loading, the number still to come is what the saved counts say, and the values come in order and not below the saved path |
| Presample.DrawInterrupted | pip_plugin/src/list_utils.c:366-377 | a run that is saved and goes on elsewhere with other random bits still gives the requested number of values in order |
| Presample.DrawAll | pip_plugin/src/list_utils.c:337-434 | a whole run returns exactly the requested number of values, in order, within 32 bits, and reports the end on every later call |
| Eqn.UpdatePointers | pip_plugin/src/type/eqn.c:298-325 | a flattened tree read from one base is what is read from the new base afterwards if and only if all its new offsets fit 16 bits; nothing else changes |
| Eqn.CopyHolds | pip_plugin/src/type/eqn.c:341-347 | a copied buffer holds the moved tree |
| Eqn.Evaluate | pip_plugin/src/type/eqn.c:207-268 | evaluating a buffer gives the value of the tree it holds |
| Eqn.EvaluateAtom | pip_plugin/src/type/atom.c:171-184 | an atom holds exactly when its left side is the greater one, its offsets counted from its own data |
| Eqn.EvaluateEqn | pip_plugin/src/type/eqn.c:236-239 | an equation has the value of the expression its data hold |
| Eqn.JoinEE | pip_plugin/src/type/eqn.c:327-358 | the composed buffer holds the joined tree if and only if all its offsets fit 16 bits, as they do in 32768 bytes |
| Eqn.JoinEF | pip_plugin/src/type/eqn.c:360-393 | the same with a number as the left operand |
| Eqn.Negate | pip_plugin/src/type/eqn.c:395-423 | the same for the negated tree |
| Eqn.ComposeEE | pip_plugin/src/type/eqn.c:327-358 | in 32768 bytes the composed buffer holds the operation on the two expressions |
| Eqn.ComposeEF | pip_plugin/src/type/eqn.c:360-393 | the same with a number as the left operand |
| Eqn.ComposeNega | pip_plugin/src/type/eqn.c:395-423 | the composed buffer holds the negated expression |
| Eqn.Difference | pip_plugin/src/funcs/pip_eqn.c:299-309 | a composed difference has the value of the difference |
| Eqn.ComposeAtom | pip_plugin/src/type/atom.c:229-250 | the composed atom compares the two trees |
| Eqn.AppendSlot | pip_plugin/src/type/eqn.c:455-492 | the sum gets one more term, left open, whether or not it was a sum before |
| Eqn.FillInConstraints | pip_plugin/src/type/eqn.c:494-507 | a chain of constraints, each leading to its copied atom and to the next place |
| Eqn.ChainTree | pip_plugin/src/type/eqn.c:494-507 | the chain before a tree has the tree's value if all atoms hold and zero otherwise |
| Eqn.CompileSum | pip_plugin/src/funcs/pip_eqn.c:389-422 | the value is that of the left equation plus that of the right one if all atoms hold |
| Clauses.ValueOfVars | pip_plugin/src/type/eqn.c:207-268 | a value depends on the expression's own variables only |
| Clauses.HasVar | pip_plugin/src/type/eqn.c:273-296 | true exactly when the variable occurs, inside atoms too |
| Clauses.ToCset | pip_plugin/src/type/eqn.c:23-69 | adds just the expression's variables, relates them all to the one returned, and links no others |
| Clauses.ClauseToCset | pip_plugin/src/type/atom.c:155-169 | the members are the clause's variables, and the classes are those that sharing an atom generates |
| Clauses.GatherAtoms | pip_plugin/src/type/atom.c:201-217 | the atoms with the variable are brought to the front of those not yet placed; nothing is lost and what was placed stays |
| Clauses.GroupAtoms | pip_plugin/src/type/atom.c:219-227 | the atoms placed are exactly those that mention a variable of the group |
| Sampling.SampleSet.VarToId | pip_plugin/src/type/sample_set.c:70-77 | the first column of the name, or -1 exactly when there is none |
| Sampling.SampleSet.VarVal | pip_plugin/src/type/sample_set.c:114-124 | the value kept in the row, or the one from the row's seed if none is |
| Sampling.PrefixVal | pip_plugin/src/type/sample_set.c:70-124 | columns named later do not change a variable's value |
| Sampling.TestClause | pip_plugin/src/sample/csampling.c:198-207 | true exactly when all atoms of the segment hold in the row |
| Sampling.Sampler.DrawRow | pip_plugin/src/sample/csampling.c:36-44 | the group's columns get the next draws, one after another; nothing else changes |
| Sampling.TryTested | pip_plugin/src/sample/csampling.c:50-63 | the test of the row is the test of the atoms on the values just drawn |
| Sampling.Sampler.DrawUntil | pip_plugin/src/sample/csampling.c:50-63 | the row keeps the last of its tries, each of consecutive draws in visiting order; the tries before it fail, and it satisfies the group's atoms or reaches the cap |
| Sampling.Sampler.RejectionSample | pip_plugin/src/sample/csampling.c:46-75 | every row is tried anew, and its cells hold the draws of the try it keeps |
| Sampling.WholeInGroup | pip_plugin/src/type/atom.c:155-169 | an atom that mentions one variable of a group has all its variables there |
| Sampling.SegmentsMore | pip_plugin/src/type/atom.c:219-227 | the segments of earlier groups stay just the atoms that mention them |
| Sampling.RowsMore | pip_plugin/src/sample/csampling.c:133-162 | later groups leave the atoms of earlier ones satisfied |
| Sampling.Sampler.SampleGroup | pip_plugin/src/sample/csampling.c:133-162 | after a group its atoms, and those before, hold in every row unless one was given up |
| Sampling.SampleByClause | pip_plugin/src/sample/csampling.c:164-196 | the clause is a permutation cut into one segment per group; every row keeps for each group the first try that satisfies the group's atoms, unless it was given up after ten million tries; if none was, every row satisfies every atom that mentions a variable |
| Sampling.EveryCellOnce | pip_plugin/src/sample/csampling.c:36-63 | every cell of the matrix holds a draw, and no two cells the same one |
| Solver.SimplifyIsLine | pip_plugin/src/type/eqn.c:536-586 | if every negation is reached with zero accumulators, the line found is the expression |
| Solver.LostIsMissing | pip_plugin/src/type/eqn.c:536-586 | the line found and what negations overwrote make up the expression and what was there before |
| Solver.RightIffNothingLost | pip_plugin/src/type/eqn.c:536-586 | an expression is simplified rightly for all values if and only if all that negations overwrote adds up to zero |
| Solver.SumRightIff | pip_plugin/src/type/eqn.c:569-577 | a sum of terms, each right by itself, is simplified rightly for all values if and only if the terms before the last negated one add up to zero |
| Solver.DifferenceRightIff | pip_plugin/src/type/eqn.c:569-577 | a composed difference of two sides that are right is simplified rightly for all values if and only if its left side is zero |
| Solver.ThreeMinusVariable | pip_plugin/src/type/eqn.c:569-577 | 3 - x is taken to be -x, which is wrong at every value |
| Solver.Simplify1Var | pip_plugin/src/type/eqn.c:536-586 | the accumulators of the recursion over the buffer, and when it gives up |
| Solver.SolveBound | pip_plugin/src/sample/solver.c:15-30 | gives up exactly when a side is not linear or the variable drops out; otherwise, if no negation overwrote anything, the atom holds exactly on the side of the bound |
| Solver.SolveCdfBounds | pip_plugin/src/sample/solver.c:32-60 | with tight, and if no negation overwrote anything, a value satisfies all atoms if and only if it lies strictly between the bounds; without tight, it lies between them if it does |
| IntTool.ISort | postgresql-8.3.3/contrib/intarray/_int_tool.c:190-219 | sorts in place and tells exactly whether some element occurs twice |
| IntTool.Unique | postgresql-8.3.3/contrib/intarray/_int_tool.c:279-299 | compacts a sorted array to its distinct elements |
| IntTool.Prepare | postgresql-8.3.3/contrib/intarray/_int.h:50-55 | the sorted elements, each once |
| IntTool.InnerUnion | postgresql-8.3.3/contrib/intarray/_int_tool.c:75-130 | merging two keys gives the sorted union |
| IntTool.Union | postgresql-8.3.3/contrib/intarray/_int_gist.c:97-132 | the key of a page holds the elements of all entries, sorted, each once |
| IntTool.PickSplit | postgresql-8.3.3/contrib/intarray/_int_gist.c:361-549 | every entry goes to one page, each page keeps its seed, and its key is the union of its entries |
| IntTool.CheckConditionArr | postgresql-8.3.3/contrib/intarray/_int_bool.c:234-254 | binary search finds exactly the elements |
| IntCompress.Compress | postgresql-8.3.3/contrib/intarray/_int_gist.c:137-215 | a key of 200 integers or more becomes 100 ranges, having closed no gap that looked larger than one left open |
| IntCompress.InternalSize | postgresql-8.3.3/contrib/intarray/_int_tool.c:265-276 | the sum the code keeps in 32 bits is the number of integers in the ranges if and only if that number is at most 2147483647 |
| IntCompress.Decompress | postgresql-8.3.3/contrib/intarray/_int_gist.c:217-280 | a strictly rising array of just the integers in the ranges |
| IntCompress.RunEndsIff | postgresql-8.3.3/contrib/intarray/_int_gist.c:262-271 | the inner loop ends if and only if the range does not end at the largest integer |
| IntOptimal.RangesCover | postgresql-8.3.3/contrib/intarray/_int_gist.c:180-210 | the ranges cover the key |
| IntOptimal.GreedyIsMinimal | postgresql-8.3.3/contrib/intarray/_int_gist.c:180-210 | when all differences fit 32 bits, no cover with as many ranges holds fewer integers |
| IntOptimal.WrappedIsNotMinimal | postgresql-8.3.3/contrib/intarray/_int_gist.c:195-203 | when one does not fit, some cover with as many ranges holds fewer |
| IntOptimal.CompressIsMinimalIff | postgresql-8.3.3/contrib/intarray/_int_gist.c:180-210 | the cover stored is a smallest one if and only if all adjacent differences fit 32 bits |
| IntOptimal.CompressedIsStored | postgresql-8.3.3/contrib/intarray/_int_gist.c:180-210 | what compression stores is what decompression expects |
| IntSign.HashIsRemainder | postgresql-8.3.3/contrib/intarray/_int.h:78 | the hash is the remainder of the integer read without a sign |
| IntSign.HashArray | postgresql-8.3.3/contrib/intarray/_intbig_gist.c:141-179 | just the hash bits of the array's elements |
| IntSign.UnionSigns | postgresql-8.3.3/contrib/intarray/_intbig_gist.c:259-302 | a bit is set exactly when some entry has it |
| IntSign.CompressSign | postgresql-8.3.3/contrib/intarray/_intbig_gist.c:180-208 | keeps the meaning, and stores the flag alone exactly when every bit is set |
| BoolQuery.StackAcceptsPostfix | postgresql-8.3.3/contrib/intarray/_int_bool.c:265-292 | stack evaluation gives a value exactly for the postfix forms of trees, and it is the tree's meaning |
| BoolQuery.OnePostfixTree | postgresql-8.3.3/contrib/intarray/_int_bool.c:403-431 | an array is the postfix form of one tree only |
| BoolQuery.FindOprnd | postgresql-8.3.3/contrib/intarray/_int_bool.c:403-431 | links every operator to its left operand, leaves everything else, and stops before the subquery |
| BoolQuery.LinksHoldIffOffsetsFit | postgresql-8.3.3/contrib/intarray/_int_bool.c:424-430 | the stored links lead to the operands if and only if every right operand has at most 32767 items |
| BoolQuery.FinishQuery | postgresql-8.3.3/contrib/intarray/_int_bool.c:463-482 | the array made of the list is linked, and the position ends at -1 |
| BoolQuery.Execute | postgresql-8.3.3/contrib/intarray/_int_bool.c:265-292 | following the links and skipping decided operands gives the tree's meaning, with and without negation |
| BoolQuery.ExecConsistent | postgresql-8.3.3/contrib/intarray/_int_bool.c:307-320 | equals stack evaluation over the integers of the key |
| BoolQuery.BoolOp | postgresql-8.3.3/contrib/intarray/_int_bool.c:373-401 | holds exactly when the array is not empty and the query is true of its elements |
| BoolQuery.QueryExtract | postgresql-8.3.3/contrib/intarray/_int_gin.c:15-39 | the integers of the query's items, in order |
| BoolQuery.GinConsistent | postgresql-8.3.3/contrib/intarray/_int_bool.c:336-358 | with the answers for those integers in that order it equals direct execution |
| IntSearch.DecompressKey | postgresql-8.3.3/contrib/intarray/_int_gist.c:217-280 | the integers that the stored key allows, in order |
| IntSearch.CompressKey | postgresql-8.3.3/contrib/intarray/_int_gist.c:137-215 | every integer of the key is still allowed |
| IntSearch.KeyOverAll | postgresql-8.3.3/contrib/intarray/_int_gist.c:97-280 | the key over several entries allows what any of them allows, and nothing else while it is not compressed |
| IntSearch.Insert | postgresql-8.3.3/contrib/intarray/_int_gist.c:97-215 | inserting through any path of pages keeps every key above what is below it, and adds just the new array |
| IntSearch.SplitPage | postgresql-8.3.3/contrib/intarray/_int_gist.c:361-549 | two pages with the compressed keys of the split are above what is below them and hold just the arrays of the page |
| IntSearch.Build | postgresql-8.3.3/contrib/intarray/_int_gist.c:97-549 | after any run of insertions, page splits and root splits every key is above what is below it, and the arrays stored are those inserted |
| IntSearch.HoldsOnMore | postgresql-8.3.3/contrib/intarray/_int_bool.c:265-292 | a query true of some integers stays true, without negation, of more |
| IntSearch.Consistent | postgresql-8.3.3/contrib/intarray/_int_gist.c:31-49 | the answer of a key is the query over the integers it allows |
| IntSearch.Search | postgresql-8.3.3/contrib/intarray/_int_gist.c:31-49 | for the class of integers the answer is the list of the arrays the query is true of, which is right if and only if no empty array is stored or the query is false of no integers; for signatures, rechecking the candidates gives the same list as looking at every array |
| IntSearch.LongEntryKeepsMatchesIff | postgresql-8.3.3/contrib/intarray/_int_gist.c:150-160 | an array of an even number of integers, 200 or more, stored as an entry, keeps all its matches if and only if each pair read as a range holds neighbours |
| IntSearch.LongOddEntryKeepsMatchesIff | postgresql-8.3.3/contrib/intarray/_int_gist.c:262-271 | with an odd number the word behind the array is read too: then if and only if, besides, that word repeats the last integer |
| BoolParse.CompiledIffFits | postgresql-8.3.3/contrib/intarray/_int_bool.c:155-223 | a query is compiled to the postfix form of its precedence tree if and only if at most 16 operators are pending at once, and any group before which more than one of & and ! is pending is the last factor of its query |
| BoolParse.PlainCompiled | postgresql-8.3.3/contrib/intarray/_int_bool.c:155-223 | with ! on integers only, a query is compiled by precedence if and only if at most 16 operators are pending at once; otherwise it is too complex |
| BoolParse.QueryTreeMeans | postgresql-8.3.3/contrib/intarray/_int_bool.c:155-223 | the tree means what negation over conjunction over disjunction means |
| BoolParse.MisgroupedQuery | postgresql-8.3.3/contrib/intarray/_int_bool.c:192-197 | a query in which a disjunction behind a negated group is grouped wrongly, and integers on which its meaning differs |
| BoolParse.UnbalancedQuery | postgresql-8.3.3/contrib/intarray/_int_bool.c:192-197 | an accepted query, not not (1) or 2, is compiled to an array that is no postfix form and ends in that of `!2` |
| BoolLex.AtoiOfText | postgresql-8.3.3/contrib/intarray/_int_bool.c:100-104 | reading a printed integer gives the integer |
| BoolGrammar.NoErrorIffQuery | postgresql-8.3.3/contrib/intarray/_int_bool.c:55-133 | a text has no lexical error if and only if it is the words of a query with spaces between them, and its tokens are then those of the query |
| BoolGrammar.TextsCompiled | postgresql-8.3.3/contrib/intarray/_int_bool.c:155-223 | compilation of a text comes to an end only for the text of a query, and reports a syntax error only for other texts |
| BoolText.ReadText | postgresql-8.3.3/contrib/intarray/_int_bool.c:437-461 | for every text: it is stored if and only if it is the text of a query that is not too complex, and the text of a query is no syntax error |
| BoolText.WorkState.GetToken | postgresql-8.3.3/contrib/intarray/_int_bool.c:55-133 | takes the first of the tokens to come |
| BoolText.WorkState.MakePol | postgresql-8.3.3/contrib/intarray/_int_bool.c:155-223 | the recursion over the shared state and its array stack does what compilation over the tokens to come says, errors included |
| BoolText.Infix | postgresql-8.3.3/contrib/intarray/_int_bool.c:518-589 | prints the text of the tree and stops before the subquery |
| BoolText.LexText | postgresql-8.3.3/contrib/intarray/_int_bool.c:518-589 | printed text is read back as the tokens of its query |
| BoolText.RoundTrip | postgresql-8.3.3/contrib/intarray/_int_bool.c:437-611 | printing a query with ! on integers only and reading it again gives a query with the same meaning |
| Hstore.FindKey | postgresql-8.3.3/contrib/hstore/hstore_op.c:9-36 | finds the entry of a key exactly when the map has it |
| Hstore.FetchVal | postgresql-8.3.3/contrib/hstore/hstore_op.c:40-62 | the value of the key, or null if it has none |
| Hstore.CopyEntry | postgresql-8.3.3/contrib/hstore/hstore_op.c:196-201 | an entry and its text are appended with the position of the text written before |
| Hstore.Delete | postgresql-8.3.3/contrib/hstore/hstore_op.c:103-153 | the map without the key; positions and order are kept |
| Hstore.HsConcat | postgresql-8.3.3/contrib/hstore/hstore_op.c:157-266 | the right map over the left one; positions and order are kept |
| Hstore.HsContains | postgresql-8.3.3/contrib/hstore/hstore_op.c:524-562 | true exactly when every pair of the template is a pair of the value |
| HstoreParse.GetVal | postgresql-8.3.3/contrib/hstore/hstore_io.c:37-152 | scans one word as the five-state machine says, with the place where it stops |
| HstoreParse.ParseHstore | postgresql-8.3.3/contrib/hstore/hstore_io.c:161-258 | parses the pairs as the five-state machine says, or fails |
| HstoreText.ParsedIffSpelled | postgresql-8.3.3/contrib/hstore/hstore_io.c:37-258 | a text is parsed if and only if it is a list of pairs with commas between them, each of quoted or bare words, blanks and an arrow, and then to exactly those pairs; null is an unquoted null in any case |
| Hstore.KeyOrderMeans | postgresql-8.3.3/contrib/hstore/hstore_io.c:260-283 | shorter keys come first, and keys of one length are compared byte by byte |
| HstoreIO.UniquePairs | postgresql-8.3.3/contrib/hstore/hstore_io.c:285-324 | strictly ordered pairs, one of each key given, and the input itself if it was ordered |
| HstoreIO.HstoreIn | postgresql-8.3.3/contrib/hstore/hstore_io.c:346-401 | accepts exactly the texts of pair lists, and gives the packed value of the pairs, one of each key, in key order |
| HstoreIO.HstoreOut | postgresql-8.3.3/contrib/hstore/hstore_io.c:419-473 | prints every pair, quotes and backslashes escaped, null unquoted |
| HstoreIO.ParsePrinted | postgresql-8.3.3/contrib/hstore/hstore_io.c:161-258 | parsing printed pairs gives the pairs, with null kept apart from the string NULL |
| HstoreIO.RoundTrip | postgresql-8.3.3/contrib/hstore/hstore_io.c:346-473 | reading what was printed gives a value with the same pairs |
| Levenshtein.Levenshtein | postgresql-8.3.3/contrib/fuzzystrmatch/fuzzystrmatch.c:56-197 | the length of a cheapest script of insertions, deletions and substitutions; an error exactly when a string is longer than 255 |
| Levenshtein.ScriptOfCell | postgresql-8.3.3/contrib/fuzzystrmatch/fuzzystrmatch.c:124-191 | a script as long as the recurrence says exists |
| Levenshtein.NoScriptShorter | postgresql-8.3.3/contrib/fuzzystrmatch/fuzzystrmatch.c:124-191 | no script is shorter |
| Levenshtein.OneEdit | postgresql-8.3.3/contrib/fuzzystrmatch/fuzzystrmatch.c:124-191 | one edit changes the value of the recurrence by at most one |
| Levenshtein.DistanceIsMetric | postgresql-8.3.3/contrib/fuzzystrmatch/fuzzystrmatch.c:56-197 | the distance is zero only for equal strings, symmetric, and satisfies the triangle inequality |

## Left out

- Calls through the function manager, memory contexts, detoasting, SPI, error text, and the SQL wrappers around the modelled functions.
- Penalty functions and the choices they lead to: which page an entry goes to, and which page is split when, are parameters (`IntTool.PickSplit`, `IntSearch.Build`, `LtreeGist.Build`).
- The bytes of `g_intbig_picksplit`: `IntSearch.SplitPage` deals its entries in the same way and builds its keys by the same union of bits as for other pages.
- The `!` (NOT) levels of `lquery`, for which the matcher keeps a record of its own, and locales: case is folded for ASCII letters.
- `ltxtquery` and `lquery[]` strategies of the ltree index, and the `_ltree` index over arrays.
- The overlap, contains, same and contained strategies of the intarray indexes, and `inner_int_inter`, which compares with the word before its output.
- `shorterquery`, whose relinking changes queries with double negation.
- CDF sampling (`cdf_sample_var`), which advances the column counter on its own, and the probability estimate.
- Random distributions, `ltqnorm`, world presence, value bundles, confidence tallies, the parser of equations, and `PIP_EQN_SUB`.
- `pip_cset_test`, the size field of lists after a removal, and the early end of a walk when a callback returns a negative number.
- Sampling without groups, where `pip_clause_to_cset` links variables that may be missing.
- Output buffer sizes: printed text is a string that grows.
- The C library: qsort is any sort (`HstoreIO.QSort` is one of them, and `IntTool.Union` uses the sort of `_int_tool.c` in its place), strncmp gives -1, 0 or 1, and checksums are an arbitrary function.
- BoolParse.CompiledIffFits: is about the postfix form; some other queries are compiled to another form with the same meaning.
- BoolText.WorkState.GetToken: the 16-byte buffer for the digits of an integer and the limits of atoi are not modelled.
- BoolText.RoundTrip: is about meaning; operands of & are regrouped from the left by printing and reading.
- Lquery.AgreesIffHarmless: of queries that do not bound the length and have names for every label, only `Lquery.HarmlessAgrees` is proved; there a name can do the work of a wildcard.
- LtreeGist.Search: stored paths and path queries have at most 14653 levels, where comparisons do not wrap.
- IntSearch.Insert: arrays of the integer class have fewer than 200 integers and do not hold 2147483647, beyond which entries are misread or a range is never left.
- IntCompress.Decompress: the buffer has room for all integers; where their number does not fit 32 bits, the code asks for less.
- BoolQuery.QueryExtract: the error for queries that `shorterquery` reduces to nothing is not modelled.
- IntSearch.Search: for signatures it returns candidates that are to be rechecked; there may be false ones.
- IntTool.PickSplit: the costs that order the entries and choose the seeds are not modelled.
- Eqn.UpdatePointers: a component is one unit at its first byte, the rest of its bytes being padding.
- Eqn.CompileSum: results reach no further than 16-bit offsets do; so do those of `Eqn.Difference`, `Eqn.ComposeAtom`, `Eqn.AppendSlot` and `Eqn.FillInConstraints`.
- Eqn.AppendSlot: is stated for sums, the only node it is called with.
- Solver.RightIffNothingLost: asks that nothing is lost within a factor of a product, where errors multiply.
- Sampling.SampleByClause: the warning about improbable conditions, and the probability, are not modelled.
- HstoreIO.RoundTrip: texts hold no zero byte and at most 65535 bytes, as stored values do; longer ones are cut by the parser, as modelled.
- BoolText.ReadText: when the text of a query with ! before parentheses is too complex is said by compilation itself; `BoolParse.PlainCompiled` says it for the others.
- HstoreText.ParsedIffSpelled: is about texts without a zero byte, as C strings are.
- HstoreIO.UniquePairs: which value of a repeated key stays is left to the sort, as in the original.
- Hstore.HsConcat: the buffer is sized by the number of entries and the bytes of text, not by the sizes of the C structures.
