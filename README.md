# Word-list sorter, modelled in Dafny

`main.py` reads one word per line from a file named on the command line. It strips each
line, removes duplicates when the second argument is "yes" in any letter case, and
prints the list sorted in ascending order. When the file does not exist it uses a
built-in list of four house names. When the argument count is wrong it prints a usage
notice and exits with status 1.

The model has one module per concern:

- `StringOrder` (`string_order.dfy`): the order Python uses on `str` values. It compares
  code point by code point, and a proper prefix comes first. It is defined recursively
  and proved lexicographic and a total order.
- `Sorting` (`sorting.dfy`): `sort_list` as an insertion sort over that order, in
  either direction. The result is sorted and a permutation of the input, and it is the
  only sorted permutation. That uniqueness gives idempotence, independence from input
  order, and "descending is ascending reversed".
- `Dedupe` (`dedupe.dfy`): `remove_duplicates_from_list`. The contract says only that
  no value repeats and the set of values is unchanged, because the order of Python's
  `set` is unspecified. The model keeps first occurrences. A lemma shows that any
  order satisfying the contract leads to the same printed list.
- `Text` (`text.dfy`): `str.strip()` with Python's whitespace table, and `str.lower()`
  as far as the "yes" test needs it.
- `Program` (`program.dfy`): the `__main__` block.
  - `Behaviour` is the whole run as a function of the argument vector and the file
    system. `argv` includes the program name, so a correct call has `|argv| == 3`.
  - The file system is a map from the names of existing regular files to the raw
    lines iterating over the opened file yields, terminators included.
  - The printed output and the exit status are the returned `Outcome`.
  - `Run` is the imperative block itself: it reassigns the settings, appends stripped
    lines in a loop, and replaces the list by its deduplication. It is proved to
    compute `Behaviour`.

## Model

| member | source | states |
|---|---|---|
| StringOrder.Less | main.py:40 | Python's `a < b` on `str`, by recursion on the first characters; its contract says only that `a < b` implies `a != b`, and `LessIsLexicographic` proves it is the code-point lexicographic order `sorted` uses |
| StringOrder.LessIsLexicographic | main.py:40 | `Less(a, b)` holds exactly when `a` is a proper prefix of `b`, or the two first differ at a position where `a` has the smaller code point (Python's `str` comparison) |
| StringOrder.LessIrreflexive | main.py:40 | no string is less than itself |
| StringOrder.LessAsymmetric | main.py:40 | `a < b` and `b < a` never both hold |
| StringOrder.LessTransitive | main.py:40 | `a < b` and `b < c` give `a < c` |
| StringOrder.LessTotal | main.py:40 | any two different strings are ordered one way or the other |
| StringOrder.LessEqTotalOrder | main.py:40 | `<=` on strings is reflexive, antisymmetric, transitive and total |
| Sorting.InOrderTotalOrder | main.py:40 | the comparison used for either direction (`reverse=not ascending`) is a total order |
| Sorting.Insert | main.py:40 | inserting into a sorted list keeps it sorted and adds exactly that one element |
| Sorting.SortList | main.py:23-40 | the result is sorted (non-decreasing when `ascending`, the default; non-increasing otherwise) and a permutation of `items` |
| Sorting.SortedPermutationUnique | main.py:40 | two sorted lists with the same elements, counted with multiplicity, are equal |
| Sorting.SortedHeadsEqual | main.py:40 | two sorted permutations of one list start with the same element |
| Sorting.SortListCharacterization | main.py:40 | `r` is the sorted list if and only if `r` is sorted and a permutation of the input, so the model's result is the one `sorted` returns |
| Sorting.SortListOfSorted | main.py:40 | sorting an already sorted list returns it unchanged |
| Sorting.SortListIdempotent | main.py:40 | `sort_list(sort_list(L)) == sort_list(L)` in either direction |
| Sorting.SortListDependsOnlyOnMultiset | main.py:40 | permutations of one list sort to the same result |
| Sorting.SortListLength | main.py:40 | the result is as long as the input |
| Sorting.DescendingIsReversedAscending | main.py:40 | sorting with `ascending=False` gives the ascending result reversed |
| Dedupe.RemoveDuplicates | main.py:43-53 | the result has no value twice and holds exactly the values of `items` |
| Dedupe.ElementsCardinality | main.py:53 | a list has at most as many distinct values as entries, and exactly as many iff no value repeats |
| Dedupe.RemoveDuplicatesLength | main.py:53 | the result is never longer than `items`, and is as long exactly when `items` has no duplicates |
| Dedupe.NoDuplicatesMultiplicity | main.py:53 | a list has no duplicates iff every value occurs at most once in its multiset |
| Dedupe.DistinctSameElementsSameMultiset | main.py:53 | two duplicate-free lists with the same values are permutations of each other |
| Dedupe.PermutationKeepsNoDuplicates | main.py:53 | a permutation of a duplicate-free list is duplicate-free and has the same values |
| Dedupe.DedupeUniqueUpToOrder | main.py:53 | every acceptable deduplication of a list, whatever its order, is a permutation of the model's |
| Dedupe.RemoveDuplicatesOfDistinct | main.py:53 | deduplicating a duplicate-free list only reorders it |
| Text.IsSpace | main.py:82 | the whitespace test `str.strip()` uses (the table of Python's `str.isspace()`): space, tab, line feed and carriage return are whitespace, ASCII letters and digits are not |
| Text.SkipSpaceForward | main.py:82 | the index returned is the first non-whitespace position at or after the start, or the end |
| Text.SkipSpaceBackward | main.py:82 | the index returned is the end of the last non-whitespace character, with only whitespace after it |
| Text.Strip | main.py:82 | `line.strip()` never lengthens the line, neither end of the result is whitespace, and the result is empty exactly when the line is all whitespace |
| Text.StripUnique | main.py:82 | the stripped line is the one slice with all-whitespace margins and non-whitespace ends |
| Text.StripIdempotent | main.py:82 | stripping a stripped line changes nothing |
| Text.Lower | main.py:69 | `s.lower()` keeps the length and lowers each character in place; `LowerIsYes` proves which arguments lower to "yes" |
| Text.LowerIsYes | main.py:69 | `arg.lower() == "yes"` holds exactly for the eight upper/lower-case spellings of "yes" |
| Text.LowerCharIs | main.py:69 | a character lowers to a given letter exactly when it is that letter in lower or upper case |
| Program.ParseArgs | main.py:64-73 | settings exist exactly when there are two arguments; the file name is the first, and the switch is on exactly for "yes" in any letter case |
| Program.StripLines | main.py:79-82 | the list the reading loop builds: one word per line, each no longer than its line, and empty exactly when its line is all whitespace |
| Program.LoadWords | main.py:78-85 | the word list before deduplication: as many words as the file has lines when it exists (`FileWords` proves each is the stripped line, in order), otherwise four different words (`MissingFileOutput` proves what they print as) |
| Program.Process | main.py:87-90 | the printed list is sorted ascending; a permutation of the loaded list when the switch is off, and a deduplication of it when on |
| Program.Behaviour | main.py:64-90 | exit status 1 exactly when the argument count is wrong, otherwise 0; a completed run names `argv[1]`, reports the file found exactly when it exists, and prints a sorted list |
| Program.Run | main.py:64-90 | the imperative block computes `Behaviour` |
| Program.ReadWordList | main.py:79-82 | the loop builds exactly the stripped lines, in file order |
| Program.OnlyNamedFileConsulted | main.py:67-78 | the outcome depends on no file but `argv[1]`, and on none when the argument count is wrong, which always ends in the usage outcome |
| Program.FileWords | main.py:78-82 | an existing file gives one word per line, in order, each the stripped line; a word is empty exactly when its line is all whitespace |
| Program.CompletedRunWords | main.py:67-90 | with two arguments the run completes and prints the loaded words in ascending order: all of them when the switch is off, each distinct one exactly once when it is on |
| Program.DedupeOrderIrrelevant | main.py:53-90 | sorting any deduplication of the loaded list, in whatever order `set` yields it, prints the same list |
| Program.ProcessLength | main.py:87-90 | the printed list is as long as the loaded list with the switch off, and no longer with it on; the two agree exactly when the loaded list had no duplicates |
| Program.MissingFileOutput | main.py:83-90 | when the file does not exist the printed list is gryffindor, hufflepuff, ravenclaw, slytherin, whatever the switch |
| Program.FallbackDistinct | main.py:85 | the four fallback words are different |
| Program.FallbackSorted | main.py:85-90 | the fallback list sorts to gryffindor, hufflepuff, ravenclaw, slytherin |
| Program.FallbackPermutation | main.py:85 | that sorted list is a permutation of the fallback list |
| Program.HouseNamesAscending | main.py:85-90 | gryffindor < hufflepuff < ravenclaw < slytherin |
| Program.BananaFileWords | main.py:79-82 | the lines "banana\n", "apple\n", "banana\n" load as banana, apple, banana |
| Program.BananaSorted | main.py:90 | banana, apple, banana sorts to apple, banana, banana |
| Program.BananaDeduped | main.py:87-90 | banana, apple, banana with the switch on prints apple, banana |
| Program.DuplicatesKeptExample | main.py:64-90 | `main.py words.txt no` on that file prints apple, banana, banana |
| Program.DuplicatesRemovedExample | main.py:64-90 | `main.py words.txt yes` on that file prints apple, banana, and "YES" behaves the same |
| Program.BlankLineExample | main.py:78-82 | a file holding one blank line loads and prints the list `[""]` |

## Left out

- File system: `os.path.join(".", filename)`, `os.path.isfile` and `open` are replaced by the `Files` map from existing regular file names to raw lines. Directories, permission errors, decoding errors and text-mode newline translation are not modelled.
- Console output and exit: the messages printed (the usage notice, "Words will be read from …", "The file … does not exist.") are represented only by the `Outcome` constructor and its `filename` and `fileFound` fields, not by their text. `sys.exit(1)` is the exit code of `Usage`.
- Program.Run: `DEFAULT_FILENAME` and `DEFAULT_DUPLICATES` are assigned first as in the source, but a wrong argument count exits before either default is read, so no outcome depends on them.
- Text.Lower: folds ASCII letters only. In Unicode's case mapping no character other than `Y`, `E` and `S` lowers to `y`, `e` or `s`, so the "yes" test gives the same answer as Python's `str.lower()`.
- Dedupe.RemoveDuplicates: keeps first occurrences, which is one of the orders Python's `set` may produce. Its contract and every lemma about it leave the order open.
- Sorting.SortList: the `isinstance(items, list)` check and its `RuntimeError` (main.py:37-38) are replaced by the parameter type `seq<string>`, so that error cannot occur. `sort_list` is modelled on strings only, the only element type the program passes it. Stability of `sorted` is not modelled, because equal strings cannot be told apart.
