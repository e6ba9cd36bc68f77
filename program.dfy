/** The script's `__main__` block: read the file name and the "remove duplicates" switch
    from the command line, load one word per line of that file (or a built-in list of
    four words when there is no such file), optionally deduplicate, and print the list
    sorted in ascending order.

    The file system is a parameter: the map from the names of existing regular files to
    the raw lines that iterating over the opened file yields (line terminators
    included). What the script prints and its exit status are returned as an `Outcome`. */
module Program {
  import opened StringOrder
  import opened Sorting
  import opened Dedupe
  import opened Text

  datatype Option<T> = None | Some(value: T)

  /** The settings taken from the command line. */
  datatype Config = Config(filename: string, removeDuplicates: bool)

  /** How a run ends: the two-line usage notice with exit status 1, or the file name
      announced, whether that file was found (if not, a notice says so), and the final
      list printed, with exit status 0. */
  datatype Outcome = Usage | Complete(filename: string, fileFound: bool, words: seq<string>) {
    function ExitCode(): int {
      if Usage? then 1 else 0
    }
  }

  /** Existing regular files by name, each with its raw lines. */
  type Files = map<string, seq<string>>

  const DefaultFilename: string := "words.txt"
  const DefaultDuplicates: bool := false
  const FallbackWords: seq<string> := ["ravenclaw", "gryffindor", "slytherin", "hufflepuff"]

  /** The argument check: `argv` (program name first) must hold exactly two arguments,
      the file name and the switch, which is on exactly when it reads "yes" in any
      mix of upper and lower case. */
  function ParseArgs(argv: seq<string>): (r: Option<Config>)
    ensures r.Some? <==> |argv| == 3
    ensures r.Some? ==> r.value.filename == argv[1]
    ensures r.Some? ==> (r.value.removeDuplicates <==>
      |argv[2]| == 3 && argv[2][0] in "yY" && argv[2][1] in "eE" && argv[2][2] in "sS")
  {
    if |argv| == 3 then
      LowerIsYes(argv[2]);
      Some(Config(argv[1], Lower(argv[2]) == "yes"))
    else
      None
  }

  /** One word per raw line, in file order, each line stripped of surrounding whitespace;
      a line holding only whitespace gives the empty word. */
  function StripLines(lines: seq<string>): (r: seq<string>)
    ensures |r| == |lines|
    ensures forall n :: 0 <= n < |lines| ==>
      |r[n]| <= |lines[n]| && (r[n] == "" <==> AllSpace(lines[n]))
  {
    seq(|lines|, n requires 0 <= n < |lines| => Strip(lines[n]))
  }

  /** The word list: the stripped lines of the named file, or the fallback list when
      there is no such file. The fallback list holds four different words. */
  function LoadWords(files: Files, filename: string): (r: seq<string>)
    ensures filename in files ==> |r| == |files[filename]|
    ensures filename !in files ==> |r| == 4 && NoDuplicates(r)
  {
    if filename in files then StripLines(files[filename])
    else
      FallbackDistinct();
      FallbackWords
  }

  /** The loaded list, deduplicated when asked to, then sorted in ascending order. */
  function Process(words: seq<string>, removeDuplicates: bool): (r: seq<string>)
    ensures Sorted(r, true)
    ensures !removeDuplicates ==> multiset(r) == multiset(words)
    ensures removeDuplicates ==> IsDedupeOf(r, words)
  {
    if removeDuplicates then
      var kept := RemoveDuplicates(words);
      PermutationKeepsNoDuplicates(kept, SortList(kept));
      SortList(kept)
    else
      SortList(words)
  }

  /** The whole run, as a function of the command line and the file system. */
  function Behaviour(argv: seq<string>, files: Files): (o: Outcome)
    ensures o.ExitCode() == (if |argv| == 3 then 0 else 1)
    ensures o.Complete? ==> o.filename == argv[1] && (o.fileFound <==> argv[1] in files)
    ensures o.Complete? ==> Sorted(o.words, true)
  {
    match ParseArgs(argv)
    case None => Usage
    case Some(config) =>
      Complete(config.filename, config.filename in files,
               Process(LoadWords(files, config.filename), config.removeDuplicates))
  }

  /** The `__main__` block step by step: the settings start at their defaults and are
      overwritten from the command line, the word list is built by appending one
      stripped line at a time, and then replaced by its deduplication if asked to. */
  method Run(argv: seq<string>, files: Files) returns (o: Outcome)
    ensures o == Behaviour(argv, files)
  {
    var filename := DefaultFilename;
    var removeDuplicates := DefaultDuplicates;
    if |argv| == 3 {
      filename := argv[1];
      removeDuplicates := Lower(argv[2]) == "yes";
    } else {
      return Usage;
    }
    var found := filename in files;
    var wordList: seq<string>;
    if found {
      wordList := ReadWordList(files[filename]);
    } else {
      wordList := FallbackWords;
    }
    assert wordList == LoadWords(files, filename);
    ghost var loaded := wordList;
    if removeDuplicates {
      wordList := RemoveDuplicates(wordList);
    }
    o := Complete(filename, found, SortList(wordList));
    assert o.words == Process(loaded, removeDuplicates);
    assert ParseArgs(argv) == Some(Config(filename, removeDuplicates));
  }

  /** The `with open(...)` block: start from an empty list and append each line of the
      file, stripped, in file order. */
  method ReadWordList(lines: seq<string>) returns (wordList: seq<string>)
    ensures wordList == StripLines(lines)
  {
    wordList := [];
    for n := 0 to |lines|
      invariant wordList == StripLines(lines)[..n]
    {
      wordList := wordList + [Strip(lines[n])];
    }
  }

  /** The run consults no file but the one named on the command line, and none at all
      when the argument count is wrong: file systems that agree on that one file give
      the same outcome. */
  lemma OnlyNamedFileConsulted(argv: seq<string>, files1: Files, files2: Files)
    requires |argv| == 3 ==> (argv[1] in files1 <==> argv[1] in files2)
    requires |argv| == 3 && argv[1] in files1 ==> files1[argv[1]] == files2[argv[1]]
    ensures Behaviour(argv, files1) == Behaviour(argv, files2)
    ensures |argv| != 3 ==> Behaviour(argv, files1) == Usage
  {
  }

  /** A file's words: one per line, in file order, each stripped; a line holding only
      whitespace (or only its terminator) gives the empty string. */
  lemma FileWords(files: Files, filename: string)
    requires filename in files
    ensures |LoadWords(files, filename)| == |files[filename]|
    ensures forall n :: 0 <= n < |files[filename]| ==>
      LoadWords(files, filename)[n] == Strip(files[filename][n]) &&
      (LoadWords(files, filename)[n] == "" <==> AllSpace(files[filename][n]))
  {
  }

  /** What a completed run prints: the loaded words in ascending order, every one of
      them kept when the switch is off, each distinct one exactly once when it is on. */
  lemma CompletedRunWords(argv: seq<string>, files: Files)
    requires |argv| == 3
    ensures var o := Behaviour(argv, files);
      var words := LoadWords(files, argv[1]);
      o.Complete? && Sorted(o.words, true) &&
      (Lower(argv[2]) == "yes" ==> IsDedupeOf(o.words, words)) &&
      (Lower(argv[2]) != "yes" ==> multiset(o.words) == multiset(words))
  {
  }

  /** The order in which the deduplicated words come out of Python's `set` is
      unspecified, and it does not matter: sorting any deduplication of the list gives
      the same final list. */
  lemma DedupeOrderIrrelevant(words: seq<string>, deduped: seq<string>)
    requires IsDedupeOf(deduped, words)
    ensures SortList(deduped) == Process(words, true)
  {
    DedupeUniqueUpToOrder(deduped, words);
    SortListDependsOnlyOnMultiset(deduped, RemoveDuplicates(words), true);
  }

  /** With the switch on the final list is never longer than with it off, which is as
      long as the loaded list; the two lengths agree exactly when the loaded list had
      no duplicates. */
  lemma ProcessLength(words: seq<string>)
    ensures |Process(words, false)| == |words|
    ensures |Process(words, true)| <= |words|
    ensures |Process(words, true)| == |words| <==> NoDuplicates(words)
  {
    SortListLength(words, true);
    SortListLength(RemoveDuplicates(words), true);
    RemoveDuplicatesLength(words);
  }

  /** The fallback list holds four different words, so whatever the switch says the
      printed list is those four words in ascending order. */
  lemma MissingFileOutput(argv: seq<string>, files: Files)
    requires |argv| == 3 && argv[1] !in files
    ensures Behaviour(argv, files) ==
      Complete(argv[1], false, ["gryffindor", "hufflepuff", "ravenclaw", "slytherin"])
  {
    FallbackSorted();
    FallbackDistinct();
    RemoveDuplicatesOfDistinct(FallbackWords);
    SortListDependsOnlyOnMultiset(RemoveDuplicates(FallbackWords), FallbackWords, true);
  }

  /** The four fallback words are different. */
  lemma FallbackDistinct()
    ensures NoDuplicates(FallbackWords)
  {
  }

  /** The fallback list sorts to the four house names in alphabetical order. */
  lemma FallbackSorted()
    ensures SortList(FallbackWords) == ["gryffindor", "hufflepuff", "ravenclaw", "slytherin"]
  {
    HouseNamesAscending();
    FallbackPermutation();
    SortListCharacterization(FallbackWords, true, ["gryffindor", "hufflepuff", "ravenclaw", "slytherin"]);
  }

  lemma FallbackPermutation()
    ensures multiset(FallbackWords) == multiset(["gryffindor", "hufflepuff", "ravenclaw", "slytherin"])
  {
  }

  lemma HouseNamesAscending()
    ensures Sorted(["gryffindor", "hufflepuff", "ravenclaw", "slytherin"], true)
  {
  }

  /** The three-line file "banana", "apple", "banana" of the examples below. */
  lemma BananaFileWords(lines: seq<string>)
    requires lines == ["banana\n", "apple\n", "banana\n"]
    ensures StripLines(lines) == ["banana", "apple", "banana"]
  {
    assert Strip("banana\n") == "banana" by {
      StripUnique("banana\n", 0, 6);
    }
    assert Strip("apple\n") == "apple" by {
      StripUnique("apple\n", 0, 5);
    }
  }

  lemma BananaSorted()
    ensures SortList(["banana", "apple", "banana"]) == ["apple", "banana", "banana"]
  {
    var a, b := "apple", "banana";
    assert Less(a, b);
    assert Sorted([a, b, b], true);
    assert multiset([b, a, b]) == multiset([a, b, b]);
    SortListCharacterization([b, a, b], true, [a, b, b]);
  }

  lemma BananaDeduped()
    ensures Process(["banana", "apple", "banana"], true) == ["apple", "banana"]
  {
    var a, b := "apple", "banana";
    assert a[0] == 'a' && b[0] == 'b';
    assert Elements([a, b]) == Elements([b, a, b]);
    DedupeOrderIrrelevant([b, a, b], [a, b]);
    assert Less(a, b);
    SortListOfSorted([a, b], true);
  }

  /** With the switch off the duplicate "banana" is kept: the output is
      ["apple", "banana", "banana"]. */
  lemma DuplicatesKeptExample(files: Files)
    requires "words.txt" in files && files["words.txt"] == ["banana\n", "apple\n", "banana\n"]
    ensures Behaviour(["main.py", "words.txt", "no"], files) ==
      Complete("words.txt", true, ["apple", "banana", "banana"])
  {
    BananaFileWords(files["words.txt"]);
    BananaSorted();
    LowerIsYes("no");
  }

  /** With the switch on ("YES" is as good as "yes") each word is printed once:
      the output is ["apple", "banana"]. */
  lemma DuplicatesRemovedExample(files: Files)
    requires "words.txt" in files && files["words.txt"] == ["banana\n", "apple\n", "banana\n"]
    ensures Behaviour(["main.py", "words.txt", "yes"], files) ==
      Complete("words.txt", true, ["apple", "banana"])
    ensures Behaviour(["main.py", "words.txt", "YES"], files) ==
      Behaviour(["main.py", "words.txt", "yes"], files)
  {
    BananaFileWords(files["words.txt"]);
    BananaDeduped();
    LowerIsYes("yes");
    LowerIsYes("YES");
  }

  /** A file holding one blank line gives the list [""]. */
  lemma BlankLineExample(files: Files)
    requires "words.txt" in files && files["words.txt"] == ["\n"]
    ensures Behaviour(["main.py", "words.txt", "no"], files) == Complete("words.txt", true, [""])
  {
    assert AllSpace("\n");
    assert StripLines(files["words.txt"]) == [""];
    LowerIsYes("no");
  }
}
