/** The two string methods the program calls: `str.strip()` on every line it reads, and
    `str.lower()` on the second command-line argument. */
module Text {

  /** Python's `str.isspace()` for one character: the ASCII tab, line feed, vertical
      tab, form feed, carriage return, the separators U+001C to U+001F and space, and
      the non-ASCII code points Python also counts as whitespace. */
  function IsSpace(c: char): (b: bool)
    ensures c == ' ' || c == '\t' || c == '\n' || c == '\r' ==> b
    ensures 'a' <= c <= 'z' || 'A' <= c <= 'Z' || '0' <= c <= '9' ==> !b
  {
    var n := c as int;
    (9 <= n <= 13) || (28 <= n <= 32) || n == 0x85 || n == 0xA0 || n == 0x1680 ||
    (0x2000 <= n <= 0x200A) || n == 0x2028 || n == 0x2029 || n == 0x202F ||
    n == 0x205F || n == 0x3000
  }

  predicate AllSpace(s: string) {
    forall i :: 0 <= i < |s| ==> IsSpace(s[i])
  }

  /** The first index at or after `i` whose character is not whitespace, or `|s|`. */
  function SkipSpaceForward(s: string, i: nat): (k: nat)
    requires i <= |s|
    ensures i <= k <= |s|
    ensures forall m :: i <= m < k ==> IsSpace(s[m])
    ensures k < |s| ==> !IsSpace(s[k])
    decreases |s| - i
  {
    if i == |s| || !IsSpace(s[i]) then i else SkipSpaceForward(s, i + 1)
  }

  /** Moving back from `j`, not below `lo`: the end of the last non-whitespace character,
      or `lo`. */
  function SkipSpaceBackward(s: string, lo: nat, j: nat): (k: nat)
    requires lo <= j <= |s|
    ensures lo <= k <= j
    ensures forall m :: k <= m < j ==> IsSpace(s[m])
    ensures lo < k ==> !IsSpace(s[k - 1])
  {
    if j == lo || !IsSpace(s[j - 1]) then j else SkipSpaceBackward(s, lo, j - 1)
  }

  /** `s.strip()`: `s` with its leading and trailing whitespace cut off. Neither end of
      the result is whitespace, and the result is empty exactly when `s` is all
      whitespace. */
  function Strip(s: string): (r: string)
    ensures |r| <= |s|
    ensures r != [] ==> !IsSpace(r[0]) && !IsSpace(r[|r| - 1])
    ensures r == [] <==> AllSpace(s)
  {
    var i := SkipSpaceForward(s, 0);
    var j := SkipSpaceBackward(s, i, |s|);
    s[i..j]
  }

  /** `Strip` keeps exactly the slice `s[i..j]` whose margins are all whitespace and whose
      ends are not: any such slice is the result. */
  lemma StripUnique(s: string, i: nat, j: nat)
    requires i <= j <= |s|
    requires forall m :: 0 <= m < i ==> IsSpace(s[m])
    requires forall m :: j <= m < |s| ==> IsSpace(s[m])
    requires i < j ==> !IsSpace(s[i]) && !IsSpace(s[j - 1])
    ensures Strip(s) == s[i..j]
  {
  }

  /** Stripping twice is stripping once. */
  lemma StripIdempotent(s: string)
    ensures Strip(Strip(s)) == Strip(s)
  {
    var r := Strip(s);
    StripUnique(r, 0, |r|);
  }

  /** ASCII case folding of one character. */
  function LowerChar(c: char): char {
    if 'A' <= c <= 'Z' then (c as int + 32) as char else c
  }

  /** `s.lower()`, folding ASCII letters only: each character is lowered in place. */
  function Lower(s: string): (r: string)
    ensures |r| == |s|
    ensures forall i :: 0 <= i < |s| ==> r[i] == LowerChar(s[i])
  {
    if s == [] then [] else [LowerChar(s[0])] + Lower(s[1..])
  }

  /** `arg.lower() == "yes"` holds exactly for the eight spellings of "yes" in any mix
      of upper and lower case. */
  lemma LowerIsYes(arg: string)
    ensures Lower(arg) == "yes" <==>
      |arg| == 3 && arg[0] in "yY" && arg[1] in "eE" && arg[2] in "sS"
  {
    var l := Lower(arg);
    if |arg| == 3 {
      LowerCharIs(arg[0], 'y', 'Y');
      LowerCharIs(arg[1], 'e', 'E');
      LowerCharIs(arg[2], 's', 'S');
      ThreeCharacters(l, 'y', 'e', 's');
      assert "yes" == ['y', 'e', 's'];
    }
  }

  lemma ThreeCharacters(l: string, x: char, y: char, z: char)
    requires |l| == 3
    ensures l == [x, y, z] <==> l[0] == x && l[1] == y && l[2] == z
  {
  }

  lemma LowerCharIs(c: char, lower: char, upper: char)
    requires 'a' <= lower <= 'z' && upper as int == lower as int - 32
    ensures LowerChar(c) == lower <==> c in [lower, upper]
  {
  }
}
