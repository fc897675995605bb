/** The std::string searches and trims the text code is written with. NPOS stands for npos. */
module Strings {
  const NPOS: int := -1

  function FindChar(s: string, c: char, from: nat): (at: int)
    ensures at == NPOS || (from <= at < |s| && s[at] == c)
    ensures forall i | from <= i < |s| && (at == NPOS || i < at) :: s[i] != c
    decreases |s| - from
  {
    if from >= |s| then NPOS else if s[from] == c then from else FindChar(s, c, from + 1)
  }

  /** std::string::find_first_of. */
  function FindIn(s: string, chars: set<char>, from: nat): (at: int)
    ensures at == NPOS || (from <= at < |s| && s[at] in chars)
    ensures forall i | from <= i < |s| && (at == NPOS || i < at) :: s[i] !in chars
    decreases |s| - from
  {
    if from >= |s| then NPOS else if s[from] in chars then from else FindIn(s, chars, from + 1)
  }

  /** std::string::find_first_not_of. */
  function FindNotIn(s: string, chars: set<char>, from: nat): (at: int)
    ensures at == NPOS || (from <= at < |s| && s[at] !in chars)
    ensures forall i | from <= i < |s| && (at == NPOS || i < at) :: s[i] in chars
    decreases |s| - from
  {
    if from >= |s| then NPOS else if s[from] !in chars then from else FindNotIn(s, chars, from + 1)
  }

  function Shifted(offset: nat, at: int): int {
    if at == NPOS then NPOS else offset + at
  }

  lemma FindCharShift(a: string, b: string, c: char, from: nat)
    ensures FindChar(a + b, c, |a| + from) == Shifted(|a|, FindChar(b, c, from))
  {
    var t := a + b;
    var at := FindChar(t, c, |a| + from);
    assert forall i | 0 <= i < |b| :: b[i] == t[|a| + i];
    assert at != NPOS ==> b[at - |a|] == c;
  }

  lemma FindInShift(a: string, b: string, chars: set<char>, from: nat)
    ensures FindIn(a + b, chars, |a| + from) == Shifted(|a|, FindIn(b, chars, from))
  {
    var t := a + b;
    var at := FindIn(t, chars, |a| + from);
    assert forall i | 0 <= i < |b| :: b[i] == t[|a| + i];
    assert at != NPOS ==> b[at - |a|] in chars;
  }

  lemma FindNotInShift(a: string, b: string, chars: set<char>, from: nat)
    ensures FindNotIn(a + b, chars, |a| + from) == Shifted(|a|, FindNotIn(b, chars, from))
  {
    var t := a + b;
    var at := FindNotIn(t, chars, |a| + from);
    assert forall i | 0 <= i < |b| :: b[i] == t[|a| + i];
    assert at != NPOS ==> b[at - |a|] !in chars;
  }

  lemma FindCharSkip(x: string, b: string, c: char)
    requires c !in x
    ensures FindChar(x + b, c, 0) == Shifted(|x|, FindChar(b, c, 0))
  {
    FindCharShift(x, b, c, 0);
    var t := x + b;
    assert forall i | 0 <= i < |x| :: t[i] == x[i] && x[i] in x;
  }

  lemma FindCharHere(x: string, c: char, rest: string)
    requires c !in x
    ensures FindChar(x + ([c] + rest), c, 0) == |x|
  {
    FindCharSkip(x, [c] + rest, c);
  }

  predicate OccursAt(s: string, pattern: string, at: int) {
    0 <= at <= |s| - |pattern| && forall i | 0 <= i < |pattern| :: s[at + i] == pattern[i]
  }

  function Find(s: string, pattern: string, from: nat): (at: int)
    ensures at == NPOS || (from <= at && OccursAt(s, pattern, at))
    ensures forall i | from <= i && (at == NPOS || i < at) :: !OccursAt(s, pattern, i)
    decreases |s| - from
  {
    if from + |pattern| > |s| then NPOS
    else if OccursAt(s, pattern, from) then from
    else Find(s, pattern, from + 1)
  }

  function FindLastChar(s: string, c: char): (at: int)
    ensures at == NPOS || (0 <= at < |s| && s[at] == c)
    ensures forall i | 0 <= i < |s| && i > at :: s[i] != c
  {
    if s == "" then NPOS else if s[|s| - 1] == c then |s| - 1 else FindLastChar(s[..|s| - 1], c)
  }

  predicate Contains(s: string, pattern: string) {
    Find(s, pattern, 0) != NPOS
  }

  // ----- trimming -----

  const BLANKS: set<char> := {' ', '\t', '\r', '\n'}

  /** What isspace accepts. */
  const SPACES: set<char> := {' ', '\t', '\r', '\n', '\U{0B}', '\U{0C}'}

  lemma BlanksByCode(c: char)
    ensures c in BLANKS <==> c as int == 32 || c as int == 9 || c as int == 10 || c as int == 13
    ensures c in SPACES <==> c as int == 32 || 9 <= c as int <= 13
  {
  }

  predicate AllIn(s: string, chars: set<char>) {
    forall i | 0 <= i < |s| :: s[i] in chars
  }

  predicate Trimmed(s: string, chars: set<char>) {
    s != "" ==> s[0] !in chars && s[|s| - 1] !in chars
  }

  function TrimStart(s: string, chars: set<char>): string {
    if s != "" && s[0] in chars then TrimStart(s[1..], chars) else s
  }

  function TrimEnd(s: string, chars: set<char>): string {
    if s != "" && s[|s| - 1] in chars then TrimEnd(s[..|s| - 1], chars) else s
  }

  function Trim(s: string, chars: set<char>): string {
    TrimEnd(TrimStart(s, chars), chars)
  }

  lemma {:induction false} TrimStartDrops(left: string, s: string, chars: set<char>)
    requires AllIn(left, chars)
    ensures TrimStart(left + s, chars) == TrimStart(s, chars)
  {
    if left == "" {
      assert left + s == s;
    } else {
      assert (left + s)[1..] == left[1..] + s;
      TrimStartDrops(left[1..], s, chars);
    }
  }

  lemma {:induction false} TrimEndDrops(s: string, right: string, chars: set<char>)
    requires AllIn(right, chars)
    ensures TrimEnd(s + right, chars) == TrimEnd(s, chars)
  {
    if right == "" {
      assert s + right == s;
    } else {
      var n := |right| - 1;
      assert (s + right)[..|s + right| - 1] == s + right[..n];
      TrimEndDrops(s, right[..n], chars);
    }
  }

  /** Trim removes exactly the blank margins. */
  lemma TrimMargins(left: string, s: string, right: string, chars: set<char>)
    requires AllIn(left, chars) && AllIn(right, chars) && Trimmed(s, chars)
    ensures Trim(left + s + right, chars) == s
  {
    assert left + s + right == left + (s + right);
    TrimStartDrops(left, s + right, chars);
    if s == "" {
      assert s + right == right + "";
      TrimStartDrops(right, "", chars);
    } else {
      assert TrimStart(s + right, chars) == s + right;
      TrimEndDrops(s, right, chars);
    }
  }

  lemma {:induction false} TrimEndEmpty(s: string, chars: set<char>)
    requires TrimEnd(s, chars) == ""
    ensures AllIn(s, chars)
  {
    if s == "" {
    } else {
      TrimEndEmpty(s[..|s| - 1], chars);
    }
  }

  lemma {:induction false} TrimOfBlank(s: string, chars: set<char>)
    requires Trim(s, chars) == ""
    ensures AllIn(s, chars)
  {
    if s != "" && s[0] in chars {
      TrimOfBlank(s[1..], chars);
    } else {
      TrimEndEmpty(s, chars);
    }
  }
}
