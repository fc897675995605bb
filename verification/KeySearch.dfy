/**
  Where a search for a quoted key can end in a printed text. A text is a list of pieces, each some
  punctuation and then an escaped string in quotes. A match of "key" ends exactly at the closing quote
  of a string that is key, or that ends with a quote and key.
 */
module KeySearch {
  import opened Strings
  import opened JsonText

  datatype Piece = Piece(raw: string, str: string)

  const STRUCTURAL: set<char> := {'{', '}', '[', ']', ',', ':'}

  function InQuotes(raw: string, text: string): string {
    raw + ("\"" + (text + "\""))
  }

  function PieceText(p: Piece): string {
    InQuotes(p.raw, Escaped(p.str))
  }

  function Rendered(ps: seq<Piece>): (parts: seq<string>)
    ensures |parts| == |ps|
  {
    seq(|ps|, i requires 0 <= i < |ps| => PieceText(ps[i]))
  }

  /** The first n parts, one after the other. */
  function TextTo(parts: seq<string>, n: nat): string
    requires n <= |parts|
  {
    if n == 0 then "" else TextTo(parts, n - 1) + parts[n - 1]
  }

  /** The parts from i on, and then the tail. */
  function Rest(parts: seq<string>, i: nat, tail: string): string
    requires i <= |parts|
    decreases |parts| - i
  {
    if i == |parts| then tail else parts[i] + Rest(parts, i + 1, tail)
  }

  function Text(ps: seq<Piece>, tail: string): string {
    TextTo(Rendered(ps), |ps|) + tail
  }

  predicate RawOk(raw: string) {
    raw != "" && raw[0] in STRUCTURAL && forall i | 0 <= i < |raw| :: raw[i] != '"'
  }

  predicate WellFormed(ps: seq<Piece>) {
    forall k | 0 <= k < |ps| :: RawOk(ps[k].raw)
  }

  predicate KeyOk(key: string) {
    key != "" && Plain(key) && key[0] !in STRUCTURAL
  }

  predicate EndsWith(s: string, suffix: string) {
    |s| >= |suffix| && forall i | 0 <= i < |suffix| :: s[|s| - |suffix| + i] == suffix[i]
  }

  /** The quoted string can be taken for the key. */
  predicate Mimics(s: string, key: string) {
    s == key || EndsWith(s, "\"" + key)
  }

  function End(ps: seq<Piece>, i: nat): nat
    requires i < |ps|
  {
    |TextTo(Rendered(ps), i + 1)|
  }

  lemma Assoc(a: string, b: string, c: string)
    ensures (a + b) + c == a + (b + c)
  {
  }

  lemma {:induction false} TextCut(parts: seq<string>, i: nat, tail: string)
    requires i <= |parts|
    ensures TextTo(parts, |parts|) + tail == TextTo(parts, i) + Rest(parts, i, tail)
    decreases |parts| - i
  {
    if i == |parts| {
    } else {
      TextCut(parts, i + 1, tail);
      Assoc(TextTo(parts, i), parts[i], Rest(parts, i + 1, tail));
    }
  }

  lemma {:induction false} TextAtMost(parts: seq<string>, i: nat, j: nat)
    requires i <= j <= |parts|
    ensures |TextTo(parts, i)| <= |TextTo(parts, j)|
  {
    if i == j {
    } else {
      TextAtMost(parts, i, j - 1);
    }
  }

  // ----- the tail of an escaped string -----

  lemma EndsWithQuote(t: string)
    ensures EndsWith(t, "\"" + "") <==> t != "" && t[|t| - 1] == '"'
  {
    var suffix := "\"" + "";
    assert |suffix| == 1 && suffix[0] == '"';
    assert t != "" ==> t[|t| - |suffix| + 0] == t[|t| - 1];
  }

  lemma {:induction false} EscapedLast(s: string)
    requires s != ""
    ensures Escaped(s) != "" && (Escaped(s)[|Escaped(s)| - 1] == '"' <==> s[|s| - 1] == '"')
  {
    if |s| == 1 {
    } else {
      EscapedLast(s[1..]);
    }
  }

  lemma EscapedTailQuote(s: string)
    requires s != ""
    ensures EndsWith(Escaped(s), "\"" + "") <==> EndsWith(s, "\"" + "")
  {
    EscapedLast(s);
    EndsWithQuote(s);
    EndsWithQuote(Escaped(s));
  }

  lemma {:induction false} EscapedTail(s: string, key: string)
    requires Plain(key)
    ensures EndsWith(Escaped(s), "\"" + key) <==> EndsWith(s, "\"" + key)
    decreases |key|
  {
    if s != "" {
      if key == "" {
        EscapedTailQuote(s);
      } else {
        EscapedTailStep(s, key);
      }
    }
  }

  lemma EndsWithSnoc(s: string, c: char, suffix: string, d: char)
    ensures EndsWith(s + [c], suffix + [d]) <==> c == d && EndsWith(s, suffix)
  {
    var t, u := s + [c], suffix + [d];
    if |t| >= |u| {
      var tail := t[|t| - |u|..];
      assert tail == s[|s| - |suffix|..] + [c];
      assert tail == u ==> tail[..|suffix|] == suffix && tail[|suffix|] == d;
    }
  }

  /** An escape ends in a backslash and a character, which a quote and a plain key never do. */
  lemma NoTailAfterEscape(e: string, x: char, key: string)
    requires Plain(key) && key != "" && EscapedChar(x) != [x]
    ensures !EndsWith(e + EscapedChar(x), "\"" + key)
  {
    var t, suffix := e + EscapedChar(x), "\"" + key;
    var m := |suffix| - 2;
    assert t[|t| - 2] == '\\';
    assert m > 0 ==> key[m - 1] in key;
    assert suffix[m] == if m == 0 then '"' else key[m - 1];
    assert |t| >= |suffix| ==> t[|t| - |suffix| + m] == t[|t| - 2];
  }

  lemma EscapedTailStep(s: string, key: string)
    requires Plain(key) && key != "" && s != ""
    ensures EndsWith(Escaped(s), "\"" + key) <==> EndsWith(s, "\"" + key)
    decreases |key|, 0
  {
    var n, m := |s| - 1, |key| - 1;
    var x, k := s[n], key[m];
    assert k in key;
    assert "\"" + key == ("\"" + key[..m]) + [k];
    assert s == s[..n] + [x];
    EndsWithSnoc(s[..n], x, "\"" + key[..m], k);
    EscapedSnoc(s);
    if EscapedChar(x) == [x] {
      EndsWithSnoc(Escaped(s[..n]), x, "\"" + key[..m], k);
      EscapedTail(s[..n], key[..m]);
    } else {
      NoTailAfterEscape(Escaped(s[..n]), x, key);
    }
  }

  // ----- every occurrence ends at a string that mimics the key -----

  /** The position of the closing quote of a match that starts at `at`. */
  function Close(key: string, at: nat): nat {
    at + |key| + 1
  }

  lemma MatchChars(t: string, key: string, at: nat)
    requires KeyOk(key) && OccursAt(t, Quoted(key), at)
    ensures t[at] == '"' && t[Close(key, at)] == '"' && t[at + 1..Close(key, at)] == key
    ensures forall i | at < i < Close(key, at) :: t[i] == key[i - at - 1] && t[i] != '"' && t[i] != '\\'
  {
    var k := Quoted(key);
    assert k[0] == '"' && k[|key| + 1] == '"' && forall i | 0 <= i < |key| :: k[i + 1] == key[i];
    forall i | at < i < Close(key, at) ensures t[i] == key[i - at - 1] && t[i] != '"' && t[i] != '\\' {
      assert t[at + (i - at)] == k[i - at] && key[i - at - 1] in key;
    }
    assert t[at + 0] == k[0] && t[at + (|key| + 1)] == k[|key| + 1];
  }

  /** No match closes on a quote inside an escaped string. */
  lemma NotInsideString(a: string, e: string, rest: string, key: string, at: nat)
    requires KeyOk(key) && forall j | 0 <= j < |e| && e[j] == '"' :: j > 0 && e[j - 1] == '\\'
    ensures OccursAt(a + (e + rest), Quoted(key), at) ==> !(|a| <= Close(key, at) < |a| + |e|)
  {
    var t := a + (e + rest);
    if OccursAt(t, Quoted(key), at) && |a| <= Close(key, at) < |a| + |e| {
      var j := Close(key, at) - |a|;
      assert t[Close(key, at)] == e[j] && (j > 0 ==> t[Close(key, at) - 1] == e[j - 1]);
      MatchChars(t, key, at);
    }
  }

  /** Nor on the quote that opens a string. */
  lemma NotOpening(a: string, raw: string, rest: string, key: string, at: nat)
    requires KeyOk(key) && RawOk(raw) && (a != "" ==> a[|a| - 1] == '"')
    ensures OccursAt(a + (raw + ("\"" + rest)), Quoted(key), at) ==> Close(key, at) != |a| + |raw|
  {
    var t := a + (raw + ("\"" + rest));
    if OccursAt(t, Quoted(key), at) && Close(key, at) == |a| + |raw| {
      assert forall i | 0 <= i < |raw| :: t[|a| + i] == raw[i] && raw[i] in raw;
      assert |a| > 0 ==> t[|a| - 1] == '"';
      assert at + 1 == |a| ==> t[|a|] == raw[0];
      MatchChars(t, key, at);
    }
  }

  lemma {:induction false} EscapedIsPlain(s: string, key: string)
    requires Escaped(s) == key && Plain(key)
    ensures s == key
  {
    if s == "" {
    } else {
      assert key[0] in key && EscapedChar(s[0])[0] == key[0];
      assert EscapedChar(s[0]) == [s[0]];
      assert Escaped(s[1..]) == key[1..];
      assert forall c | c in key[1..] :: c in key;
      EscapedIsPlain(s[1..], key[1..]);
      assert s == [s[0]] + s[1..];
    }
  }

  /** A match that closes a string shows the string to mimic the key. */
  lemma ClosesMimic(a: string, str: string, rest: string, key: string, at: nat)
    requires KeyOk(key)
    ensures OccursAt(a + ("\"" + (Escaped(str) + ("\"" + rest))), Quoted(key), at)
            && Close(key, at) == |a| + 1 + |Escaped(str)|
            ==> Mimics(str, key)
  {
    var e := Escaped(str);
    var t := a + ("\"" + (e + ("\"" + rest)));
    if OccursAt(t, Quoted(key), at) && Close(key, at) == |a| + 1 + |e| {
      assert t[|a|] == '"' && t[|a| + 1..|a| + 1 + |e|] == e;
      MatchChars(t, key, at);
      assert at >= |a|;
      if at == |a| {
        assert e == key;
        EscapedIsPlain(str, key);
      } else {
        var k := |e| - |key| - 1;
        assert e[k..] == t[|a| + 1 + k..|a| + 1 + |e|];
        assert e[k..] == "\"" + key;
        EscapedTail(str, key);
      }
    }
  }

  lemma TextEndsInQuote(ps: seq<Piece>, n: nat)
    requires 0 < n <= |ps|
    ensures var t := TextTo(Rendered(ps), n); t != "" && t[|t| - 1] == '"'
  {
    var p := ps[n - 1];
    assert PieceText(p)[|PieceText(p)| - 1] == '"';
  }

  lemma NotWithoutQuotes(a: string, plain: string, rest: string, key: string, at: nat)
    requires KeyOk(key) && '"' !in plain
    ensures OccursAt(a + (plain + rest), Quoted(key), at) ==> !(|a| <= Close(key, at) < |a| + |plain|)
  {
    var t := a + (plain + rest);
    if OccursAt(t, Quoted(key), at) && |a| <= Close(key, at) < |a| + |plain| {
      assert t[Close(key, at)] == plain[Close(key, at) - |a|];
      assert plain[Close(key, at) - |a|] in plain;
      MatchChars(t, key, at);
    }
  }

  /** One text, cut at the places the lemmas above look at. */
  lemma PieceCuts(a: string, p: Piece, tail: string)
    ensures var t, e := a + (PieceText(p) + tail), Escaped(p.str);
            && t == a + (p.raw + ("\"" + (e + ("\"" + tail))))
            && t == (a + p.raw + "\"") + (e + ("\"" + tail))
            && t == (a + p.raw) + ("\"" + (e + ("\"" + tail)))
            && t == (a + PieceText(p)) + (tail + "")
  {
  }

  /** In the last piece of a text, only the quote that closes its string can end a match. */
  lemma MatchInLastPiece(a: string, p: Piece, tail: string, key: string, at: nat)
    requires KeyOk(key) && RawOk(p.raw) && '"' !in tail && (a != "" ==> a[|a| - 1] == '"')
    requires OccursAt(a + (PieceText(p) + tail), Quoted(key), at) && Close(key, at) >= |a|
    ensures Close(key, at) + 1 == |a| + |PieceText(p)| && Mimics(p.str, key)
  {
    var e := Escaped(p.str);
    PieceCuts(a, p, tail);
    NotWithoutQuotes(a, p.raw, "\"" + (e + ("\"" + tail)), key, at);
    NotWithoutQuotes(a + PieceText(p), tail, "", key, at);
    NotOpening(a, p.raw, e + ("\"" + tail), key, at);
    forall j: nat | j < |e| && e[j] == '"' ensures j > 0 && e[j - 1] == '\\' { EscapedQuote(p.str, j); }
    NotInsideString(a + p.raw + "\"", e, "\"" + tail, key, at);
    ClosesMimic(a + p.raw, p.str, tail, key, at);
  }

  /** A match that closes inside a prefix is a match in the prefix. */
  lemma MatchInPrefix(a: string, rest: string, key: string, at: nat)
    requires OccursAt(a + rest, Quoted(key), at) && Close(key, at) < |a|
    ensures OccursAt(a, Quoted(key), at)
  {
    assert (a + rest)[at..at + |Quoted(key)|] == a[at..at + |Quoted(key)|];
  }

  ghost predicate EndsAtMimic(ps: seq<Piece>, key: string, at: nat) {
    exists i :: 0 <= i < |ps| && Close(key, at) + 1 == End(ps, i) && Mimics(ps[i].str, key)
  }

  lemma MatchInLast(ps: seq<Piece>, n: nat, tail: string, key: string, at: nat)
    requires WellFormed(ps) && KeyOk(key) && '"' !in tail && 0 < n <= |ps|
    requires var a := TextTo(Rendered(ps), n - 1);
             OccursAt(a + (PieceText(ps[n - 1]) + tail), Quoted(key), at) && Close(key, at) >= |a|
    ensures EndsAtMimic(ps, key, at)
  {
    if n > 1 { TextEndsInQuote(ps, n - 1); }
    MatchInLastPiece(TextTo(Rendered(ps), n - 1), ps[n - 1], tail, key, at);
    assert Close(key, at) + 1 == End(ps, n - 1);
  }

  lemma MatchInEarlier(ps: seq<Piece>, n: nat, tail: string, key: string, at: nat)
    requires 0 < n <= |ps| && Close(key, at) < |TextTo(Rendered(ps), n - 1)|
    requires OccursAt(TextTo(Rendered(ps), n - 1) + (PieceText(ps[n - 1]) + tail), Quoted(key), at)
    ensures OccursAt(TextTo(Rendered(ps), n - 1) + "", Quoted(key), at)
  {
    var a := TextTo(Rendered(ps), n - 1);
    MatchInPrefix(a, PieceText(ps[n - 1]) + tail, key, at);
    assert a + "" == a;
  }

  lemma NoQuoteNoMatch(tail: string, key: string, at: nat)
    requires KeyOk(key) && '"' !in tail
    ensures !OccursAt("" + tail, Quoted(key), at)
  {
    assert "" + tail == "" + (tail + "");
    NotWithoutQuotes("", tail, "", key, at);
  }

  lemma MatchRegrouped(a: string, piece: string, tail: string, key: string, at: nat)
    requires OccursAt((a + piece) + tail, Quoted(key), at)
    ensures OccursAt(a + (piece + tail), Quoted(key), at)
  {
    Assoc(a, piece, tail);
  }

  lemma MatchBefore(ps: seq<Piece>, n: nat, tail: string, key: string, at: nat)
    requires WellFormed(ps) && KeyOk(key) && '"' !in tail && 0 < n <= |ps|
    requires OccursAt(TextTo(Rendered(ps), n) + tail, Quoted(key), at)
    ensures EndsAtMimic(ps, key, at) || OccursAt(TextTo(Rendered(ps), n - 1) + "", Quoted(key), at)
  {
    var a := TextTo(Rendered(ps), n - 1);
    MatchRegrouped(a, PieceText(ps[n - 1]), tail, key, at);
    if Close(key, at) >= |a| {
      MatchInLast(ps, n, tail, key, at);
    } else {
      MatchInEarlier(ps, n, tail, key, at);
    }
  }

  lemma {:induction false} MatchEndsAtMimic(ps: seq<Piece>, n: nat, tail: string, key: string, at: nat)
    requires WellFormed(ps) && KeyOk(key) && '"' !in tail && n <= |ps|
    requires OccursAt(TextTo(Rendered(ps), n) + tail, Quoted(key), at)
    ensures EndsAtMimic(ps, key, at)
  {
    if n == 0 {
      NoQuoteNoMatch(tail, key, at);
    } else {
      MatchBefore(ps, n, tail, key, at);
      if !EndsAtMimic(ps, key, at) { MatchEndsAtMimic(ps, n - 1, "", key, at); }
    }
  }

  lemma OccursInConcat(head: string, rest: string, pattern: string)
    requires EndsWith(head, pattern)
    ensures OccursAt(head + rest, pattern, |head| - |pattern|)
  {
    var cut := |head| - |pattern|;
    assert (head + rest)[cut..cut + |pattern|] == head[cut..];
  }

  lemma EndsWithMore(more: string, s: string, suffix: string)
    requires EndsWith(s, suffix)
    ensures EndsWith(more + s, suffix)
  {
    assert (more + s)[|more + s| - |suffix|..] == s[|s| - |suffix|..];
  }

  lemma OccursAtEnd(parts: seq<string>, i: nat, tail: string, pattern: string)
    requires i < |parts| && EndsWith(parts[i], pattern)
    ensures |pattern| <= |TextTo(parts, i + 1)|
    ensures OccursAt(TextTo(parts, |parts|) + tail, pattern, |TextTo(parts, i + 1)| - |pattern|)
  {
    var head := TextTo(parts, i + 1);
    EndsWithMore(TextTo(parts, i), parts[i], pattern);
    TextCut(parts, i + 1, tail);
    OccursInConcat(head, Rest(parts, i + 1, tail), pattern);
  }

  lemma EndsWithClosed(s: string, suffix: string)
    requires EndsWith(s, suffix)
    ensures EndsWith(s + "\"", suffix + "\"")
  {
    var t := s + "\"";
    assert t[|t| - |suffix| - 1..] == s[|s| - |suffix|..] + "\"";
  }

  lemma MimicSuffix(str: string, key: string)
    requires Plain(key) && Mimics(str, key)
    ensures EndsWith("\"" + Escaped(str) + "\"", Quoted(key))
  {
    EscapedTail(str, key);
    if EndsWith(Escaped(str), "\"" + key) {
      EndsWithMore("\"", Escaped(str), "\"" + key);
      EndsWithClosed("\"" + Escaped(str), "\"" + key);
    } else {
      EscapedPlain(key);
    }
  }

  lemma PieceEnds(p: Piece, key: string)
    requires Plain(key) && Mimics(p.str, key)
    ensures EndsWith(PieceText(p), Quoted(key))
  {
    MimicSuffix(p.str, key);
    EndsWithMore(p.raw, "\"" + Escaped(p.str) + "\"", Quoted(key));
    assert PieceText(p) == p.raw + ("\"" + Escaped(p.str) + "\"");
  }

  /** And a string that mimics the key does end a match. */
  lemma MimicEndsMatch(ps: seq<Piece>, tail: string, key: string, i: nat)
    requires KeyOk(key) && i < |ps| && Mimics(ps[i].str, key)
    ensures |Quoted(key)| <= End(ps, i) && OccursAt(Text(ps, tail), Quoted(key), End(ps, i) - |Quoted(key)|)
  {
    hide EndsWith, OccursAt, Mimics, PieceText, TextTo;
    PieceEnds(ps[i], key);
    OccursAtEnd(Rendered(ps), i, tail, Quoted(key));
  }

  /** The first string from i on that mimics the key, or |ps|. */
  function FirstMimic(ps: seq<Piece>, key: string, from: nat): (i: nat)
    requires from <= |ps|
    ensures from <= i <= |ps| && (i < |ps| ==> Mimics(ps[i].str, key))
    ensures forall j | from <= j < i :: !Mimics(ps[j].str, key)
    decreases |ps| - from
  {
    if from == |ps| || Mimics(ps[from].str, key) then from else FirstMimic(ps, key, from + 1)
  }

  /** Where the first match would start. */
  function MatchStart(ps: seq<Piece>, key: string): int {
    var i := FirstMimic(ps, key, 0);
    if i == |ps| then NPOS else End(ps, i) - |key| - 2
  }

  lemma EndsInOrder(ps: seq<Piece>, i: nat, j: nat)
    requires i <= j < |ps|
    ensures End(ps, i) <= End(ps, j)
  {
    hide Rendered, TextTo;
    TextAtMost(Rendered(ps), i + 1, j + 1);
  }

  lemma FirstMimicFirst(ps: seq<Piece>, key: string, j: nat)
    requires j < |ps| && Mimics(ps[j].str, key)
    ensures FirstMimic(ps, key, 0) <= j && End(ps, FirstMimic(ps, key, 0)) <= End(ps, j)
  {
    var i := FirstMimic(ps, key, 0);
    assert i <= j;
    EndsInOrder(ps, i, j);
  }

  lemma NoMimicEarlier(ps: seq<Piece>, key: string, at: nat)
    requires var i := FirstMimic(ps, key, 0); i < |ps| ==> at + |key| + 2 < End(ps, i)
    ensures !EndsAtMimic(ps, key, at)
  {
    if EndsAtMimic(ps, key, at) {
      var j :| 0 <= j < |ps| && Close(key, at) + 1 == End(ps, j) && Mimics(ps[j].str, key);
      FirstMimicFirst(ps, key, j);
    }
  }

  lemma NoEarlierMatch(ps: seq<Piece>, tail: string, key: string, at: nat)
    requires WellFormed(ps) && KeyOk(key) && '"' !in tail
    requires var i := FirstMimic(ps, key, 0); i < |ps| ==> at + |key| + 2 < End(ps, i)
    ensures !OccursAt(Text(ps, tail), Quoted(key), at)
  {
    NoMimicEarlier(ps, key, at);
    if OccursAt(Text(ps, tail), Quoted(key), at) {
      MatchEndsAtMimic(ps, |ps|, tail, key, at);
    }
  }

  lemma FindNone(t: string, pattern: string)
    requires forall j: nat :: !OccursAt(t, pattern, j)
    ensures Find(t, pattern, 0) == NPOS
  {
  }

  lemma FindFirst(t: string, pattern: string, at: nat)
    requires OccursAt(t, pattern, at) && forall j: nat | j < at :: !OccursAt(t, pattern, j)
    ensures Find(t, pattern, 0) == at
  {
  }

  /** The key search of all the decoders, on any printed text. */
  lemma KeySearchExactly(ps: seq<Piece>, tail: string, key: string)
    requires WellFormed(ps) && KeyOk(key) && '"' !in tail
    ensures Find(Text(ps, tail), Quoted(key), 0) == MatchStart(ps, key)
  {
    hide EndsWith, OccursAt, Mimics, TextTo, Text, FirstMimic, WellFormed, KeyOk;
    var i := FirstMimic(ps, key, 0);
    if i == |ps| {
      forall j: nat ensures !OccursAt(Text(ps, tail), Quoted(key), j) { NoEarlierMatch(ps, tail, key, j); }
      FindNone(Text(ps, tail), Quoted(key));
    } else {
      MimicEndsMatch(ps, tail, key, i);
      var at: nat := MatchStart(ps, key);
      forall j: nat | j < at ensures !OccursAt(Text(ps, tail), Quoted(key), j) { NoEarlierMatch(ps, tail, key, j); }
      FindFirst(Text(ps, tail), Quoted(key), at);
    }
  }
}
