/** What the field decoders read out of a printed text, wherever their key search happens to end. */
module FieldText {
  import opened Models
  import opened Strings
  import opened JsonText
  import opened KeySearch

  // ----- printing -----

  lemma TextStep(ps: seq<Piece>, n: nat)
    requires 0 < n <= |ps|
    ensures n == 1 ==> TextTo(Rendered(ps), 1) == PieceText(ps[0])
    ensures TextTo(Rendered(ps), n) == TextTo(Rendered(ps), n - 1) + PieceText(ps[n - 1])
  {
    assert n == 1 ==> "" + PieceText(ps[0]) == PieceText(ps[0]);
  }

  /** The serialisers write their own keys unescaped. */
  lemma KeyStep(ps: seq<Piece>, n: nat)
    requires 0 < n <= |ps| && Plain(ps[n - 1].str)
    ensures n == 1 ==> TextTo(Rendered(ps), 1) == InQuotes(ps[0].raw, ps[0].str)
    ensures TextTo(Rendered(ps), n) == TextTo(Rendered(ps), n - 1) + InQuotes(ps[n - 1].raw, ps[n - 1].str)
  {
    TextStep(ps, n);
    EscapedPlain(ps[n - 1].str);
  }

  // ----- reading on from a cut -----

  lemma StringAfterCut(a: string, b: string)
    ensures StringAfter(a + b, |a|) == StringAfter(b, 0)
  {
    FindCharShift(a, b, ':', 0);
    var colon := FindChar(b, ':', 0);
    if colon != NPOS {
      FindCharShift(a, b, '"', colon);
      var quote := FindChar(b, '"', colon);
      assert quote != NPOS ==> (a + b)[|a| + quote + 1..] == b[quote + 1..];
    }
  }

  lemma StringAfterSkip(x: string, b: string)
    requires ':' !in x
    ensures StringAfter(x + b, 0) == StringAfter(b, 0)
  {
    StringAfterCut(x, b);
    FindCharSkip(x, b, ':');
    FindCharShift(x, b, ':', 0);
  }

  lemma ColonInside(raw: string, rest: string)
    requires ':' in raw
    ensures 0 <= FindChar(raw + rest, ':', 0) < |raw|
  {
    var i :| 0 <= i < |raw| && raw[i] == ':';
    assert (raw + rest)[i] == ':';
  }

  lemma QuoteAfter(raw: string, rest: string, from: nat)
    requires '"' !in raw && from <= |raw|
    ensures FindChar(raw + ("\"" + rest), '"', from) == |raw|
  {
    var t := raw + ("\"" + rest);
    assert t[|raw|] == '"';
    assert forall i | 0 <= i < |raw| :: t[i] == raw[i] && raw[i] in raw;
  }

  /** Past a colon in the punctuation, the next quote opens the piece's own string. */
  lemma StringAfterHere(raw: string, str: string, rest: string)
    requires ':' in raw && '"' !in raw
    ensures StringAfter(raw + ("\"" + (Escaped(str) + ("\"" + rest))), 0) == Some(Letters(str))
  {
    var inner := Escaped(str) + ("\"" + rest);
    var text := raw + ("\"" + inner);
    var colon := FindChar(text, ':', 0);
    ColonInside(raw, "\"" + inner);
    QuoteAfter(raw, inner, colon);
    ReadEscaped(str, rest, "");
    assert text[|raw| + 1..] == inner;
    assert "" + Letters(str) == Letters(str);
  }

  /** Nothing in the piece can be taken for the colon of a field. */
  predicate NoColon(p: Piece) {
    ':' !in p.raw && ':' !in p.str
  }

  lemma StringAfterPiece(p: Piece, rest: string)
    requires RawOk(p.raw)
    ensures ':' in p.raw ==> StringAfter(PieceText(p) + rest, 0) == Some(Letters(p.str))
    ensures NoColon(p) ==> StringAfter(PieceText(p) + rest, 0) == StringAfter(rest, 0)
  {
    hide StringAfter, Letters;
    if ':' in p.raw {
      assert PieceText(p) + rest == p.raw + ("\"" + (Escaped(p.str) + ("\"" + rest)));
      StringAfterHere(p.raw, p.str, rest);
    } else if NoColon(p) {
      EscapedWithout(p.str, ':');
      StringAfterSkip(PieceText(p), rest);
    }
  }

  /** The first piece from i on with a colon in front of its string is the one that is read. */
  lemma {:induction false} StringAfterRest(ps: seq<Piece>, tail: string, i: nat, j: nat)
    requires WellFormed(ps) && i <= j < |ps| && ':' in ps[j].raw
    requires forall k | i <= k < j :: NoColon(ps[k])
    ensures StringAfter(Rest(Rendered(ps), i, tail), 0) == Some(Letters(ps[j].str))
    decreases j - i
  {
    hide StringAfter, Letters, PieceText, NoColon;
    StringAfterPiece(ps[i], Rest(Rendered(ps), i + 1, tail));
    if i == j {
    } else {
      StringAfterRest(ps, tail, i + 1, j);
    }
  }

  lemma TextAfter(ps: seq<Piece>, tail: string, i: nat)
    requires i < |ps|
    ensures Text(ps, tail) == TextTo(Rendered(ps), i + 1) + Rest(Rendered(ps), i + 1, tail)
  {
    hide Rendered, TextTo, Rest;
    TextCut(Rendered(ps), i + 1, tail);
  }

  /** A key is taken for the field of piece j: its first mimic stands before j, with no colon between. */
  predicate Leads(ps: seq<Piece>, key: string, j: nat) {
    && j < |ps| && ':' in ps[j].raw
    && var i := FirstMimic(ps, key, 0);
    && i < j
    && forall k | i < k < j :: NoColon(ps[k])
  }

  /** What every decoder does first: the text it reads on from starts after the first mimic. */
  lemma SearchEnds(ps: seq<Piece>, tail: string, key: string, i: nat)
    requires WellFormed(ps) && KeyOk(key) && '"' !in tail && i < |ps| && FirstMimic(ps, key, 0) == i
    ensures Find(Text(ps, tail), Quoted(key), 0) == End(ps, i) - |Quoted(key)| >= 0
  {
    KeySearchExactly(ps, tail, key);
    MimicEndsMatch(ps, tail, key, i);
  }

  lemma StringAtEnd(ps: seq<Piece>, tail: string, i: nat, j: nat)
    requires WellFormed(ps) && i < j < |ps| && ':' in ps[j].raw
    requires forall k | i < k < j :: NoColon(ps[k])
    ensures StringAfter(Text(ps, tail), End(ps, i)) == Some(Letters(ps[j].str))
  {
    hide StringAfter, Letters, Rest, TextTo, Rendered, Text;
    TextAfter(ps, tail, i);
    StringAfterCut(TextTo(Rendered(ps), i + 1), Rest(Rendered(ps), i + 1, tail));
    StringAfterRest(ps, tail, i + 1, j);
  }

  /** The string field decoder on any printed text. */
  lemma FieldDecoded(ps: seq<Piece>, tail: string, key: string, j: nat)
    requires WellFormed(ps) && KeyOk(key) && '"' !in tail && Leads(ps, key, j)
    ensures FieldValue(Text(ps, tail), key) == Some(Letters(ps[j].str))
  {
    hide StringAfter, NoColon;
    var i := FirstMimic(ps, key, 0);
    SearchEnds(ps, tail, key, i);
    StringAtEnd(ps, tail, i, j);
  }

  lemma FieldMissing(ps: seq<Piece>, tail: string, key: string)
    requires WellFormed(ps) && KeyOk(key) && '"' !in tail && FirstMimic(ps, key, 0) == |ps|
    ensures FieldValue(Text(ps, tail), key) == None
  {
    KeySearchExactly(ps, tail, key);
  }

  /** Text without quotes is taken for a key only if it is the key. */
  lemma PlainMimic(s: string, key: string)
    requires '"' !in s
    ensures Mimics(s, key) <==> s == key
  {
    var suffix := "\"" + key;
    if |s| >= |suffix| {
      assert s[|s| - |suffix| + 0] in s && suffix[0] == '"';
    }
  }

  /** No string before lo is taken for the key, piece j - 1 is it, and from lo on nothing holds a colon. */
  lemma LeadsBy(ps: seq<Piece>, key: string, lo: nat, j: nat)
    requires lo < j < |ps| && ':' in ps[j].raw && ps[j - 1].str == key
    requires forall k | 0 <= k < lo :: !Mimics(ps[k].str, key)
    requires forall k | lo < k < j :: NoColon(ps[k])
    ensures Leads(ps, key, j)
  {
    hide FirstMimic;
    assert Mimics(ps[j - 1].str, key);
  }

  // ----- numbers -----

  const NUMERIC: set<char> := {'-', '0', '1', '2', '3', '4', '5', '6', '7', '8', '9'}

  /** The number after the next colon: from the first digit or minus sign on, as long as the characters go on. */
  function NumberAfter(text: string, from: nat, chars: set<char>): Option<string> {
    var colon := FindChar(text, ':', from);
    var start := if colon == NPOS then NPOS else FindIn(text, NUMERIC, colon + 1);
    if start == NPOS then None
    else
      var end := FindNotIn(text, chars, start);
      Some(text[start..if end == NPOS then |text| else end])
  }

  function NumberField(text: string, field: string, chars: set<char>): Option<string> {
    var keyPos := Find(text, Quoted(field), 0);
    if keyPos == NPOS then None else NumberAfter(text, keyPos + |Quoted(field)|, chars)
  }

  /** A printed number, and what may follow it. */
  predicate NumberIn(number: string, chars: set<char>, next: string) {
    && number != "" && number[0] in NUMERIC && (forall i | 0 <= i < |number| :: number[i] in chars)
    && next != "" && next[0] !in chars
  }

  lemma NumberFirst(number: string, chars: set<char>, rest: string)
    requires NumberIn(number, chars, rest)
    ensures var t := number + rest;
            FindIn(t, NUMERIC, 0) == 0 && FindNotIn(t, chars, 0) == |number| && t[..|number|] == number
  {
    var t := number + rest;
    assert t[0] == number[0] && t[|number|] == rest[0];
    assert forall i | 0 <= i < |number| :: t[i] == number[i];
  }

  lemma SliceShift(a: string, b: string, n: nat)
    requires n <= |b|
    ensures (a + b)[|a|..|a| + n] == b[..n]
  {
  }

  lemma NumberAfterColon(a: string, b: string, chars: set<char>, n: nat)
    requires n < |b| && FindIn(b, NUMERIC, 0) == 0 && FindNotIn(b, chars, 0) == n
    ensures NumberAfter(a + (":" + b), |a|, chars) == Some(b[..n])
  {
    hide FindIn, FindNotIn;
    FindCharShift(a, ":" + b, ':', 0);
    Assoc(a, ":", b);
    FindInShift(a + ":", b, NUMERIC, 0);
    FindNotInShift(a + ":", b, chars, 0);
    SliceShift(a + ":", b, n);
  }

  lemma Regrouped(a: string, b: string, c: string, d: string)
    ensures (a + (b + c)) + d == a + (b + (c + d))
  {
  }

  lemma NumberRest(p: Piece, rest: string, number: string, next: string)
    requires p.raw == ":" + (number + next)
    ensures PieceText(p) + rest == ":" + (number + (next + (InQuotes("", Escaped(p.str)) + rest)))
  {
    var inner := InQuotes("", Escaped(p.str));
    assert PieceText(p) == p.raw + inner;
    Assoc(p.raw, inner, rest);
    Regrouped(":", number, next, inner + rest);
  }

  lemma NumberOfPiece(a: string, p: Piece, rest: string, chars: set<char>, number: string, next: string)
    requires p.raw == ":" + (number + next) && NumberIn(number, chars, next)
    ensures NumberAfter(a + (PieceText(p) + rest), |a|, chars) == Some(number)
  {
    hide NumberAfter, FindIn, FindNotIn, InQuotes, PieceText;
    var more := next + (InQuotes("", Escaped(p.str)) + rest);
    NumberRest(p, rest, number, next);
    NumberFirst(number, chars, more);
    NumberAfterColon(a, number + more, chars, |number|);
  }

  lemma NumberAtEnd(ps: seq<Piece>, tail: string, i: nat, chars: set<char>, number: string, next: string)
    requires i + 1 < |ps| && ps[i + 1].raw == ":" + (number + next) && NumberIn(number, chars, next)
    ensures NumberAfter(Text(ps, tail), End(ps, i), chars) == Some(number)
  {
    hide NumberAfter, NumberIn, TextTo, Text, PieceText;
    TextAfter(ps, tail, i);
    NumberOfPiece(TextTo(Rendered(ps), i + 1), ps[i + 1], Rest(Rendered(ps), i + 2, tail), chars, number, next);
  }

  /** The number decoder on any printed text whose key is followed by a number. */
  lemma NumberDecoded(ps: seq<Piece>, tail: string, key: string, i: nat,
                      chars: set<char>, number: string, next: string)
    requires WellFormed(ps) && KeyOk(key) && '"' !in tail && i + 1 < |ps| && FirstMimic(ps, key, 0) == i
    requires ps[i + 1].raw == ":" + (number + next) && NumberIn(number, chars, next)
    ensures NumberField(Text(ps, tail), key, chars) == Some(number)
  {
    hide FirstMimic, NumberAfter, NumberIn, TextTo, Text;
    SearchEnds(ps, tail, key, i);
    NumberAtEnd(ps, tail, i, chars, number, next);
  }
}
