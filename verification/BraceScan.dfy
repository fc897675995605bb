/** The brace-matching scanner that cuts one object out of a response. */
module BraceScan {
  import opened Strings
  import opened JsonText
  import opened KeySearch

  // ----- the scanner -----

  /** How many characters it takes to bring the depth back to 0; NPOS when the text ends first. */
  function Scan(s: string, depth: int, inString: bool, escaped: bool): (n: int)
    ensures n == NPOS || 1 <= n <= |s|
    decreases |s|
  {
    if s == "" then NPOS
    else if escaped then Shifted(1, Scan(s[1..], depth, inString, false))
    else if s[0] == '\\' then Shifted(1, Scan(s[1..], depth, inString, inString))
    else if s[0] == '"' then Shifted(1, Scan(s[1..], depth, !inString, false))
    else if inString then Shifted(1, Scan(s[1..], depth, true, false))
    else if s[0] == '{' then Shifted(1, Scan(s[1..], depth + 1, false, false))
    else if s[0] == '}' then
      if depth == 1 then 1 else Shifted(1, Scan(s[1..], depth - 1, false, false))
    else Shifted(1, Scan(s[1..], depth, false, false))
  }

  function ObjectAt(text: string, start: nat): string
    requires start <= |text|
  {
    var n := Scan(text[start..], 0, false, false);
    if n == NPOS then "" else text[start..start + n]
  }

  /** The object that opens at the next brace. */
  function ObjectAfter(text: string, from: nat): string {
    var start := FindChar(text, '{', from);
    if start == NPOS then "" else ObjectAt(text, start)
  }

  function ObjectFor(text: string, path: string): string {
    var keyPos := Find(text, Quoted(path), 0);
    if keyPos == NPOS then "" else ObjectAfter(text, keyPos + |Quoted(path)|)
  }

  method MatchBraces(text: string, objectStart: nat) returns (found: string)
    requires objectStart < |text|
    ensures found == ObjectAt(text, objectStart)
  {
    var depth, inString, escaped := 0, false, false;
    ghost var whole := Scan(text[objectStart..], 0, false, false);
    var pos := objectStart;
    while pos < |text|
      invariant objectStart <= pos <= |text|
      invariant whole == Shifted(pos - objectStart, Scan(text[pos..], depth, inString, escaped))
      decreases |text| - pos
    {
      var ch := text[pos];
      assert text[pos..][0] == ch && text[pos..][1..] == text[pos + 1..];
      pos := pos + 1;
      if escaped {
        escaped := false;
        continue;
      }
      if ch == '\\' {
        escaped := inString;
        continue;
      }
      if ch == '"' {
        inString := !inString;
        continue;
      }
      if inString {
        continue;
      }
      if ch == '{' {
        depth := depth + 1;
      } else if ch == '}' {
        depth := depth - 1;
        if depth == 0 {
          return text[objectStart..pos];
        }
      }
    }
    found := "";
  }

  method ExtractObjectForPath(text: string, path: string) returns (found: string)
    ensures found == ObjectFor(text, path)
  {
    hide Find, FindChar, Scan, ObjectAt;
    var key := "\"" + path + "\"";
    var keyPos := Find(text, key, 0);
    if keyPos == NPOS {
      return "";
    }
    var objectStart := FindChar(text, '{', keyPos + |key|);
    if objectStart == NPOS {
      return "";
    }
    found := MatchBraces(text, objectStart);
  }

  // ----- nested values -----

  datatype Json =
    | Str(text: string)
    | Literal(raw: string)
    | List(items: seq<Json>)
    | Object(fields: seq<Field>)

  datatype Field = Field(key: string, value: Json)

  /** A number, true, false or null: nothing the scanner reacts to. */
  predicate Quiet(raw: string) {
    forall i | 0 <= i < |raw| :: raw[i] != '"' && raw[i] != '\\' && raw[i] != '{' && raw[i] != '}'
  }

  predicate Printable(j: Json) {
    match j
    case Str(_) => true
    case Literal(raw) => Quiet(raw)
    case List(items) => forall i | 0 <= i < |items| :: Printable(items[i])
    case Object(fields) => forall i | 0 <= i < |fields| :: Printable(fields[i].value)
  }

  function Printed(j: Json): string {
    match j
    case Str(text) => InQuotes("", Escaped(text))
    case Literal(raw) => raw
    case List(items) => "[" + (PrintedItems(items, "") + "]")
    case Object(fields) => "{" + (PrintedFields(fields, "") + "}")
  }

  function PrintedItems(items: seq<Json>, separator: string): string {
    if items == [] then "" else separator + (Printed(items[0]) + PrintedItems(items[1..], ","))
  }

  function PrintedFields(fields: seq<Field>, separator: string): string {
    if fields == [] then ""
    else InQuotes(separator, Escaped(fields[0].key)) + (":" + (Printed(fields[0].value) + PrintedFields(fields[1..], ",")))
  }

  /** The scanner passes over x without changing depth. */
  ghost predicate PassesOver(x: string, rest: string, depth: int) {
    Scan(x + rest, depth, false, false) == Shifted(|x|, Scan(rest, depth, false, false))
  }

  lemma PassTogether(x: string, y: string, rest: string, depth: int)
    requires PassesOver(x, y + rest, depth) && PassesOver(y, rest, depth)
    ensures PassesOver(x + y, rest, depth)
  {
    hide Scan;
    assert (x + y) + rest == x + (y + rest);
  }

  lemma {:induction false} PassQuiet(raw: string, rest: string, depth: int)
    requires Quiet(raw)
    ensures PassesOver(raw, rest, depth)
    decreases |raw|
  {
    if raw == "" {
      assert raw + rest == rest;
    } else {
      assert (raw + rest)[1..] == raw[1..] + rest;
      PassQuiet(raw[1..], rest, depth);
    }
  }

  lemma ScanEscapedChar(c: char, tail: string, depth: int)
    ensures Scan(EscapedChar(c) + tail, depth, true, false) == Shifted(|EscapedChar(c)|, Scan(tail, depth, true, false))
  {
    var text := EscapedChar(c) + tail;
    if |EscapedChar(c)| == 1 {
      assert text[1..] == tail;
    } else {
      assert text[0] == '\\' && text[1..][1..] == tail;
    }
  }

  lemma {:induction false} ScanThrough(s: string, rest: string, depth: int)
    ensures Scan(Escaped(s) + rest, depth, true, false) == Shifted(|Escaped(s)|, Scan(rest, depth, true, false))
    decreases |s|
  {
    if s == "" {
      assert "" + rest == rest;
    } else {
      Assoc(EscapedChar(s[0]), Escaped(s[1..]), rest);
      ScanEscapedChar(s[0], Escaped(s[1..]) + rest, depth);
      ScanThrough(s[1..], rest, depth);
    }
  }

  /** Braces, quotes and backslashes inside an escaped string do not count. */
  lemma PassQuoted(raw: string, s: string, rest: string, depth: int)
    requires Quiet(raw)
    ensures PassesOver(InQuotes(raw, Escaped(s)), rest, depth)
  {
    hide Escaped;
    var inner := Escaped(s) + ("\"" + rest);
    assert InQuotes(raw, Escaped(s)) + rest == raw + ("\"" + inner);
    PassQuiet(raw, "\"" + inner, depth);
    ScanThrough(s, "\"" + rest, depth);
    assert ("\"" + rest)[1..] == rest && ("\"" + inner)[1..] == inner;
  }

  lemma PassBraces(x: string, rest: string, depth: int)
    requires depth >= 0 && PassesOver(x, "}" + rest, depth + 1)
    ensures Scan(("{" + (x + "}")) + rest, depth, false, false)
            == if depth == 0 then |x| + 2 else Shifted(|x| + 2, Scan(rest, depth, false, false))
  {
    var text := ("{" + (x + "}")) + rest;
    assert text[1..] == x + ("}" + rest);
    assert ("}" + rest)[1..] == rest;
  }

  lemma {:induction false} PassValue(j: Json, rest: string, depth: int)
    requires Printable(j) && depth >= 1
    ensures PassesOver(Printed(j), rest, depth)
    decreases j, 1
  {
    hide Scan, Escaped, InQuotes;
    match j {
      case Str(text) => PassQuoted("", text, rest, depth);
      case Literal(raw) => PassQuiet(raw, rest, depth);
      case List(items) =>
        PassQuiet("[", PrintedItems(items, "") + "]" + rest, depth);
        PassItems(items, "", "]" + rest, depth);
        PassQuiet("]", rest, depth);
        PassTogether(PrintedItems(items, ""), "]", rest, depth);
        assert PrintedItems(items, "") + "]" + rest == (PrintedItems(items, "") + "]") + rest;
        PassTogether("[", PrintedItems(items, "") + "]", rest, depth);
      case Object(fields) =>
        PassFields(fields, "", "}" + rest, depth + 1);
        PassBraces(PrintedFields(fields, ""), rest, depth);
    }
  }

  lemma {:induction false} PassItems(items: seq<Json>, separator: string, rest: string, depth: int)
    requires (forall i | 0 <= i < |items| :: Printable(items[i])) && depth >= 1 && Quiet(separator)
    ensures PassesOver(PrintedItems(items, separator), rest, depth)
    decreases items, 0
  {
    hide Scan, Escaped, InQuotes;
    if items == [] {
      PassQuiet("", rest, depth);
    } else {
      var more := PrintedItems(items[1..], ",");
      PassItems(items[1..], ",", rest, depth);
      PassValue(items[0], more + rest, depth);
      PassTogether(Printed(items[0]), more, rest, depth);
      PassQuiet(separator, (Printed(items[0]) + more) + rest, depth);
      PassTogether(separator, Printed(items[0]) + more, rest, depth);
    }
  }

  lemma {:induction false} PassFields(fields: seq<Field>, separator: string, rest: string, depth: int)
    requires (forall i | 0 <= i < |fields| :: Printable(fields[i].value)) && depth >= 1 && Quiet(separator)
    ensures PassesOver(PrintedFields(fields, separator), rest, depth)
    decreases fields, 0
  {
    hide Scan, Escaped, InQuotes;
    if fields == [] {
      PassQuiet("", rest, depth);
    } else {
      var more, value := PrintedFields(fields[1..], ","), Printed(fields[0].value);
      PassFields(fields[1..], ",", rest, depth);
      PassValue(fields[0].value, more + rest, depth);
      PassTogether(value, more, rest, depth);
      PassQuiet(":", (value + more) + rest, depth);
      PassTogether(":", value + more, rest, depth);
      PassQuoted(separator, fields[0].key, (":" + (value + more)) + rest, depth);
      PassTogether(InQuotes(separator, Escaped(fields[0].key)), ":" + (value + more), rest, depth);
    }
  }

  lemma ObjectAfterCut(a: string, b: string)
    ensures ObjectAfter(a + b, |a|) == ObjectAfter(b, 0)
  {
    hide Scan, FindChar;
    FindCharShift(a, b, '{', 0);
    var start := FindChar(b, '{', 0);
    if start != NPOS {
      assert (a + b)[|a| + start..] == b[start..];
      var n := Scan(b[start..], 0, false, false);
      assert n != NPOS ==> (a + b)[|a| + start..|a| + start + n] == b[start..start + n];
    }
  }

  lemma ObjectHere(before: string, found: string, after: string)
    requires '{' !in before && found != "" && found[0] == '{' && Scan(found + after, 0, false, false) == |found|
    ensures ObjectAfter(before + (found + after), 0) == found
  {
    hide Scan, FindChar;
    var text := before + (found + after);
    assert found + after == ['{'] + (found + after)[1..];
    FindCharHere(before, '{', (found + after)[1..]);
    assert text[|before|..] == found + after;
    assert text[|before|..|before| + |found|] == found;
  }

  /** Started at its opening brace, the scanner returns exactly the object, whatever follows it. */
  lemma ObjectScanned(before: string, fields: seq<Field>, trailing: string)
    requires Printable(Object(fields))
    ensures ObjectAt(before + (Printed(Object(fields)) + trailing), |before|) == Printed(Object(fields))
  {
    hide Scan, Escaped, InQuotes;
    var found := Printed(Object(fields));
    PassFields(fields, "", "}" + trailing, 1);
    PassBraces(PrintedFields(fields, ""), trailing, 0);
    assert (before + (found + trailing))[|before|..] == found + trailing;
    assert (found + trailing)[..|found|] == found;
  }

  /** Cut off before its closing brace, the object is not found at all. */
  lemma UnclosedObject(fields: seq<Field>)
    requires Printable(Object(fields))
    ensures ObjectAt("{" + PrintedFields(fields, ""), 0) == ""
  {
    hide Escaped, InQuotes;
    var inner := PrintedFields(fields, "");
    PassFields(fields, "", "", 1);
    assert inner + "" == inner;
    var text := "{" + inner;
    assert text[0..] == text && text[1..] == inner;
  }
}
