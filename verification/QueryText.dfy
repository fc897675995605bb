/** The collection query as text: the collector's printer and the mock driver's reader. */
module QueryText {
  import opened Models
  import opened Strings
  import opened JsonText
  import opened KeySearch
  import opened FieldText
  import opened CommandText

  // ----- printing -----

  /** The query's id: the device's name and the clock in milliseconds. */
  function MakeCid(deviceName: string, nowMs: int): string {
    deviceName + "-" + Decimal(nowMs)
  }

  function QueryPiece(cid: string, paths: seq<string>, k: nat): Piece
    requires k < |paths| + 3
  {
    if k == 0 then Piece("{", "cid")
    else if k == 1 then Piece(":", cid)
    else if k == 2 then Piece(",", "query")
    else Piece(if k == 3 then ":[" else ",", paths[k - 3])
  }

  /** {"cid":"cid","query":["path",...]} */
  function QueryPieces(cid: string, paths: seq<string>): (ps: seq<Piece>)
    ensures |ps| == |paths| + 3
  {
    seq(|paths| + 3, k requires 0 <= k < |paths| + 3 => QueryPiece(cid, paths, k))
  }

  function NamePaths(points: seq<DataPoint>): (paths: seq<string>)
    ensures |paths| == |points|
  {
    seq(|points|, i requires 0 <= i < |points| => points[i].namePath)
  }

  function QueryFor(cid: string, paths: seq<string>): string {
    Text(QueryPieces(cid, paths), "]}")
  }

  /** None is the exception thrown when there is nothing to ask for. */
  method BuildQuery(cid: string, points: seq<DataPoint>) returns (query: Option<string>)
    ensures query == if points == [] then None else Some(QueryFor(cid, NamePaths(points)))
  {
    hide TextTo, Rendered, InQuotes, Plain, Escaped;
    if points == [] {
      return None;
    }
    ghost var ps := QueryPieces(cid, NamePaths(points));
    PlainKeys();
    WordPlain("cid");
    WordPlain("query");
    var out := InQuotes("{", "cid");
    KeyStep(ps, 1);
    var c := EscapeJson(cid);
    out := out + InQuotes(":", c);
    TextStep(ps, 2);
    out := out + InQuotes(",", "query");
    KeyStep(ps, 3);
    var separator := ":[";
    for i := 0 to |points|
      invariant separator == if i == 0 then ":[" else ","
      invariant out == TextTo(Rendered(ps), i + 3)
    {
      var p := EscapeJson(points[i].namePath);
      out := out + InQuotes(separator, p);
      TextStep(ps, i + 4);
      separator := ",";
    }
    query := Some(out + "]}");
  }

  // ----- the reader's scan -----

  /** The strings between the brackets, each trimmed; an unclosed one is dropped. */
  function ScanPaths(s: string, inString: bool, escaped: bool, current: string): seq<string>
    decreases |s|
  {
    if s == "" then []
    else if !inString then
      if s[0] == '"' then ScanPaths(s[1..], true, escaped, "") else ScanPaths(s[1..], false, escaped, current)
    else if escaped then ScanPaths(s[1..], true, false, current + [s[0]])
    else if s[0] == '\\' then ScanPaths(s[1..], true, true, current)
    else if s[0] == '"' then [Trim(current, SPACES)] + ScanPaths(s[1..], false, false, current)
    else ScanPaths(s[1..], true, false, current + [s[0]])
  }

  /** The array text after the query key. */
  function PathsAfter(json: string, from: nat): seq<string> {
    var start := FindChar(json, '[', from);
    var end := if start == NPOS then NPOS else FindChar(json, ']', start);
    if end == NPOS then [] else ScanPaths(json[start + 1..end], false, false, "")
  }

  function QueryPaths(json: string): seq<string> {
    var keyPos := Find(json, Quoted("query"), 0);
    if keyPos == NPOS then [] else PathsAfter(json, keyPos + |Quoted("query")|)
  }

  method ScanArray(list: string) returns (paths: seq<string>)
    ensures paths == ScanPaths(list, false, false, "")
  {
    hide Trim;
    paths := [];
    var current, inString, escaped := "", false, false;
    var pos := 0;
    while pos < |list|
      invariant pos <= |list|
      invariant paths + ScanPaths(list[pos..], inString, escaped, current) == ScanPaths(list, false, false, "")
      decreases |list| - pos
    {
      var ch := list[pos];
      var rest := list[pos..];
      assert rest[0] == ch && rest[1..] == list[pos + 1..];
      pos := pos + 1;
      if !inString {
        if ch == '"' {
          inString := true;
          current := "";
        }
        continue;
      }
      if escaped {
        current := current + [ch];
        escaped := false;
        continue;
      }
      if ch == '\\' {
        escaped := true;
        continue;
      }
      if ch == '"' {
        paths := paths + [Trim(current, SPACES)];
        inString := false;
        continue;
      }
      current := current + [ch];
    }
    assert paths + [] == paths;
  }

  method ExtractQueryPaths(json: string) returns (paths: seq<string>)
    ensures paths == QueryPaths(json)
  {
    hide Find, FindChar, Trim;
    var key := "\"query\"";
    assert key == Quoted("query");
    var keyPos := Find(json, key, 0);
    if keyPos == NPOS {
      return [];
    }
    var arrayStart := FindChar(json, '[', keyPos + |key|);
    var arrayEnd := if arrayStart == NPOS then NPOS else FindChar(json, ']', arrayStart);
    if arrayStart == NPOS || arrayEnd == NPOS {
      return [];
    }
    assert arrayStart < arrayEnd;
    paths := ScanArray(json[arrayStart + 1..arrayEnd]);
  }

  // ----- what is read back -----

  /** One path after the other, quoted and separated by commas. */
  function Listed(paths: seq<string>, first: bool): string {
    if paths == [] then "" else InQuotes(if first then "" else ",", Escaped(paths[0])) + Listed(paths[1..], false)
  }

  lemma ScanEscapedChar(c: char, tail: string, current: string)
    ensures ScanPaths(EscapedChar(c) + tail, true, false, current) == ScanPaths(tail, true, false, current + [Letter(c)])
  {
    var text := EscapedChar(c) + tail;
    if |EscapedChar(c)| == 1 {
      assert text[1..] == tail;
    } else {
      assert text[0] == '\\' && text[1..][1..] == tail;
    }
  }

  lemma {:induction false} ScanEscaped(s: string, rest: string, current: string)
    ensures ScanPaths(Escaped(s) + rest, true, false, current) == ScanPaths(rest, true, false, current + Letters(s))
    decreases |s|
  {
    if s == "" {
      assert "" + rest == rest && current + Letters(s) == current;
    } else {
      var tail := Escaped(s[1..]) + rest;
      Assoc(EscapedChar(s[0]), Escaped(s[1..]), rest);
      ScanEscapedChar(s[0], tail, current);
      ScanEscaped(s[1..], rest, current + [Letter(s[0])]);
      assert current + [Letter(s[0])] + Letters(s[1..]) == current + Letters(s);
    }
  }

  lemma ScanSeparator(separator: string, rest: string, current: string)
    requires separator == "" || separator == ","
    ensures ScanPaths(separator + ("\"" + rest), false, false, current) == ScanPaths(rest, true, false, "")
  {
    var text := separator + ("\"" + rest);
    assert ("\"" + rest)[1..] == rest;
    if separator == "," {
      assert text[1..] == "\"" + rest;
    } else {
      assert text == "\"" + rest;
    }
  }

  lemma ScanQuote(rest: string, current: string)
    ensures ScanPaths("\"" + rest, true, false, current) == [Trim(current, SPACES)] + ScanPaths(rest, false, false, current)
  {
    assert ("\"" + rest)[1..] == rest;
  }

  /** A quoted path is read as its trimmed letters. */
  lemma ScanQuoted(separator: string, path: string, rest: string, current: string)
    requires separator == "" || separator == ","
    ensures ScanPaths(InQuotes(separator, Escaped(path)) + rest, false, false, current)
            == [Trim(Letters(path), SPACES)] + ScanPaths(rest, false, false, Letters(path))
  {
    hide ScanPaths, Trim, Escaped;
    assert InQuotes(separator, Escaped(path)) + rest == separator + ("\"" + (Escaped(path) + ("\"" + rest)));
    ScanSeparator(separator, Escaped(path) + ("\"" + rest), current);
    ScanEscaped(path, "\"" + rest, "");
    assert "" + Letters(path) == Letters(path);
    ScanQuote(rest, Letters(path));
  }

  function ReadBack(path: string): string {
    Trim(Letters(path), SPACES)
  }

  /** What the reader gets: the array text ends at the first ] inside a path, and that path is lost. */
  function Received(paths: seq<string>): seq<string> {
    if paths == [] || ']' in paths[0] then [] else [ReadBack(paths[0])] + Received(paths[1..])
  }

  /** The list up to the first ], which may stand inside a path. */
  function Cut(paths: seq<string>, first: bool): string {
    if paths == [] then ""
    else
      var separator := if first then "" else ",";
      if ']' in paths[0] then separator + ("\"" + Escaped(paths[0][..FindChar(paths[0], ']', 0)]))
      else InQuotes(separator, Escaped(paths[0])) + Cut(paths[1..], false)
  }

  lemma ReadBackIs(path: string)
    ensures ReadBack(path) == Trim(Letters(path), SPACES)
  {
  }

  lemma ScanNothing(inString: bool, current: string)
    ensures ScanPaths("", inString, false, current) == []
  {
  }

  lemma OpenString(separator: string, s: string, current: string)
    requires separator == "" || separator == ","
    ensures ScanPaths(separator + ("\"" + Escaped(s)), false, false, current) == []
  {
    hide Escaped, ScanPaths;
    ScanSeparator(separator, Escaped(s), current);
    assert Escaped(s) + "" == Escaped(s);
    ScanEscaped(s, "", "");
    ScanNothing(true, "" + Letters(s));
  }

  lemma {:induction false} CutScan(paths: seq<string>, first: bool, current: string)
    ensures ScanPaths(Cut(paths, first), false, false, current) == Received(paths)
    decreases |paths|
  {
    hide Escaped, ScanPaths, InQuotes, Trim, ReadBack;
    if paths == [] {
      ScanNothing(false, current);
    } else if ']' in paths[0] {
      OpenString(if first then "" else ",", paths[0][..FindChar(paths[0], ']', 0)], current);
    } else {
      ScanQuoted(if first then "" else ",", paths[0], Cut(paths[1..], false), current);
      CutScan(paths[1..], false, Letters(paths[0]));
      ReadBackIs(paths[0]);
    }
  }

  lemma NoBracket(separator: string, path: string)
    requires ']' !in separator && ']' !in path
    ensures ']' !in InQuotes(separator, Escaped(path))
  {
    EscapedWithout(path, ']');
  }

  lemma Reparted(separator: string, head: string, tail: string, more: string)
    ensures InQuotes(separator, head + ("]" + tail)) + more == (separator + ("\"" + head)) + ("]" + (tail + ("\"" + more)))
  {
    assert InQuotes(separator, head + ("]" + tail)) == (separator + ("\"" + head)) + ("]" + (tail + "\""));
    assert ("]" + (tail + "\"")) + more == "]" + (tail + ("\"" + more));
  }

  lemma CutInside(separator: string, path: string, more: string) returns (rest: string)
    requires ']' in path && ']' !in separator
    ensures var cut := separator + ("\"" + Escaped(path[..FindChar(path, ']', 0)]));
            InQuotes(separator, Escaped(path)) + more == cut + ("]" + rest) && ']' !in cut
  {
    hide Escaped;
    var i := FindChar(path, ']', 0);
    var k :| 0 <= k < |path| && path[k] == ']';
    assert path == path[..i] + ([path[i]] + path[i + 1..]);
    EscapedAppend(path[..i], [path[i]] + path[i + 1..]);
    EscapedAppend([path[i]], path[i + 1..]);
    EscapedOne(path[i]);
    EscapedWithout(path[..i], ']');
    rest := Escaped(path[i + 1..]) + ("\"" + more);
    Reparted(separator, Escaped(path[..i]), Escaped(path[i + 1..]), more);
  }

  /** The list and its closing text, parted at the first ]. */
  lemma {:induction false} CutAtBracket(paths: seq<string>, first: bool) returns (rest: string)
    ensures Listed(paths, first) + "]}" == Cut(paths, first) + ("]" + rest) && ']' !in Cut(paths, first)
    decreases |paths|
  {
    hide Escaped, InQuotes, FindChar;
    if paths == [] {
      rest := "}";
      assert Listed(paths, first) + "]}" == "]}";
    } else {
      var separator := if first then "" else ",";
      var more := Listed(paths[1..], false) + "]}";
      Assoc(InQuotes(separator, Escaped(paths[0])), Listed(paths[1..], false), "]}");
      if ']' in paths[0] {
        rest := CutInside(separator, paths[0], more);
      } else {
        rest := CutAtBracket(paths[1..], false);
        Assoc(InQuotes(separator, Escaped(paths[0])), Cut(paths[1..], false), "]" + rest);
        NoBracket(separator, paths[0]);
      }
    }
  }

  lemma {:induction false} RestListed(cid: string, paths: seq<string>, i: nat)
    requires 0 < i <= |paths|
    ensures Rest(Rendered(QueryPieces(cid, paths)), i + 3, "]}") == Listed(paths[i..], false) + "]}"
    decreases |paths| - i
  {
    hide Escaped, InQuotes;
    if i < |paths| {
      RestListed(cid, paths, i + 1);
      assert paths[i..][1..] == paths[i + 1..];
      Assoc(InQuotes(",", Escaped(paths[i])), Listed(paths[i + 1..], false), "]}");
    } else {
      assert "" + "]}" == "]}";
    }
  }

  lemma OpenList(e: string, more: string)
    ensures InQuotes(":[", e) + (more + "]}") == ":[" + ((InQuotes("", e) + more) + "]}")
  {
    assert InQuotes(":[", e) == ":[" + InQuotes("", e);
  }

  lemma ListFollows(cid: string, paths: seq<string>)
    requires paths != []
    ensures Rest(Rendered(QueryPieces(cid, paths)), 3, "]}") == ":[" + (Listed(paths, true) + "]}")
  {
    hide Escaped, InQuotes;
    RestListed(cid, paths, 1);
    OpenList(Escaped(paths[0]), Listed(paths[1..], false));
  }

  lemma PathsAfterCut(a: string, b: string)
    ensures PathsAfter(a + b, |a|) == PathsAfter(b, 0)
  {
    hide ScanPaths, FindChar;
    FindCharShift(a, b, '[', 0);
    var start := FindChar(b, '[', 0);
    if start != NPOS {
      FindCharShift(a, b, ']', start);
      var end := FindChar(b, ']', start);
      assert end != NPOS ==> (a + b)[|a| + start + 1..|a| + end] == b[start + 1..end];
    }
  }

  lemma PathsBetween(before: string, inside: string, rest: string)
    requires '[' !in before && ']' !in inside
    ensures PathsAfter(before + ("[" + (inside + ("]" + rest))), 0) == ScanPaths(inside, false, false, "")
  {
    hide ScanPaths, FindChar;
    var b := "[" + (inside + ("]" + rest));
    FindCharHere(before, '[', inside + ("]" + rest));
    FindCharShift(before, b, ']', 0);
    FindCharHere("[" + inside, ']', rest);
    assert "[" + (inside + ("]" + rest)) == ("[" + inside) + ("]" + rest);
    assert (before + b)[|before| + 1..|before| + 1 + |inside|] == inside;
  }

  lemma QueryKey()
    ensures InQuotes(",", Escaped("query")) == "," + Quoted("query") && '[' !in "," + Quoted("query") + ":"
  {
    hide Escaped, Plain, Quoted, InQuotes;
    WordPlain("query");
    EscapedPlain("query");
    WordQuoted("query");
  }

  /** Whether the search ends at the cid or at the key, the bracket found next opens the list. */
  lemma ListAfter(cid: string, paths: seq<string>, i: nat)
    requires paths != [] && (i == 1 || i == 2)
    ensures PathsAfter(QueryFor(cid, paths), End(QueryPieces(cid, paths), i)) == Received(paths)
  {
    hide ScanPaths, PathsAfter, TextTo, Cut, Listed, Received, InQuotes, Escaped;
    var ps := QueryPieces(cid, paths);
    TextAfter(ps, "]}", i);
    PathsAfterCut(TextTo(Rendered(ps), i + 1), Rest(Rendered(ps), i + 1, "]}"));
    ListFollows(cid, paths);
    var rest := CutAtBracket(paths, true);
    var text := "[" + (Cut(paths, true) + ("]" + rest));
    assert ":[" + (Cut(paths, true) + ("]" + rest)) == ":" + text;
    if i == 2 {
      PathsBetween(":", Cut(paths, true), rest);
    } else {
      QueryKey();
      Assoc("," + Quoted("query"), ":", text);
      assert PieceText(ps[2]) == "," + Quoted("query");
      PathsBetween("," + Quoted("query") + ":", Cut(paths, true), rest);
    }
    CutScan(paths, true, "");
  }

  lemma QueryKeyAt(cid: string, paths: seq<string>)
    ensures var i := FirstMimic(QueryPieces(cid, paths), "query", 0); i == 1 || i == 2
  {
    hide FirstMimic, Mimics;
    var ps := QueryPieces(cid, paths);
    PlainMimic("cid", "query");
    PlainMimic("query", "query");
    assert ps[0].str == "cid" && ps[2].str == "query";
    assert !Mimics(ps[0].str, "query") && Mimics(ps[2].str, "query");
  }

  lemma QueryWellFormed(cid: string, paths: seq<string>)
    ensures WellFormed(QueryPieces(cid, paths)) && KeyOk("query") && KeyOk("cid")
  {
    WordPlain("query");
    WordPlain("cid");
  }

  /** The reader's list, for every cid and every paths: nothing in the cid can mislead the search. */
  lemma QueryReceived(cid: string, paths: seq<string>)
    requires paths != []
    ensures QueryPaths(QueryFor(cid, paths)) == Received(paths)
  {
    hide PathsAfter, FirstMimic, Received, Text, QueryPieces, WellFormed, KeyOk, Find;
    var ps := QueryPieces(cid, paths);
    QueryWellFormed(cid, paths);
    QueryKeyAt(cid, paths);
    var i := FirstMimic(ps, "query", 0);
    SearchEnds(ps, "]}", "query", i);
    ListAfter(cid, paths, i);
  }

  /** A path that the query carries unharmed. */
  predicate Carried(path: string) {
    ']' !in path && OneLine(path) && Trimmed(path, SPACES)
  }

  lemma {:induction false} TrimStartLength(s: string, chars: set<char>)
    ensures |TrimStart(s, chars)| <= |s|
    ensures |TrimStart(s, chars)| == |s| ==> TrimStart(s, chars) == s && (s == "" || s[0] !in chars)
  {
    if s != "" && s[0] in chars { TrimStartLength(s[1..], chars); }
  }

  lemma {:induction false} TrimEndLength(s: string, chars: set<char>)
    ensures |TrimEnd(s, chars)| <= |s|
    ensures |TrimEnd(s, chars)| == |s| ==> TrimEnd(s, chars) == s && (s == "" || s[|s| - 1] !in chars)
  {
    if s != "" && s[|s| - 1] in chars { TrimEndLength(s[..|s| - 1], chars); }
  }

  lemma TrimLength(s: string, chars: set<char>)
    ensures |Trim(s, chars)| == |s| ==> Trim(s, chars) == s && Trimmed(s, chars)
  {
    TrimStartLength(s, chars);
    TrimEndLength(TrimStart(s, chars), chars);
  }

  lemma ReadBackExactly(path: string)
    ensures ReadBack(path) == path <==> OneLine(path) && Trimmed(path, SPACES)
  {
    LettersExactly(path);
    TrimLength(Letters(path), SPACES);
    assert |Letters(path)| == |path|;
    if Letters(path) == path && Trimmed(path, SPACES) { assert Trim(path, SPACES) == path; }
  }

  lemma {:induction false} ReceivedExactly(paths: seq<string>)
    ensures |Received(paths)| <= |paths|
    ensures Received(paths) == paths <==> forall i | 0 <= i < |paths| :: Carried(paths[i])
    decreases |paths|
  {
    hide ReadBack, Trimmed, OneLine;
    if paths == [] {
    } else {
      ReceivedExactly(paths[1..]);
      ReadBackExactly(paths[0]);
      assert paths == [paths[0]] + paths[1..];
      assert forall i | 0 <= i < |paths[1..]| :: paths[1..][i] == paths[i + 1];
      assert forall i | 0 < i < |paths| :: paths[i] == paths[1..][i - 1];
    }
  }

  /** The query survives exactly when every path is trimmed, on one line and free of ]. */
  lemma QueryRoundTrip(cid: string, paths: seq<string>)
    requires paths != []
    ensures QueryPaths(QueryFor(cid, paths)) == paths <==> forall i | 0 <= i < |paths| :: Carried(paths[i])
  {
    QueryReceived(cid, paths);
    ReceivedExactly(paths);
  }

  lemma CidReceived(cid: string, paths: seq<string>)
    ensures FieldValue(QueryFor(cid, paths), "cid") == Some(Letters(cid))
  {
    hide FieldValue, Text, Mimics, FirstMimic;
    var ps := QueryPieces(cid, paths);
    QueryWellFormed(cid, paths);
    LeadsBy(ps, "cid", 0, 1);
    FieldDecoded(ps, "]}", "cid", 1);
  }
}
