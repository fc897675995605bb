/** The mock driver's answer to a query, as text. The clock's reading is a parameter. */
module MockDriver {
  import opened Models
  import opened Strings
  import opened JsonText
  import opened KeySearch
  import opened FieldText
  import opened CommandText
  import opened QueryText
  import opened NumberText

  const MOCK_ITEM := "/DV:mock/CP:mock/DT:"

  // ----- what is said about a path -----

  function ItemName(path: string): string {
    var slash := FindLastChar(path, '/');
    if slash == NPOS || slash + 1 >= |path| then path else path[slash + 1..]
  }

  /** The value as std::to_string prints it. */
  function ValueText(path: string): string {
    if Contains(path, "pressure") then "1.200000"
    else if Contains(path, "temperature") then "2.000000"
    else "0.000000"
  }

  function Description(path: string): string {
    if Contains(path, "pressure") then "压力"
    else if Contains(path, "temperature") then "温度"
    else ItemName(path)
  }

  // ----- reading the query -----

  /** Like ReadString, but an unclosed literal is read to the end of the text. */
  function ReadOpen(text: string, value: string, escaped: bool): string
    decreases |text|
  {
    if text == "" then value
    else if escaped then ReadOpen(text[1..], value + [text[0]], false)
    else if text[0] == '\\' then ReadOpen(text[1..], value, true)
    else if text[0] == '"' then value
    else ReadOpen(text[1..], value + [text[0]], false)
  }

  function OpenStringField(json: string, field: string): string {
    var keyPos := Find(json, Quoted(field), 0);
    var colon := if keyPos == NPOS then NPOS else FindChar(json, ':', keyPos + |Quoted(field)|);
    var quote := if colon == NPOS then NPOS else FindChar(json, '"', colon + 1);
    if quote == NPOS then "" else ReadOpen(json[quote + 1..], "", false)
  }

  method ExtractStringField(json: string, fieldName: string) returns (value: string)
    ensures value == OpenStringField(json, fieldName)
  {
    hide Find, FindChar;
    value := "";
    var key := "\"" + fieldName + "\"";
    var keyPos := Find(json, key, 0);
    var colonPos := if keyPos == NPOS then NPOS else FindChar(json, ':', keyPos + |key|);
    var quotePos := if colonPos == NPOS then NPOS else FindChar(json, '"', colonPos + 1);
    if quotePos == NPOS {
      return;
    }
    var escaped := false;
    var pos := quotePos + 1;
    while pos < |json|
      invariant quotePos < pos <= |json|
      invariant ReadOpen(json[pos..], value, escaped) == ReadOpen(json[quotePos + 1..], "", false)
      decreases |json| - pos
    {
      var ch := json[pos];
      assert json[pos..][0] == ch && json[pos..][1..] == json[pos + 1..];
      pos := pos + 1;
      if escaped {
        value := value + [ch];
        escaped := false;
        continue;
      }
      if ch == '\\' {
        escaped := true;
        continue;
      }
      if ch == '"' {
        return;
      }
      value := value + [ch];
    }
  }

  lemma {:induction false} ReadOpenClosed(text: string, value: string, escaped: bool)
    ensures ReadString(text, value, escaped).Some?
            ==> ReadOpen(text, value, escaped) == ReadString(text, value, escaped).value
    decreases |text|
  {
    if text == "" {
    } else {
      ReadOpenClosed(text[1..], value, true);
      ReadOpenClosed(text[1..], value + [text[0]], false);
    }
  }

  lemma FindQuote(json: string, colon: nat)
    requires colon < |json| && json[colon] == ':'
    ensures FindChar(json, '"', colon + 1) == FindChar(json, '"', colon)
  {
  }

  /** The two readers differ only on literals that are not closed. */
  lemma OpenFieldClosed(json: string, field: string)
    ensures FieldValue(json, field).Some? ==> OpenStringField(json, field) == FieldValue(json, field).value
  {
    hide Find, FindChar, ReadString, ReadOpen;
    if FieldValue(json, field).Some? {
      var from := Find(json, Quoted(field), 0) + |Quoted(field)|;
      var colon := FindChar(json, ':', from);
      FindQuote(json, colon);
      ReadOpenClosed(json[FindChar(json, '"', colon) + 1..], "", false);
    }
  }

  // ----- the answer -----

  function ItemPiece(path: string, first: bool, time: string, f: nat): Piece {
    if f == 0 then Piece(if first then ":{" else "},", path)
    else if f == 1 then Piece(":{", "value")
    else if f == 2 then Piece(":[" + ValueText(path) + "],", "dev_time")
    else if f == 3 then Piece(":" + (time + ","), "svr_time")
    else if f == 4 then Piece(":" + (time + ","), "item_path")
    else if f == 5 then Piece(":", MOCK_ITEM + ItemName(path))
    else if f == 6 then Piece(",", "item_description")
    else if f == 7 then Piece(":", Description(path))
    else if f == 8 then Piece(",", "item_name")
    else Piece(":", ItemName(path))
  }

  function AnswerPiece(cid: string, paths: seq<string>, time: string, k: nat): Piece
    requires k < 4 + 10 * |paths|
  {
    if k == 0 then Piece("{", "cid")
    else if k == 1 then Piece(":", cid)
    else if k == 2 then Piece(",", "machineConnected")
    else if k == 3 then Piece(":true,", "data")
    else ItemPiece(paths[(k - 4) / 10], k < 14, time, (k - 4) % 10)
  }

  /** {"cid":"cid","machineConnected":true,"data":{"path":{"value":[v],...},...}} */
  function AnswerPieces(cid: string, paths: seq<string>, time: string): (ps: seq<Piece>)
    ensures |ps| == 4 + 10 * |paths|
  {
    seq(4 + 10 * |paths|, k requires 0 <= k < 4 + 10 * |paths| => AnswerPiece(cid, paths, time, k))
  }

  function AnswerTail(paths: seq<string>): string {
    if paths == [] then ":{}}" else "}}}"
  }

  /** The cid that is echoed. */
  function EchoedCid(message: string): string {
    var cid := OpenStringField(message, "cid");
    if cid == "" then "mock-cid" else cid
  }

  function Answer(message: string, time: string): string {
    var paths := QueryPaths(message);
    Text(AnswerPieces(EchoedCid(message), paths, time), AnswerTail(paths))
  }

  lemma ItemsAt(cid: string, paths: seq<string>, time: string, i: nat)
    requires i < |paths|
    ensures forall j | 4 + 10 * i <= j < 14 + 10 * i ::
              AnswerPieces(cid, paths, time)[j] == ItemPiece(paths[i], i == 0, time, j - (4 + 10 * i))
  {
    hide ItemPiece;
  }

  lemma MockItemEscaped(name: string)
    ensures Escaped(MOCK_ITEM + name) == MOCK_ITEM + Escaped(name) && Plain(MOCK_ITEM)
  {
    hide Plain, Escaped;
    BarePlain(MOCK_ITEM);
    EscapedAppend(MOCK_ITEM, name);
    EscapedPlain(MOCK_ITEM);
  }

  lemma AnswerWords()
    ensures Plain("cid") && Plain("machineConnected") && Plain("data") && Plain("value") && Plain("dev_time")
    ensures Plain("svr_time") && Plain("item_path") && Plain("item_description") && Plain("item_name")
  {
    hide Plain;
    WordPlain("cid");
    WordPlain("machineConnected");
    WordPlain("data");
    WordPlain("value");
    WordPlain("dev_time");
    WordPlain("svr_time");
    WordPlain("item_path");
    WordPlain("item_description");
    WordPlain("item_name");
  }

  /** One path's object, up to its closing brace. */
  method PutItem(before: string, path: string, first: bool, timestamp: string, ghost ps: seq<Piece>, ghost k: nat)
    returns (text: string)
    requires k + 10 <= |ps| && before == TextTo(Rendered(ps), k)
    requires forall j | k <= j < k + 10 :: ps[j] == ItemPiece(path, first, timestamp, j - k)
    ensures text == TextTo(Rendered(ps), k + 10)
  {
    hide TextTo, Rendered, InQuotes, Plain, Escaped, Description, ItemName, ValueText;
    AnswerWords();
    var name := EscapeJson(ItemName(path));
    var p := EscapeJson(path);
    text := before + InQuotes(if first then ":{" else "},", p);
    TextStep(ps, k + 1);
    text := text + InQuotes(":{", "value");
    KeyStep(ps, k + 2);
    text := text + InQuotes(":[" + ValueText(path) + "],", "dev_time");
    KeyStep(ps, k + 3);
    text := text + InQuotes(":" + (timestamp + ","), "svr_time");
    KeyStep(ps, k + 4);
    text := text + InQuotes(":" + (timestamp + ","), "item_path");
    KeyStep(ps, k + 5);
    text := text + InQuotes(":", MOCK_ITEM + name);
    MockItemEscaped(ItemName(path));
    TextStep(ps, k + 6);
    text := text + InQuotes(",", "item_description");
    KeyStep(ps, k + 7);
    var description := EscapeJson(Description(path));
    text := text + InQuotes(":", description);
    TextStep(ps, k + 8);
    text := text + InQuotes(",", "item_name");
    KeyStep(ps, k + 9);
    text := text + InQuotes(":", name);
    TextStep(ps, k + 10);
  }

  method HandleQuery(message: string, timestamp: string) returns (response: string)
    ensures response == Answer(message, timestamp)
  {
    hide TextTo, Rendered, InQuotes, Plain, Escaped, QueryPaths, OpenStringField, ItemPiece;
    var cid := ExtractStringField(message, "cid");
    if cid == "" {
      cid := "mock-cid";
    }
    var paths := ExtractQueryPaths(message);
    ghost var ps := AnswerPieces(cid, paths, timestamp);
    AnswerWords();
    response := InQuotes("{", "cid");
    KeyStep(ps, 1);
    var c := EscapeJson(cid);
    response := response + InQuotes(":", c);
    TextStep(ps, 2);
    response := response + InQuotes(",", "machineConnected");
    KeyStep(ps, 3);
    response := response + InQuotes(":true,", "data");
    KeyStep(ps, 4);
    var first := true;
    for i := 0 to |paths|
      invariant first == (i == 0)
      invariant response == TextTo(Rendered(ps), 4 + 10 * i)
    {
      ItemsAt(cid, paths, timestamp, i);
      response := PutItem(response, paths[i], first, timestamp, ps, 4 + 10 * i);
      first := false;
    }
    response := response + if first then ":{}}" else "}}}";
  }

  // ----- what the answer says about a path -----

  lemma Holds(a: string, b: string, pattern: string)
    ensures Contains(a + (pattern + b), pattern)
  {
    var text := a + (pattern + b);
    assert text[|a|..|a| + |pattern|] == pattern;
    assert OccursAt(text, pattern, |a|);
  }

  lemma PaddedStep(n: nat, places: nat)
    requires places > 0
    ensures Padded(n, places) == Padded(n / 10, places - 1) + [DIGITS[n % 10]] && Padded(n, 0) == ""
  {
  }

  lemma Zeros()
    ensures Padded(0, 6) == "000000"
  {
    hide Padded;
    PaddedStep(0, 1);
    PaddedStep(0, 2);
    PaddedStep(0, 3);
    PaddedStep(0, 4);
    PaddedStep(0, 5);
    PaddedStep(0, 6);
  }

  lemma TwoZeros()
    ensures Padded(200000, 6) == "200000"
  {
    hide Padded;
    PaddedStep(2, 1);
    PaddedStep(20, 2);
    PaddedStep(200, 3);
    PaddedStep(2000, 4);
    PaddedStep(20000, 5);
    PaddedStep(200000, 6);
  }

  lemma ValueDigits()
    ensures TimeDigits(1200000) == "1.200000" && TimeDigits(2000000) == "2.000000" && TimeDigits(0) == "0.000000"
  {
    hide Padded;
    Zeros();
    TwoZeros();
  }

  lemma ValuesRead()
    ensures Stod("1.200000") == Some(1.2) && Stod("2.000000") == Some(2.0) && Stod("0.000000") == Some(0.0)
  {
    hide Stod, TimeDigits, InRange;
    ValueDigits();
    Millionths(1200000);
    Millionths(2000000);
    Millionths(0);
    TimeRead(1200000);
    TimeRead(2000000);
    TimeRead(0);
  }

  /** A path that speaks of pressure is told 1.2 and the word for pressure; likewise 2.0 for temperature. */
  lemma MockSays(path: string, a: string, b: string)
    ensures path == a + ("pressure" + b) ==> Stod(ValueText(path)) == Some(1.2) && Description(path) == "压力"
    ensures (path == a + ("temperature" + b) && !Contains(path, "pressure")) ==>
              Stod(ValueText(path)) == Some(2.0) && Description(path) == "温度"
    ensures !Contains(path, "pressure") && !Contains(path, "temperature") ==>
              Stod(ValueText(path)) == Some(0.0) && Description(path) == ItemName(path)
  {
    hide Stod, Contains;
    ValuesRead();
    Holds(a, b, "pressure");
    Holds(a, b, "temperature");
  }

  /** The item's name is what stands after the last slash; without a slash, or with nothing behind it, the whole path. */
  lemma NameOfPath(front: string, name: string)
    requires '/' !in name
    ensures ItemName(front + "/" + name) == if name == "" then front + "/" else name
    ensures ItemName(name) == name
  {
    hide FindLastChar;
    var path := front + "/" + name;
    assert path[|front|] == '/' && forall i | |front| < i < |path| :: path[i] == name[i - |front| - 1];
    assert FindLastChar(path, '/') == |front|;
    assert path[|front| + 1..] == name;
    assert FindLastChar(name, '/') == NPOS;
  }

  /** Without a query key, or an array behind it, the list is empty, and an empty cid is answered with the mock's own. */
  lemma SilentQuery(message: string)
    ensures (Find(message, Quoted("query"), 0) == NPOS || '[' !in message) ==> QueryPaths(message) == []
    ensures Find(message, Quoted("cid"), 0) == NPOS ==> EchoedCid(message) == "mock-cid"
  {
    hide Find;
    assert forall i | 0 <= i < |message| :: message[i] in message;
  }
}
