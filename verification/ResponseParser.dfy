/** The collector's reading of a driver's answer. */
module ResponseParser {
  import opened Models
  import opened Strings
  import opened JsonText
  import opened KeySearch
  import opened FieldText
  import opened BraceScan
  import opened NumberText

  /** One collected value as it is found in the text; a time of None is a time that is not there. */
  datatype Reading = Reading(
    deviceName: string,
    namePath: string,
    data: string,
    devTime: Option<string>,
    svrTime: Option<string>,
    itemPath: string,
    itemName: string,
    itemDescription: string)

  const NUMBER: set<char> := NUMERIC + {'.', 'e', 'E', '+'}

  function ArrayAfter(text: string, from: nat): string {
    var start := FindChar(text, '[', from);
    var end := if start == NPOS then NPOS else FindChar(text, ']', start);
    if end == NPOS then "" else text[start..end + 1]
  }

  function ArrayField(text: string, field: string): string {
    var keyPos := Find(text, Quoted(field), 0);
    if keyPos == NPOS then "" else ArrayAfter(text, keyPos + |Quoted(field)|)
  }

  /** Whether true follows the next colon. */
  function TrueAfter(text: string, from: nat): bool {
    var colon := FindChar(text, ':', from);
    var start := if colon == NPOS then NPOS else FindNotIn(text, BLANKS, colon + 1);
    start != NPOS && OccursAt(text, "true", start)
  }

  function BoolField(text: string, field: string): bool {
    var keyPos := Find(text, Quoted(field), 0);
    keyPos != NPOS && TrueAfter(text, keyPos + |Quoted(field)|)
  }

  function OrElse(value: string, default: string): string {
    if value == "" then default else value
  }

  function ReadingOf(deviceName: string, point: DataPoint, found: string): Reading {
    Reading(
      deviceName,
      point.namePath,
      ArrayField(found, "value"),
      NumberField(found, "dev_time", NUMBER),
      NumberField(found, "svr_time", NUMBER),
      OrElse(StringField(found, "item_path"), point.itemPath),
      OrElse(StringField(found, "item_name"), point.itemName),
      OrElse(StringField(found, "item_description"), point.itemDescription))
  }

  /** A point whose object is missing, or holds no value array, gives no reading. */
  function Readings(deviceName: string, points: seq<DataPoint>, text: string): seq<Reading> {
    if points == [] then []
    else
      var n := |points| - 1;
      var found := ObjectFor(text, points[n].namePath);
      var reading := ReadingOf(deviceName, points[n], found);
      Readings(deviceName, points[..n], text) + if found == "" || reading.data == "" then [] else [reading]
  }

  /** A time that is missing, or that std::stod refuses, becomes the collector's own clock. */
  function TimeOf(text: Option<string>, fallback: real): real {
    match text
    case Some(number) => Stod(number).GetOr(fallback)
    case None => fallback
  }

  function RecordOf(r: Reading, fallback: real): ResourceRecord {
    ResourceRecord(r.deviceName, r.namePath, r.data, TimeOf(r.devTime, fallback), TimeOf(r.svrTime, fallback),
                   r.itemPath, r.itemName, r.itemDescription)
  }

  function Records(readings: seq<Reading>, fallback: real): seq<ResourceRecord> {
    seq(|readings|, i requires 0 <= i < |readings| => RecordOf(readings[i], fallback))
  }

  /** None is the exception thrown when nothing was read. */
  function Processed(deviceName: string, points: seq<DataPoint>, text: string, fallback: real)
    : Option<seq<ResourceRecord>>
  {
    var readings := Readings(deviceName, points, text);
    if readings == [] then None else Some(Records(readings, fallback))
  }

  method ProcessResponse(deviceName: string, points: seq<DataPoint>, text: string, fallbackTime: real)
    returns (records: Option<seq<ResourceRecord>>)
    ensures records == Processed(deviceName, points, text, fallbackTime)
  {
    hide ObjectFor, ReadingOf, RecordOf;
    var collected := [];
    for i := 0 to |points|
      invariant collected == Records(Readings(deviceName, points[..i], text), fallbackTime)
    {
      assert points[..i + 1][..i] == points[..i];
      var found := ExtractObjectForPath(text, points[i].namePath);
      if found == "" {
        continue;
      }
      var reading := ReadingOf(deviceName, points[i], found);
      if reading.data != "" {
        collected := collected + [RecordOf(reading, fallbackTime)];
      }
    }
    assert points[..|points|] == points;
    records := if collected == [] then None else Some(collected);
  }

  lemma ArrayAfterCut(a: string, b: string)
    ensures ArrayAfter(a + b, |a|) == ArrayAfter(b, 0)
  {
    hide FindChar;
    FindCharShift(a, b, '[', 0);
    var start := FindChar(b, '[', 0);
    if start != NPOS {
      FindCharShift(a, b, ']', start);
      var end := FindChar(b, ']', start);
      assert end != NPOS ==> (a + b)[|a| + start..|a| + end + 1] == b[start..end + 1];
    }
  }

  lemma ArrayBetween(before: string, inside: string, rest: string)
    requires '[' !in before && ']' !in inside && '[' !in inside
    ensures ArrayAfter(before + ("[" + (inside + ("]" + rest))), 0) == "[" + inside + "]"
  {
    hide FindChar;
    var b := "[" + (inside + ("]" + rest));
    FindCharHere(before, '[', inside + ("]" + rest));
    FindCharShift(before, b, ']', 0);
    FindCharHere("[" + inside, ']', rest);
    assert b == ("[" + inside) + ("]" + rest);
    assert (before + b)[|before|..|before| + |inside| + 2] == "[" + inside + "]";
  }

  lemma ArrayOfPiece(p: Piece, rest: string, inside: string, next: string)
    requires p.raw == ":[" + (inside + ("]" + next)) && ']' !in inside && '[' !in inside
    ensures ArrayAfter(PieceText(p) + rest, 0) == "[" + inside + "]"
  {
    hide ArrayAfter, Escaped;
    var quoted := InQuotes("", Escaped(p.str)) + rest;
    assert PieceText(p) == p.raw + InQuotes("", Escaped(p.str));
    Assoc(p.raw, InQuotes("", Escaped(p.str)), rest);
    Regrouped(":[", inside, "]" + next, quoted);
    Assoc("]", next, quoted);
    assert ":[" + (inside + ("]" + (next + quoted))) == ":" + ("[" + (inside + ("]" + (next + quoted))));
    ArrayBetween(":", inside, next + quoted);
  }

  /** The array decoder on any printed text whose key is followed by an array of numbers. */
  lemma ArrayDecoded(ps: seq<Piece>, tail: string, key: string, i: nat, inside: string, next: string)
    requires WellFormed(ps) && KeyOk(key) && '"' !in tail && i + 1 < |ps| && FirstMimic(ps, key, 0) == i
    requires ps[i + 1].raw == ":[" + (inside + ("]" + next)) && ']' !in inside && '[' !in inside
    ensures ArrayField(Text(ps, tail), key) == "[" + inside + "]"
  {
    hide FirstMimic, ArrayAfter, TextTo, Text, InQuotes, WellFormed, KeyOk;
    SearchEnds(ps, tail, key, i);
    TextAfter(ps, tail, i);
    var rest := Rest(Rendered(ps), i + 2, tail);
    ArrayAfterCut(TextTo(Rendered(ps), i + 1), PieceText(ps[i + 1]) + rest);
    ArrayOfPiece(ps[i + 1], rest, inside, next);
  }

  lemma TrueAfterCut(a: string, b: string)
    ensures TrueAfter(a + b, |a|) == TrueAfter(b, 0)
  {
    hide FindChar, FindNotIn;
    FindCharShift(a, b, ':', 0);
    var colon := FindChar(b, ':', 0);
    if colon != NPOS {
      FindNotInShift(a, b, BLANKS, colon + 1);
      var start := FindNotIn(b, BLANKS, colon + 1);
      if start != NPOS { assert forall i | 0 <= i < |b| :: (a + b)[|a| + i] == b[i]; }
    }
  }

  lemma TrueHere(x: string, rest: string)
    requires ':' !in x
    ensures TrueAfter(x + (":true" + rest), 0)
  {
    hide FindChar;
    var text := x + (":true" + rest);
    assert ":true" + rest == [':'] + ("true" + rest);
    FindCharHere(x, ':', "true" + rest);
    assert text[|x| + 1] == 't' && text[|x| + 2] == 'r' && text[|x| + 3] == 'u' && text[|x| + 4] == 'e';
  }

  lemma BoolDecoded(ps: seq<Piece>, tail: string, key: string, i: nat)
    requires WellFormed(ps) && KeyOk(key) && '"' !in tail && i < |ps| && FirstMimic(ps, key, 0) == i
    ensures BoolField(Text(ps, tail), key) == TrueAfter(Text(ps, tail), End(ps, i))
  {
    hide TrueAfter, Text, FirstMimic, WellFormed, KeyOk;
    SearchEnds(ps, tail, key, i);
  }
}
