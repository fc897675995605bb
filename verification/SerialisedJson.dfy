/** What the four serialisers print, as JSON values: the reply, the command envelope, the query and the mock's answer. */
module SerialisedJson {
  import opened Models
  import opened JsonText
  import opened KeySearch
  import opened CommandText
  import opened BraceScan
  import opened QueryText
  import opened MockDriver

  // ----- printing on, from the back -----

  /** The fields, and then the end. */
  function FieldsThen(fields: seq<Field>, separator: string, end: string): string {
    if fields == [] then end
    else
      InQuotes(separator, Escaped(fields[0].key)) + (":" + (Printed(fields[0].value) + FieldsThen(fields[1..], ",", end)))
  }

  function ItemsThen(items: seq<Json>, separator: string, end: string): string {
    if items == [] then end else separator + (Printed(items[0]) + ItemsThen(items[1..], ",", end))
  }

  lemma FieldGlue(quoted: string, value: string, more: string, end: string)
    ensures (quoted + (":" + (value + more))) + end == quoted + (":" + (value + (more + end)))
  {
  }

  lemma {:induction false} FieldsEnd(fields: seq<Field>, separator: string, end: string)
    ensures PrintedFields(fields, separator) + end == FieldsThen(fields, separator, end)
  {
    hide Escaped, InQuotes;
    if fields == [] {
      assert "" + end == end;
    } else {
      FieldsEnd(fields[1..], ",", end);
      FieldGlue(InQuotes(separator, Escaped(fields[0].key)), Printed(fields[0].value), PrintedFields(fields[1..], ","),
                end);
    }
  }

  lemma Regrouped3(a: string, b: string, c: string, d: string)
    ensures (a + (b + c)) + d == a + (b + (c + d))
  {
  }

  lemma {:induction false} ItemsEnd(items: seq<Json>, separator: string, end: string)
    ensures PrintedItems(items, separator) + end == ItemsThen(items, separator, end)
  {
    if items == [] {
      assert "" + end == end;
    } else {
      ItemsEnd(items[1..], ",", end);
      Regrouped3(separator, Printed(items[0]), PrintedItems(items[1..], ","), end);
    }
  }

  lemma ObjectThen(fields: seq<Field>, more: string)
    ensures Printed(Object(fields)) + more == "{" + FieldsThen(fields, "", "}" + more)
    ensures ":" + (Printed(Object(fields)) + more) == ":{" + FieldsThen(fields, "", "}" + more)
  {
    hide PrintedFields, FieldsThen;
    FieldsEnd(fields, "", "}" + more);
    Regrouped3("{", PrintedFields(fields, ""), "}", more);
    assert ":{" == ":" + "{";
    Assoc(":", "{", FieldsThen(fields, "", "}" + more));
  }

  lemma ListThen(items: seq<Json>, more: string)
    ensures ":" + (Printed(List(items)) + more) == ":[" + ItemsThen(items, "", "]" + more)
  {
    hide PrintedItems, ItemsThen;
    ItemsEnd(items, "", "]" + more);
    Regrouped3("[", PrintedItems(items, ""), "]", more);
    assert ":[" == ":" + "[";
    Assoc(":", "[", ItemsThen(items, "", "]" + more));
  }

  /** What stands in the text from piece i on is the prefix, the fields, and the end. */
  ghost predicate ShowsFields(ps: seq<Piece>, tail: string, i: nat, prefix: string,
                              fields: seq<Field>, separator: string, end: string) {
    i <= |ps| && Rest(Rendered(ps), i, tail) == prefix + FieldsThen(fields, separator, end)
  }

  lemma Prefixed(prefix: string, separator: string, quoted: string, more: string)
    ensures InQuotes(prefix + separator, quoted) + more == prefix + (InQuotes(separator, quoted) + more)
  {
  }

  /** A field whose value stands in the text behind its key. */
  lemma FieldRest(ps: seq<Piece>, tail: string, i: nat, prefix: string,
                  fields: seq<Field>, separator: string, end: string)
    requires i < |ps| && fields != [] && ps[i] == Piece(prefix + separator, fields[0].key)
    requires Rest(Rendered(ps), i + 1, tail) == ":" + (Printed(fields[0].value) + FieldsThen(fields[1..], ",", end))
    ensures ShowsFields(ps, tail, i, prefix, fields, separator, end)
  {
    hide Escaped, InQuotes;
    Prefixed(prefix, separator, Escaped(fields[0].key), Rest(Rendered(ps), i + 1, tail));
  }

  lemma StringRest(ps: seq<Piece>, tail: string, i: nat, prefix: string,
                   fields: seq<Field>, separator: string, end: string)
    requires i + 1 < |ps| && fields != [] && ps[i] == Piece(prefix + separator, fields[0].key)
    requires fields[0].value.Str? && ps[i + 1] == Piece(":", fields[0].value.text)
    requires ShowsFields(ps, tail, i + 2, "", fields[1..], ",", end)
    ensures ShowsFields(ps, tail, i, prefix, fields, separator, end)
  {
    hide Escaped, InQuotes, FieldsThen;
    var more := FieldsThen(fields[1..], ",", end);
    assert "" + more == more && ":" + "" == ":";
    Prefixed(":", "", Escaped(fields[0].value.text), more);
    FieldRest(ps, tail, i, prefix, fields, separator, end);
  }

  /** A value without strings is part of the next piece's punctuation. */
  lemma QuietRest(ps: seq<Piece>, tail: string, i: nat, prefix: string,
                  fields: seq<Field>, separator: string, end: string)
    requires i < |ps| && fields != [] && ps[i] == Piece(prefix + separator, fields[0].key)
    requires ShowsFields(ps, tail, i + 1, ":" + Printed(fields[0].value), fields[1..], ",", end)
    ensures ShowsFields(ps, tail, i, prefix, fields, separator, end)
  {
    hide Escaped, InQuotes, FieldsThen;
    Assoc(":", Printed(fields[0].value), FieldsThen(fields[1..], ",", end));
    FieldRest(ps, tail, i, prefix, fields, separator, end);
  }

  lemma ObjectRest(ps: seq<Piece>, tail: string, i: nat, prefix: string,
                   fields: seq<Field>, separator: string, end: string)
    requires i < |ps| && fields != [] && ps[i] == Piece(prefix + separator, fields[0].key) && fields[0].value.Object?
    requires ShowsFields(ps, tail, i + 1, ":{", fields[0].value.fields, "", "}" + FieldsThen(fields[1..], ",", end))
    ensures ShowsFields(ps, tail, i, prefix, fields, separator, end)
  {
    hide Escaped, InQuotes, FieldsThen;
    ObjectThen(fields[0].value.fields, FieldsThen(fields[1..], ",", end));
    FieldRest(ps, tail, i, prefix, fields, separator, end);
  }

  /** The end itself. */
  lemma EndRest(ps: seq<Piece>, tail: string, prefix: string, end: string)
    requires tail == prefix + end
    ensures ShowsFields(ps, tail, |ps|, prefix, [], ",", end)
  {
  }

  lemma WholeText(ps: seq<Piece>, tail: string, fields: seq<Field>)
    requires ShowsFields(ps, tail, 0, "{", fields, "", "}")
    ensures Text(ps, tail) == Printed(Object(fields))
  {
    hide Escaped, FieldsThen, PrintedFields;
    TextCut(Rendered(ps), 0, tail);
    assert "" + Rest(Rendered(ps), 0, tail) == Rest(Rendered(ps), 0, tail);
    FieldsEnd(fields, "", "}");
  }

  lemma Dropped(fields: seq<Field>, i: nat)
    requires i < |fields|
    ensures fields[i..] != [] && fields[i..][0] == fields[i] && fields[i..][1..] == fields[i + 1..]
    ensures fields[|fields|..] == [] && fields[0..] == fields
  {
  }

  lemma LiteralPrinted(raw: string)
    ensures Printed(Literal(raw)) == raw
  {
  }

  lemma NoPrefix(s: string)
    ensures "" + s == s && s + "" == s
  {
  }

  // ----- the reply -----

  function ReplyFields(r: CommandResult): seq<Field> {
    [Field("code", Literal(Decimal(r.code))), Field("msg", Str(r.msg)), Field("mid", Str(r.mid))]
  }

  /** Every reply is the JSON object of its code, its message and its mid. */
  lemma ReplyIsJson(r: CommandResult)
    ensures Text(ReplyPieces(r), "}") == Printed(Object(ReplyFields(r)))
  {
    hide Text, Rest, FieldsThen, Printed, Decimal, ShowsFields, Escaped;
    var ps, fields := ReplyPieces(r), ReplyFields(r);
    Dropped(fields, 1);
    Dropped(fields, 2);
    NoPrefix(",");
    NoPrefix("{");
    NoPrefix("}");
    LiteralPrinted(Decimal(r.code));
    EndRest(ps, "}", "", "}");
    StringRest(ps, "}", 3, "", fields[2..], ",", "}");
    StringRest(ps, "}", 1, ":" + Decimal(r.code), fields[1..], ",", "}");
    QuietRest(ps, "}", 0, "{", fields, "", "}");
    WholeText(ps, "}", fields);
  }

  // ----- the command envelope -----

  function CommandFields(category: string, deviceName: string): seq<Field> {
    [Field("category", Str(category)),
     Field("params", Object(if deviceName == "" then [] else [Field("device_name", Str(deviceName))]))]
  }

  function EnvelopeFields(category: string, deviceName: string, mid: string): seq<Field> {
    [Field("type", Str("json")), Field("uid", Str("http")), Field("pid", Str("http")),
     Field("cmd", Object(CommandFields(category, deviceName))), Field("mid", Str(mid))]
  }

  lemma EnvelopeRaws(category: string, deviceName: string, mid: string)
    ensures var ps := EnvelopePieces(category, deviceName, mid);
            && |ps| == (if deviceName == "" then 12 else 14)
            && ps[0] == Piece("{", "type") && ps[1] == Piece(":", "json") && ps[2] == Piece(",", "uid")
            && ps[3] == Piece(":", "http") && ps[4] == Piece(",", "pid") && ps[5] == Piece(":", "http")
            && ps[6] == Piece(",", "cmd") && ps[7] == Piece(":{", "category") && ps[8] == Piece(":", category)
            && ps[9] == Piece(",", "params") && ps[|ps| - 1] == Piece(":", mid)
            && (deviceName == "" ==> ps[10] == Piece(":{}},", "mid"))
            && (deviceName != "" ==>
                  && ps[10] == Piece(":{", "device_name") && ps[11] == Piece(":", deviceName)
                  && ps[12] == Piece("}},", "mid"))
  {
  }

  lemma ClosedTwice(more: string)
    ensures "}}" + more == "" + ("}" + ("}" + more)) && ":{}}" + more == ":{" + ("}" + ("}" + more))
  {
  }

  /** The parameters, and the two braces and the mid behind them. */
  lemma ParamsRest(ps: seq<Piece>, params: seq<Field>, name: string, last: seq<Field>, closed: string)
    requires closed == "}" + FieldsThen(last, ",", "}") && |ps| > 10
    requires if params == [] then ShowsFields(ps, "}", 10, ":{}}", last, ",", "}")
             else params == [Field("device_name", Str(name))] && |ps| > 12
                  && ps[10] == Piece(":{", "device_name") && ps[11] == Piece(":", name)
                  && ShowsFields(ps, "}", 12, "}}", last, ",", "}")
    ensures ShowsFields(ps, "}", 10, ":{", params, "", "}" + closed)
  {
    hide Rest, Printed;
    ClosedTwice(FieldsThen(last, ",", "}"));
    if params != [] {
      assert params[1..] == [];
      assert ShowsFields(ps, "}", 12, "", [], ",", "}" + closed);
      NoPrefix(":{");
      StringRest(ps, "}", 10, ":{", params, "", "}" + closed);
    }
  }

  lemma MidRest(ps: seq<Piece>, mid: string, i: nat, prefix: string)
    requires i + 2 == |ps| && ps[i] == Piece(prefix + ",", "mid") && ps[i + 1] == Piece(":", mid)
    ensures ShowsFields(ps, "}", i, prefix, [Field("mid", Str(mid))], ",", "}")
  {
    hide Rest, Printed, FieldsThen, ShowsFields;
    assert [Field("mid", Str(mid))][1..] == [];
    NoPrefix("}");
    EndRest(ps, "}", "", "}");
    StringRest(ps, "}", i, prefix, [Field("mid", Str(mid))], ",", "}");
  }

  lemma NoFields(end: string)
    ensures FieldsThen([], ",", end) == end
  {
  }

  lemma CommandRest(category: string, deviceName: string, mid: string)
    ensures var last := [Field("mid", Str(mid))];
            ShowsFields(EnvelopePieces(category, deviceName, mid), "}", 7, ":{",
                        CommandFields(category, deviceName), "", "}" + FieldsThen(last, ",", "}"))
  {
    hide Rest, Printed, FieldsThen, ShowsFields, EnvelopePieces;
    var ps, fields := EnvelopePieces(category, deviceName, mid), CommandFields(category, deviceName);
    var last := [Field("mid", Str(mid))];
    var closed := "}" + FieldsThen(last, ",", "}");
    EnvelopeRaws(category, deviceName, mid);
    assert ":{}}" + "," == ":{}}," && "}}" + "," == "}},";
    MidRest(ps, mid, |ps| - 2, if deviceName == "" then ":{}}" else "}}");
    ParamsRest(ps, fields[1].value.fields, deviceName, last, closed);
    Dropped(fields, 0);
    Dropped(fields, 1);
    NoPrefix(",");
    NoPrefix(":{");
    NoFields(closed);
    ObjectRest(ps, "}", 9, "", fields[1..], ",", closed);
    StringRest(ps, "}", 7, ":{", fields, "", closed);
  }

  /** Every envelope is the JSON object of its fixed head, its category and parameters, and its mid. */
  lemma EnvelopeIsJson(category: string, deviceName: string, mid: string)
    ensures Text(EnvelopePieces(category, deviceName, mid), "}")
            == Printed(Object(EnvelopeFields(category, deviceName, mid)))
  {
    hide Rest, Text, Printed, FieldsThen, ShowsFields, EnvelopePieces, CommandFields;
    var ps, fields := EnvelopePieces(category, deviceName, mid), EnvelopeFields(category, deviceName, mid);
    EnvelopeRaws(category, deviceName, mid);
    CommandRest(category, deviceName, mid);
    Dropped(fields, 0);
    Dropped(fields, 1);
    Dropped(fields, 2);
    Dropped(fields, 3);
    assert fields[4..] == [Field("mid", Str(mid))];
    NoPrefix(",");
    NoPrefix("{");
    ObjectRest(ps, "}", 6, "", fields[3..], ",", "}");
    StringRest(ps, "}", 4, "", fields[2..], ",", "}");
    StringRest(ps, "}", 2, "", fields[1..], ",", "}");
    StringRest(ps, "}", 0, "{", fields, "", "}");
    WholeText(ps, "}", fields);
  }

  // ----- the query -----

  function Strs(texts: seq<string>): seq<Json> {
    seq(|texts|, i requires 0 <= i < |texts| => Str(texts[i]))
  }

  function QueryFields(cid: string, paths: seq<string>): seq<Field> {
    [Field("cid", Str(cid)), Field("query", List(Strs(paths)))]
  }

  lemma OpenedList(quoted: string, more: string)
    ensures InQuotes(":[", quoted) + more == ":[" + ("" + (InQuotes("", quoted) + more))
    ensures InQuotes(",", quoted) + more == "," + (InQuotes("", quoted) + more)
  {
  }

  lemma PathRaw(cid: string, paths: seq<string>, i: nat)
    requires i < |paths|
    ensures QueryPieces(cid, paths)[i + 3] == Piece(if i == 0 then ":[" else ",", paths[i])
  {
  }

  lemma StrsFrom(paths: seq<string>, i: nat, separator: string, end: string)
    requires i < |paths|
    ensures ItemsThen(Strs(paths[i..]), separator, end)
            == separator + (InQuotes("", Escaped(paths[i])) + ItemsThen(Strs(paths[i + 1..]), ",", end))
  {
    hide Escaped, InQuotes;
    assert Strs(paths[i..])[1..] == Strs(paths[i + 1..]);
  }

  lemma NoItems(end: string)
    ensures ItemsThen(Strs([]), ",", end) == end
  {
  }

  lemma {:induction false} PathsRest(cid: string, paths: seq<string>, i: nat)
    requires i <= |paths| != 0
    ensures Rest(Rendered(QueryPieces(cid, paths)), i + 3, "]}")
            == if i == 0 then ":[" + ItemsThen(Strs(paths), "", "]}") else ItemsThen(Strs(paths[i..]), ",", "]}")
    decreases |paths| - i
  {
    hide Escaped, InQuotes, QueryPieces, ItemsThen, Strs;
    if i == |paths| {
      NoItems("]}");
      assert paths[i..] == [];
    } else {
      PathsRest(cid, paths, i + 1);
      PathRaw(cid, paths, i);
      StrsFrom(paths, i, if i == 0 then "" else ",", "]}");
      assert i == 0 ==> paths[i..] == paths;
      OpenedList(Escaped(paths[i]), Rest(Rendered(QueryPieces(cid, paths)), i + 4, "]}"));
    }
  }

  lemma QueryRaws(cid: string, paths: seq<string>)
    ensures var ps := QueryPieces(cid, paths);
            ps[0] == Piece("{", "cid") && ps[1] == Piece(":", cid) && ps[2] == Piece(",", "query")
  {
  }

  /** Every query is the JSON object of its cid and the list of its paths. */
  lemma QueryIsJson(cid: string, paths: seq<string>)
    requires paths != []
    ensures QueryFor(cid, paths) == Printed(Object(QueryFields(cid, paths)))
  {
    hide Rest, Text, Printed, FieldsThen, ItemsThen, QueryPieces;
    var ps, fields := QueryPieces(cid, paths), QueryFields(cid, paths);
    QueryRaws(cid, paths);
    PathsRest(cid, paths, 0);
    ListThen(Strs(paths), "}");
    assert "]" + "}" == "]}";
    Dropped(fields, 0);
    Dropped(fields, 1);
    NoPrefix(",");
    NoPrefix("{");
    NoFields("}");
    FieldRest(ps, "]}", 2, "", fields[1..], ",", "}");
    StringRest(ps, "]}", 0, "{", fields, "", "}");
    WholeText(ps, "]}", fields);
  }

  // ----- the mock driver's answer -----

  /** The object of one path: its value in a list, the clock twice, and three texts. */
  function ItemFields(path: string, time: string): seq<Field> {
    [Field("value", List([Literal(ValueText(path))])), Field("dev_time", Literal(time)), Field("svr_time", Literal(time)),
     Field("item_path", Str("/DV:mock/CP:mock/DT:" + ItemName(path))), Field("item_description", Str(Description(path))),
     Field("item_name", Str(ItemName(path)))]
  }

  function Entries(paths: seq<string>, time: string): seq<Field> {
    seq(|paths|, i requires 0 <= i < |paths| => Field(paths[i], Object(ItemFields(paths[i], time))))
  }

  function AnswerFields(cid: string, paths: seq<string>, time: string): seq<Field> {
    [Field("cid", Str(cid)), Field("machineConnected", Literal("true")), Field("data", Object(Entries(paths, time)))]
  }

  lemma ValueList(value: string)
    ensures Printed(List([Literal(value)])) == "[" + value + "]"
  {
    assert [Literal(value)][1..] == [];
    assert PrintedItems([Literal(value)], "") == "" + (value + "");
  }

  lemma ItemRaws(path: string, first: bool, time: string)
    ensures ItemPiece(path, first, time, 1) == Piece(":{" + "", "value")
    ensures ItemPiece(path, first, time, 2) == Piece((":" + ("[" + ValueText(path) + "]")) + ",", "dev_time")
    ensures ItemPiece(path, first, time, 3) == Piece((":" + time) + ",", "svr_time")
    ensures ItemPiece(path, first, time, 4) == Piece((":" + time) + ",", "item_path")
    ensures ItemPiece(path, first, time, 5) == Piece(":", MOCK_ITEM + ItemName(path))
    ensures ItemPiece(path, first, time, 6) == Piece("" + ",", "item_description")
    ensures ItemPiece(path, first, time, 7) == Piece(":", Description(path))
    ensures ItemPiece(path, first, time, 8) == Piece("" + ",", "item_name")
    ensures ItemPiece(path, first, time, 9) == Piece(":", ItemName(path))
  {
    hide ItemName, Description, ValueText;
  }

  /** The nine pieces behind a path's key show its fields, if the text goes on with the end. */
  lemma ItemRest(ps: seq<Piece>, tail: string, o: nat, path: string, first: bool, time: string, end: string)
    requires o + 9 <= |ps| && forall j | o <= j < o + 9 :: ps[j] == ItemPiece(path, first, time, j - o + 1)
    requires ShowsFields(ps, tail, o + 9, "", [], ",", end)
    ensures ShowsFields(ps, tail, o, ":{", ItemFields(path, time), "", end)
  {
    hide Rest, Printed, FieldsThen, ShowsFields, ItemName, Description, ValueText, ItemPiece;
    var fields := ItemFields(path, time);
    ItemRaws(path, first, time);
    assert ps[o] == ItemPiece(path, first, time, 1) && ps[o + 1] == ItemPiece(path, first, time, 2);
    assert ps[o + 2] == ItemPiece(path, first, time, 3) && ps[o + 3] == ItemPiece(path, first, time, 4);
    assert ps[o + 4] == ItemPiece(path, first, time, 5) && ps[o + 5] == ItemPiece(path, first, time, 6);
    assert ps[o + 6] == ItemPiece(path, first, time, 7) && ps[o + 7] == ItemPiece(path, first, time, 8);
    assert ps[o + 8] == ItemPiece(path, first, time, 9);
    Dropped(fields, 0);
    Dropped(fields, 1);
    Dropped(fields, 2);
    Dropped(fields, 3);
    Dropped(fields, 4);
    Dropped(fields, 5);
    ValueList(ValueText(path));
    LiteralPrinted(time);
    StringRest(ps, tail, o + 7, "", fields[5..], ",", end);
    StringRest(ps, tail, o + 5, "", fields[4..], ",", end);
    StringRest(ps, tail, o + 3, ":" + time, fields[3..], ",", end);
    QuietRest(ps, tail, o + 2, ":" + time, fields[2..], ",", end);
    QuietRest(ps, tail, o + 1, ":" + ("[" + ValueText(path) + "]"), fields[1..], ",", end);
    QuietRest(ps, tail, o, ":{", fields, "", end);
  }

  lemma KeyRaw(path: string, first: bool, time: string)
    ensures ItemPiece(path, first, time, 0) == Piece((if first then ":{" else "}") + (if first then "" else ","), path)
  {
  }

  lemma EntryRest(cid: string, paths: seq<string>, time: string, i: nat)
    requires i < |paths|
    requires ShowsFields(AnswerPieces(cid, paths, time), "}}}", 14 + 10 * i, "}", Entries(paths[i + 1..], time), ",", "}}")
    ensures ShowsFields(AnswerPieces(cid, paths, time), "}}}", 4 + 10 * i, if i == 0 then ":{" else "}",
                        Entries(paths[i..], time), if i == 0 then "" else ",", "}}")
  {
    hide Rest, Printed, FieldsThen, AnswerPieces, ItemPiece, ItemFields;
    var ps, entries := AnswerPieces(cid, paths, time), Entries(paths[i..], time);
    ItemsAt(cid, paths, time, i);
    assert entries[1..] == Entries(paths[i + 1..], time);
    assert entries[0] == Field(paths[i], Object(ItemFields(paths[i], time)));
    var end := "}" + FieldsThen(entries[1..], ",", "}}");
    NoPrefix(end);
    NoFields(end);
    ItemRest(ps, "}}}", 5 + 10 * i, paths[i], i == 0, time, end);
    KeyRaw(paths[i], i == 0, time);
    ObjectRest(ps, "}}}", 4 + 10 * i, if i == 0 then ":{" else "}", entries, if i == 0 then "" else ",", "}}");
  }

  lemma {:induction false} EntriesRest(cid: string, paths: seq<string>, time: string, i: nat)
    requires i <= |paths| != 0
    ensures ShowsFields(AnswerPieces(cid, paths, time), "}}}", 4 + 10 * i, if i == 0 then ":{" else "}",
                        Entries(paths[i..], time), if i == 0 then "" else ",", "}}")
    decreases |paths| - i
  {
    hide Rest, Printed, FieldsThen, ShowsFields, AnswerPieces, ItemFields;
    if i == |paths| {
      assert Entries(paths[i..], time) == [] && "}}}" == "}" + "}}";
      EndRest(AnswerPieces(cid, paths, time), "}}}", "}", "}}");
    } else {
      EntriesRest(cid, paths, time, i + 1);
      EntryRest(cid, paths, time, i);
    }
  }

  lemma AnswerRaws(cid: string, paths: seq<string>, time: string)
    ensures var ps := AnswerPieces(cid, paths, time);
            && ps[0] == Piece("{", "cid") && ps[1] == Piece(":", cid) && ps[2] == Piece(",", "machineConnected")
            && ps[3] == Piece(":true,", "data")
  {
  }

  lemma AnswerHead(cid: string, paths: seq<string>, time: string, tail: string)
    requires ShowsFields(AnswerPieces(cid, paths, time), tail, 4, ":{", Entries(paths, time), "", "}" + "}")
    ensures Text(AnswerPieces(cid, paths, time), tail) == Printed(Object(AnswerFields(cid, paths, time)))
  {
    hide Rest, Text, Printed, FieldsThen, ShowsFields, AnswerPieces, Entries;
    var ps, fields := AnswerPieces(cid, paths, time), AnswerFields(cid, paths, time);
    AnswerRaws(cid, paths, time);
    Dropped(fields, 0);
    Dropped(fields, 1);
    Dropped(fields, 2);
    NoPrefix(",");
    NoPrefix("{");
    NoFields("}");
    LiteralPrinted("true");
    assert (":" + "true") + "," == ":true,";
    ObjectRest(ps, tail, 3, ":" + "true", fields[2..], ",", "}");
    QuietRest(ps, tail, 2, "", fields[1..], ",", "}");
    StringRest(ps, tail, 0, "{", fields, "", "}");
    WholeText(ps, tail, fields);
  }

  lemma NoEntries(cid: string, time: string)
    ensures ShowsFields(AnswerPieces(cid, [], time), ":{}}", 4, ":{", Entries([], time), "", "}}")
  {
    assert Entries([], time) == [] && ":{" + "}}" == ":{}}";
  }

  /** Every answer of the mock is the JSON object of the cid, the connection and one entry per path. */
  lemma AnswerIsJson(message: string, time: string)
    ensures Answer(message, time) == Printed(Object(AnswerFields(EchoedCid(message), QueryPaths(message), time)))
  {
    hide Rest, Text, Printed, AnswerPieces, EchoedCid, QueryPaths, Entries;
    var cid, paths := EchoedCid(message), QueryPaths(message);
    assert "}" + "}" == "}}";
    if paths == [] {
      NoEntries(cid, time);
    } else {
      EntriesRest(cid, paths, time, 0);
      assert paths[0..] == paths;
    }
    AnswerHead(cid, paths, time, AnswerTail(paths));
  }
}
