/** Reading the DataItem entries out of a model file, line by line. */
module ModelParser {
  import opened Models
  import opened Strings

  const EMPTY_POINT := DataPoint(0, 0, "", "", "", "", "")
  const ITEM_INDENT: nat := 8

  function Indent(line: string): nat {
    if line != "" && line[0] == ' ' then 1 + Indent(line[1..]) else 0
  }

  function ValueAfterColon(line: string): string {
    var pos := FindChar(line, ':', 0);
    if pos == NPOS then ""
    else
      var value := Trim(line[pos + 1..], BLANKS);
      if |value| >= 2 && value[0] == '\'' && value[|value| - 1] == '\'' then value[1..|value| - 1] else value
  }

  /** std::getline until the end of the text; a final newline does not start another line. */
  function Lines(text: string): seq<string> {
    if text == "" then []
    else if text[0] == '\n' then [""] + Lines(text[1..])
    else
      var rest := Lines(text[1..]);
      if rest == [] then [[text[0]]] else [[text[0]] + rest[0]] + rest[1..]
  }

  datatype Scan = Scan(
    points: seq<DataPoint>,
    component: string,
    current: DataPoint,
    inDataItem: bool,
    hasCurrent: bool)

  const START := Scan([], "", EMPTY_POINT, false, false)

  function NamePath(component: string, item: string): string {
    "/" + component + "/" + item
  }

  function ItemPath(device: Device, component: string, item: string): string {
    "/DV:" + device.name + "/CP:" + component + "/DT:" + item
  }

  function NewItem(device: Device, component: string, name: string): DataPoint {
    EMPTY_POINT.(itemName := name, namePath := NamePath(component, name), itemPath := ItemPath(device, component, name))
  }

  function Completed(device: Device, component: string, p: DataPoint): DataPoint {
    p.(deviceId := device.id, deviceName := device.name,
       namePath := if p.namePath == "" then NamePath(component, p.itemName) else p.namePath,
       itemPath := if p.itemPath == "" then ItemPath(device, component, p.itemName) else p.itemPath)
  }

  function Flush(device: Device, s: Scan): Scan {
    if !s.hasCurrent || s.current.itemName == "" then s
    else s.(points := s.points + [Completed(device, s.component, s.current)], current := EMPTY_POINT, hasCurrent := false)
  }

  predicate IsName(stripped: string) { "- Name:" <= stripped }

  predicate IsPath(stripped: string) {
    "NamePath:" <= stripped || "namePath:" <= stripped || "Path:" <= stripped || "path:" <= stripped
  }

  predicate IsDescription(stripped: string) { "Description:" <= stripped }

  /** A "- Name:" line opens an item inside a DataItem list, and a component elsewhere. */
  function ReadName(device: Device, s: Scan, name: string, indent: nat): Scan {
    var flushed := Flush(device, s);
    if s.inDataItem && indent >= ITEM_INDENT
    then flushed.(hasCurrent := true, current := NewItem(device, s.component, name))
    else flushed.(component := name, inDataItem := false)
  }

  function ReadDetail(p: DataPoint, stripped: string): DataPoint {
    if IsDescription(stripped) then p.(itemDescription := ValueAfterColon(stripped))
    else if IsPath(stripped) then p.(namePath := ValueAfterColon(stripped))
    else p
  }

  function ReadLine(device: Device, s: Scan, line: string): Scan {
    var stripped := Trim(line, BLANKS);
    if stripped == "" then s
    else if stripped == "DataItem:" then s.(inDataItem := true)
    else if IsName(stripped) then ReadName(device, s, ValueAfterColon(stripped), Indent(line))
    else if !s.hasCurrent then s
    else s.(current := ReadDetail(s.current, stripped))
  }

  function ReadLines(device: Device, s: Scan, lines: seq<string>): Scan
    decreases |lines|
  {
    if lines == [] then s else ReadLines(device, ReadLine(device, s, lines[0]), lines[1..])
  }

  function Parse(device: Device, text: string): seq<DataPoint> {
    Flush(device, ReadLines(device, START, Lines(text))).points
  }

  // ----- the loops -----

  method IndentOf(line: string) returns (indent: nat)
    ensures indent == Indent(line)
  {
    indent := 0;
    while indent < |line| && line[indent] == ' '
      invariant indent <= |line| && Indent(line) == indent + Indent(line[indent..])
    {
      indent := indent + 1;
      assert line[indent - 1..][1..] == line[indent..];
    }
  }

  method FlushPoint(device: Device, s: Scan) returns (flushed: Scan)
    ensures flushed == Flush(device, s)
  {
    if !s.hasCurrent || s.current.itemName == "" {
      return s;
    }
    var point := s.current.(deviceId := device.id, deviceName := device.name);
    if point.namePath == "" {
      point := point.(namePath := NamePath(s.component, point.itemName));
    }
    if point.itemPath == "" {
      point := point.(itemPath := ItemPath(device, s.component, point.itemName));
    }
    flushed := s.(points := s.points + [point], current := EMPTY_POINT, hasCurrent := false);
  }

  method ParseDataItems(device: Device, modelText: string) returns (points: seq<DataPoint>)
    ensures points == Parse(device, modelText)
  {
    var s := START;
    var rest := Lines(modelText);
    while rest != []
      invariant ReadLines(device, START, Lines(modelText))
                == ReadLines(device, s, rest)
      decreases |rest|
    {
      var line := rest[0];
      rest := rest[1..];
      var stripped := Trim(line, BLANKS);
      if stripped == "" {
        continue;
      }
      var indent := IndentOf(line);
      if stripped == "DataItem:" {
        s := s.(inDataItem := true);
        continue;
      }
      if IsName(stripped) {
        var name := ValueAfterColon(stripped);
        s := FlushPoint(device, s);
        if s.inDataItem && indent >= ITEM_INDENT {
          s := s.(current := NewItem(device, s.component, name), hasCurrent := true);
        } else {
          s := s.(component := name, inDataItem := false);
        }
        continue;
      }
      if !s.hasCurrent {
        continue;
      }
      if IsDescription(stripped) {
        s := s.(current := s.current.(itemDescription := ValueAfterColon(stripped)));
      } else if IsPath(stripped) {
        s := s.(current := s.current.(namePath := ValueAfterColon(stripped)));
      }
    }
    s := FlushPoint(device, s);
    points := s.points;
  }

  // ----- every point is usable -----

  predicate Complete(device: Device, p: DataPoint) {
    p.itemName != "" && p.namePath != "" && p.itemPath != "" && p.deviceName == device.name && p.deviceId == device.id
  }

  lemma FlushComplete(device: Device, s: Scan)
    requires forall p | p in s.points :: Complete(device, p)
    ensures forall p | p in Flush(device, s).points :: Complete(device, p)
  {
    assert |NamePath(s.component, s.current.itemName)| > 0 && |ItemPath(device, s.component, s.current.itemName)| > 0;
  }

  lemma {:induction false} ReadLinesComplete(device: Device, s: Scan, lines: seq<string>)
    requires forall p | p in s.points :: Complete(device, p)
    ensures forall p | p in Flush(device, ReadLines(device, s, lines)).points :: Complete(device, p)
    decreases |lines|
  {
    if lines != [] {
      FlushComplete(device, s);
      assert ReadLine(device, s, lines[0]).points == s.points
             || ReadLine(device, s, lines[0]).points == Flush(device, s).points;
      ReadLinesComplete(device, ReadLine(device, s, lines[0]), lines[1..]);
    } else {
      FlushComplete(device, s);
    }
  }

  lemma EveryPointComplete(device: Device, text: string)
    ensures forall p | p in Parse(device, text) :: Complete(device, p)
  {
    ReadLinesComplete(device, START, Lines(text));
  }

  // ----- one text after another -----

  predicate Alive(s: Scan) { s.hasCurrent && s.current.itemName != "" }

  /** s is t with some more points in front; items without a name make no difference. */
  ghost predicate Extends(s: Scan, t: Scan, prefix: seq<DataPoint>) {
    && s.points == prefix + t.points && s.component == t.component && s.inDataItem == t.inDataItem
    && Alive(s) == Alive(t) && (Alive(s) ==> s.current == t.current)
  }

  lemma FlushKeepsExtends(device: Device, s: Scan, t: Scan, prefix: seq<DataPoint>)
    requires Extends(s, t, prefix)
    ensures Extends(Flush(device, s), Flush(device, t), prefix)
  {
  }

  lemma ReadNameKeepsExtends(device: Device, s: Scan, t: Scan, prefix: seq<DataPoint>, name: string, indent: nat)
    requires Extends(s, t, prefix)
    ensures Extends(ReadName(device, s, name, indent), ReadName(device, t, name, indent), prefix)
  {
    FlushKeepsExtends(device, s, t, prefix);
  }

  lemma ReadLineKeepsExtends(device: Device, s: Scan, t: Scan, prefix: seq<DataPoint>, line: string)
    requires Extends(s, t, prefix)
    ensures Extends(ReadLine(device, s, line), ReadLine(device, t, line), prefix)
  {
    var stripped := Trim(line, BLANKS);
    ReadNameKeepsExtends(device, s, t, prefix, ValueAfterColon(stripped), Indent(line));
    assert forall p :: ReadDetail(p, stripped).itemName == p.itemName;
  }

  lemma {:induction false} ReadLinesKeepsExtends(device: Device, s: Scan, t: Scan, prefix: seq<DataPoint>,
                                                 lines: seq<string>)
    requires Extends(s, t, prefix)
    ensures Extends(ReadLines(device, s, lines), ReadLines(device, t, lines), prefix)
    decreases |lines|
  {
    if lines == [] {
    } else {
      ReadLineKeepsExtends(device, s, t, prefix, lines[0]);
      ReadLinesKeepsExtends(device, ReadLine(device, s, lines[0]), ReadLine(device, t, lines[0]), prefix, lines[1..]);
    }
  }

  lemma {:induction false} ReadLinesAppend(device: Device, s: Scan, a: seq<string>, b: seq<string>)
    ensures ReadLines(device, s, a + b) == ReadLines(device, ReadLines(device, s, a), b)
    decreases |a|
  {
    if a == [] {
      assert a + b == b;
    } else {
      assert (a + b)[1..] == a[1..] + b;
      ReadLinesAppend(device, ReadLine(device, s, a[0]), a[1..], b);
    }
  }

  predicate NewlineTerminated(text: string) {
    text == "" || text[|text| - 1] == '\n'
  }

  lemma {:induction false} LinesAppend(a: string, b: string)
    requires NewlineTerminated(a)
    ensures Lines(a + b) == Lines(a) + Lines(b)
    ensures a != "" ==> Lines(a) != []
  {
    if a == "" {
      assert a + b == b;
    } else {
      assert (a + b)[1..] == a[1..] + b;
      assert a[1..] == "" ==> a[0] == '\n';
      LinesAppend(a[1..], b);
    }
  }

  predicate ComponentLine(line: string) {
    IsName(Trim(line, BLANKS)) && Indent(line) < ITEM_INDENT
  }

  lemma ComponentLineExtends(device: Device, s: Scan, line: string)
    requires ComponentLine(line)
    ensures Extends(ReadLine(device, s, line), ReadLine(device, START, line), Flush(device, s).points)
  {
    assert Trim(line, BLANKS)[0] == '-';
  }

  /** A text that begins a component is parsed the same after any complete text. */
  lemma ParseAppend(device: Device, a: string, b: string)
    requires NewlineTerminated(a) && Lines(b) != [] && ComponentLine(Lines(b)[0])
    ensures Parse(device, a + b) == Parse(device, a) + Parse(device, b)
  {
    var s := ReadLines(device, START, Lines(a));
    var line, rest := Lines(b)[0], Lines(b)[1..];
    var s1, t1 := ReadLine(device, s, line), ReadLine(device, START, line);
    LinesAppend(a, b);
    ReadLinesAppend(device, START, Lines(a), Lines(b));
    ComponentLineExtends(device, s, line);
    ReadLinesKeepsExtends(device, s1, t1, Parse(device, a), rest);
    FlushKeepsExtends(device, ReadLines(device, s1, rest), ReadLines(device, t1, rest), Parse(device, a));
  }

  // ----- how a point depends on its device -----

  /** What a point says, apart from the row and the device it is stored under. */
  datatype Shape = Shape(namePath: string, itemPath: string, itemName: string, itemDescription: string)

  function ShapeOf(p: DataPoint): Shape {
    Shape(p.namePath, p.itemPath, p.itemName, p.itemDescription)
  }

  function Shapes(points: seq<DataPoint>): seq<Shape> {
    seq(|points|, i requires 0 <= i < |points| => ShapeOf(points[i]))
  }

  /** The shapes of a text for a device of this name. */
  function ParsedShapes(name: string, text: string): seq<Shape> {
    Shapes(Parse(Device(0, name, "", 0, 0, 0, "", "", ""), text))
  }

  /** x and y say the same, except that x's item path starts with device a and y's with device b. */
  predicate SameBut(a: string, b: string, x: Shape, y: Shape) {
    && x.namePath == y.namePath && x.itemName == y.itemName && x.itemDescription == y.itemDescription
    && |x.itemPath| >= 4 + |a| && x.itemPath[..4 + |a|] == "/DV:" + a
    && y.itemPath == "/DV:" + b + x.itemPath[4 + |a|..]
  }

  predicate SamePoints(a: string, b: string, ps: seq<DataPoint>, qs: seq<DataPoint>) {
    |ps| == |qs| && forall i | 0 <= i < |ps| :: SameBut(a, b, ShapeOf(ps[i]), ShapeOf(qs[i]))
  }

  predicate Alike(a: string, b: string, s: Scan, t: Scan) {
    && SamePoints(a, b, s.points, t.points) && s.component == t.component && s.inDataItem == t.inDataItem
    && s.hasCurrent == t.hasCurrent && (s.hasCurrent ==> SameBut(a, b, ShapeOf(s.current), ShapeOf(t.current)))
  }

  lemma NewItemsAlike(d: Device, e: Device, component: string, name: string)
    ensures SameBut(d.name, e.name, ShapeOf(NewItem(d, component, name)), ShapeOf(NewItem(e, component, name)))
  {
    var tail := "/CP:" + component + "/DT:" + name;
    assert ItemPath(d, component, name) == "/DV:" + d.name + tail;
    assert ItemPath(e, component, name) == "/DV:" + e.name + tail;
  }

  lemma FlushAlike(d: Device, e: Device, s: Scan, t: Scan)
    requires Alike(d.name, e.name, s, t)
    ensures Alike(d.name, e.name, Flush(d, s), Flush(e, t))
  {
    if Alive(s) {
      assert SameBut(d.name, e.name, ShapeOf(s.current), ShapeOf(t.current));
      assert |s.current.itemPath| > 0 && |t.current.itemPath| > 0;
    }
  }

  lemma FlushedPlace(d: Device, s: Scan)
    ensures Flush(d, s).component == s.component && Flush(d, s).inDataItem == s.inDataItem
  {
  }

  lemma ReadNameAlike(d: Device, e: Device, s: Scan, t: Scan, name: string, indent: nat)
    requires Alike(d.name, e.name, s, t)
    ensures Alike(d.name, e.name, ReadName(d, s, name, indent), ReadName(e, t, name, indent))
  {
    hide SameBut, NewItem, Flush;
    FlushAlike(d, e, s, t);
    NewItemsAlike(d, e, Flush(d, s).component, name);
    FlushedPlace(d, s);
    FlushedPlace(e, t);
  }

  lemma ReadLineAlike(d: Device, e: Device, s: Scan, t: Scan, line: string)
    requires Alike(d.name, e.name, s, t)
    ensures Alike(d.name, e.name, ReadLine(d, s, line), ReadLine(e, t, line))
  {
    hide ReadName, Trim, ValueAfterColon, Indent, SamePoints;
    var stripped := Trim(line, BLANKS);
    if IsName(stripped) {
      ReadNameAlike(d, e, s, t, ValueAfterColon(stripped), Indent(line));
    }
  }

  lemma {:induction false} ReadLinesAlike(d: Device, e: Device, s: Scan, t: Scan, lines: seq<string>)
    requires Alike(d.name, e.name, s, t)
    ensures Alike(d.name, e.name, ReadLines(d, s, lines), ReadLines(e, t, lines))
    decreases |lines|
  {
    hide Alike, ReadLine;
    if lines == [] {
    } else {
      ReadLineAlike(d, e, s, t, lines[0]);
      ReadLinesAlike(d, e, ReadLine(d, s, lines[0]), ReadLine(e, t, lines[0]), lines[1..]);
    }
  }

  /** A text gives every device the same points, but for the device's name in front of each item path. */
  lemma ParseNamesDevice(d: Device, e: Device, text: string)
    ensures SamePoints(d.name, e.name, Parse(d, text), Parse(e, text))
  {
    hide ReadLines, Flush, Lines;
    ReadLinesAlike(d, e, START, START, Lines(text));
    FlushAlike(d, e, ReadLines(d, START, Lines(text)), ReadLines(e, START, Lines(text)));
  }

  lemma SameName(a: string, x: Shape, y: Shape)
    requires SameBut(a, a, x, y)
    ensures x == y
  {
    assert x.itemPath == x.itemPath[..4 + |a|] + x.itemPath[4 + |a|..];
  }

  lemma ParsedShapesOf(d: Device, text: string)
    ensures Shapes(Parse(d, text)) == ParsedShapes(d.name, text)
  {
    hide Parse, SameBut;
    var e := Device(0, d.name, "", 0, 0, 0, "", "", "");
    ParseNamesDevice(d, e, text);
    forall i | 0 <= i < |Parse(d, text)| ensures ShapeOf(Parse(d, text)[i]) == ShapeOf(Parse(e, text)[i]) {
      SameName(d.name, ShapeOf(Parse(d, text)[i]), ShapeOf(Parse(e, text)[i]));
    }
  }

  /** The shapes for two names, compared. */
  lemma ShapesByName(a: string, b: string, text: string)
    ensures |ParsedShapes(a, text)| == |ParsedShapes(b, text)|
    ensures forall i | 0 <= i < |ParsedShapes(a, text)| :: SameBut(a, b, ParsedShapes(a, text)[i], ParsedShapes(b, text)[i])
  {
    hide Parse, SameBut;
    ParseNamesDevice(Device(0, a, "", 0, 0, 0, "", "", ""), Device(0, b, "", 0, 0, 0, "", "", ""), text);
  }

  lemma NameInPath(a: string, b: string, x: Shape)
    requires SameBut(a, b, x, x)
    ensures a == b
  {
    var tail := x.itemPath[4 + |a|..];
    assert |x.itemPath| == 4 + |b| + |tail|;
    assert a == x.itemPath[..4 + |a|][4..] && b == x.itemPath[..4 + |b|][4..];
  }

  /** A model with items looks the same for two devices only if they have the same name. */
  lemma ShapesShowName(a: string, b: string, text: string)
    requires ParsedShapes(a, text) != []
    ensures ParsedShapes(a, text) == ParsedShapes(b, text) <==> a == b
  {
    hide ParsedShapes, SameBut;
    ShapesByName(a, b, text);
    if ParsedShapes(a, text) == ParsedShapes(b, text) {
      NameInPath(a, b, ParsedShapes(a, text)[0]);
    }
  }

  lemma SameShapeOther(a: string, b: string, x: Shape, y: Shape, x': Shape, y': Shape)
    requires SameBut(a, b, x, x') && SameBut(a, b, y, y')
    ensures x == y <==> x' == y'
  {
    if x' == y' {
      var u, v := x.itemPath[4 + |a|..], y.itemPath[4 + |a|..];
      assert |u| == |v| && u == x'.itemPath[4 + |b|..] && v == y'.itemPath[4 + |b|..];
      assert x.itemPath == x.itemPath[..4 + |a|] + u && y.itemPath == y.itemPath[..4 + |a|] + v;
    }
  }

  /** Whether two texts define the same model does not depend on the device. */
  lemma SameModelAnyName(a: string, b: string, t: string, u: string)
    ensures ParsedShapes(a, t) == ParsedShapes(a, u) <==> ParsedShapes(b, t) == ParsedShapes(b, u)
  {
    hide ParsedShapes, SameBut;
    var at, au, bt, bu := ParsedShapes(a, t), ParsedShapes(a, u), ParsedShapes(b, t), ParsedShapes(b, u);
    ShapesByName(a, b, t);
    ShapesByName(a, b, u);
    if |at| == |au| {
      forall i | 0 <= i < |at| ensures at[i] == au[i] <==> bt[i] == bu[i] {
        SameShapeOther(a, b, at[i], au[i], bt[i], bu[i]);
      }
    }
  }

  // ----- printing and parsing a model -----

  /** A value as it stands in the file, with or without single quotes around it. */
  datatype Value = Value(text: string, quoted: bool) {
    function Shown(): string {
      if quoted then "'" + text + "'" else text
    }
  }

  /** A line of an item; of several paths or descriptions the last one counts. */
  datatype Detail = Other(line: string) | Path(key: string, value: Value) | Description(value: Value)

  datatype Item = Item(indent: nat, name: Value, details: seq<Detail>)
  datatype Component = Component(indent: nat, name: Value, head: seq<string>, items: seq<Item>)

  predicate PlainValue(s: string) {
    && Trimmed(s, BLANKS) && '\n' !in s
    && !(|s| >= 2 && s[0] == '\'' && s[|s| - 1] == '\'')
  }

  predicate PrintableValue(v: Value) {
    '\n' !in v.text && (v.quoted || PlainValue(v.text))
  }

  /** A line such as Type:, Unit: or StdName:, which the parser passes over. */
  predicate Neutral(line: string) {
    var stripped := Trim(line, BLANKS);
    '\n' !in line && stripped != "DataItem:" && !IsName(stripped) && !IsDescription(stripped) && !IsPath(stripped)
  }

  /** Lines outside of items, such as the device's own name and description. */
  predicate HeaderLine(line: string) {
    '\n' !in line && Trim(line, BLANKS) != "DataItem:" && !IsName(Trim(line, BLANKS))
  }

  predicate PrintableDetail(d: Detail) {
    match d
    case Other(line) => Neutral(line)
    case Path(key, value) =>
      (key == "NamePath:" || key == "namePath:" || key == "Path:" || key == "path:") && PrintableValue(value)
    case Description(value) => PrintableValue(value)
  }

  predicate PrintableItem(item: Item) {
    && item.indent >= 8 && item.name.text != "" && PrintableValue(item.name)
    && forall d | d in item.details :: PrintableDetail(d)
  }

  predicate Printable(c: Component) {
    && c.indent < 8 && PrintableValue(c.name)
    && (forall line | line in c.head :: HeaderLine(line)) && (forall item | item in c.items :: PrintableItem(item))
  }

  function Spaces(n: nat): (spaces: string)
    ensures |spaces| == n && forall i | 0 <= i < n :: spaces[i] == ' '
  {
    seq(n, i => ' ')
  }

  function DetailLine(d: Detail): string {
    match d
    case Other(line) => line
    case Path(key, value) => "          " + key + " " + value.Shown()
    case Description(value) => "          " + "Description:" + " " + value.Shown()
  }

  function DetailLines(details: seq<Detail>): seq<string> {
    seq(|details|, i requires 0 <= i < |details| => DetailLine(details[i]))
  }

  function ItemLines(item: Item): seq<string> {
    [Spaces(item.indent) + "- Name:" + " " + item.name.Shown()] + DetailLines(item.details)
  }

  function ItemsLines(items: seq<Item>): seq<string> {
    if items == [] then [] else ItemLines(items[0]) + ItemsLines(items[1..])
  }

  function HeadLines(c: Component): seq<string> {
    [Spaces(c.indent) + "- Name:" + " " + c.name.Shown()] + c.head + ["      DataItem:"]
  }

  function ComponentLines(c: Component): seq<string> {
    HeadLines(c) + ItemsLines(c.items)
  }

  function ModelLines(components: seq<Component>): seq<string> {
    if components == [] then [] else ComponentLines(components[0]) + ModelLines(components[1..])
  }

  /** The text of the last such line; "" when there is none. */
  function LastPath(details: seq<Detail>): string {
    if details == [] then ""
    else
      var last := details[|details| - 1];
      if last.Path? then last.value.text else LastPath(details[..|details| - 1])
  }

  function LastDescription(details: seq<Detail>): string {
    if details == [] then ""
    else
      var last := details[|details| - 1];
      if last.Description? then last.value.text else LastDescription(details[..|details| - 1])
  }

  function PointOf(device: Device, component: string, item: Item): DataPoint {
    var name, path := item.name.text, LastPath(item.details);
    DataPoint(0, device.id, device.name, if path == "" then "/" + component + "/" + name else path,
              "/DV:" + device.name + "/CP:" + component + "/DT:" + name, name, LastDescription(item.details))
  }

  function PointsIn(device: Device, component: string, items: seq<Item>): seq<DataPoint> {
    seq(|items|, i requires 0 <= i < |items| => PointOf(device, component, items[i]))
  }

  function PointsOf(device: Device, components: seq<Component>): seq<DataPoint> {
    if components == [] then []
    else
      PointsIn(device, components[0].name.text, components[0].items) + PointsOf(device, components[1..])
  }

  function Join(lines: seq<string>): string {
    if lines == [] then "" else lines[0] + ("\n" + Join(lines[1..]))
  }

  lemma {:induction false} LinesStep(line: string, rest: string)
    requires '\n' !in line
    ensures Lines(line + ("\n" + rest)) == [line] + Lines(rest)
  {
    var text := line + ("\n" + rest);
    if line == "" {
      assert text == "\n" + rest && text[1..] == rest;
    } else {
      assert text[1..] == line[1..] + ("\n" + rest);
      LinesStep(line[1..], rest);
      assert line == [line[0]] + line[1..];
    }
  }

  lemma {:induction false} LinesOfJoin(lines: seq<string>)
    requires forall line | line in lines :: '\n' !in line
    ensures Lines(Join(lines)) == lines
  {
    if lines == [] {
    } else {
      assert lines[0] in lines;
      LinesOfJoin(lines[1..]);
      LinesStep(lines[0], Join(lines[1..]));
    }
  }

  lemma {:induction false} IndentSpaces(n: nat, line: string)
    requires n < |line| && (forall i | 0 <= i < n :: line[i] == ' ') && line[n] != ' '
    ensures Indent(line) == n
  {
    if n == 0 {
    } else {
      IndentSpaces(n - 1, line[1..]);
    }
  }

  predicate Key(key: string) {
    |key| >= 2 && key[0] !in BLANKS && key[|key| - 1] == ':' && ':' !in key[..|key| - 1]
  }

  function Keyed(key: string, value: string): string {
    if value == "" then key else key + " " + value
  }

  lemma ValueUnquoted(v: Value)
    requires PrintableValue(v)
    ensures Trimmed(v.Shown(), BLANKS)
    ensures var value := v.Shown();
            |value| >= 2 && value[0] == '\'' && value[|value| - 1] == '\'' ==> value[1..|value| - 1] == v.text
    ensures var value := v.Shown();
            !(|value| >= 2 && value[0] == '\'' && value[|value| - 1] == '\'') ==> value == v.text
  {
    if v.quoted { assert v.Shown()[1..|v.Shown()| - 1] == v.text; }
  }

  lemma KeyedValue(key: string, v: Value)
    requires Key(key) && PrintableValue(v)
    ensures key <= Keyed(key, v.Shown()) && ValueAfterColon(Keyed(key, v.Shown())) == v.text
  {
    hide PrintableValue;
    var value := v.Shown();
    var stripped := Keyed(key, value);
    assert forall i | 0 <= i < |key| - 1 :: stripped[i] == key[..|key| - 1][i];
    assert stripped[|key| - 1] == key[|key| - 1];
    assert FindChar(stripped, ':', 0) == |key| - 1;
    ValueUnquoted(v);
    if value == "" {
      assert stripped[|key|..] == "" + "" + "";
      TrimMargins("", "", "", BLANKS);
    } else {
      assert stripped[|key|..] == " " + value + "";
      TrimMargins(" ", value, "", BLANKS);
    }
  }

  lemma KeyedTrim(spaces: string, key: string, value: string)
    requires (forall i | 0 <= i < |spaces| :: spaces[i] == ' ') && Key(key) && Trimmed(value, BLANKS)
    ensures Trim(spaces + key + " " + value, BLANKS) == Keyed(key, value)
  {
    var line, stripped := spaces + key + " " + value, Keyed(key, value);
    assert stripped[0] == key[0];
    if value == "" {
      assert line == spaces + key + " ";
      TrimMargins(spaces, key, " ", BLANKS);
    } else {
      assert stripped[|stripped| - 1] == value[|value| - 1];
      assert line == spaces + stripped + "";
      TrimMargins(spaces, stripped, "", BLANKS);
    }
  }

  /** What the parser sees of a line "<spaces><key>: <value>". */
  lemma KeyedLine(spaces: string, key: string, v: Value)
    requires (forall i | 0 <= i < |spaces| :: spaces[i] == ' ') && Key(key) && PrintableValue(v)
    ensures var line := spaces + key + " " + v.Shown();
            && key <= Trim(line, BLANKS) && ValueAfterColon(Trim(line, BLANKS)) == v.text && Indent(line) == |spaces|
  {
    hide PrintableValue, ValueAfterColon;
    var line := spaces + key + " " + v.Shown();
    ValueUnquoted(v);
    KeyedTrim(spaces, key, v.Shown());
    KeyedValue(key, v);
    assert line[|spaces|] == key[0];
    IndentSpaces(|spaces|, line);
  }

  lemma ReadOne(device: Device, s: Scan, line: string)
    ensures ReadLines(device, s, [line]) == ReadLine(device, s, line)
  {
    assert [line][1..] == [];
  }

  lemma ReadTwoParts(device: Device, s: Scan, a: seq<string>, line: string, t: Scan)
    requires ReadLines(device, s, a) == t
    ensures ReadLines(device, s, a + [line]) == ReadLine(device, t, line)
  {
    ReadLinesAppend(device, s, a, [line]);
    ReadOne(device, t, line);
  }

  lemma NameLine(device: Device, s: Scan, indent: nat, name: Value)
    requires PrintableValue(name)
    ensures ReadLine(device, s, Spaces(indent) + "- Name:" + " " + name.Shown())
            == if s.inDataItem && indent >= 8
               then Flush(device, s).(hasCurrent := true, current := NewItem(device, s.component, name.text))
               else Flush(device, s).(component := name.text, inDataItem := false)
  {
    hide Spaces, PrintableValue;
    KeyedLine(Spaces(indent), "- Name:", name);
  }

  function WithDetail(p: DataPoint, d: Detail): DataPoint {
    match d
    case Other(_) => p
    case Path(_, value) => p.(namePath := value.text)
    case Description(value) => p.(itemDescription := value.text)
  }

  lemma PathRead(device: Device, s: Scan, key: string, value: Value)
    requires PrintableDetail(Path(key, value)) && s.hasCurrent
    ensures ReadLine(device, s, "          " + key + " " + value.Shown())
            == s.(current := s.current.(namePath := value.text))
  {
    hide PrintableValue, Trim, ValueAfterColon, Indent;
    KeyedLine("          ", key, value);
    var stripped := Trim("          " + key + " " + value.Shown(), BLANKS);
    assert stripped[0] == key[0] && stripped[|key| - 1] == ':' && |key| <= |stripped|;
  }

  lemma DescriptionRead(device: Device, s: Scan, value: Value)
    requires PrintableValue(value) && s.hasCurrent
    ensures ReadLine(device, s, "          " + "Description:" + " " + value.Shown())
            == s.(current := s.current.(itemDescription := value.text))
  {
    hide PrintableValue, Trim, ValueAfterColon, Indent;
    KeyedLine("          ", "Description:", value);
  }

  lemma DetailRead(device: Device, s: Scan, d: Detail)
    requires PrintableDetail(d) && s.hasCurrent
    ensures ReadLine(device, s, DetailLine(d)) == s.(current := WithDetail(s.current, d))
  {
    hide PrintableValue, Trim, ValueAfterColon, Indent;
    match d
    case Other(_) =>
    case Path(key, value) => PathRead(device, s, key, value);
    case Description(value) => DescriptionRead(device, s, value);
  }

  function WithDetails(p: DataPoint, details: seq<Detail>): DataPoint {
    if details == [] then p else WithDetail(WithDetails(p, details[..|details| - 1]), details[|details| - 1])
  }

  lemma {:induction false} DetailsRead(device: Device, s: Scan, details: seq<Detail>)
    requires (forall d | d in details :: PrintableDetail(d)) && s.hasCurrent
    ensures ReadLines(device, s, DetailLines(details)) == s.(current := WithDetails(s.current, details))
    decreases |details|
  {
    hide ReadLine, PrintableDetail, WithDetail, DetailLine;
    if details == [] {
    } else {
      var n := |details| - 1;
      assert details[n] in details && details == details[..n] + [details[n]];
      DetailsRead(device, s, details[..n]);
      var t := s.(current := WithDetails(s.current, details[..n]));
      DetailRead(device, t, details[n]);
      assert DetailLines(details) == DetailLines(details[..n]) + [DetailLine(details[n])];
      ReadTwoParts(device, s, DetailLines(details[..n]), DetailLine(details[n]), t);
    }
  }

  /** Only the last path and the last description are left. */
  lemma {:induction false} LastDetails(p: DataPoint, details: seq<Detail>)
    ensures var q := WithDetails(p, details);
            && q.itemName == p.itemName && q.itemPath == p.itemPath && q.id == p.id
            && (p.itemDescription == "" ==> q.itemDescription == LastDescription(details))
            && (q.namePath == LastPath(details) || (q.namePath == p.namePath && LastPath(details) == ""))
  {
    if details == [] {
    } else {
      LastDetails(p, details[..|details| - 1]);
    }
  }

  function WithItem(device: Device, s: Scan, item: Item): Scan {
    Flush(device, s).(hasCurrent := true,
                      current := WithDetails(NewItem(device, s.component, item.name.text), item.details))
  }

  function WithItems(device: Device, s: Scan, items: seq<Item>): Scan
    decreases |items|
  {
    if items == [] then s else WithItems(device, WithItem(device, s, items[0]), items[1..])
  }

  lemma ReadItem(device: Device, s: Scan, item: Item)
    requires PrintableItem(item) && s.inDataItem
    ensures ReadLines(device, s, ItemLines(item)) == WithItem(device, s, item)
  {
    hide ReadLine, ReadLines, PrintableDetail, PrintableValue, NewItem, WithDetails, DetailLines;
    var first := Spaces(item.indent) + "- Name:" + " " + item.name.Shown();
    var s1 := ReadLine(device, s, first);
    NameLine(device, s, item.indent, item.name);
    ReadOne(device, s, first);
    ReadLinesAppend(device, s, [first], DetailLines(item.details));
    DetailsRead(device, s1, item.details);
  }

  lemma {:induction false} ReadItems(device: Device, s: Scan, items: seq<Item>)
    requires (forall item | item in items :: PrintableItem(item)) && s.inDataItem
    ensures ReadLines(device, s, ItemsLines(items)) == WithItems(device, s, items)
    decreases |items|
  {
    if items == [] {
    } else {
      assert items[0] in items;
      ReadItem(device, s, items[0]);
      ReadLinesAppend(device, s, ItemLines(items[0]), ItemsLines(items[1..]));
      ReadItems(device, WithItem(device, s, items[0]), items[1..]);
    }
  }

  /** The columns that no line sets. */
  lemma {:induction false} DetailsKeepRow(p: DataPoint, details: seq<Detail>)
    ensures var q := WithDetails(p, details); q.deviceId == p.deviceId && q.deviceName == p.deviceName
  {
    if details == [] {
    } else {
      DetailsKeepRow(p, details[..|details| - 1]);
    }
  }

  lemma FlushItem(device: Device, s: Scan, item: Item)
    requires PrintableItem(item)
    ensures Alive(WithItem(device, s, item)) && WithItem(device, s, item).component == s.component
    ensures Flush(device, WithItem(device, s, item)).points
            == Flush(device, s).points + [PointOf(device, s.component, item)]
  {
    hide WithDetails, LastPath, LastDescription, PrintableDetail, PrintableValue;
    var blank := NewItem(device, s.component, item.name.text);
    LastDetails(blank, item.details);
    assert |NamePath(s.component, item.name.text)| > 0 && |ItemPath(device, s.component, item.name.text)| > 0;
    assert Completed(device, s.component, WithDetails(blank, item.details)) == PointOf(device, s.component, item) by {
      DetailsKeepRow(blank, item.details);
    }
  }

  lemma PointsInCons(device: Device, component: string, items: seq<Item>)
    requires items != []
    ensures PointsIn(device, component, items)
            == [PointOf(device, component, items[0])] + PointsIn(device, component, items[1..])
  {
    hide PointOf;
  }

  lemma {:induction false} FlushItems(device: Device, s: Scan, items: seq<Item>)
    requires (forall item | item in items :: PrintableItem(item)) && (s.hasCurrent ==> Alive(s))
    ensures var t := WithItems(device, s, items);
            && (t.hasCurrent ==> Alive(t))
            && Flush(device, t).points == Flush(device, s).points + PointsIn(device, s.component, items)
    decreases |items|
  {
    hide Flush, PrintableItem, PointOf, WithItem;
    if items == [] {
      assert Flush(device, s).points + [] == Flush(device, s).points;
    } else {
      assert items[0] in items;
      FlushItem(device, s, items[0]);
      FlushItems(device, WithItem(device, s, items[0]), items[1..]);
      PointsInCons(device, s.component, items);
    }
  }

  lemma {:induction false} ReadHeader(device: Device, s: Scan, header: seq<string>)
    requires (forall line | line in header :: HeaderLine(line)) && !s.hasCurrent
    ensures ReadLines(device, s, header) == s
    decreases |header|
  {
    if header == [] {
    } else {
      assert header[0] in header;
      ReadHeader(device, s, header[1..]);
    }
  }

  lemma DataItemLine(device: Device, s: Scan)
    ensures ReadLine(device, s, "      DataItem:") == s.(inDataItem := true)
  {
    assert "      DataItem:" == "      " + "DataItem:" + "";
    TrimMargins("      ", "DataItem:", "", BLANKS);
  }

  lemma ReadHead(device: Device, s: Scan, c: Component)
    requires Printable(c) && (s.hasCurrent ==> Alive(s))
    ensures ReadLines(device, s, HeadLines(c)) == Flush(device, s).(component := c.name.text, inDataItem := true)
  {
    hide ReadLine, ReadLines, PrintableItem, PrintableValue, HeaderLine;
    var first := Spaces(c.indent) + "- Name:" + " " + c.name.Shown();
    var s1 := Flush(device, s).(component := c.name.text, inDataItem := false);
    NameLine(device, s, c.indent, c.name);
    ReadOne(device, s, first);
    ReadLinesAppend(device, s, [first], c.head);
    ReadHeader(device, s1, c.head);
    DataItemLine(device, s1);
    ReadTwoParts(device, s, [first] + c.head, "      DataItem:", s1);
  }

  function WithComponent(device: Device, s: Scan, c: Component): Scan {
    WithItems(device, Flush(device, s).(component := c.name.text, inDataItem := true), c.items)
  }

  function WithComponents(device: Device, s: Scan, components: seq<Component>): Scan
    decreases |components|
  {
    if components == [] then s else WithComponents(device, WithComponent(device, s, components[0]), components[1..])
  }

  lemma ReadComponent(device: Device, s: Scan, c: Component)
    requires Printable(c) && (s.hasCurrent ==> Alive(s))
    ensures ReadLines(device, s, ComponentLines(c)) == WithComponent(device, s, c)
  {
    ReadHead(device, s, c);
    ReadLinesAppend(device, s, HeadLines(c), ItemsLines(c.items));
    ReadItems(device, Flush(device, s).(component := c.name.text, inDataItem := true), c.items);
  }

  lemma FlushComponent(device: Device, s: Scan, c: Component)
    requires Printable(c) && (s.hasCurrent ==> Alive(s))
    ensures var t := WithComponent(device, s, c);
            && (t.hasCurrent ==> Alive(t))
            && Flush(device, t).points == Flush(device, s).points + PointsIn(device, c.name.text, c.items)
  {
    FlushItems(device, Flush(device, s).(component := c.name.text, inDataItem := true), c.items);
  }

  lemma {:induction false} ReadComponents(device: Device, s: Scan, components: seq<Component>)
    requires (forall c | c in components :: Printable(c)) && (s.hasCurrent ==> Alive(s))
    ensures ReadLines(device, s, ModelLines(components)) == WithComponents(device, s, components)
    decreases |components|
  {
    if components == [] {
    } else {
      var c := components[0];
      assert c in components;
      ReadComponent(device, s, c);
      FlushComponent(device, s, c);
      ReadLinesAppend(device, s, ComponentLines(c), ModelLines(components[1..]));
      ReadComponents(device, WithComponent(device, s, c), components[1..]);
    }
  }

  lemma {:induction false} FlushComponents(device: Device, s: Scan, components: seq<Component>)
    requires (forall c | c in components :: Printable(c)) && (s.hasCurrent ==> Alive(s))
    ensures Flush(device, WithComponents(device, s, components)).points
            == Flush(device, s).points + PointsOf(device, components)
    decreases |components|
  {
    if components == [] {
    } else {
      assert components[0] in components;
      FlushComponent(device, s, components[0]);
      FlushComponents(device, WithComponent(device, s, components[0]), components[1..]);
    }
  }

  lemma ShownPlain(front: string, v: Value)
    requires PrintableValue(v) && '\n' !in front
    ensures '\n' !in front + v.Shown()
  {
    hide Trimmed;
  }

  lemma DetailPlain(d: Detail)
    requires PrintableDetail(d)
    ensures '\n' !in DetailLine(d)
  {
    hide IsName, IsPath, IsDescription, Trim, PrintableValue;
    match d
    case Other(_) =>
    case Path(key, value) => ShownPlain("          " + key + " ", value);
    case Description(value) => ShownPlain("          " + "Description:" + " ", value);
  }

  lemma ItemLinesPlain(item: Item)
    requires PrintableItem(item)
    ensures forall line | line in ItemLines(item) :: '\n' !in line
  {
    hide PrintableDetail, DetailLine, PrintableValue;
    var details := item.details;
    ShownPlain(Spaces(item.indent) + "- Name:" + " ", item.name);
    forall i | 0 <= i < |details| ensures '\n' !in DetailLine(details[i]) {
      assert details[i] in details;
      DetailPlain(details[i]);
    }
  }

  lemma {:induction false} ItemsLinesPlain(items: seq<Item>)
    requires forall item | item in items :: PrintableItem(item)
    ensures forall line | line in ItemsLines(items) :: '\n' !in line
  {
    hide PrintableItem, ItemLines;
    if items == [] {
    } else {
      assert items[0] in items;
      ItemLinesPlain(items[0]);
      ItemsLinesPlain(items[1..]);
    }
  }

  lemma ComponentLinesPlain(c: Component)
    requires Printable(c)
    ensures forall line | line in ComponentLines(c) :: '\n' !in line
  {
    hide PrintableItem, PrintableValue, ItemsLines;
    ShownPlain(Spaces(c.indent) + "- Name:" + " ", c.name);
    ItemsLinesPlain(c.items);
  }

  lemma {:induction false} ModelLinesPlain(components: seq<Component>)
    requires forall c | c in components :: Printable(c)
    ensures forall line | line in ModelLines(components) :: '\n' !in line
  {
    hide Printable, ComponentLines;
    if components == [] {
    } else {
      assert components[0] in components;
      ComponentLinesPlain(components[0]);
      ModelLinesPlain(components[1..]);
    }
  }

  /**
    A printed model parses back to one point per item, in order, under its component: with its unquoted name, its last
    description, and its last path if it gives one. Whatever a component says about itself goes nowhere.
   */
  lemma PrintedModelParses(device: Device, header: seq<string>, components: seq<Component>)
    requires (forall line | line in header :: HeaderLine(line)) && forall c | c in components :: Printable(c)
    ensures Parse(device, Join(header + ModelLines(components))) == PointsOf(device, components)
  {
    var lines := header + ModelLines(components);
    ModelLinesPlain(components);
    LinesOfJoin(lines);
    ReadLinesAppend(device, START, header, ModelLines(components));
    ReadHeader(device, START, header);
    ReadComponents(device, START, components);
    FlushComponents(device, START, components);
  }
}
